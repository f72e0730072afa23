/**
 * The exercises page: the loaded exercises grouped by muscle group ("Other"
 * for none), the groups shown in key order, one card expanded at a time, the
 * create form with its guard and reset, and the archive action behind a
 * confirmation.
 */
module ExercisesPage {
  import opened Wrappers
  import opened Text
  import opened Js
  import opened Models
  import opened Order
  import opened Tables
  import opened Display
  import Exercises

  const OtherGroup := "Other"

  /** `ex.muscle_group || 'Other'`: a null or empty muscle group falls into "Other". */
  function GroupKey(ex: Exercise): (k: string)
    ensures k != ""
    ensures TruthyText(ex.muscleGroup) ==> k == ex.muscleGroup.value
    ensures !TruthyText(ex.muscleGroup) ==> k == OtherGroup
  {
    if TruthyText(ex.muscleGroup) then ex.muscleGroup.value else OtherGroup
  }

  function InGroup(key: string): Exercise -> bool {
    (ex: Exercise) => GroupKey(ex) == key
  }

  /** A group's members: the exercises with that key, in list order. */
  function Members(exs: seq<Exercise>, key: string): seq<Exercise> {
    Filter(exs, InGroup(key))
  }

  /** The group keys in order of first appearance, each once. */
  function KeysOf(exs: seq<Exercise>): (ks: seq<string>)
    ensures forall k :: k in ks <==> exists j :: 0 <= j < |exs| && GroupKey(exs[j]) == k
    ensures forall i, j :: 0 <= i < j < |ks| ==> ks[i] != ks[j]
    decreases |exs|
  {
    if exs == [] then []
    else
      var init := exs[..|exs| - 1];
      var k := GroupKey(exs[|exs| - 1]);
      var ks := KeysOf(init);
      assert forall j :: 0 <= j < |init| ==> init[j] == exs[j];
      if k in ks then ks else ks + [k]
  }

  lemma KeysSnoc(exs: seq<Exercise>, x: Exercise)
    ensures KeysOf(exs + [x]) == if GroupKey(x) in KeysOf(exs) then KeysOf(exs) else KeysOf(exs) + [GroupKey(x)]
  {
    assert (exs + [x])[..|exs|] == exs;
  }

  lemma MembersSnoc(exs: seq<Exercise>, x: Exercise, key: string)
    ensures Members(exs + [x], key) == Members(exs, key) + (if GroupKey(x) == key then [x] else [])
  {
    FilterSnoc(exs, x, InGroup(key));
  }

  lemma UnlistedKeyHasNoMembers(exs: seq<Exercise>, key: string)
    requires key !in KeysOf(exs)
    ensures Members(exs, key) == []
  {
    if Members(exs, key) != [] {
      MemberIffKey(exs, Members(exs, key)[0], key);
    }
  }

  /** The grouping loop's invariant after the first `n` exercises. */
  ghost predicate Grouped(prefix: seq<Exercise>, grouped: map<string, seq<Exercise>>, keys: seq<string>) {
    && keys == KeysOf(prefix)
    && (forall k :: k in grouped <==> k in keys)
    && (forall k :: k in grouped ==> grouped[k] == Members(prefix, k))
  }

  /** After a push, one group's exercises are its members among the longer prefix. */
  lemma PushedMembers(pre: seq<Exercise>, ex: Exercise, grouped: map<string, seq<Exercise>>, k: string)
    requires forall k :: k in grouped ==> grouped[k] == Members(pre, k)
    requires GroupKey(ex) !in grouped ==> Members(pre, GroupKey(ex)) == []
    requires k in grouped || k == GroupKey(ex)
    ensures grouped[GroupKey(ex) := Pushed(grouped, GroupKey(ex), ex)][k] == Members(pre + [ex], k)
  {
    MembersSnoc(pre, ex, k);
  }

  /** One step of the grouping loop keeps its invariant. */
  lemma GroupStep(pre: seq<Exercise>, ex: Exercise, grouped: map<string, seq<Exercise>>, keys: seq<string>,
                  post: seq<Exercise>, grouped': map<string, seq<Exercise>>, keys': seq<string>)
    requires Grouped(pre, grouped, keys) && post == pre + [ex]
    requires var g := GroupKey(ex);
      && grouped' == grouped[g := Pushed(grouped, g, ex)]
      && keys' == if g in grouped then keys else keys + [g]
    ensures Grouped(post, grouped', keys')
  {
    var g := GroupKey(ex);
    KeysSnoc(pre, ex);
    if g !in grouped {
      UnlistedKeyHasNoMembers(pre, g);
    }
    forall k | k in grouped' ensures grouped'[k] == Members(post, k) {
      PushedMembers(pre, ex, grouped, k);
    }
  }

  /** The exercises of `group` after `ex` is pushed onto it. */
  function Pushed(grouped: map<string, seq<Exercise>>, group: string, ex: Exercise): seq<Exercise> {
    (if group in grouped then grouped[group] else []) + [ex]
  }

  /**
   * The property names a plain `{}` inherits from `Object.prototype`. Reading
   * one of them gives a function (or, for `__proto__`, the prototype object),
   * which is truthy and has no `push`.
   */
  const PrototypeKeys: set<string> := {
    "constructor", "hasOwnProperty", "isPrototypeOf", "propertyIsEnumerable",
    "toLocaleString", "toString", "valueOf", "__proto__",
    "__defineGetter__", "__defineSetter__", "__lookupGetter__", "__lookupSetter__"
  }

  /** The grouping loop gets through the list: no exercise's key is an inherited property name. */
  predicate Groupable(exs: seq<Exercise>) {
    forall j :: 0 <= j < |exs| ==> GroupKey(exs[j]) !in PrototypeKeys
  }

  /**
   * The loop body: `grouped[group] = []` when the key is new (recording the
   * key's first appearance), then `grouped[group].push(ex)`. For an inherited
   * key `!grouped[group]` is false and the `push` throws a TypeError.
   */
  method Push(grouped: map<string, seq<Exercise>>, keys: seq<string>, ex: Exercise)
    returns (threw: bool, grouped': map<string, seq<Exercise>>, keys': seq<string>)
    ensures threw <==> GroupKey(ex) in PrototypeKeys
    ensures threw ==> grouped' == grouped && keys' == keys
    ensures !threw ==> grouped' == grouped[GroupKey(ex) := Pushed(grouped, GroupKey(ex), ex)]
    ensures !threw ==> keys' == if GroupKey(ex) in grouped then keys else keys + [GroupKey(ex)]
  {
    var group := GroupKey(ex);
    grouped', keys' := grouped, keys;
    if group in PrototypeKeys {
      return true, grouped', keys';
    }
    if group !in grouped' {
      grouped' := grouped'[group := []];
      keys' := keys' + [group];
    }
    grouped' := grouped'[group := grouped'[group] + [ex]];
    threw := false;
  }

  /**
   * The grouping loop: a map from key to its exercises, each appended in list
   * order, and the keys in the order they were first met. It throws, and the
   * page does not render, exactly when some exercise's key is inherited from
   * `Object.prototype`.
   */
  method Group(exs: seq<Exercise>) returns (threw: bool, grouped: map<string, seq<Exercise>>, keys: seq<string>)
    ensures threw <==> !Groupable(exs)
    ensures !threw ==> keys == KeysOf(exs)
    ensures !threw ==> forall k :: k in grouped <==> k in keys
    ensures !threw ==> forall k :: k in grouped ==> grouped[k] == Members(exs, k)
  {
    grouped := map[];
    keys := [];
    for i := 0 to |exs|
      invariant Grouped(exs[..i], grouped, keys)
      invariant Groupable(exs[..i])
    {
      ghost var grouped0, keys0 := grouped, keys;
      threw, grouped, keys := Push(grouped, keys, exs[i]);
      if threw {
        return;
      }
      assert exs[..i + 1] == exs[..i] + [exs[i]];
      GroupStep(exs[..i], exs[i], grouped0, keys0, exs[..i + 1], grouped, keys);
    }
    assert exs[..|exs|] == exs;
    threw := false;
  }

  /** A single exercise whose muscle group is "constructor" stops the page from rendering; the same list under "Chest" renders. */
  lemma InheritedGroupThrows(ex: Exercise)
    ensures ex.muscleGroup == Some("constructor") ==> !Groupable([ex])
    ensures ex.muscleGroup == Some("Chest") ==> Groupable([ex])
  {
    if ex.muscleGroup == Some("constructor") {
      assert GroupKey([ex][0]) == "constructor";
    }
  }

  /** An exercise is in a group exactly when the group is its own key's. */
  lemma MemberIffKey(exs: seq<Exercise>, x: Exercise, key: string)
    ensures x in Members(exs, key) <==> x in exs && GroupKey(x) == key
  {
  }

  /** A key is listed exactly when some exercise is in its group. */
  lemma ListedIffMembers(exs: seq<Exercise>, key: string)
    ensures key in KeysOf(exs) <==> Members(exs, key) != []
  {
    if key in KeysOf(exs) {
      var j :| 0 <= j < |exs| && GroupKey(exs[j]) == key;
      MemberIffKey(exs, exs[j], key);
    }
    if Members(exs, key) != [] {
      var x := Members(exs, key)[0];
      MemberIffKey(exs, x, key);
      var j :| 0 <= j < |exs| && exs[j] == x;
    }
  }

  /** Every exercise is in exactly one group, its own key's; a key is listed iff its group is non-empty; a group keeps the list order. */
  lemma ExactlyOneGroup(exs: seq<Exercise>, i: int, key: string)
    requires 0 <= i < |exs|
    ensures exs[i] in Members(exs, key) <==> key == GroupKey(exs[i])
    ensures key in KeysOf(exs) <==> Members(exs, key) != []
    ensures IsSubsequence(Members(exs, key), exs)
  {
    MemberIffKey(exs, exs[i], key);
    ListedIffMembers(exs, key);
    FilterSubsequence(exs, InGroup(key));
  }

  /** `Object.entries(grouped).sort(([a], [b]) => a.localeCompare(b))`: the sections in key order. */
  function Sections(keys: seq<string>): seq<string> {
    Sort(keys, ByTextAsc((k: string) => k))
  }

  predicate Distinct(s: seq<string>) {
    forall i, j :: 0 <= i < j < |s| ==> s[i] != s[j]
  }

  lemma {:induction false} InsertDistinct(x: string, t: seq<string>, le: (string, string) -> bool)
    requires x !in t && Distinct(t)
    ensures Distinct(Insert(x, t, le))
    ensures forall y :: y in Insert(x, t, le) <==> y == x || y in t
    decreases |t|
  {
    if t != [] && !le(x, t[0]) {
      InsertDistinct(x, t[1..], le);
      var r := Insert(x, t[1..], le);
      assert Insert(x, t, le) == [t[0]] + r;
      assert t[0] !in r by {
        assert t[0] !in t[1..] by {
          forall j | 0 <= j < |t[1..]| ensures t[1..][j] != t[0] {
            assert t[1..][j] == t[j + 1];
          }
        }
      }
      assert t == [t[0]] + t[1..];
    }
  }

  lemma {:induction false} SortDistinct(s: seq<string>, le: (string, string) -> bool)
    requires Distinct(s)
    ensures Distinct(Sort(s, le))
    ensures forall y :: y in Sort(s, le) <==> y in s
    decreases |s|
  {
    if s != [] {
      SortDistinct(s[1..], le);
      assert s[0] !in s[1..] by {
        forall j | 0 <= j < |s[1..]| ensures s[1..][j] != s[0] {
          assert s[1..][j] == s[j + 1];
        }
      }
      InsertDistinct(s[0], Sort(s[1..], le), le);
      assert s == [s[0]] + s[1..];
    }
  }

  /** The sections are in ascending key order, each key of the list exactly once. */
  lemma SectionsOrdered(exs: seq<Exercise>)
    ensures var s := Sections(KeysOf(exs));
      && (forall i, j :: 0 <= i < j < |s| ==> LexLe(s[i], s[j]))
      && (forall k :: k in s <==> k in KeysOf(exs))
      && Distinct(s)
  {
    var le := ByTextAsc((k: string) => k);
    ByTextAscPreorder((k: string) => k);
    SortCorrect(KeysOf(exs), le);
    SortDistinct(KeysOf(exs), le);
  }

  // ---------------------------------------------------------------- the create form

  /** `value || undefined`: an empty field is not sent. */
  function Optional(value: string): (r: Option<string>)
    ensures r.None? <==> value == ""
    ensures r.Some? ==> r.value == value
  {
    if value == "" then None else Some(value)
  }

  /**
   * `handleCreate`: nothing for a blank name; else the trimmed name, the
   * muscle group and equipment as typed (untrimmed), absent when empty.
   */
  function CreateRequest(name: string, muscleGroup: string, equipment: string): (r: Option<CreateExercise>)
    ensures r.None? <==> Trim(name) == ""
    ensures r.Some? ==> r.value == CreateExercise(Trim(name), Optional(muscleGroup), Optional(equipment), None)
  {
    if Trim(name) == "" then None
    else Some(CreateExercise(Trim(name), Optional(muscleGroup), Optional(equipment), None))
  }

  /**
   * The exercise the server stores for that request is listed under the typed
   * group, or "Other" for none; the list holding it alone renders exactly when
   * the typed group is not an inherited property name.
   */
  lemma CreatedLandsInGroup(name: string, muscleGroup: string, equipment: string, id: int, now: string)
    requires CreateRequest(name, muscleGroup, equipment).Some?
    ensures var ex := Exercises.NewExercise(id, CreateRequest(name, muscleGroup, equipment).value, now);
      && GroupKey(ex) == (if muscleGroup == "" then OtherGroup else muscleGroup)
      && ex.name == Trim(name) && !ex.archived
      && (Groupable([ex]) <==> muscleGroup !in PrototypeKeys)
  {
    var ex := Exercises.NewExercise(id, CreateRequest(name, muscleGroup, equipment).value, now);
    SingleGroupable(ex);
    if muscleGroup == "" {
      FallbackNotInherited();
    }
  }

  lemma SingleGroupable(ex: Exercise)
    ensures Groupable([ex]) <==> GroupKey(ex) !in PrototypeKeys
  {
    assert [ex][0] == ex;
  }

  /** Neither "Other" nor the empty text is an inherited property name. */
  lemma FallbackNotInherited()
    ensures OtherGroup !in PrototypeKeys && "" !in PrototypeKeys
  {
    assert |OtherGroup| == 5;
  }

  /** The page state: the form's visibility and fields, and the one expanded card. */
  class Page {
    var showForm: bool
    var expandedId: Option<int>
    var name: string
    var muscleGroup: string
    var equipment: string

    constructor()
      ensures !showForm && expandedId == None && name == "" && muscleGroup == "" && equipment == ""
    {
      showForm := false;
      expandedId := None;
      name := "";
      muscleGroup := "";
      equipment := "";
    }

    /** The "+ New Exercise" / "Cancel" button. */
    method ToggleForm()
      modifies this
      ensures showForm == !old(showForm)
      ensures expandedId == old(expandedId) && name == old(name) && muscleGroup == old(muscleGroup) && equipment == old(equipment)
    {
      showForm := !showForm;
    }

    /** A click on an exercise card: it opens (closing any other) or, when it was open, closes. */
    method Click(id: int)
      modifies this
      ensures expandedId == Toggle(old(expandedId), id)
      ensures expandedId == Some(id) <==> old(expandedId) != Some(id)
      ensures showForm == old(showForm) && name == old(name) && muscleGroup == old(muscleGroup) && equipment == old(equipment)
    {
      expandedId := Toggle(expandedId, id);
    }

    /**
     * Submitting the form: a blank name sends nothing and changes nothing;
     * otherwise the request is sent and, once it succeeds, the form is
     * cleared and hidden. A failed request throws past the reset and leaves
     * the form as it was.
     */
    method Submit(succeeded: bool) returns (sent: Option<CreateExercise>)
      modifies this
      ensures sent == CreateRequest(old(name), old(muscleGroup), old(equipment))
      ensures sent.None? || !succeeded ==>
        showForm == old(showForm) && name == old(name) && muscleGroup == old(muscleGroup) && equipment == old(equipment)
      ensures sent.Some? && succeeded ==> !showForm && name == "" && muscleGroup == "" && equipment == ""
      ensures expandedId == old(expandedId)
    {
      sent := CreateRequest(name, muscleGroup, equipment);
      if sent.Some? && succeeded {
        name := "";
        muscleGroup := "";
        equipment := "";
        showForm := false;
      }
    }
  }

  /** `handleDelete`: the archive request is sent only after confirmation. */
  function DeleteRequest(id: int, confirmed: bool): (r: Option<int>)
    ensures r.Some? <==> confirmed
    ensures r.Some? ==> r.value == id
  {
    if confirmed then Some(id) else None
  }
}
