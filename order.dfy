/**
 * The orderings the SQL queries of the core rely on. SQLite compares TEXT
 * columns byte by byte (`ORDER BY name`, `ORDER BY started_at DESC`), which
 * for the model's strings is the lexicographic order on characters, and an
 * `ORDER BY` clause is a sort under a total preorder.
 */
module Order {

  /** `a <= b` in SQLite's BINARY collation. */
  predicate LexLe(a: string, b: string)
    decreases |a|
  {
    a == [] || (b != [] && (a[0] < b[0] || (a[0] == b[0] && LexLe(a[1..], b[1..]))))
  }

  lemma {:induction false} LexLeTotal(a: string, b: string)
    ensures LexLe(a, b) || LexLe(b, a)
    decreases |a|
  {
    if a != [] && b != [] && a[0] == b[0] {
      LexLeTotal(a[1..], b[1..]);
    }
  }

  lemma {:induction false} LexLeTransitive(a: string, b: string, c: string)
    requires LexLe(a, b) && LexLe(b, c)
    ensures LexLe(a, c)
    decreases |a|
  {
    if a != [] && a[0] == b[0] && b[0] == c[0] {
      LexLeTransitive(a[1..], b[1..], c[1..]);
    }
  }

  lemma {:induction false} LexLeAntisymmetric(a: string, b: string)
    requires LexLe(a, b) && LexLe(b, a)
    ensures a == b
    decreases |a|
  {
    if a != [] {
      LexLeAntisymmetric(a[1..], b[1..]);
      assert a == [a[0]] + a[1..] && b == [b[0]] + b[1..];
    }
  }

  /** `le` is a total preorder: what an `ORDER BY` key comparison is. */
  ghost predicate TotalPreorder<T(!new)>(le: (T, T) -> bool) {
    && (forall a, b :: le(a, b) || le(b, a))
    && (forall a, b, c :: le(a, b) && le(b, c) ==> le(a, c))
  }

  ghost predicate SortedBy<T>(s: seq<T>, le: (T, T) -> bool) {
    forall i, j :: 0 <= i < j < |s| ==> le(s[i], s[j])
  }

  function Insert<T>(x: T, s: seq<T>, le: (T, T) -> bool): seq<T>
    decreases |s|
  {
    if s == [] then [x]
    else if le(x, s[0]) then [x] + s
    else [s[0]] + Insert(x, s[1..], le)
  }

  /** The rows of `s` in the order `le`: the result of an `ORDER BY`. */
  function Sort<T>(s: seq<T>, le: (T, T) -> bool): seq<T>
    decreases |s|
  {
    if s == [] then [] else Insert(s[0], Sort(s[1..], le), le)
  }

  lemma {:induction false} InsertPermutes<T>(x: T, s: seq<T>, le: (T, T) -> bool)
    ensures multiset(Insert(x, s, le)) == multiset(s) + multiset{x}
    decreases |s|
  {
    if s != [] && !le(x, s[0]) {
      InsertPermutes(x, s[1..], le);
      assert s == [s[0]] + s[1..];
    }
  }

  lemma {:induction false} InsertSorted<T(!new)>(x: T, s: seq<T>, le: (T, T) -> bool)
    requires TotalPreorder(le) && SortedBy(s, le)
    ensures SortedBy(Insert(x, s, le), le)
    decreases |s|
  {
    if s != [] && !le(x, s[0]) {
      var t := Insert(x, s[1..], le);
      InsertSorted(x, s[1..], le);
      InsertPermutes(x, s[1..], le);
      assert le(s[0], x);
      forall k | 0 <= k < |t| ensures le(s[0], t[k]) {
        assert t[k] in multiset(t);
        assert t[k] == x || t[k] in multiset(s[1..]);
        if t[k] != x {
          var j :| 0 <= j < |s[1..]| && s[1..][j] == t[k];
          assert s[j + 1] == t[k];
        }
      }
    }
  }

  /** Sorting orders the rows and keeps every one of them exactly once. */
  lemma {:induction false} SortCorrect<T(!new)>(s: seq<T>, le: (T, T) -> bool)
    requires TotalPreorder(le)
    ensures SortedBy(Sort(s, le), le)
    ensures multiset(Sort(s, le)) == multiset(s)
    decreases |s|
  {
    if s != [] {
      SortCorrect(s[1..], le);
      InsertSorted(s[0], Sort(s[1..], le), le);
      InsertPermutes(s[0], Sort(s[1..], le), le);
      assert s == [s[0]] + s[1..];
    }
  }

  lemma SortMembers<T(!new)>(s: seq<T>, le: (T, T) -> bool, x: T)
    requires TotalPreorder(le)
    ensures x in Sort(s, le) <==> x in s
    ensures |Sort(s, le)| == |s|
  {
    SortCorrect(s, le);
    assert x in Sort(s, le) <==> x in multiset(Sort(s, le));
    assert x in s <==> x in multiset(s);
    assert |multiset(Sort(s, le))| == |multiset(s)|;
  }

  /** The first row of a sorted result is a greatest-or-least row: `ORDER BY ... LIMIT 1`. */
  lemma SortFirst<T(!new)>(s: seq<T>, le: (T, T) -> bool)
    requires TotalPreorder(le) && s != []
    ensures Sort(s, le) != [] && Sort(s, le)[0] in s
    ensures forall x :: x in s ==> le(Sort(s, le)[0], x)
  {
    var r := Sort(s, le);
    SortCorrect(s, le);
    SortMembers(s, le, s[0]);
    SortMembers(s, le, r[0]);
    forall x | x in s ensures le(r[0], x) {
      SortMembers(s, le, x);
      var j :| 0 <= j < |r| && r[j] == x;
      if j > 0 {
        assert le(r[0], r[j]);
      }
    }
  }

  // ---------------------------------------------------------------- standard orders

  /** Ascending by a text key (`ORDER BY name`). */
  function ByTextAsc<T>(key: T -> string): (T, T) -> bool {
    (a: T, b: T) => LexLe(key(a), key(b))
  }

  /** Descending by a text key (`ORDER BY started_at DESC`). */
  function ByTextDesc<T>(key: T -> string): (T, T) -> bool {
    (a: T, b: T) => LexLe(key(b), key(a))
  }

  /** Ascending by an integer key (`ORDER BY position`, `ORDER BY set_number`). */
  function ByIntAsc<T>(key: T -> int): (T, T) -> bool {
    (a: T, b: T) => key(a) <= key(b)
  }

  lemma ByTextAscPreorder<T(!new)>(key: T -> string)
    ensures TotalPreorder(ByTextAsc(key))
  {
    forall a: T, b: T ensures LexLe(key(a), key(b)) || LexLe(key(b), key(a)) {
      LexLeTotal(key(a), key(b));
    }
    forall a: T, b: T, c: T | LexLe(key(a), key(b)) && LexLe(key(b), key(c))
      ensures LexLe(key(a), key(c))
    {
      LexLeTransitive(key(a), key(b), key(c));
    }
  }

  lemma ByTextDescPreorder<T(!new)>(key: T -> string)
    ensures TotalPreorder(ByTextDesc(key))
  {
    forall a: T, b: T ensures LexLe(key(b), key(a)) || LexLe(key(a), key(b)) {
      LexLeTotal(key(a), key(b));
    }
    forall a: T, b: T, c: T | LexLe(key(b), key(a)) && LexLe(key(c), key(b))
      ensures LexLe(key(c), key(a))
    {
      LexLeTransitive(key(c), key(b), key(a));
    }
  }

  lemma ByIntAscPreorder<T(!new)>(key: T -> int)
    ensures TotalPreorder(ByIntAsc(key))
  {
  }
}
