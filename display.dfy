/**
 * Display rules the web client's pages share: the session title fallback,
 * the weight text of a set, the single-expanded-card toggle and the text of
 * a rep target's range.
 */
module Display {
  import opened Wrappers
  import opened Text
  import opened Js

  /** `template_name || name || 'Freeform'`: the first non-empty name, else "Freeform". */
  function SessionTitle(templateName: Option<string>, name: Option<string>): (r: string)
    ensures r != ""
    ensures TruthyText(templateName) ==> r == templateName.value
    ensures !TruthyText(templateName) && TruthyText(name) ==> r == name.value
    ensures r == "Freeform" || Some(r) == templateName || Some(r) == name
  {
    if TruthyText(templateName) then templateName.value
    else if TruthyText(name) then name.value
    else "Freeform"
  }

  /** A set's weight: `${w}kg`, or "BW" (bodyweight) when the weight is null; `num` renders a JavaScript number. */
  function WeightText(w: Option<real>, num: real -> string): (s: string)
    ensures s == "BW" <==> w.None?
    ensures w.Some? ==> EndsWith(s, "kg") && s[..|s| - 2] == num(w.value)
  {
    match w
    case None => "BW"
    case Some(v) =>
      var t := num(v) + "kg";
      assert t[|t| - 1] == 'g' != "BW"[1];
      t
  }

  /**
   * `setExpandedId(expanded ? null : id)` on a click of card `id`: the clicked
   * card opens unless it was the open one, which closes; every other card is closed.
   */
  function Toggle(expandedId: Option<int>, id: int): (r: Option<int>)
    ensures r == Some(id) <==> expandedId != Some(id)
    ensures r == None <==> expandedId == Some(id)
  {
    if expandedId == Some(id) then None else Some(id)
  }

  /** The maximum of a rep target is shown when it is truthy and differs from the minimum. */
  predicate ShowsMax(min: Option<int>, max: Option<int>) {
    Truthy(max) && max != min
  }

  /** `min` or `min-max`, the range part of the rep labels of the home and workouts pages. */
  function RangeText(min: int, max: Option<int>): string {
    if ShowsMax(Some(min), max) then IntToString(min) + "-" + IntToString(max.value)
    else IntToString(min)
  }

  /** Reads a range text back: one number, or two separated by '-'. */
  function ParseRange(s: string): Option<(int, Option<int>)> {
    var parts := Split(s, "-");
    if |parts| == 1 then
      match ParseNat(parts[0])
      case Some(n) => Some((n as int, None))
      case None => None
    else if |parts| == 2 then
      match (ParseNat(parts[0]), ParseNat(parts[1]))
      case (Some(a), Some(b)) => Some((a as int, Some(b as int)))
      case _ => None
    else None
  }

  /** For non-negative targets the range text is unambiguous: it gives back the minimum and the shown maximum. */
  lemma RangeRoundTrip(min: int, max: Option<int>)
    requires min >= 0 && (max.Some? ==> max.value >= 0)
    ensures ParseRange(RangeText(min, max)) == Some((min, if ShowsMax(Some(min), max) then max else None))
  {
    var a := NatToString(min);
    DigitsHaveNo(a, '-');
    ParseNatToString(min);
    if ShowsMax(Some(min), max) {
      var b := NatToString(max.value);
      DigitsHaveNo(b, '-');
      ParseNatToString(max.value);
      assert Join([a, b], "-") == a + "-" + b;
      SplitJoin([a, b], "-");
    } else {
      assert Join([a], "-") == a;
      SplitJoin([a], "-");
    }
  }
}
