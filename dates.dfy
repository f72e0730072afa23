/**
 * `parseDate`'s text rewrite: SQLite's `datetime('now')` text
 * "YYYY-MM-DD HH:MM:SS" carries no zone, so the client turns it into the ISO
 * form "YYYY-MM-DDTHH:MM:SSZ" (UTC) before handing it to `Date`; any other
 * text is handed over unchanged. `Date` itself is not part of this model.
 */
module Dates {
  import opened Text

  /** What the pattern `^\d{4}-\d{2}-\d{2} \d{2}:\d{2}:\d{2}$` demands at index `i`. */
  predicate PatternChar(i: int, c: char) {
    if i == 4 || i == 7 then c == '-'
    else if i == 10 then c == ' '
    else if i == 13 || i == 16 then c == ':'
    else IsDigit(c)
  }

  /** The regular expression test: exactly 19 characters, each as the pattern demands. */
  predicate IsSqliteTimestamp(s: string) {
    |s| == 19 && forall i :: 0 <= i < |s| ==> PatternChar(i, s[i])
  }

  /** `s.replace(from, to)` with a one-character pattern: only the first occurrence is replaced. */
  function ReplaceFirst(s: string, from: char, to: char): (r: string)
    ensures |r| == |s|
    ensures forall i :: 0 <= i < |s| ==> r[i] == (if s[i] == from && from !in s[..i] then to else s[i])
    decreases |s|
  {
    if s == [] then []
    else if s[0] == from then [to] + s[1..]
    else
      var rest := ReplaceFirst(s[1..], from, to);
      assert forall i :: 1 <= i < |s| ==> s[1..][..i - 1] == s[1..i];
      assert forall i :: 1 <= i < |s| ==> s[..i] == [s[0]] + s[1..i];
      [s[0]] + rest
  }

  /** The text `parseDate` hands to `Date`. */
  function Normalize(s: string): (r: string)
    ensures !IsSqliteTimestamp(s) ==> r == s
  {
    if IsSqliteTimestamp(s) then ReplaceFirst(s, ' ', 'T') + "Z" else s
  }

  /** A SQLite timestamp becomes the ISO UTC form: 'T' at index 10, 'Z' appended, every other character kept. */
  lemma NormalizeShape(s: string)
    requires IsSqliteTimestamp(s)
    ensures var r := Normalize(s);
      |r| == 20 && r[10] == 'T' && r[19] == 'Z' &&
      forall i :: 0 <= i < 19 && i != 10 ==> r[i] == s[i]
  {
    var r := Normalize(s);
    assert ' ' !in s[..10] by {
      forall i | 0 <= i < 10 ensures s[..10][i] != ' ' {
        assert PatternChar(i, s[i]);
      }
    }
    forall i | 0 <= i < 19 && i != 10 ensures r[i] == s[i] {
      assert PatternChar(i, s[i]);
    }
  }

  /** The rewritten text no longer matches, so normalising twice is normalising once. */
  lemma NormalizeIdempotent(s: string)
    ensures Normalize(Normalize(s)) == Normalize(s)
  {
    if IsSqliteTimestamp(s) {
      NormalizeShape(s);
    }
  }
}
