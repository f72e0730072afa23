/**
 * The JavaScript value semantics the web client's expressions depend on:
 * truthiness of nullable numbers and strings, how a template literal and a
 * JSX child render a nullable number, and the `%` operator, whose remainder
 * takes the sign of the dividend.
 */
module Js {
  import opened Wrappers
  import opened Text

  /** A nullable number is truthy when present and non-zero (`0` and `null` are falsy). */
  predicate Truthy(v: Option<int>) {
    v.Some? && v.value != 0
  }

  /** A nullable string is truthy when present and non-empty. */
  predicate TruthyText(v: Option<string>) {
    v.Some? && v.value != ""
  }

  lemma DigitsHaveNo(s: string, c: char)
    requires AllDigits(s) && !IsDigit(c)
    ensures c !in s
  {
  }

  /** Integer text never contains a character that is neither a digit nor the minus sign. */
  lemma IntTextHasNo(i: int, c: char)
    requires !IsDigit(c) && c != '-'
    ensures c !in IntToString(i)
  {
    if i < 0 {
      DigitsHaveNo(NatToString(-i), c);
      assert IntToString(i) == "-" + NatToString(-i);
    } else {
      DigitsHaveNo(NatToString(i), c);
    }
  }

  /** `${v}`: a number renders as its decimal text, `null` as the word "null". */
  function TemplateText(v: Option<int>): (s: string)
    ensures s == "null" <==> v.None?
    ensures v.Some? ==> ParseInt(s) == Some(v.value)
  {
    match v
    case None => "null"
    case Some(n) =>
      ParseIntToString(n);
      IntTextHasNo(n, 'n');
      assert 'n' in "null";
      IntToString(n)
  }

  /** `{v}` as a JSX child: a number renders as its decimal text, `null` renders nothing. */
  function JsxText(v: Option<int>): (s: string)
    ensures s == "" <==> v.None?
    ensures v.Some? ==> ParseInt(s) == Some(v.value)
  {
    match v
    case None => ""
    case Some(n) => ParseIntToString(n); IntToString(n)
  }

  /** `Math.trunc(a / b)`: the quotient rounded toward zero. */
  function Quot(a: int, b: int): int
    requires b > 0
  {
    if a >= 0 then a / b else -((-a) / b)
  }

  /** `a % b` for a positive divisor: the remainder completes the truncated quotient and has the sign of `a`. */
  function Rem(a: int, b: int): (r: int)
    requires b > 0
    ensures a == Quot(a, b) * b + r
    ensures a >= 0 ==> 0 <= r < b
    ensures a < 0 ==> -b < r <= 0
  {
    if a >= 0 then a % b else -((-a) % b)
  }
}
