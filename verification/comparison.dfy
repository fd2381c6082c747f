/** JavaScript's relational comparison (`<` and `<=`) on the values the visualiser handles, and
    the text a value turns into when it is compared as a string or used as a property key. */
module Comparison {
  import opened JsValues
  import opened Text
  import opened Numerals

  /** `String(n)` for a number, where the model can write it: an integer below 10^21 in
      magnitude in plain decimal, and the infinities as "Infinity" and "-Infinity". Other
      numbers are `None`: their shortest round-trip rendering is not modelled. */
  function NumberText(n: Number): (t: Option<string>)
    ensures IsIntegral(n) && -PlainDigitsLimit < n.r.Floor < PlainDigitsLimit ==>
              t == Some(IntToString(n.r.Floor))
  {
    match n
    case PosInf => Some("Infinity")
    case NegInf => Some("-Infinity")
    case Fin(r) =>
      if IsIntegral(n) && -PlainDigitsLimit < r.Floor < PlainDigitsLimit then Some(IntToString(r.Floor))
      else None
  }

  /** `String(v)`: a string is itself, an array is its items' texts joined with commas. `None`
      when the value holds a number whose rendering is not modelled. */
  function ValueText(v: JValue): (t: Option<string>)
    decreases v, 1
  {
    match v
    case Num(n) => NumberText(n)
    case Str(s) => Some(s)
    case Arr(items) => ItemsText(items)
  }

  /** `Array.prototype.join(",")` of the items' texts: empty for no items, the item's text for
      one; `None` when one of the texts is. */
  function ItemsText(items: seq<JValue>): (t: Option<string>)
    decreases items, 0
  {
    if |items| == 0 then Some("")
    else if |items| == 1 then ValueText(items[0])
    else
      match (ValueText(items[0]), ItemsText(items[1..]))
      case (Some(a), Some(b)) => Some(a + "," + b)
      case _ => None
  }

  /** Reading the text of a number back with `Number` gives the number. */
  lemma NumberTextReadsBack(n: Number)
    ensures NumberText(n).Some? ==> StringToNumber(NumberText(n).value) == Some(n)
  {
    match n
    case Fin(r) =>
      if NumberText(n).Some? {
        NumberRoundTrip(r.Floor);
      }
    case PosInf => InfinityReadsBack("Infinity", false);
    case NegInf => InfinityReadsBack("-Infinity", true);
  }

  lemma InfinityReadsBack(s: string, negative: bool)
    requires s == if negative then "-Infinity" else "Infinity"
    ensures StringToNumber(s) == Some(if negative then NegInf else PosInf)
  {
    assert !IsJsSpace(s[0]) && !IsJsSpace(s[|s| - 1]);
    TrimIdentity(s);
    assert RadixOfPrefix(s) == 0;
    InfinityScan(s, negative);
  }

  lemma InfinityScan(s: string, negative: bool)
    requires s == if negative then "-Infinity" else "Infinity"
    ensures ScanDecimal(s, 0) == Some((InfinityLit(negative), |s|))
  {
    var j := if negative then 1 else 0;
    assert s[j..] == "Infinity";
    StartsWithRest(s, j);
  }

  /** A string holds its own rest at every index. */
  lemma {:induction false} StartsWithRest(s: string, i: nat)
    requires i <= |s|
    ensures StartsWithAt(s, i, s[i..])
    decreases |s| - i
  {
    if i < |s| {
      StartsWithRest(s, i + 1);
      assert s[i..][1..] == s[i + 1..];
    }
  }

  /** The text of a one-item array is the item's text, and an empty array's is empty: the
      conversions `Number` makes of an array go through these texts. */
  lemma ArrayText(x: JValue)
    ensures ValueText(Arr([x])) == ValueText(x)
    ensures ValueText(Arr([])) == Some("")
  {
  }

  /** Text order: code point by code point, a proper prefix coming first. */
  predicate TextLess(a: string, b: string)
  {
    if |a| == 0 then |b| > 0
    else if |b| == 0 then false
    else if a[0] != b[0] then a[0] < b[0]
    else TextLess(a[1..], b[1..])
  }

  predicate TextLe(a: string, b: string)
  {
    a == b || TextLess(a, b)
  }

  /** Text order is a strict total order. */
  lemma {:induction false} TextLessTrichotomy(a: string, b: string)
    ensures TextLess(a, b) || a == b || TextLess(b, a)
    ensures !(TextLess(a, b) && TextLess(b, a))
    ensures !TextLess(a, a)
  {
    TextLessIrreflexive(a);
    if |a| > 0 && |b| > 0 && a[0] == b[0] {
      TextLessTrichotomy(a[1..], b[1..]);
      if a[1..] == b[1..] {
        assert a == [a[0]] + a[1..] && b == [b[0]] + b[1..];
      }
    }
  }

  lemma {:induction false} TextLessIrreflexive(a: string)
    ensures !TextLess(a, a)
  {
    if |a| > 0 {
      TextLessIrreflexive(a[1..]);
    }
  }

  lemma {:induction false} TextLessTransitive(a: string, b: string, c: string)
    requires TextLess(a, b) && TextLess(b, c)
    ensures TextLess(a, c)
  {
    if |a| > 0 && a[0] == b[0] && b[0] == c[0] {
      TextLessTransitive(a[1..], b[1..], c[1..]);
    }
  }

  /** Both operands of a comparison are compared as text: neither is a number (an array turns
      into its text first), and the model can write both texts. */
  predicate TextCompared(a: JValue, b: JValue)
  {
    !a.Num? && !b.Num? && ValueText(a).Some? && ValueText(b).Some?
  }

  /** JavaScript `a < b` (IsLessThan, section 7.2.13 of ECMA-262): two strings compare by
      their text; otherwise both sides are converted to numbers, and NaN compares false. */
  predicate JsLess(a: JValue, b: JValue)
  {
    if TextCompared(a, b) then TextLess(ValueText(a).value, ValueText(b).value)
    else ToNumber(a).Some? && ToNumber(b).Some? && Lt(ToNumber(a).value, ToNumber(b).value)
  }

  /** JavaScript `a <= b`: `b < a` is false, except that NaN compares false both ways. */
  predicate JsLessEq(a: JValue, b: JValue)
  {
    if TextCompared(a, b) then !TextLess(ValueText(b).value, ValueText(a).value)
    else ToNumber(a).Some? && ToNumber(b).Some? && Le(ToNumber(a).value, ToNumber(b).value)
  }

  /** On numbers the comparisons are the numeric order; on strings they are the text order. */
  lemma ComparisonCases(a: JValue, b: JValue)
    ensures a.Num? && b.Num? ==> (JsLess(a, b) <==> Lt(a.n, b.n)) && (JsLessEq(a, b) <==> Le(a.n, b.n))
    ensures a.Str? && b.Str? ==> (JsLess(a, b) <==> TextLess(a.s, b.s)) && (JsLessEq(a, b) <==> TextLe(a.s, b.s))
  {
    if a.Str? && b.Str? {
      TextLessTrichotomy(a.s, b.s);
    }
  }

  /** Unless NaN is involved, `a <= b` is exactly `!(b < a)`. */
  lemma LessEqIsNotGreater(a: JValue, b: JValue)
    requires TextCompared(a, b) || (ToNumber(a).Some? && ToNumber(b).Some?)
    ensures JsLessEq(a, b) <==> !JsLess(b, a)
  {
    if !TextCompared(a, b) {
      LtTrichotomy(ToNumber(a).value, ToNumber(b).value);
    }
  }

  /** The two orders disagree: "10" < "9" holds as text although 10 < 9 does not. */
  lemma TextOrderIsNotNumeric()
    ensures JsLess(Str("10"), Str("9")) && !JsLess(Num(IntNum(10)), Num(IntNum(9)))
    ensures !JsLess(Str("9"), Str("10"))
  {
  }
}
