/** JavaScript's conversions from text to numbers, as the input handlers and cell parsers use
    them: `parseFloat`, `parseInt(s, 10)`, `Number(s)` (what `isNaN(s)` applies to a string),
    and the integer tests built from them. */
module Numerals {
  import opened JsValues
  import opened Text

  /** End of the run of decimal digits starting at `i`. */
  function DigitRunEnd(s: string, i: nat): (j: nat)
    requires i <= |s|
    ensures i <= j <= |s|
    ensures j == |s| || !IsDigit(s[j])
    decreases |s| - i
  {
    if i < |s| && IsDigit(s[i]) then DigitRunEnd(s, i + 1) else i
  }

  /** Everything before the end of a run is a digit. */
  lemma {:induction false} DigitRunDigits(s: string, i: nat)
    requires i <= |s|
    ensures forall k :: i <= k < DigitRunEnd(s, i) ==> IsDigit(s[k])
    decreases |s| - i
  {
    if i < |s| && IsDigit(s[i]) {
      DigitRunDigits(s, i + 1);
    }
  }

  /** The digits from `j` up to `a`, read as one decimal number. */
  function RunValue(s: string, j: nat, a: nat): nat
    requires j <= a <= |s|
    decreases a - j
  {
    if a == j then 0 else RunValue(s, j, a - 1) * 10 + DigitValue(s[a - 1])
  }

  function DigitValue(c: char): nat
  {
    if IsDigit(c) then c as int - '0' as int else 0
  }

  /** A decimal literal recognised at the front of a string: `Infinity`, or digits with an
      optional fraction and an optional exponent, each with its sign. A decimal literal keeps
      all its digits read as one number, how many of them follow the point, and the exponent. */
  datatype Literal =
    | InfinityLit(negative: bool)
    | DecimalLit(negative: bool, digits: nat, fractionLength: nat, exponent: int)

  /** An exponent part `e[+-]digits` at `i`: its value and its length. When no digits follow
      the `e`, there is no exponent part and its length is 0. */
  function ScanExponent(s: string, i: nat): (r: (int, nat))
    requires i <= |s|
    ensures i + r.1 <= |s|
    ensures r.1 == 0 ==> r.0 == 0
  {
    if i < |s| && (s[i] == 'e' || s[i] == 'E') then
      var negative := i + 1 < |s| && s[i + 1] == '-';
      var k := if i + 1 < |s| && (s[i + 1] == '-' || s[i + 1] == '+') then i + 2 else i + 1;
      var c := DigitRunEnd(s, k);
      if c == k then (0, 0)
      else
        var magnitude: int := RunValue(s, k, c);
        (if negative then -magnitude else magnitude, c - i)
    else (0, 0)
  }

  /** The longest StrDecimalLiteral (ECMA-262) starting at `i`, with the index where it ends,
      or `None` when no such prefix exists. */
  function ScanDecimal(s: string, i: nat): (r: Option<(Literal, nat)>)
    requires i <= |s|
    ensures r.Some? ==> i < r.value.1 <= |s|
  {
    var negative := i < |s| && s[i] == '-';
    var j := if i < |s| && (s[i] == '-' || s[i] == '+') then i + 1 else i;
    if StartsWithAt(s, j, "Infinity") then Some((InfinityLit(negative), j + 8))
    else ScanDigits(s, j, negative)
  }

  /** The digits, fraction and exponent of a decimal literal after its sign, at `j`. */
  function ScanDigits(s: string, j: nat, negative: bool): (r: Option<(Literal, nat)>)
    requires j <= |s|
    ensures r.Some? ==> j < r.value.1 <= |s|
  {
    Assemble(s, j, WholeLength(s, j), HasPoint(s, j), FractionLength(s, j), negative)
  }

  /** How many integer digits a literal at `j` has. */
  function WholeLength(s: string, j: nat): (w: nat)
    requires j <= |s|
    ensures j + w <= |s|
  {
    DigitRunEnd(s, j) - j
  }

  /** Whether a point follows the integer digits of a literal at `j`. */
  predicate HasPoint(s: string, j: nat)
    requires j <= |s|
  {
    j + WholeLength(s, j) < |s| && s[j + WholeLength(s, j)] == '.'
  }

  /** How many fraction digits follow the point of a literal at `j`; none without a point. */
  function FractionLength(s: string, j: nat): (f: nat)
    requires j <= |s|
    ensures DigitsEnd(j, WholeLength(s, j), HasPoint(s, j), f) <= |s|
    ensures !HasPoint(s, j) ==> f == 0
  {
    if HasPoint(s, j) then DigitRunEnd(s, j + WholeLength(s, j) + 1) - (j + WholeLength(s, j) + 1) else 0
  }

  /** Where the digits of a literal at `j` with `whole` integer digits and, after a point
      when there is one, `scale` fraction digits end. */
  function DigitsEnd(j: nat, whole: nat, hasDot: bool, scale: nat): nat
  {
    if hasDot then j + whole + 1 + scale else j + whole
  }

  /** The literal at `j` with `whole` integer digits and, when a point follows them, `scale`
      fraction digits; it needs a digit in one of the two parts. */
  function Assemble(s: string, j: nat, whole: nat, hasDot: bool, scale: nat, negative: bool): (r: Option<(Literal, nat)>)
    requires DigitsEnd(j, whole, hasDot, scale) <= |s| && (!hasDot ==> scale == 0)
    ensures r.Some? ==> j < r.value.1 <= |s|
  {
    if whole == 0 && scale == 0 then None
    else
      var b := DigitsEnd(j, whole, hasDot, scale);
      var fraction := if hasDot then RunValue(s, j + whole + 1, j + whole + 1 + scale) else 0;
      var (e, length) := ScanExponent(s, b);
      Some((DecimalLit(negative, RunValue(s, j, j + whole) * Pow10(scale) + fraction, scale, e), b + length))
  }

  function Pow10(k: nat): (p: nat)
    ensures p >= 1
  {
    if k == 0 then 1 else 10 * Pow10(k - 1)
  }

  /** The number a literal denotes (exactly; a double would round it). */
  function LiteralValue(lit: Literal): Number
  {
    match lit
    case InfinityLit(negative) => if negative then NegInf else PosInf
    case DecimalLit(negative, digits, scale, e) =>
      var mantissa := digits as real / Pow10(scale) as real;
      var scaled := if e >= 0 then mantissa * Pow10(e) as real else mantissa / Pow10(-e) as real;
      Fin(if negative then -scaled else scaled)
  }

  /** A run of digits reads as the value of its text. */
  lemma {:induction false} RunValueIsDigitsValue(s: string, j: nat, a: nat)
    requires j <= a <= |s| && AllDigits(s[j..a])
    ensures RunValue(s, j, a) == DigitsValue(s[j..a])
    decreases a - j
  {
    if a > j {
      assert s[j..a][..a - 1 - j] == s[j..a - 1];
      assert s[j..a][a - 1 - j] == s[a - 1];
      RunValueIsDigitsValue(s, j, a - 1);
    }
  }

  /** `parseFloat(s)`: skip leading white space, then read the longest decimal literal;
      `None` stands for NaN. */
  function ParseFloat(s: string): (r: Option<Number>)
    ensures AllSpaces(s) ==> r.None?
    ensures |s| > 0 && AllDigits(s) ==> r == Some(Fin(DigitsValue(s) as real))
    ensures r.Some? <==> ScanDecimal(s, LeadingSpaces(s)).Some?
    ensures r.Some? ==> r.value == LiteralValue(ScanDecimal(s, LeadingSpaces(s)).value.0)
  {
    DigitTextScan(s);
    match ScanDecimal(s, LeadingSpaces(s))
    case None => None
    case Some((lit, _)) => Some(LiteralValue(lit))
  }

  /** `parseInt(s, 10)`: skip leading white space, an optional sign, then the longest run of
      decimal digits; `None` (NaN) when there is no digit. */
  function ParseInt(s: string): (r: Option<int>)
    ensures r.Some? ==> exists i :: 0 <= i < |s| && IsDigit(s[i])
  {
    var i := LeadingSpaces(s);
    var negative := i < |s| && s[i] == '-';
    var j := if i < |s| && (s[i] == '-' || s[i] == '+') then i + 1 else i;
    var k := DigitRunEnd(s, j);
    if k == j then None
    else
      assert IsDigit(s[j]);
      var magnitude: int := RunValue(s, j, k);
      Some(if negative then -magnitude else magnitude)
  }

  predicate IsRadixDigit(c: char, radix: nat)
  {
    if radix == 16 then IsDigit(c) || 'a' <= c <= 'f' || 'A' <= c <= 'F'
    else '0' <= c && (c as int) < ('0' as int) + radix
  }

  function RadixDigitValue(c: char): nat
  {
    if IsDigit(c) then c as int - '0' as int
    else if 'a' <= c <= 'f' then c as int - 'a' as int + 10
    else if 'A' <= c <= 'F' then c as int - 'A' as int + 10
    else 0
  }

  function RadixValue(s: string, radix: nat): nat
  {
    if |s| == 0 then 0 else RadixValue(s[..|s| - 1], radix) * radix + RadixDigitValue(s[|s| - 1])
  }

  /** The radix of a `0x`, `0o` or `0b` prefix, or 0 for none. */
  function RadixOfPrefix(t: string): nat
  {
    if |t| < 2 || t[0] != '0' then 0
    else if t[1] == 'x' || t[1] == 'X' then 16
    else if t[1] == 'o' || t[1] == 'O' then 8
    else if t[1] == 'b' || t[1] == 'B' then 2
    else 0
  }

  /** An unsigned hexadecimal, octal or binary integer literal such as "0x1F". */
  predicate IsRadixLiteral(t: string)
  {
    RadixOfPrefix(t) != 0 && |t| > 2 && forall k :: 2 <= k < |t| ==> IsRadixDigit(t[k], RadixOfPrefix(t))
  }

  /** `Number(s)` for a string (StringToNumber of ECMA-262): surrounding white space is
      ignored, the empty string is 0, and otherwise the WHOLE text must be a decimal literal or
      an unsigned hexadecimal, octal or binary integer; `None` stands for NaN. */
  function StringToNumber(s: string): (r: Option<Number>)
    ensures Trim(s) == "" ==> r == Some(Fin(0.0))
  {
    var t := Trim(s);
    if t == "" then Some(Fin(0.0))
    else if IsRadixLiteral(t) then Some(IntNum(RadixValue(t[2..], RadixOfPrefix(t))))
    else
      match ScanDecimal(t, 0)
      case Some((lit, end)) => if end == |t| then Some(LiteralValue(lit)) else None
      case None => None
  }

  /** `Number(v)` (ToNumber) of a value. An array converts through its text: the empty array
      is 0, a one-element array converts like its element, and a longer one is NaN because its
      text holds a comma. */
  function ToNumber(v: JValue): (r: Option<Number>)
    ensures v.Num? ==> r == Some(v.n)
    ensures v.Arr? && |v.items| >= 2 ==> r.None?
    decreases v
  {
    match v
    case Num(n) => Some(n)
    case Str(s) => StringToNumber(s)
    case Arr(items) =>
      if |items| == 0 then Some(Fin(0.0)) else if |items| == 1 then ToNumber(items[0]) else None
  }

  /** `isNumeric(str)` of the front ends: the argument is a string, `isNaN(str)` is false (the
      whole text converts) and `parseFloat(str)` is not NaN. A missing form field reads as
      `undefined`, which is not a string. Blank text is refused although `Number` reads it as
      0, and the two conversions agree on what is accepted unless it is a `0x`, `0o` or `0b`
      integer, which `parseFloat` reads as 0. */
  predicate IsNumeric(field: Option<string>): (b: bool)
    ensures b ==> field.Some? && !AllSpaces(field.value)
    ensures b && !IsRadixLiteral(Trim(field.value)) ==> StringToNumber(field.value) == ParseFloat(field.value)
  {
    if field.Some? && StringToNumber(field.value).Some? && ParseFloat(field.value).Some? then
      NumberIsParseFloat(field.value);
      true
    else false
  }

  /** `parseFloat` of text `IsNumeric` accepted. */
  function NumericValue(field: Option<string>): (n: Number)
    requires IsNumeric(field)
    ensures ParseFloat(field.value) == Some(n)
  {
    ParseFloat(field.value).value
  }

  /** `(x | 0) === x` on a number: integral and within the signed 32-bit range. */
  predicate IsInt32(x: Number)
  {
    x.Fin? && x.r == x.r.Floor as real && -0x8000_0000 <= x.r.Floor < 0x8000_0000
  }

  /** `Number.isInteger(x)`: finite and integral, of any magnitude. */
  predicate IsIntegral(x: Number)
  {
    x.Fin? && x.r == x.r.Floor as real
  }

  /** `isInt(value)` of types.js, array-utils.js and app.js:
      `!isNaN(value) && (parseFloat(value.toString()) | 0) === parseFloat(value.toString())`.
      For a number, `toString` followed by `parseFloat` gives the number back. An array
      converts through its text: with one item both conversions see the item's text, with no
      items `parseFloat("")` is NaN, and with several `isNaN` is true (the text holds a comma).
      Whatever passes converts under `Number` to an integer, although not always to the one
      `parseFloat` reads: "0x10" passes as 0 and `Number` reads 16. */
  predicate IsInt(v: JValue): (b: bool)
    ensures b ==> ToNumber(v).Some? && IsIntegral(ToNumber(v).value)
  {
    match v
    case Num(n) => IsInt32(n)
    case Str(s) =>
      if StringToNumber(s).Some? && ParseFloat(s).Some? && IsInt32(ParseFloat(s).value) then
        IntTextIsIntegral(s);
        true
      else false
    case Arr(items) => |items| == 1 && IsInt(items[0])
  }

  /** Text `isInt` accepts converts to an integer under `Number` as well. */
  lemma IntTextIsIntegral(s: string)
    requires StringToNumber(s).Some? && ParseFloat(s).Some? && IsInt32(ParseFloat(s).value)
    ensures IsIntegral(StringToNumber(s).value)
  {
    NumberIsParseFloat(s);
  }

  /** `isIntegerArray(arr)`: the loop returns false at the first element failing `isInt`, so
      the array passes exactly when every element does (vacuously when it is empty). */
  predicate IsIntegerArray(values: seq<JValue>): (b: bool)
    ensures b <==> forall i :: 0 <= i < |values| ==> IsInt(values[i])
  {
    |values| == 0 || (IsInt(values[0]) && IsIntegerArray(values[1..]))
  }

  /** `isInteger(value)` of array-utils.js: `Number.isInteger(parseFloat(value))`. Digit text
      passes; blank text does not, although `Number` would read it as 0. */
  predicate IsIntegerText(s: string): (b: bool)
    ensures |s| > 0 && AllDigits(s) ==> b
    ensures AllSpaces(s) ==> !b
  {
    ParseFloat(s).Some? && IsIntegral(ParseFloat(s).value)
  }

  /** `isInteger(value)` of input-parser.js and app.js: `(x | 0) === x` for `x = parseFloat(value)`. */
  predicate IsInt32Text(s: string)
  {
    ParseFloat(s).Some? && IsInt32(ParseFloat(s).value)
  }

  /** The scanner reads the whole decimal rendering of an integer as one literal without a
      fraction or exponent. */
  lemma ScanIntLiteral(i: int)
    ensures ScanDecimal(IntToString(i), 0)
         == Some((DecimalLit(i < 0, if i >= 0 then i else -i, 0, 0), |IntToString(i)|))
  {
    var s := IntToString(i);
    var m: nat := if i >= 0 then i else -i;
    var j := if i >= 0 then 0 else 1;
    RenderingFront(i);
    NatToStringValue(m);
    DigitsScan(s, j, i < 0);
  }

  /** Digits that run to the end of the text, after an optional sign at `j`, scan as one
      literal without fraction or exponent. */
  lemma DigitsScan(s: string, j: nat, negative: bool)
    requires j < |s| && AllDigits(s[j..])
    ensures !StartsWithAt(s, j, "Infinity")
    ensures ScanDigits(s, j, negative) == Some((DecimalLit(negative, DigitsValue(s[j..]), 0, 0), |s|))
  {
    DigitsTail(s, j);
    assert ScanExponent(s, |s|) == (0, 0);
    assert Pow10(0) == 1;
  }

  /** The digit run from `j` reaches the end of a text whose tail is all digits, and reads as
      the tail's value. */
  lemma DigitsTail(s: string, j: nat)
    requires j <= |s| && AllDigits(s[j..])
    ensures DigitRunEnd(s, j) == |s| && RunValue(s, j, |s|) == DigitsValue(s[j..])
    ensures WholeLength(s, j) == |s| - j && !HasPoint(s, j) && FractionLength(s, j) == 0
    ensures j < |s| ==> IsDigit(s[j]) && !StartsWithAt(s, j, "Infinity")
  {
    DigitRunToEnd(s, j);
    assert s[j..|s|] == s[j..];
    RunValueIsDigitsValue(s, j, |s|);
    if j < |s| {
      assert s[j..][0] == s[j];
    }
  }

  lemma IntLiteralValue(i: int)
    ensures LiteralValue(DecimalLit(i < 0, if i >= 0 then i else -i, 0, 0)) == IntNum(i)
  {
    WholeLiteralValue(i < 0, if i >= 0 then i else -i);
  }

  /** A literal with no fraction and no exponent denotes its digits' value. */
  lemma WholeLiteralValue(negative: bool, d: nat)
    ensures LiteralValue(DecimalLit(negative, d, 0, 0)) == Fin(if negative then -(d as real) else d as real)
  {
    assert Pow10(0) == 1;
    var v := d as real;
    assert v / (1 as real) == v;
    assert v * (1 as real) == v;
  }

  lemma DigitRunToEnd(s: string, j: nat)
    requires j <= |s| && AllDigits(s[j..])
    ensures DigitRunEnd(s, j) == |s|
  {
  }

  /** The rendering of an integer starts with a minus sign when the integer is negative and
      with a digit otherwise; the digits of the magnitude follow the sign. */
  lemma RenderingFront(i: int)
    ensures IntToString(i)[if i >= 0 then 0 else 1..] == NatToString(if i >= 0 then i else -i)
    ensures (IntToString(i)[0] == '-') == (i < 0) && IntToString(i)[0] != '+'
    ensures LeadingSpaces(IntToString(i)) == 0
  {
    var s := IntToString(i);
    var d := NatToString(if i >= 0 then i else -i);
    if i >= 0 {
      assert s[0] == d[0] && IsDigit(d[0]);
    }
    assert !IsJsSpace(s[0]);
  }

  /** `parseInt` reads back the decimal rendering of an integer. */
  lemma ParseIntRoundTrip(i: int)
    ensures ParseInt(IntToString(i)) == Some(i)
  {
    var s := IntToString(i);
    var m: nat := if i >= 0 then i else -i;
    var j := if i >= 0 then 0 else 1;
    RenderingFront(i);
    NatToStringValue(m);
    DigitsTail(s, j);
    var v: int := RunValue(s, j, |s|);
    assert ParseInt(s) == Some(if i < 0 then -v else v);
  }

  /** `parseFloat` reads back the decimal rendering of an integer. */
  lemma ParseFloatRoundTrip(i: int)
    ensures ParseFloat(IntToString(i)) == Some(IntNum(i))
  {
    var s := IntToString(i);
    assert LeadingSpaces(s) == 0 by {
      assert !IsJsSpace(s[0]);
    }
    ScanIntLiteral(i);
    IntLiteralValue(i);
  }

  /** `Number` reads back the decimal rendering of an integer. */
  lemma NumberRoundTrip(i: int)
    ensures StringToNumber(IntToString(i)) == Some(IntNum(i))
  {
    var s := IntToString(i);
    assert !IsJsSpace(s[0]) && !IsJsSpace(s[|s| - 1]);
    TrimIdentity(s);
    assert RadixOfPrefix(s) == 0;
    ScanIntLiteral(i);
    IntLiteralValue(i);
  }

  /** Rendering an integer and reading it back with any of the three conversions gives the
      integer; in particular the rendering passes `isNumeric`. */
  lemma IntRoundTrip(i: int)
    ensures ParseInt(IntToString(i)) == Some(i)
    ensures ParseFloat(IntToString(i)) == Some(IntNum(i))
    ensures StringToNumber(IntToString(i)) == Some(IntNum(i))
    ensures IsNumeric(Some(IntToString(i)))
  {
    ParseIntRoundTrip(i);
    ParseFloatRoundTrip(i);
    NumberRoundTrip(i);
  }

  /** The two `isInteger` helpers disagree: the 32-bit test implies the unbounded one, but
      not conversely ("3000000000" is an integer beyond 32 bits). */
  lemma IsIntegerVariants(s: string)
    ensures IsInt32Text(s) ==> IsIntegerText(s)
    ensures IsIntegerText(IntToString(3000000000)) && !IsInt32Text(IntToString(3000000000))
  {
    IntRoundTrip(3000000000);
  }

  /** `isNumeric` needs both conversions: the empty field converts to 0 under `Number` but
      `parseFloat` finds no digits, and "5px" is the other way round; a missing field is
      never numeric. */
  lemma IsNumericNeedsBoth()
    ensures StringToNumber("") == Some(Fin(0.0)) && ParseFloat("") == None && !IsNumeric(Some(""))
    ensures StringToNumber("5px") == None && ParseFloat("5px") == Some(Fin(5.0)) && !IsNumeric(Some("5px"))
    ensures !IsNumeric(None)
  {
    EmptyText();
    FivePx();
  }

  lemma EmptyText()
    ensures StringToNumber("") == Some(Fin(0.0)) && ParseFloat("") == None
  {
    assert Trim("") == "";
  }

  lemma FivePx()
    ensures StringToNumber("5px") == None && ParseFloat("5px") == Some(Fin(5.0))
  {
    FivePxNumber();
    FivePxFloat();
  }

  lemma FivePxNumber()
    ensures StringToNumber("5px") == None
  {
    FivePxScan();
    TrimIdentity("5px");
  }

  lemma FivePxFloat()
    ensures ParseFloat("5px") == Some(Fin(5.0))
  {
    FivePxScan();
    assert LeadingSpaces("5px") == 0;
    WholeLiteralValue(false, 5);
  }


  /** The decimal literal at the start of "5px" is "5". */
  lemma FivePxScan()
    ensures ScanDecimal("5px", 0) == Some((DecimalLit(false, 5, 0, 0), 1))
  {
    var s := "5px";
    assert !StartsWithAt(s, 0, "Infinity");
    assert DigitRunEnd(s, 1) == 1;
    assert DigitRunEnd(s, 0) == 1;
    assert RunValue(s, 0, 1) == 5;
    assert ScanExponent(s, 1) == (0, 0);
    assert Pow10(0) == 1;
  }



  // ---------------------------------------------------------------- Number and parseFloat

  /** A digit string on its own scans as one whole literal without fraction or exponent;
      text of white space only holds no literal. */
  lemma DigitTextScan(s: string)
    ensures |s| > 0 && AllDigits(s) ==>
              LeadingSpaces(s) == 0 && ScanDecimal(s, 0) == Some((DecimalLit(false, DigitsValue(s), 0, 0), |s|))
              && LiteralValue(DecimalLit(false, DigitsValue(s), 0, 0)) == Fin(DigitsValue(s) as real)
    ensures AllSpaces(s) ==> ScanDecimal(s, LeadingSpaces(s)).None?
  {
    if |s| > 0 && AllDigits(s) {
      DigitStringScan(s);
    }
    if AllSpaces(s) {
      assert LeadingSpaces(s) == |s|;
      EndScan(s);
    }
  }

  lemma DigitStringScan(s: string)
    requires |s| > 0 && AllDigits(s)
    ensures LeadingSpaces(s) == 0 && ScanDecimal(s, 0) == Some((DecimalLit(false, DigitsValue(s), 0, 0), |s|))
    ensures LiteralValue(DecimalLit(false, DigitsValue(s), 0, 0)) == Fin(DigitsValue(s) as real)
  {
    assert !IsJsSpace(s[0]);
    assert s[0..] == s;
    DigitsScan(s, 0, false);
    WholeLiteralValue(false, DigitsValue(s));
  }

  /** Nothing is left to scan at the end of a text. */
  lemma EndScan(s: string)
    ensures ScanDecimal(s, |s|).None?
  {
  }

  /** A character no literal continues with: neither a digit, a point, an exponent mark nor
      a sign. */
  predicate Inert(c: char)
  {
    !IsDigit(c) && c != '.' && c != 'e' && c != 'E' && c != '+' && c != '-'
  }

  /** The text ends at `k`, or a character that ends any literal follows there. */
  predicate StopsAt(s: string, k: nat)
  {
    k == |s| || (k < |s| && Inert(s[k]))
  }

  /** `s` from `i` and `u` from `j` hold the same `n` characters. */
  predicate Agree(s: string, i: nat, u: string, j: nat, n: nat)
    decreases n
  {
    i + n <= |s| && j + n <= |u| && (n == 0 || (s[i] == u[j] && Agree(s, i + 1, u, j + 1, n - 1)))
  }

  lemma {:induction false} AgreeAt(s: string, i: nat, u: string, j: nat, n: nat, k: nat)
    requires Agree(s, i, u, j, n) && k < n
    ensures s[i + k] == u[j + k]
    decreases k
  {
    if k > 0 {
      AgreeAt(s, i + 1, u, j + 1, n - 1, k - 1);
    }
  }

  /** A run of digits inside a stretch both texts share ends at the same place in both. */
  lemma {:induction false} DigitRunLocal(s: string, i: nat, u: string, j: nat, n: nat, k: nat)
    requires Agree(s, i, u, j, n) && StopsAt(s, i + n) && StopsAt(u, j + n) && k <= n
    ensures i + k <= DigitRunEnd(s, i + k) <= i + n
    ensures DigitRunEnd(s, i + k) - i == DigitRunEnd(u, j + k) - j
    decreases n - k
  {
    if k < n {
      AgreeAt(s, i, u, j, n, k);
      if IsDigit(s[i + k]) {
        DigitRunLocal(s, i, u, j, n, k + 1);
      }
    }
  }

  /** The same digits read as the same number. */
  lemma {:induction false} RunValueLocal(s: string, i: nat, u: string, j: nat, n: nat, p: nat, q: nat)
    requires Agree(s, i, u, j, n) && p <= q <= n
    ensures RunValue(s, i + p, i + q) == RunValue(u, j + p, j + q)
    decreases q - p
  {
    if q > p {
      AgreeAt(s, i, u, j, n, q - 1);
      RunValueLocal(s, i, u, j, n, p, q - 1);
    }
  }

  /** The same characters spell the same word. */
  lemma {:induction false} StartsLocal(s: string, i: nat, u: string, j: nat, n: nat, k: nat, w: string)
    requires Agree(s, i, u, j, n) && k + |w| <= n
    ensures StartsWithAt(s, i + k, w) == StartsWithAt(u, j + k, w)
    decreases |w|
  {
    if |w| > 0 {
      AgreeAt(s, i, u, j, n, k);
      StartsLocal(s, i, u, j, n, k + 1, w[1..]);
    }
  }

  /** So does an exponent part. */
  lemma ExponentLocal(s: string, i: nat, u: string, j: nat, n: nat, b: nat)
    requires Agree(s, i, u, j, n) && StopsAt(s, i + n) && StopsAt(u, j + n) && b <= n
    ensures b + ScanExponent(s, i + b).1 <= n
    ensures ScanExponent(u, j + b) == ScanExponent(s, i + b)
  {
    if b < n {
      AgreeAt(s, i, u, j, n, b);
      if s[i + b] == 'e' || s[i + b] == 'E' {
        if b + 1 < n {
          AgreeAt(s, i, u, j, n, b + 1);
        }
        var signed := b + 1 < n && (s[i + b + 1] == '-' || s[i + b + 1] == '+');
        var k := if signed then b + 2 else b + 1;
        DigitRunLocal(s, i, u, j, n, k);
        var c := DigitRunEnd(s, i + k) - i;
        RunValueLocal(s, i, u, j, n, k, c);
      }
    }
  }

  /** The scanner reads nothing past the literal it finds and the character after it: a text
      that agrees with `s` on that literal and also stops after it scans the same literal. */
  lemma ScanLocal(s: string, i: nat, u: string, j: nat, n: nat)
    requires Agree(s, i, u, j, n) && StopsAt(s, i + n) && StopsAt(u, j + n)
    requires ScanDecimal(s, i).Some? && ScanDecimal(s, i).value.1 == i + n
    ensures ScanDecimal(u, j) == Some((ScanDecimal(s, i).value.0, j + n))
  {
    AgreeAt(s, i, u, j, n, 0);
    var m := if s[i] == '-' || s[i] == '+' then 1 else 0;
    if StartsWithAt(s, i + m, "Infinity") {
      StartsLocal(s, i, u, j, n, m, "Infinity");
    } else {
      ScanLocalDecimal(s, i, u, j, n, m);
    }
  }

  lemma ScanLocalDecimal(s: string, i: nat, u: string, j: nat, n: nat, m: nat)
    requires Agree(s, i, u, j, n) && StopsAt(s, i + n) && StopsAt(u, j + n)
    requires ScanDecimal(s, i).Some? && ScanDecimal(s, i).value.1 == i + n
    requires 0 < n && s[i] == u[j]
    requires m == if s[i] == '-' || s[i] == '+' then 1 else 0
    requires !StartsWithAt(s, i + m, "Infinity")
    ensures ScanDecimal(u, j) == Some((ScanDecimal(s, i).value.0, j + n))
  {
    var negative := s[i] == '-';
    assert ScanDecimal(s, i) == ScanDigits(s, i + m, negative);
    DigitsLocal(s, i, u, j, n, m, negative);
    AgreeAt(s, i, u, j, n, m);
  }

  /** The part after the sign scans alike in both texts. */
  lemma DigitsLocal(s: string, i: nat, u: string, j: nat, n: nat, m: nat, negative: bool)
    requires Agree(s, i, u, j, n) && StopsAt(s, i + n) && StopsAt(u, j + n) && m <= n
    requires ScanDigits(s, i + m, negative).Some? && ScanDigits(s, i + m, negative).value.1 == i + n
    ensures ScanDigits(u, j + m, negative) == Some((ScanDigits(s, i + m, negative).value.0, j + n))
  {
    var w, hasDot, f := DigitsRuns(s, i, u, j, n, m);
    DigitsAlike(s, i, u, j, n, m, w, hasDot, f, negative);
  }

  /** The runs of integer and fraction digits after `m` have the same lengths `w` and `f` in
      `s` from `i` and in `u` from `j`, read the same, and have the same exponent after them. */
  lemma DigitsRuns(s: string, i: nat, u: string, j: nat, n: nat, m: nat) returns (w: nat, hasDot: bool, f: nat)
    requires Agree(s, i, u, j, n) && StopsAt(s, i + n) && StopsAt(u, j + n) && m <= n
    ensures RunsAlike(s, i + m, u, j + m, w, hasDot, f)
  {
    w, hasDot := WholeRunAlike(s, i, u, j, n, m);
    f := FractionRunAlike(s, i, u, j, n, m, w, hasDot);
    var b := if hasDot then m + w + 1 + f else m + w;
    ExponentLocal(s, i, u, j, n, b);
    assert DigitsEnd(i + m, w, hasDot, f) == i + b && DigitsEnd(j + m, w, hasDot, f) == j + b;
  }

  /** The integer digit runs after `m` have the same length `w` and value in both texts, and
      a point follows them in both or in neither. */
  lemma WholeRunAlike(s: string, i: nat, u: string, j: nat, n: nat, m: nat) returns (w: nat, hasDot: bool)
    requires Agree(s, i, u, j, n) && StopsAt(s, i + n) && StopsAt(u, j + n) && m <= n
    ensures m + w <= n && (hasDot ==> m + w < n)
    ensures WholeLength(s, i + m) == w && WholeLength(u, j + m) == w
    ensures HasPoint(s, i + m) == hasDot && HasPoint(u, j + m) == hasDot
    ensures RunValue(s, i + m, i + m + w) == RunValue(u, j + m, j + m + w)
  {
    DigitRunLocal(s, i, u, j, n, m);
    w := DigitRunEnd(s, i + m) - i - m;
    if m + w < n {
      AgreeAt(s, i, u, j, n, m + w);
    }
    hasDot := m + w < n && s[i + m + w] == '.';
    RunValueLocal(s, i, u, j, n, m, m + w);
  }

  /** After a point at `m + w`, the fraction digit runs have the same length `f` and value in
      both texts. */
  lemma FractionRunAlike(s: string, i: nat, u: string, j: nat, n: nat, m: nat, w: nat, hasDot: bool) returns (f: nat)
    requires Agree(s, i, u, j, n) && StopsAt(s, i + n) && StopsAt(u, j + n) && m + w <= n && (hasDot ==> m + w < n)
    requires WholeLength(s, i + m) == w && WholeLength(u, j + m) == w
    requires HasPoint(s, i + m) == hasDot && HasPoint(u, j + m) == hasDot
    ensures hasDot ==> m + w + 1 + f <= n
    ensures FractionLength(s, i + m) == f && FractionLength(u, j + m) == f
    ensures hasDot ==> RunValue(s, i + m + w + 1, i + m + w + 1 + f) == RunValue(u, j + m + w + 1, j + m + w + 1 + f)
  {
    f := 0;
    if hasDot {
      var a := m + w + 1;
      DigitRunLocal(s, i, u, j, n, a);
      f := DigitRunEnd(s, i + a) - i - a;
      RunValueLocal(s, i, u, j, n, a, a + f);
    }
  }

  /** `s` at `p` and `u` at `q` hold integer digit runs of the same length `w` and value,
      then either both a point and fraction digit runs of the same length `f` and value, or
      neither, and then the same exponent part. */
  predicate RunsAlike(s: string, p: nat, u: string, q: nat, w: nat, hasDot: bool, f: nat)
  {
    && p <= |s| && q <= |u|
    && WholeLength(s, p) == w && WholeLength(u, q) == w
    && HasPoint(s, p) == hasDot && HasPoint(u, q) == hasDot
    && FractionLength(s, p) == f && FractionLength(u, q) == f
    && RunValue(s, p, p + w) == RunValue(u, q, q + w)
    && (hasDot ==> RunValue(s, p + w + 1, p + w + 1 + f) == RunValue(u, q + w + 1, q + w + 1 + f))
    && ScanExponent(s, DigitsEnd(p, w, hasDot, f)) == ScanExponent(u, DigitsEnd(q, w, hasDot, f))
  }

  /** Digit runs of the same lengths and values with the same exponent after them scan as the
      same literal, the second ending as far after `j` as the first ends after `i`. */
  lemma DigitsAlike(s: string, i: nat, u: string, j: nat, n: nat, m: nat, w: nat, hasDot: bool, f: nat, negative: bool)
    requires RunsAlike(s, i + m, u, j + m, w, hasDot, f)
    requires ScanDigits(s, i + m, negative).Some? && ScanDigits(s, i + m, negative).value.1 == i + n
    ensures ScanDigits(u, j + m, negative) == Some((ScanDigits(s, i + m, negative).value.0, j + n))
  {
    AssembleAlike(s, i + m, u, j + m, w, hasDot, f, negative);
    SameLiteral(ScanDigits(u, j + m, negative), ScanDigits(s, i + m, negative), j + n);
  }

  /** Two scan results that found the same literal, the first ending at `k`. */
  lemma SameLiteral(r: Option<(Literal, nat)>, o: Option<(Literal, nat)>, k: nat)
    requires r.Some? && o.Some? && r.value.0 == o.value.0 && r.value.1 == k
    ensures r == Some((o.value.0, k))
  {
  }

  /** Runs of the same lengths and values with the same exponent after them assemble into the
      same literal. */
  lemma AssembleAlike(s: string, p: nat, u: string, q: nat, w: nat, hasDot: bool, f: nat, negative: bool)
    requires DigitsEnd(p, w, hasDot, f) <= |s| && DigitsEnd(q, w, hasDot, f) <= |u| && (!hasDot ==> f == 0)
    requires RunValue(s, p, p + w) == RunValue(u, q, q + w)
    requires hasDot ==> RunValue(s, p + w + 1, p + w + 1 + f) == RunValue(u, q + w + 1, q + w + 1 + f)
    requires ScanExponent(s, DigitsEnd(p, w, hasDot, f)) == ScanExponent(u, DigitsEnd(q, w, hasDot, f))
    ensures Assemble(u, q, w, hasDot, f, negative).Some? == Assemble(s, p, w, hasDot, f, negative).Some?
    ensures Assemble(s, p, w, hasDot, f, negative).Some? ==>
              Assemble(u, q, w, hasDot, f, negative).value.0 == Assemble(s, p, w, hasDot, f, negative).value.0
              && Assemble(u, q, w, hasDot, f, negative).value.1 == Assemble(s, p, w, hasDot, f, negative).value.1 - p + q
  {
  }

  /** `Trim(s)` is the stretch of `s` after its leading white space, and only white space,
      which ends any literal, follows it. */
  lemma TrimStretch(s: string)
    ensures Agree(Trim(s), 0, s, LeadingSpaces(s), |Trim(s)|)
    ensures StopsAt(s, LeadingSpaces(s) + |Trim(s)|)
  {
    var a := LeadingSpaces(s);
    var t := s[a..];
    var b := |t| - TrailingSpaces(t);
    assert Trim(s) == s[a..a + b];
    AgreeOfSlice(s, a, b);
    if a + b < |s| {
      assert s[a + b] == t[b] && IsJsSpace(t[b]);
      SpaceIsInert(t[b]);
    }
  }

  /** A stretch of a text agrees with the text there. */
  lemma AgreeOfSlice(s: string, a: nat, n: nat)
    requires a + n <= |s|
    ensures Agree(s[a..a + n], 0, s, a, n)
  {
    AgreeOfSliceFrom(s, a, n, 0);
  }

  lemma {:induction false} AgreeOfSliceFrom(s: string, a: nat, n: nat, k: nat)
    requires a + n <= |s| && k <= n
    ensures Agree(s[a..a + n], k, s, a + k, n - k)
    decreases n - k
  {
    if k < n {
      AgreeOfSliceFrom(s, a, n, k + 1);
    }
  }

  /** White space ends any literal. */
  lemma SpaceIsInert(c: char)
    requires IsJsSpace(c)
    ensures Inert(c)
  {
  }

  /** Where `Number(s)` reads a decimal literal and `parseFloat(s)` reads something, they read
      the same number: the literal fills the trimmed text, and `parseFloat` finds it after the
      leading white space. */
  lemma NumberIsParseFloat(s: string)
    requires StringToNumber(s).Some? && ParseFloat(s).Some?
    ensures !IsRadixLiteral(Trim(s)) ==> StringToNumber(s) == ParseFloat(s)
  {
    var t := Trim(s);
    var a := LeadingSpaces(s);
    TrimStretch(s);
    assert t != "" by {
      assert !AllSpaces(s);
      assert a < |s|;
    }
    if !IsRadixLiteral(t) {
      ScanLocal(t, 0, s, a, |t|);
    }
  }

  /** `parseFloat` skips the white space in front of a literal and ignores whatever follows
      it, provided the first character after it cannot continue a literal. */
  lemma ParseFloatReadsLiteral(w: string, s: string, t: string)
    requires AllSpaces(w) && ScanDecimal(s, 0).Some? && ScanDecimal(s, 0).value.1 == |s|
    requires t == "" || Inert(t[0])
    ensures ParseFloat(w + s + t) == Some(LiteralValue(ScanDecimal(s, 0).value.0))
  {
    var u := w + s + t;
    LiteralStartsSolid(s);
    assert u[|w|..] == s + t;
    LeadingSpacesOf(u, |w|);
    AgreeInside(w, s, t);
    ScanLocal(s, 0, u, |w|, |s|);
  }

  /** A literal never starts with white space. */
  lemma LiteralStartsSolid(s: string)
    requires ScanDecimal(s, 0).Some?
    ensures !IsJsSpace(s[0])
  {
    var j := if s[0] == '-' || s[0] == '+' then 1 else 0;
    if !StartsWithAt(s, j, "Infinity") && j == 0 && WholeLength(s, 0) == 0 {
      assert HasPoint(s, 0);
    }
  }

  /** White space up to `n` and none at `n` makes `n` the count of leading white space. */
  lemma {:induction false} LeadingSpacesOf(s: string, n: nat)
    requires n < |s| && !IsJsSpace(s[n]) && forall k :: 0 <= k < n ==> IsJsSpace(s[k])
    ensures LeadingSpaces(s) == n
  {
    if n > 0 {
      LeadingSpacesOf(s[1..], n - 1);
    }
  }

  /** The middle part of `w + s + t` agrees with `s`, and stops where `s` ends when `t` starts
      with a character that ends any literal. */
  lemma AgreeInside(w: string, s: string, t: string)
    requires t == "" || Inert(t[0])
    ensures Agree(s, 0, w + s + t, |w|, |s|)
    ensures StopsAt(s, |s|) && StopsAt(w + s + t, |w| + |s|)
  {
    var u := w + s + t;
    assert u[|w|..|w| + |s|] == s;
    AgreeOfSlice(u, |w|, |s|);
    if t != "" {
      assert u[|w| + |s|] == t[0];
    }
  }

  /** `parseFloat(" 2.5x")` is 2.5: the blank in front and the text behind are ignored, and
      the fraction is read. */
  lemma ParseFloatFraction()
    ensures ParseFloat(" 2.5x") == Some(Fin(2.5))
  {
    FractionScan();
    ParseFloatReadsLiteral(" ", "2.5", "x");
    assert " " + "2.5" + "x" == " 2.5x";
  }

  lemma FractionScan()
    ensures ScanDecimal("2.5", 0) == Some((DecimalLit(false, 25, 1, 0), 3))
    ensures LiteralValue(DecimalLit(false, 25, 1, 0)) == Fin(2.5)
  {
    var a := "2.5";
    assert !StartsWithAt(a, 0, "Infinity");
    assert DigitRunEnd(a, 2) == 3;
    assert DigitRunEnd(a, 0) == 1;
    assert RunValue(a, 0, 1) == 2 && RunValue(a, 2, 3) == 5;
    assert ScanExponent(a, 3) == (0, 0);
    assert Pow10(1) == 10;
  }

  /** `parseFloat("-1e3")` is -1000: the sign and the exponent are read. */
  lemma ParseFloatExponent()
    ensures ParseFloat("-1e3") == Some(Fin(-1000.0))
  {
    ExponentScan();
    ParseFloatReadsLiteral("", "-1e3", "");
    assert "" + "-1e3" + "" == "-1e3";
  }

  lemma ExponentScan()
    ensures ScanDecimal("-1e3", 0) == Some((DecimalLit(true, 1, 0, 3), 4))
    ensures LiteralValue(DecimalLit(true, 1, 0, 3)) == Fin(-1000.0)
  {
    var b := "-1e3";
    assert !StartsWithAt(b, 1, "Infinity");
    assert DigitRunEnd(b, 1) == 2 && DigitRunEnd(b, 4) == 4 && DigitRunEnd(b, 3) == 4;
    assert RunValue(b, 1, 2) == 1 && RunValue(b, 3, 4) == 3;
    assert ScanExponent(b, 2) == (3, 2);
    assert Pow10(0) == 1 && Pow10(3) == 1000;
  }
}
