/** Highlighting cubes by value or by range, the bounds of the colour scale, and the value
    histogram drawn next to the view.

    Many proofs here start with `hide StringToNumber, Trim, ParseFloat, IntToString;`. The
    text-to-number conversions are large definitions the proofs only need through their
    contracts and the lemmas about them; hiding their bodies keeps each proof small. */
module Highlighting {
  import opened JsValues
  import opened Text
  import opened Numerals
  import opened Comparison

  /** The three front ends: the module-based one (public/js/visualization.js and its
      helpers), the single-file public/app.js and the older public/viz.js. */
  datatype Frontend = ModularUi | AppUi | VizUi

  /** Opacity of a highlighted cube. */
  const Bright: real := 0.8

  /** Opacity of a cube that is not highlighted: visualization.js dims to 0.1, the other two
      hide the cube. */
  function DimLevel(f: Frontend): (level: real)
    ensures 0.0 <= level < Bright
  {
    if f.ModularUi? then 0.1 else 0.0
  }

  /** JavaScript `value === x` for a cube value and a number. */
  predicate StrictEquals(v: JValue, x: Number)
  {
    v == Num(x)
  }

  /** JavaScript `value == x`: the value is converted to a number first. */
  predicate LooseEquals(v: JValue, x: Number)
  {
    ToNumber(v) == Some(x)
  }

  /** Whether `highlightValue(x)` lights a cube holding `v`: viz.js compares with `==`, the
      other front ends with `===`. */
  predicate Matches(f: Frontend, v: JValue, x: Number)
  {
    if f.VizUi? then LooseEquals(v, x) else StrictEquals(v, x)
  }

  /** `low < v && v < high`: both bounds strict, the value converted to a number (NaN
      compares false). */
  predicate InRange(low: Number, v: JValue, high: Number)
  {
    ToNumber(v).Some? && Lt(low, ToNumber(v).value) && Lt(ToNumber(v).value, high)
  }

  /** `highlightValue(x)`: the new opacity of every cube, in cube order. */
  function HighlightValue(f: Frontend, values: seq<JValue>, x: Number): (opacity: seq<real>)
    ensures |opacity| == |values|
    ensures forall i :: 0 <= i < |values| ==>
              (opacity[i] == Bright <==> Matches(f, values[i], x))
              && (opacity[i] == Bright || opacity[i] == DimLevel(f))
  {
    seq(|values|, i requires 0 <= i < |values| => if Matches(f, values[i], x) then Bright else DimLevel(f))
  }

  /** `highlightInequality(low, high)`: the new opacity of every cube, in cube order. */
  function HighlightInequality(f: Frontend, values: seq<JValue>, low: Number, high: Number)
    : (opacity: seq<real>)
    ensures |opacity| == |values|
    ensures forall i :: 0 <= i < |values| ==>
              (opacity[i] == Bright <==> InRange(low, values[i], high))
              && (opacity[i] == Bright || opacity[i] == DimLevel(f))
  {
    seq(|values|, i requires 0 <= i < |values| =>
      if InRange(low, values[i], high) then Bright else DimLevel(f))
  }

  /** Every cube the strict comparison lights is lit by viz.js's loose one too; the loose one
      also lights the text "5" and, for 0, an empty array. */
  lemma StrictWithinLoose(values: seq<JValue>, x: Number)
    ensures forall i :: 0 <= i < |values| && HighlightValue(AppUi, values, x)[i] == Bright ==>
              HighlightValue(VizUi, values, x)[i] == Bright
    ensures HighlightValue(VizUi, [Str("5")], IntNum(5)) == [Bright]
    ensures HighlightValue(AppUi, [Str("5")], IntNum(5)) == [0.0]
    ensures HighlightValue(VizUi, [Arr([])], IntNum(0)) == [Bright]
  {
    assert StringToNumber("5") == Some(IntNum(5)) by {
      NumberRoundTrip(5);
      assert IntToString(5) == "5";
    }
  }

  /** A range whose lower bound is not below its upper bound lights nothing. */
  lemma EmptyRangeLightsNothing(f: Frontend, values: seq<JValue>, low: Number, high: Number)
    requires !Lt(low, high)
    ensures forall i :: 0 <= i < |values| ==> HighlightInequality(f, values, low, high)[i] == DimLevel(f)
  {
    forall i | 0 <= i < |values|
      ensures !InRange(low, values[i], high)
    {
      if InRange(low, values[i], high) {
        LtTransitive(low, ToNumber(values[i]).value, high);
      }
    }
  }

  /** With the open bounds the inequality handlers use for an empty field (-Infinity and
      +Infinity), a cube is lit exactly when its value converts to a finite number. */
  lemma OpenRangeLightsFinite(f: Frontend, values: seq<JValue>)
    ensures forall i :: 0 <= i < |values| ==>
              (HighlightInequality(f, values, NegInf, PosInf)[i] == Bright
               <==> ToNumber(values[i]).Some? && ToNumber(values[i]).value.Fin?)
  {
  }

  // ---------------------------------------------------------------- scale bounds

  /** `isNumeric2(v)`: `!isNaN(v) && isFinite(v)`, i.e. the value converts to a finite number. */
  predicate IsFiniteValue(v: JValue)
  {
    ToNumber(v).Some? && ToNumber(v).value.Fin?
  }

  /** The finite numbers the values convert to, in order. */
  function Finites(values: seq<JValue>): (f: seq<Number>)
    ensures forall j :: 0 <= j < |f| ==> f[j].Fin?
  {
    if |values| == 0 then []
    else
      var v := values[|values| - 1];
      Finites(values[..|values| - 1]) + (if IsFiniteValue(v) then [ToNumber(v).value] else [])
  }

  /** No finite numbers come out exactly when no value passes `isNumeric2`. */
  lemma {:induction false} FinitesNone(values: seq<JValue>)
    ensures |Finites(values)| == 0 <==> forall i :: 0 <= i < |values| ==> !IsFiniteValue(values[i])
  {
    hide StringToNumber, Trim, ParseFloat, IntToString;
    if |values| > 0 {
      var p := values[..|values| - 1];
      FinitesNone(p);
    }
  }

  /** `lo` and `hi` are the least and the greatest of `f`, or `(+Infinity, -Infinity)` when
      `f` is empty. */
  predicate BoundsOf(f: seq<Number>, lo: Number, hi: Number)
  {
    if |f| == 0 then lo == PosInf && hi == NegInf
    else lo in f && hi in f && forall j :: 0 <= j < |f| ==> Le(lo, f[j]) && Le(f[j], hi)
  }

  /** `lo` and `hi` are the least and the greatest finite values among `values`, or
      `(+Infinity, -Infinity)` when there is none. */
  predicate IsBounds(values: seq<JValue>, lo: Number, hi: Number)
  {
    BoundsOf(Finites(values), lo, hi)
  }

  /** One step of a numeric scan: comparing a new number against the bounds so far gives the
      bounds of the longer list. */
  lemma BoundsStep(f: seq<Number>, x: Number, lo: Number, hi: Number)
    requires x.Fin? && forall j :: 0 <= j < |f| ==> f[j].Fin?
    requires BoundsOf(f, lo, hi)
    ensures BoundsOf(f + [x], if Lt(x, lo) then x else lo, if Lt(hi, x) then x else hi)
  {
    hide StringToNumber, Trim, ParseFloat, IntToString;
    var s := f + [x];
    var lo' := if Lt(x, lo) then x else lo;
    var hi' := if Lt(hi, x) then x else hi;
    if |f| > 0 {
      LtTrichotomy(x, lo);
      LtTrichotomy(hi, x);
      forall j | 0 <= j < |s|
        ensures Le(lo', s[j]) && Le(s[j], hi')
      {
        if j < |f| {
          if Lt(x, lo) && Lt(lo, s[j]) {
            LtTransitive(x, lo, s[j]);
          }
          if Lt(hi, x) && Lt(s[j], hi) {
            LtTransitive(s[j], hi, x);
          }
        }
      }
    }
  }

  /** One comparison of a bound scan, `if (value < min) min = value; if (value > max) max =
      value;`, with JavaScript's `<` on the values as they are: two strings compare as text. */
  function Extend(v: JValue, lo: JValue, hi: JValue): (JValue, JValue)
  {
    (if JsLess(v, lo) then v else lo, if JsLess(hi, v) then v else hi)
  }

  /** One turn of `minMax`'s loop: a value passing `isNumeric2` is compared with the bounds,
      any other is skipped. */
  function Widen(v: JValue, lo: JValue, hi: JValue): (JValue, JValue)
  {
    if IsFiniteValue(v) then Extend(v, lo, hi) else (lo, hi)
  }

  /** The bounds `minMax`'s loop holds after the given values, from the starting pair
      +Infinity and -Infinity. */
  function RawBounds(values: seq<JValue>): (JValue, JValue)
  {
    if |values| == 0 then (Num(PosInf), Num(NegInf))
    else
      var b := RawBounds(values[..|values| - 1]);
      Widen(values[|values| - 1], b.0, b.1)
  }

  /** The scan ends on the starting pair exactly when no value passes `isNumeric2`;
      otherwise both bounds are values that pass. */
  lemma {:induction false} RawBoundsAmongValues(values: seq<JValue>)
    ensures |Finites(values)| == 0 <==> RawBounds(values) == (Num(PosInf), Num(NegInf))
    ensures |Finites(values)| > 0 ==>
              && RawBounds(values).0 in values && IsFiniteValue(RawBounds(values).0)
              && RawBounds(values).1 in values && IsFiniteValue(RawBounds(values).1)
  {
    hide StringToNumber, Trim, ParseFloat, IntToString;
    if |values| > 0 {
      var p := values[..|values| - 1];
      var v := values[|values| - 1];
      RawBoundsAmongValues(p);
    }
  }

  /** When every value passing `isNumeric2` is a number, the scan finds the least and the
      greatest of them. */
  lemma {:induction false} RawBoundsOfNumbers(values: seq<JValue>)
    requires forall i :: 0 <= i < |values| && IsFiniteValue(values[i]) ==> values[i].Num?
    ensures RawBounds(values).0.Num? && RawBounds(values).1.Num?
    ensures IsBounds(values, RawBounds(values).0.n, RawBounds(values).1.n)
  {
    hide StringToNumber, Trim, ParseFloat, IntToString;
    if |values| > 0 {
      var p := values[..|values| - 1];
      var v := values[|values| - 1];
      RawBoundsOfNumbers(p);
      var b := RawBounds(p);
      if IsFiniteValue(v) {
        ComparisonCases(v, b.0);
        ComparisonCases(b.1, v);
        BoundsStep(Finites(p), v.n, b.0.n, b.1.n);
      }
    }
  }

  /** `lo` and `hi` are strings, the first and the last in text order among the values that
      pass `isNumeric2` and are strings. */
  predicate IsTextBounds(values: seq<JValue>, lo: JValue, hi: JValue)
  {
    && lo.Str? && hi.Str?
    && forall i :: 0 <= i < |values| && IsFiniteValue(values[i]) && values[i].Str? ==>
         TextLe(lo.s, values[i].s) && TextLe(values[i].s, hi.s)
  }

  /** When every value passing `isNumeric2` is a string, the scan finds the first and the
      last of them in text order, whatever numbers they stand for. */
  lemma {:induction false} RawBoundsOfStrings(values: seq<JValue>)
    requires forall i :: 0 <= i < |values| && IsFiniteValue(values[i]) ==> values[i].Str?
    ensures |Finites(values)| > 0 ==> IsTextBounds(values, RawBounds(values).0, RawBounds(values).1)
  {
    hide StringToNumber, Trim, ParseFloat, IntToString;
    if |values| > 0 {
      var p := values[..|values| - 1];
      var v := values[|values| - 1];
      RawBoundsOfStrings(p);
      RawBoundsAmongValues(p);
      if !IsFiniteValue(v) {
        if |Finites(p)| > 0 {
          TextBoundsSkip(values, RawBounds(p).0, RawBounds(p).1);
        }
      } else if |Finites(p)| == 0 {
        FinitesNone(p);
        TextBoundsFirst(values);
      } else {
        TextBoundsStep(values, RawBounds(p).0, RawBounds(p).1);
      }
    }
  }

  /** A value that does not pass leaves the text bounds as they were. */
  lemma TextBoundsSkip(values: seq<JValue>, lo: JValue, hi: JValue)
    requires |values| > 0 && !IsFiniteValue(values[|values| - 1])
    requires IsTextBounds(values[..|values| - 1], lo, hi)
    ensures IsTextBounds(values, lo, hi)
  {
    hide StringToNumber, Trim, ParseFloat, IntToString;
    var p := values[..|values| - 1];
    forall i | 0 <= i < |values| && IsFiniteValue(values[i]) && values[i].Str?
      ensures TextLe(lo.s, values[i].s) && TextLe(values[i].s, hi.s)
    {
      assert i < |p| && values[i] == p[i];
    }
  }

  /** The first string that passes is both bounds. */
  lemma TextBoundsFirst(values: seq<JValue>)
    requires |values| > 0 && values[|values| - 1].Str?
    requires forall i :: 0 <= i < |values| - 1 ==> !IsFiniteValue(values[i])
    ensures IsTextBounds(values, values[|values| - 1], values[|values| - 1])
  {
    hide StringToNumber, Trim, ParseFloat, IntToString;
    TextLessIrreflexive(values[|values| - 1].s);
  }

  /** A further string widens the text bounds of the values before it. */
  lemma TextBoundsStep(values: seq<JValue>, lo: JValue, hi: JValue)
    requires |values| > 0 && values[|values| - 1].Str?
    requires IsTextBounds(values[..|values| - 1], lo, hi)
    ensures IsTextBounds(values, Extend(values[|values| - 1], lo, hi).0, Extend(values[|values| - 1], lo, hi).1)
  {
    hide StringToNumber, Trim, ParseFloat, IntToString;
    var p := values[..|values| - 1];
    var v := values[|values| - 1];
    var lo' := Extend(v, lo, hi).0;
    var hi' := Extend(v, lo, hi).1;
    ComparisonCases(v, lo);
    ComparisonCases(hi, v);
    TextLessTrichotomy(v.s, lo.s);
    TextLessTrichotomy(hi.s, v.s);
    forall i | 0 <= i < |values| && IsFiniteValue(values[i]) && values[i].Str?
      ensures TextLe(lo'.s, values[i].s) && TextLe(values[i].s, hi'.s)
    {
      var w := values[i].s;
      if i < |p| {
        assert values[i] == p[i];
        if TextLess(v.s, lo.s) && TextLess(lo.s, w) {
          TextLessTransitive(v.s, lo.s, w);
        }
        if TextLess(hi.s, v.s) && TextLess(w, hi.s) {
          TextLessTransitive(w, hi.s, v.s);
        }
      }
    }
  }

  /** The scan shared by both `minMax` loops: from index `start` on, compare every value
      passing `isNumeric2` with the bounds, starting from +Infinity and -Infinity. */
  method ScanBounds(values: seq<JValue>, start: nat) returns (lo: JValue, hi: JValue)
    requires start <= |values|
    ensures (lo, hi) == RawBounds(values[start..])
  {
    hide StringToNumber, Trim, ParseFloat, IntToString;
    lo, hi := Num(PosInf), Num(NegInf);
    var i := start;
    while i < |values|
      invariant start <= i <= |values|
      invariant (lo, hi) == RawBounds(values[start..i])
    {
      RawBoundsStep(values, start, i);
      var b := Widen(values[i], lo, hi);
      lo, hi := b.0, b.1;
      i := i + 1;
    }
    assert values[start..i] == values[start..];
  }

  lemma RawBoundsStep(values: seq<JValue>, start: nat, i: nat)
    requires start <= i < |values|
    ensures RawBounds(values[start..i + 1]) ==
              Widen(values[i], RawBounds(values[start..i]).0, RawBounds(values[start..i]).1)
  {
    hide StringToNumber, Trim, ParseFloat, IntToString;
    assert values[start..i + 1][..i - start] == values[start..i];
  }

  /** `minMax` of public/js/types.js. The bounds are values that pass `isNumeric2`, or the
      pair (+Infinity, -Infinity) when none does; they are the least and the greatest when the
      values are numbers, and the first and the last in text order when they are strings. */
  method MinMax(values: seq<JValue>) returns (lo: JValue, hi: JValue)
    ensures (lo, hi) == RawBounds(values)
    ensures (forall i :: 0 <= i < |values| ==> !IsFiniteValue(values[i])) <==>
              lo == Num(PosInf) && hi == Num(NegInf)
    ensures (exists i :: 0 <= i < |values| && IsFiniteValue(values[i])) ==>
              lo in values && hi in values && IsFiniteValue(lo) && IsFiniteValue(hi)
    ensures (forall i :: 0 <= i < |values| && IsFiniteValue(values[i]) ==> values[i].Num?) ==>
              lo.Num? && hi.Num? && IsBounds(values, lo.n, hi.n)
    ensures (forall i :: 0 <= i < |values| && IsFiniteValue(values[i]) ==> values[i].Str?) &&
            (exists i :: 0 <= i < |values| && IsFiniteValue(values[i])) ==>
              IsTextBounds(values, lo, hi)
  {
    hide StringToNumber, Trim, ParseFloat, IntToString;
    lo, hi := ScanBounds(values, 0);
    assert values[0..] == values;
    FinitesNone(values);
    RawBoundsAmongValues(values);
    if forall i :: 0 <= i < |values| && IsFiniteValue(values[i]) ==> values[i].Num? {
      RawBoundsOfNumbers(values);
    }
    if forall i :: 0 <= i < |values| && IsFiniteValue(values[i]) ==> values[i].Str? {
      RawBoundsOfStrings(values);
    }
  }

  /** Numeric text is compared as text: the strings "10" and "9" give the minimum "10" and
      the maximum "9". */
  lemma MinMaxComparesText()
    ensures RawBounds([Str("10"), Str("9")]) == (Str("10"), Str("9"))
  {
    assert IntToString(10) == "10" && IntToString(9) == "9";
    IntTextIsFinite(10);
    IntTextIsFinite(9);
    TwoTextBounds("10", "9");
  }

  /** The decimal text of an integer passes `isNumeric2`. */
  lemma IntTextIsFinite(i: int)
    ensures IsFiniteValue(Str(IntToString(i)))
  {
    hide StringToNumber, Trim, ParseFloat, IntToString;
    NumberRoundTrip(i);
  }

  /** `minMax` of public/app.js as written: the loop starts at index 1, so the first value is
      never looked at. */
  method AppMinMax(values: seq<JValue>) returns (lo: JValue, hi: JValue)
    ensures |values| == 0 ==> lo == Num(PosInf) && hi == Num(NegInf)
    ensures |values| > 0 ==> (lo, hi) == RawBounds(values[1..])
  {
    hide StringToNumber, Trim, ParseFloat, IntToString;
    if |values| == 0 {
      lo, hi := Num(PosInf), Num(NegInf);
    } else {
      lo, hi := ScanBounds(values, 1);
    }
  }

  /** What app.js's scale misses: for [9, 1, 2] it reports the maximum 2 where the values
      reach 9, and for any one-element array it finds no bounds at all. */
  lemma AppMinMaxSkipsFirst(x: JValue)
    ensures RawBounds([Num(IntNum(9)), Num(IntNum(1)), Num(IntNum(2))][1..]) == (Num(IntNum(1)), Num(IntNum(2)))
    ensures RawBounds([Num(IntNum(9)), Num(IntNum(1)), Num(IntNum(2))]) == (Num(IntNum(1)), Num(IntNum(9)))
    ensures RawBounds([x][1..]) == (Num(PosInf), Num(NegInf))
  {
    hide StringToNumber, Trim, ParseFloat, IntToString;
    var values := [Num(IntNum(9)), Num(IntNum(1)), Num(IntNum(2))];
    assert values[..1] == [Num(IntNum(9))];
    assert values[..2] == [Num(IntNum(9)), Num(IntNum(1))] && values[..2][..1] == values[..1];
    assert RawBounds(values[..1]) == (Num(IntNum(9)), Num(IntNum(9)));
    assert RawBounds(values[..2]) == (Num(IntNum(1)), Num(IntNum(9)));
    var tail := values[1..];
    assert tail[..1] == [Num(IntNum(1))];
    assert RawBounds(tail[..1]) == (Num(IntNum(1)), Num(IntNum(1)));
    assert [x][1..] == [];
  }

  /** `resetScale` of viz.js: the bounds are seeded from the first cube's value (which throws
      when there are no cubes, `None` here) and every other value, finite or not, is compared
      to them with `<` and `>` on the values as they are. Both bounds are cube values; when
      the values are numbers they are the least and the greatest. */
  method SeededMinMax(values: seq<JValue>) returns (r: Option<(JValue, JValue)>)
    ensures r.None? <==> |values| == 0
    ensures r.Some? ==> r.value.0 in values && r.value.1 in values
    ensures r.Some? && (forall i :: 0 <= i < |values| ==> values[i].Num?) ==>
              r.value.0.Num? && r.value.1.Num? &&
              forall i :: 0 <= i < |values| ==> Le(r.value.0.n, values[i].n) && Le(values[i].n, r.value.1.n)
  {
    hide StringToNumber, Trim, ParseFloat, IntToString;
    if |values| == 0 {
      return None;
    }
    var numbers := forall i :: 0 <= i < |values| ==> values[i].Num?;
    var lo, hi := values[0], values[0];
    var i := 1;
    while i < |values|
      invariant 1 <= i <= |values|
      invariant lo in values[..i] && hi in values[..i]
      invariant numbers ==>
                  (lo.Num? && hi.Num? && forall j :: 0 <= j < i ==> Le(lo.n, values[j].n) && Le(values[j].n, hi.n))
    {
      if numbers {
        SeededStep(values, i, lo, hi);
      }
      if JsLess(hi, values[i]) {
        hi := values[i];
      }
      if JsLess(values[i], lo) {
        lo := values[i];
      }
      assert values[..i + 1] == values[..i] + [values[i]];
      i := i + 1;
    }
    assert values[..i] == values;
    return Some((lo, hi));
  }

  /** One turn of `resetScale`'s loop on numbers keeps the least and the greatest. */
  lemma SeededStep(values: seq<JValue>, i: nat, lo: JValue, hi: JValue)
    requires 0 < i < |values| && forall j :: 0 <= j < |values| ==> values[j].Num?
    requires lo.Num? && hi.Num?
    requires forall j :: 0 <= j < i ==> Le(lo.n, values[j].n) && Le(values[j].n, hi.n)
    ensures var lo' := if JsLess(values[i], lo) then values[i] else lo;
            var hi' := if JsLess(hi, values[i]) then values[i] else hi;
            forall j :: 0 <= j <= i ==> Le(lo'.n, values[j].n) && Le(values[j].n, hi'.n)
  {
    hide StringToNumber, Trim, ParseFloat, IntToString;
    var x := values[i];
    ComparisonCases(x, lo);
    ComparisonCases(hi, x);
    LtTrichotomy(x.n, lo.n);
    LtTrichotomy(hi.n, x.n);
    forall j | 0 <= j < i
      ensures (Lt(x.n, lo.n) ==> Le(x.n, values[j].n)) && (Lt(hi.n, x.n) ==> Le(values[j].n, x.n))
    {
      if Lt(x.n, lo.n) && Lt(lo.n, values[j].n) {
        LtTransitive(x.n, lo.n, values[j].n);
      }
      if Lt(hi.n, x.n) && Lt(values[j].n, hi.n) {
        LtTransitive(values[j].n, hi.n, x.n);
      }
    }
  }

  // ---------------------------------------------------------------- histogram

  /** Number of occurrences of `k` in `xs`. */
  function Occurrences(xs: seq<int>, k: int): nat
  {
    if |xs| == 0 then 0 else Occurrences(xs[..|xs| - 1], k) + (if xs[|xs| - 1] == k then 1 else 0)
  }

  lemma {:induction false} OccurrencesAbsent(xs: seq<int>, k: int)
    ensures k !in xs <==> Occurrences(xs, k) == 0
  {
    hide StringToNumber, Trim, ParseFloat, IntToString;
    if |xs| > 0 {
      OccurrencesAbsent(xs[..|xs| - 1], k);
      assert xs == xs[..|xs| - 1] + [xs[|xs| - 1]];
    }
  }

  function MinOf(xs: seq<int>): (m: int)
    requires |xs| > 0
    ensures m in xs && forall i :: 0 <= i < |xs| ==> m <= xs[i]
  {
    if |xs| == 1 then xs[0]
    else
      var m := MinOf(xs[..|xs| - 1]);
      if xs[|xs| - 1] < m then xs[|xs| - 1] else m
  }

  function MaxOf(xs: seq<int>): (m: int)
    requires |xs| > 0
    ensures m in xs && forall i :: 0 <= i < |xs| ==> xs[i] <= m
  {
    if |xs| == 1 then xs[0]
    else
      var m := MaxOf(xs[..|xs| - 1]);
      if xs[|xs| - 1] > m then xs[|xs| - 1] else m
  }

  /** The integer a value passing `isInt` stands for: `parseFloat(value.toString())`. A
      one-item array stands for what its item stands for. */
  function IntValue(v: JValue): int
    requires IsInt(v)
  {
    match v
    case Num(n) => n.r.Floor
    case Str(s) => ParseFloat(s).value.r.Floor
    case Arr(items) => IntValue(items[0])
  }

  /** The integers a list of values passing `isInt` stand for, in order. */
  function IntValues(values: seq<JValue>): (xs: seq<int>)
    requires IsIntegerArray(values)
    ensures |xs| == |values|
    ensures forall i :: 0 <= i < |values| ==> xs[i] == IntValue(values[i])
  {
    if |values| == 0 then []
    else
      IntValues(values[..|values| - 1]) + [IntValue(values[|values| - 1])]
  }

  /** A value passing `isInt` has a text, so it can be used as a property key. */
  lemma {:induction false} IntHasText(v: JValue)
    requires IsInt(v)
    ensures ValueText(v).Some?
    ensures v.Num? ==> v == Num(IntNum(IntValue(v))) && ValueText(v) == Some(IntToString(IntValue(v)))
  {
    hide StringToNumber, Trim, ParseFloat, IntToString;
    match v
    case Num(n) =>
    case Str(s) =>
    case Arr(items) =>
      IntHasText(items[0]);
      ArrayText(items[0]);
      assert items == [items[0]];
  }

  /** `arr.flat()`: arrays among the items are replaced by their items. */
  function FlatOnce(items: seq<JValue>): (r: seq<JValue>)
    ensures forall i :: 0 <= i < |items| && !items[i].Arr? ==> items[i] in r
    ensures forall v :: v in r ==> v in items || exists i :: 0 <= i < |items| && items[i].Arr? && v in items[i].items
  {
    if |items| == 0 then []
    else (if items[0].Arr? then items[0].items else [items[0]]) + FlatOnce(items[1..])
  }

  /** How many of the values have the text `k`: `graphDistribution` counts a value under the
      property key `data[value]`, which is the value's text. */
  function TextCount(values: seq<JValue>, k: string): nat
  {
    if |values| == 0 then 0
    else TextCount(values[..|values| - 1], k) + (if ValueText(values[|values| - 1]) == Some(k) then 1 else 0)
  }

  /** A positive count means some value has that text. */
  lemma {:induction false} TextCountPositive(values: seq<JValue>, k: string)
    requires TextCount(values, k) > 0
    ensures exists i :: 0 <= i < |values| && ValueText(values[i]) == Some(k)
  {
    hide StringToNumber, Trim, ParseFloat, IntToString;
    var p := values[..|values| - 1];
    if ValueText(values[|values| - 1]) != Some(k) {
      TextCountPositive(p, k);
      var i :| 0 <= i < |p| && ValueText(p[i]) == Some(k);
      assert values[i] == p[i];
    }
  }

  /** The integer part of a finite bound: where `i++` continues from. */
  function Whole(v: JValue): int
    requires IsFiniteValue(v)
  {
    ToNumber(v).value.r.Floor
  }

  /** Whether the gap-filling loop `for (let i = min; i <= max; i++) data[i] ||= 0` visits the
      key `k`, for bounds `lo`, `hi` left by the counting loop. These are finite, or the
      starting pair +Infinity, -Infinity that fails the first test. That first test compares
      the bounds themselves, as text when both are strings, and visits `min`'s own key; `i++`
      turns `i` into the number after `min`, so the later tests and keys are numeric. */
  predicate InGap(lo: JValue, hi: JValue, k: string)
  {
    && IsFiniteValue(lo) && IsFiniteValue(hi) && JsLessEq(lo, hi)
    && (ValueText(lo) == Some(k) || GapKey(Whole(lo), Whole(hi), k))
  }

  /** `k` is the text of an integer above `a`, up to `b`: a key `i++` reaches from a lower
      bound with integer part `a` while `i <= b` holds. */
  predicate GapKey(a: int, b: int, k: string)
    decreases b - a
  {
    a < b && (k == IntToString(b) || GapKey(a, b - 1, k))
  }

  lemma {:induction false} GapKeyExists(a: int, b: int, k: string)
    ensures GapKey(a, b, k) <==> exists m :: a < m <= b && k == IntToString(m)
    decreases b - a
  {
    hide StringToNumber, Trim, ParseFloat, IntToString;
    if a < b {
      GapKeyExists(a, b - 1, k);
      if k == IntToString(b) {
        assert a < b <= b;
      }
    }
  }

  /** An integer's text is among the keys above `a` up to `b` exactly when the integer is. */
  lemma {:induction false} GapKeyOfInt(a: int, b: int, j: int)
    ensures GapKey(a, b, IntToString(j)) <==> a < j <= b
    decreases b - a
  {
    hide StringToNumber, Trim, ParseFloat, IntToString;
    if a < b {
      GapKeyOfInt(a, b - 1, j);
      if IntToString(j) == IntToString(b) {
        IntToStringInjective(j, b);
      }
    }
  }

  /** What `graphDistribution` counts, as written: a key for the text of every value, holding
      how many values have that text, and a zero under every other key the gap-filling loop
      visits between the bounds the counting loop found. */
  ghost predicate IsDistribution(data: map<string, nat>, values: seq<JValue>)
  {
    && (forall k :: k in data <==> TextCount(values, k) > 0 || InGap(RawBounds(values).0, RawBounds(values).1, k))
    && (forall k :: k in data ==> data[k] == TextCount(values, k))
  }

  /** A histogram of integers keyed by their decimal text: a key for every integer from the
      least to the greatest value, holding how often it occurs (zero for the gaps), and no
      other key. No values give no keys. */
  ghost predicate IsHistogram(data: map<string, nat>, xs: seq<int>)
  {
    && (forall k :: k in data ==> exists j :: k == IntToString(j))
    && (forall j :: IntToString(j) in data <==> |xs| > 0 && MinOf(xs) <= j <= MaxOf(xs))
    && (forall j :: IntToString(j) in data ==> data[IntToString(j)] == Occurrences(xs, j))
  }

  /** The counting loop of `graphDistribution`: `data[value] ||= 0; data[value] += 1` under
      the value's text, and `min`, `max` compared with `<` and `>` on the values as they are.
      Every value passes `isInt`, hence `isNumeric2`, so no value is skipped. */
  method CountByText(values: seq<JValue>) returns (data: map<string, nat>, lo: JValue, hi: JValue)
    requires IsIntegerArray(values)
    ensures forall k :: k in data <==> TextCount(values, k) > 0
    ensures forall k :: k in data ==> data[k] == TextCount(values, k)
    ensures (lo, hi) == RawBounds(values)
  {
    hide StringToNumber, Trim, ParseFloat, IntToString;
    data := map[];
    lo, hi := Num(PosInf), Num(NegInf);
    var i := 0;
    while i < |values|
      invariant 0 <= i <= |values|
      invariant forall k :: k in data <==> TextCount(values[..i], k) > 0
      invariant forall k :: k in data ==> data[k] == TextCount(values[..i], k)
      invariant (lo, hi) == RawBounds(values[..i])
    {
      var v := values[i];
      IntHasText(v);
      var key := ValueText(v).value;
      data := data[key := (if key in data then data[key] else 0) + 1];
      var b := Extend(v, lo, hi);
      lo, hi := b.0, b.1;
      assert values[..i + 1][..i] == values[..i];
      i := i + 1;
    }
    assert values[..i] == values;
  }

  /** The gap-filling loop of `graphDistribution`: every key it visits gets a zero unless it
      already has a count. */
  method FillGaps(data: map<string, nat>, lo: JValue, hi: JValue) returns (filled: map<string, nat>)
    ensures forall k :: k in filled <==> k in data || InGap(lo, hi, k)
    ensures forall k :: k in filled ==> filled[k] == (if k in data then data[k] else 0)
  {
    hide StringToNumber, Trim, ParseFloat, IntToString;
    filled := data;
    if IsFiniteValue(lo) && IsFiniteValue(hi) && JsLessEq(lo, hi) {
      if ValueText(lo).Some? && ValueText(lo).value !in filled {
        filled := filled[ValueText(lo).value := 0];
      }
      var j := Whole(lo) + 1;
      while j <= Whole(hi)
        invariant Whole(lo) + 1 <= j && (j <= Whole(hi) + 1 || j == Whole(lo) + 1)
        invariant forall k :: k in filled <==>
                    k in data || ValueText(lo) == Some(k) || GapKey(Whole(lo), j - 1, k)
        invariant forall k :: k in filled ==> filled[k] == (if k in data then data[k] else 0)
        decreases Whole(hi) - j
      {
        if IntToString(j) !in filled {
          filled := filled[IntToString(j) := 0];
        }
        j := j + 1;
      }
    }
  }

  /** `graphDistribution(arr)`: the values two levels flattened are counted only when every
      one passes `isInt`; otherwise no histogram is drawn. The counts are kept under the
      values' texts, so "5" and "05" get separate keys, and the gaps are filled between bounds
      found by comparing the raw values. When the values are numbers this is the histogram of
      their integers. */
  method GraphDistribution(arr: seq<JValue>) returns (r: Option<map<string, nat>>)
    ensures r.Some? <==> IsIntegerArray(FlatOnce(FlatOnce(arr)))
    ensures r.Some? ==> IsDistribution(r.value, FlatOnce(FlatOnce(arr)))
    ensures r.Some? && (forall v :: v in FlatOnce(FlatOnce(arr)) ==> v.Num?) ==>
              IsHistogram(r.value, IntValues(FlatOnce(FlatOnce(arr))))
  {
    hide StringToNumber, Trim, ParseFloat, IntToString;
    var values := FlatOnce(FlatOnce(arr));
    if !IsIntegerArray(values) {
      return None;
    }
    var data, lo, hi := CountByText(values);
    var filled := FillGaps(data, lo, hi);
    if forall v :: v in values ==> v.Num? {
      DistributionOfNumbers(filled, values);
    }
    return Some(filled);
  }

  /** Two different integers have different texts. */
  lemma IntToStringInjective(a: int, b: int)
    requires IntToString(a) == IntToString(b)
    ensures a == b
  {
    hide StringToNumber, Trim, ParseFloat, IntToString;
    NumberRoundTrip(a);
    NumberRoundTrip(b);
  }

  /** On numbers, the count kept under an integer's text is the integer's number of
      occurrences. */
  lemma {:induction false} TextCountOfInts(values: seq<JValue>, j: int)
    requires IsIntegerArray(values) && forall i :: 0 <= i < |values| ==> values[i].Num?
    ensures TextCount(values, IntToString(j)) == Occurrences(IntValues(values), j)
  {
    hide StringToNumber, Trim, ParseFloat, IntToString;
    if |values| > 0 {
      var p := values[..|values| - 1];
      var v := values[|values| - 1];
      TextCountOfInts(p, j);
      IntHasText(v);
      assert IntValues(values) == IntValues(p) + [IntValue(v)];
      if IntToString(IntValue(v)) == IntToString(j) {
        IntToStringInjective(IntValue(v), j);
      }
    }
  }

  /** On numbers, the counting loop's bounds are the least and the greatest integer. */
  lemma {:induction false} RawBoundsOfInts(values: seq<JValue>)
    requires IsIntegerArray(values) && forall i :: 0 <= i < |values| ==> values[i].Num?
    requires |values| > 0
    ensures RawBounds(values) == (Num(IntNum(MinOf(IntValues(values)))), Num(IntNum(MaxOf(IntValues(values)))))
  {
    hide StringToNumber, Trim, ParseFloat, IntToString;
    var p := values[..|values| - 1];
    var v := values[|values| - 1];
    IntHasText(v);
    var x := IntValue(v);
    assert IntValues(values) == IntValues(p) + [x];
    if |values| == 1 {
      assert p == [];
      WidenInts(x, x, x);
    } else {
      RawBoundsOfInts(p);
      MinMaxOfSnoc(IntValues(p), x);
      WidenInts(MinOf(IntValues(p)), MaxOf(IntValues(p)), x);
    }
  }

  /** One turn of the counting loop on integers widens the bounds to take the new one in;
      the first turn replaces the starting pair with the integer itself. */
  lemma WidenInts(a: int, b: int, x: int)
    ensures Widen(Num(IntNum(x)), Num(IntNum(a)), Num(IntNum(b))) ==
              (Num(IntNum(if x < a then x else a)), Num(IntNum(if b < x then x else b)))
    ensures Widen(Num(IntNum(x)), Num(PosInf), Num(NegInf)) == (Num(IntNum(x)), Num(IntNum(x)))
  {
    hide StringToNumber, Trim, ParseFloat, IntToString;
    ComparisonCases(Num(IntNum(x)), Num(IntNum(a)));
    ComparisonCases(Num(IntNum(b)), Num(IntNum(x)));
  }

  lemma MinMaxOfSnoc(xs: seq<int>, x: int)
    requires |xs| > 0
    ensures MinOf(xs + [x]) == if x < MinOf(xs) then x else MinOf(xs)
    ensures MaxOf(xs + [x]) == if x > MaxOf(xs) then x else MaxOf(xs)
  {
    hide StringToNumber, Trim, ParseFloat, IntToString;
    assert (xs + [x])[..|xs|] == xs;
  }

  /** When the values are numbers, what `graphDistribution` counts is the histogram of their
      integers. */
  lemma DistributionOfNumbers(data: map<string, nat>, values: seq<JValue>)
    requires IsIntegerArray(values) && forall v :: v in values ==> v.Num?
    requires IsDistribution(data, values)
    ensures IsHistogram(data, IntValues(values))
  {
    hide StringToNumber, Trim, ParseFloat, IntToString;
    assert forall i :: 0 <= i < |values| ==> values[i].Num? by {
      forall i | 0 <= i < |values| ensures values[i].Num? {
        assert values[i] in values;
      }
    }
    forall k | k in data
      ensures exists j :: k == IntToString(j)
    {
      KeyOfNumbers(data, values, k);
    }
    forall j
      ensures IntToString(j) in data <==> |IntValues(values)| > 0 && MinOf(IntValues(values)) <= j <= MaxOf(IntValues(values))
      ensures IntToString(j) in data ==> data[IntToString(j)] == Occurrences(IntValues(values), j)
    {
      CountOfNumbers(data, values, j);
    }
  }

  /** On numbers the counting loop's bounds stand for the least and the greatest integer,
      and the lower one's key is the least integer's text. */
  lemma NumberBoundsFacts(values: seq<JValue>)
    requires IsIntegerArray(values) && forall i :: 0 <= i < |values| ==> values[i].Num?
    requires |values| > 0
    ensures IsFiniteValue(RawBounds(values).0) && IsFiniteValue(RawBounds(values).1)
    ensures Whole(RawBounds(values).0) == MinOf(IntValues(values))
    ensures Whole(RawBounds(values).1) == MaxOf(IntValues(values))
    ensures JsLessEq(RawBounds(values).0, RawBounds(values).1)
    ensures ValueText(RawBounds(values).0) == Some(IntToString(MinOf(IntValues(values))))
  {
    hide StringToNumber, Trim, ParseFloat, IntToString;
    RawBoundsOfInts(values);
    var xs := IntValues(values);
    var i :| 0 <= i < |xs| && xs[i] == MinOf(xs);
    IntHasText(values[i]);
    assert MinOf(xs) <= xs[0] <= MaxOf(xs);
    IntBoundsFacts(MinOf(xs), MaxOf(xs));
  }

  /** Two integer bounds in order, the lower one small enough to be written in plain
      decimal. */
  lemma IntBoundsFacts(a: int, b: int)
    requires a <= b && -PlainDigitsLimit < a < PlainDigitsLimit
    ensures IsFiniteValue(Num(IntNum(a))) && IsFiniteValue(Num(IntNum(b)))
    ensures Whole(Num(IntNum(a))) == a && Whole(Num(IntNum(b))) == b
    ensures JsLessEq(Num(IntNum(a)), Num(IntNum(b)))
    ensures ValueText(Num(IntNum(a))) == Some(IntToString(a))
  {
    hide StringToNumber, Trim, ParseFloat, IntToString;
    ComparisonCases(Num(IntNum(a)), Num(IntNum(b)));
  }

  /** On numbers every key of the distribution is an integer's text. */
  lemma KeyOfNumbers(data: map<string, nat>, values: seq<JValue>, k: string)
    requires IsIntegerArray(values) && forall i :: 0 <= i < |values| ==> values[i].Num?
    requires IsDistribution(data, values)
    requires k in data
    ensures exists j :: k == IntToString(j)
  {
    hide StringToNumber, Trim, ParseFloat, IntToString;
    if TextCount(values, k) > 0 {
      TextCountPositive(values, k);
      var i :| 0 <= i < |values| && ValueText(values[i]) == Some(k);
      IntHasText(values[i]);
      assert k == IntToString(IntValues(values)[i]);
    } else {
      assert InGap(RawBounds(values).0, RawBounds(values).1, k);
      NumberBoundsFacts(values);
      var lo, hi := RawBounds(values).0, RawBounds(values).1;
      if ValueText(lo) == Some(k) {
        assert k == IntToString(MinOf(IntValues(values)));
      } else {
        GapKeyExists(Whole(lo), Whole(hi), k);
      }
    }
  }

  /** On numbers the key of an integer is present exactly between the least and the greatest
      value, and holds the integer's number of occurrences. */
  lemma CountOfNumbers(data: map<string, nat>, values: seq<JValue>, j: int)
    requires IsIntegerArray(values) && forall i :: 0 <= i < |values| ==> values[i].Num?
    requires IsDistribution(data, values)
    ensures var xs := IntValues(values);
            IntToString(j) in data <==> |xs| > 0 && MinOf(xs) <= j <= MaxOf(xs)
    ensures IntToString(j) in data ==> data[IntToString(j)] == Occurrences(IntValues(values), j)
  {
    hide StringToNumber, Trim, ParseFloat, IntToString;
    var xs := IntValues(values);
    var k := IntToString(j);
    TextCountOfInts(values, j);
    OccurrencesAbsent(xs, j);
    if |xs| > 0 {
      NumberBoundsFacts(values);
      GapOfNumbers(values, j);
    }
  }

  /** On numbers the gap-filling loop visits an integer's key exactly when the integer lies
      between the least and the greatest value. */
  lemma GapOfNumbers(values: seq<JValue>, j: int)
    requires IsIntegerArray(values) && forall i :: 0 <= i < |values| ==> values[i].Num?
    requires |values| > 0
    ensures InGap(RawBounds(values).0, RawBounds(values).1, IntToString(j)) <==>
              MinOf(IntValues(values)) <= j <= MaxOf(IntValues(values))
  {
    hide StringToNumber, Trim, ParseFloat, IntToString;
    var a, b := MinOf(IntValues(values)), MaxOf(IntValues(values));
    NumberBoundsFacts(values);
    RawBoundsOfInts(values);
    InGapOfInts(a, b, IntToString(j));
    if IntToString(j) == IntToString(a) {
      IntToStringInjective(j, a);
    }
    GapKeyOfInt(a, b, j);
  }

  /** The keys the gap-filling loop visits between two integer bounds: the lower bound's
      text, then the text of every integer above it up to the upper bound. */
  lemma InGapOfInts(a: int, b: int, k: string)
    requires ValueText(Num(IntNum(a))) == Some(IntToString(a))
    ensures InGap(Num(IntNum(a)), Num(IntNum(b)), k) <==>
              a <= b && (k == IntToString(a) || GapKey(a, b, k))
  {
    hide StringToNumber, Trim, ParseFloat, IntToString;
    var lo, hi := Num(IntNum(a)), Num(IntNum(b));
    assert Whole(lo) == a && Whole(hi) == b;
    ComparisonCases(lo, hi);
  }

  /** The text of an integer in the 32-bit range passes `isInt`. */
  lemma IntTextIsInt(i: nat)
    requires i < 0x8000_0000
    ensures IsInt(Str(IntToString(i)))
  {
    NumberRoundTrip(i);
    NatToStringValue(i);
  }

  /** Two pieces of integer text whose text order runs against their numeric order: the
      counting loop's bounds come out the wrong way round, the gap-filling loop adds nothing,
      and only the two texts get keys. */
  lemma DistributionOfTwoTexts(data: map<string, nat>, x: nat, y: nat)
    requires x < y < 0x8000_0000
    requires TextLess(IntToString(y), IntToString(x))
    ensures IsIntegerArray([Str(IntToString(x)), Str(IntToString(y))])
    ensures IsDistribution(data, [Str(IntToString(x)), Str(IntToString(y))]) ==>
              data == map[IntToString(x) := 1, IntToString(y) := 1]
  {
    hide StringToNumber, Trim, ParseFloat, IntToString;
    var a, b := IntToString(x), IntToString(y);
    var values := [Str(a), Str(b)];
    IntTextIsInt(x);
    IntTextIsInt(y);
    if a == b {
      IntToStringInjective(x, y);
    }
    if IsDistribution(data, values) {
      forall k
        ensures k in data <==> k == a || k == b
        ensures k in data ==> data[k] == 1
      {
        TwoTextCounts(a, b, k);
        TwoTextGap(x, y, k);
      }
      MapOfTwo(data, a, b);
    }
  }

  /** For the two texts above, the gap-filling loop visits only the lower bound's key. */
  lemma TwoTextGap(x: nat, y: nat, k: string)
    requires x < y < 0x8000_0000
    requires TextLess(IntToString(y), IntToString(x))
    ensures var b := RawBounds([Str(IntToString(x)), Str(IntToString(y))]);
            InGap(b.0, b.1, k) <==> k == IntToString(y)
  {
    hide StringToNumber, Trim, ParseFloat, IntToString;
    var a, b := IntToString(x), IntToString(y);
    IntTextIsFinite(x);
    IntTextIsFinite(y);
    TwoTextBounds(a, b);
    NumberRoundTrip(x);
    NumberRoundTrip(y);
    assert Whole(Str(b)) == y && Whole(Str(a)) == x;
  }

  lemma MapOfTwo(data: map<string, nat>, a: string, b: string)
    requires forall k :: k in data <==> k == a || k == b
    requires forall k :: k in data ==> data[k] == 1
    ensures data == map[a := 1, b := 1]
  {
    hide StringToNumber, Trim, ParseFloat, IntToString;
    assert data.Keys == {a, b};
  }

  /** The bounds of two finite strings are the first and the last in text order. */
  lemma TwoTextBounds(a: string, b: string)
    requires IsFiniteValue(Str(a)) && IsFiniteValue(Str(b))
    ensures RawBounds([Str(a), Str(b)]) ==
              (if TextLess(b, a) then Str(b) else Str(a), if TextLess(a, b) then Str(b) else Str(a))
    ensures TextLess(b, a) ==> JsLessEq(Str(b), Str(a))
  {
    hide StringToNumber, Trim, ParseFloat, IntToString;
    var values := [Str(a), Str(b)];
    assert values[..1] == [Str(a)];
    assert RawBounds(values[..1]) == (Str(a), Str(a));
    TextLessTrichotomy(a, b);
  }

  lemma TwoTextCounts(a: string, b: string, k: string)
    requires a != b
    ensures TextCount([Str(a), Str(b)], k) == (if k == a || k == b then 1 else 0)
  {
    hide StringToNumber, Trim, ParseFloat, IntToString;
    var values := [Str(a), Str(b)];
    assert values[..1] == [Str(a)];
    assert [Str(a)][..0] == [];
    assert TextCount([Str(a)], k) == (if k == a then 1 else 0);
  }

  /** Numeric text is counted as written and the gaps between text bounds are not filled:
      for the strings "5" and "10" the bounds are "10" and "5", so only those two keys
      appear and 6 to 9 get no bar. */
  lemma DistributionComparesText(data: map<string, nat>)
    ensures IsIntegerArray([Str("5"), Str("10")])
    ensures IsDistribution(data, [Str("5"), Str("10")]) ==> data == map["5" := 1, "10" := 1]
  {
    assert IntToString(10) == "10" && IntToString(5) == "5";
    DistributionOfTwoTexts(data, 5, 10);
  }
}
