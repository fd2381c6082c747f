/** The decisions the three front ends take on user input: the "Run" button (index.js, app.js
    and viz.js each in their own way), the equality and range query fields, and the slice
    fields of index.js. DOM reads become parameters, `JSON.parse` is a function returning
    `None` where it throws, and the effect of a handler is an `Action` for the visualiser.

    A `hide` of the text-to-number conversions at the start of a proof keeps their large
    bodies out of it; the proof uses their contracts and lemmas only. */
module Controls {
  import opened JsValues
  import opened Text
  import opened Numerals
  import opened Shapes
  import opened InputParsing
  import opened Highlighting

  // ---------------------------------------------------------------- the Run button

  /** The two alert texts of index.js and app.js, and viz.js's own. */
  const FormatRequired: string := "JSON or CSV format required."
  const TooManyAxes: string := "Maximum of 3 dimensions allowed for JSON array."
  const NotValid: string := "Array not valid."

  /** What pressing "Run" does: visualise an array, raise an alert, die on an uncaught
      exception, or (app.js) do nothing visible. */
  datatype Outcome<T> = Shown(data: T) | Alerted(message: string) | Crashed | Quiet

  /** The text the input box holds once index.js and app.js have removed spaces and tabs; a
      missing value (`val()` is `undefined`) reads as the empty text, which `if (input)`
      treats alike. */
  function Typed(field: Option<string>): (input: string)
    ensures field.None? ==> input == ""
    ensures forall i :: 0 <= i < |input| ==> !IsSpaceOrTab(input[i])
  {
    if field.Some? then StripSpacesAndTabs(field.value) else ""
  }

  /** `App.runInput` of index.js. `current` is `this.array` and the second component is its
      new value. JSON is validated along the leftmost descent and then measured with
      array-utils' `arrayShape`, which throws on text inside arrays; CSV cells go through
      `parseFloat`. */
  function RunInputModular(field: Option<string>, parse: string -> Option<JValue>, current: Option<JValue>)
    : (r: (Outcome<JValue>, Option<JValue>))
    ensures var input := Typed(field);
            (r.0 == Alerted(FormatRequired) <==>
               input == "" || (!ValidJsonLeftmost(parse(input)) && !Rectangular(Lines(input))))
    ensures var input := Typed(field);
            (r.0.Crashed? <==>
               input != "" && ValidJsonLeftmost(parse(input)) && ArrayShape(Truthiness, parse(input).value) == Error)
    ensures !r.0.Quiet?
    ensures r.0.Shown? ==> r.0.data.Arr? && r.1 == Some(r.0.data)
    ensures !r.0.Shown? ==> r.1 == current
  {
    var input := Typed(field);
    if input == "" then (Alerted(FormatRequired), current)
    else if ValidJsonLeftmost(parse(input)) then
      var parsed := parse(input).value;
      match ArrayShape(Truthiness, parsed)
      case Error => (Crashed, current)
      case Shape(d) => if |d| > 3 then (Alerted(TooManyAxes), current) else (Shown(parsed), Some(parsed))
      case Ragged => (Shown(parsed), Some(parsed))
    else if Rectangular(Lines(input)) then
      var parsed := ParseCsv(FloatCells, input);
      (Shown(parsed), Some(parsed))
    else (Alerted(FormatRequired), current)
  }

  /** The three-axis alert of index.js can never be raised: the leftmost check has already
      bounded the depth, and the shape is never deeper than the leftmost descent. */
  lemma {:induction false} TooManyAxesUnreachable(field: Option<string>, parse: string -> Option<JValue>, current: Option<JValue>)
    ensures RunInputModular(field, parse, current).0 != Alerted(TooManyAxes)
  {
    var input := Typed(field);
    if input != "" && ValidJsonLeftmost(parse(input)) {
      var parsed := parse(input).value;
      if ArrayShape(Truthiness, parsed).Shape? {
        ShapeWithinLeftmost(Truthiness, parsed, ArrayShape(Truthiness, parsed).dims);
      }
    }
  }

  /** What index.js shows: the parsed JSON when it passed the leftmost check, otherwise the
      CSV grid; either way the shape of what is shown is one `arrayShape` of the other front
      ends accepts, unless it is ragged. */
  lemma ModularShowsParsed(field: Option<string>, parse: string -> Option<JValue>, current: Option<JValue>)
    ensures var input := Typed(field);
            var r := RunInputModular(field, parse, current);
            && (r.0.Shown? && ValidJsonLeftmost(parse(input)) ==> r.0.data == parse(input).value)
            && (r.0.Shown? && !ValidJsonLeftmost(parse(input)) ==> r.0.data == ParseCsv(FloatCells, input))
            && (r.0.Shown? && ValidJsonLeftmost(parse(input)) ==> ValidJsonRecursive(Truthiness, parse(input)))
  {
    var input := Typed(field);
    if input != "" && ValidJsonLeftmost(parse(input)) && ArrayShape(Truthiness, parse(input).value) != Error {
      LeftmostAcceptsLess(Truthiness, parse(input).value);
    }
  }

  /** A JSON array holding text, such as `["a"]`, passes index.js's validation and then makes
      its `arrayShape` throw: the Run button dies without an alert. */
  lemma TextArrayCrashes(field: Option<string>, current: Option<JValue>)
    requires field == Some("[\"a\"]")
    ensures RunInputModular(field, (s: string) => Some(Arr([Str("a")])), current).0 == Crashed
  {
    GuardsDisagreeOnText();
    assert LeftmostShape(Arr([Str("a")])) == [1];
    assert Typed(field) != "" by {
      assert field.value[0] == '[';
      assert Typed(field)[0] == '[';
    }
  }

  /** `runInput` of app.js. The stored array is cleared before validation, so after an alert
      it is `None` (`undefined`); JSON is validated recursively and CSV cells go through
      `parseInt`. A JSON scalar passes validation; a falsy one (`0`, `""`) is stored but
      nothing is shown. A truthy value goes on to `startViz`: `graphDistribution` calls
      `array.flat()`, which throws on a number or a string, and `init` builds
      `Array(3 - shape.length)`, which throws when `arrayShape` gave `false` and the length
      is undefined. */
  function RunInputApp(field: Option<string>, parse: string -> Option<JValue>, current: Option<JValue>)
    : (r: (Outcome<JValue>, Option<JValue>))
    ensures var input := Typed(field);
            (r.0 == Alerted(FormatRequired) <==>
               input == "" || (!ValidJsonRecursive(InstanceOfArray, parse(input)) && !Rectangular(Lines(input))))
    ensures var input := Typed(field);
            (r.0.Quiet? <==>
               input != "" && ValidJsonRecursive(InstanceOfArray, parse(input)) && !Truthy(parse(input).value))
    ensures var input := Typed(field);
            (r.0.Crashed? <==>
               && input != "" && ValidJsonRecursive(InstanceOfArray, parse(input)) && Truthy(parse(input).value)
               && (!parse(input).value.Arr? || ArrayShape(InstanceOfArray, parse(input).value).Ragged?))
    ensures r.0.Shown? ==> r.0.data.Arr? && ArrayShape(InstanceOfArray, r.0.data).Shape? && r.1 == Some(r.0.data)
    ensures Typed(field) == "" ==> r.1 == current
    ensures Typed(field) != "" ==> (r.1.None? <==> r.0.Alerted?)
  {
    var input := Typed(field);
    if input == "" then (Alerted(FormatRequired), current)
    else
      var stored :=
        if ValidJsonRecursive(InstanceOfArray, parse(input)) then parse(input)
        else if Rectangular(Lines(input)) then Some(ParseCsv(IntCells, input))
        else None;
      CsvShape(IntCells, input);
      if stored.None? then (Alerted(FormatRequired), None)
      else if !Truthy(stored.value) then (Quiet, stored)
      else if !stored.value.Arr? || !ArrayShape(InstanceOfArray, stored.value).Shape? then (Crashed, stored)
      else (Shown(stored.value), stored)
  }

  /** index.js never refuses one line of text: it is a valid CSV row when it is not JSON,
      so the format alert needs an empty box or several lines. */
  lemma ModularAlertNeedsLines(field: Option<string>, parse: string -> Option<JValue>, current: Option<JValue>)
    ensures RunInputModular(field, parse, current).0 == Alerted(FormatRequired) ==>
              Typed(field) == "" || CountChar(Trim(Typed(field)), '\n') >= 1
  {
    var input := Typed(field);
    if input != "" && CountChar(Trim(input), '\n') == 0 {
      assert |Lines(input)| == 1;
      assert Rectangular(Lines(input));
    }
  }

  /** index.js does not refuse one line of text that is not a JSON array within its limit,
      such as a JSON number or `[[[[]]]]`: it is shown as a one-row CSV grid. */
  lemma ModularFallsBackToCsv(t: string, parse: string -> Option<JValue>, current: Option<JValue>)
    requires t != "" && forall i :: 0 <= i < |t| ==> !IsJsSpace(t[i])
    requires !ValidJsonLeftmost(parse(t))
    ensures RunInputModular(Some(t), parse, current) == (Shown(ParseCsv(FloatCells, t)), Some(ParseCsv(FloatCells, t)))
  {
    OneLine(t);
  }

  /** app.js stores a JSON number or string that passes validation, and then dies in
      `array.flat()` unless it is falsy, in which case nothing is shown. */
  lemma AppCrashesOnScalars(t: string, parse: string -> Option<JValue>, current: Option<JValue>, v: JValue)
    requires t != "" && forall i :: 0 <= i < |t| ==> !IsJsSpace(t[i])
    requires parse(t) == Some(v) && !v.Arr?
    ensures Truthy(v) ==> RunInputApp(Some(t), parse, current) == (Crashed, Some(v))
    ensures !Truthy(v) ==> RunInputApp(Some(t), parse, current) == (Quiet, Some(v))
  {
    OneLine(t);
  }

  /** A ragged JSON array such as `[[1],[2,3]]` passes app.js's validation, since `false`
      has no length above 3, and then makes `init` throw. */
  lemma AppCrashesOnRagged(t: string, parse: string -> Option<JValue>, current: Option<JValue>)
    requires t != "" && forall i :: 0 <= i < |t| ==> !IsJsSpace(t[i])
    requires parse(t) == Some(Arr([Arr([Num(IntNum(1))]), Arr([Num(IntNum(2)), Num(IntNum(3))])]))
    ensures RunInputApp(Some(t), parse, current) == (Crashed, parse(t))
  {
    hide StringToNumber, Trim, ParseFloat, IntToString;
    OneLine(t);
    RaggedSample();
  }

  /** `[[1],[2,3]]` is ragged: its two rows have the shapes `[1]` and `[2]`. A helper of
      `AppCrashesOnRagged`. */
  lemma RaggedSample()
    ensures ArrayShape(InstanceOfArray, Arr([Arr([Num(IntNum(1))]), Arr([Num(IntNum(2)), Num(IntNum(3))])])).Ragged?
  {
    var one, two, three := Num(IntNum(1)), Num(IntNum(2)), Num(IntNum(3));
    assert [one][..0] == [];
    assert ChildShapes(InstanceOfArray, [one]) == [Shape([])];
    assert [Shape([])][..0] == [];
    assert Fold(Shape([]), [Shape([])]) == Shape([]);
    assert ArrayShape(InstanceOfArray, Arr([one])) == Shape([1]);
    FoldTwo(Shape([]), Shape([]));
    assert ChildShapes(InstanceOfArray, [two, three]) == [Shape([]), Shape([])];
    assert ArrayShape(InstanceOfArray, Arr([two, three])) == Shape([2]);
    FoldTwo(Shape([1]), Shape([2]));
    assert ChildShapes(InstanceOfArray, [Arr([one]), Arr([two, three])]) == [Shape([1]), Shape([2])];
  }

  /** Text without spaces, tabs or line breaks is typed as it is and makes one CSV line. */
  lemma OneLine(t: string)
    requires forall i :: 0 <= i < |t| ==> !IsJsSpace(t[i])
    ensures Typed(Some(t)) == t
    ensures Rectangular(Lines(t)) && |Lines(t)| == 1
  {
    assert StripSpacesAndTabs(t) == t by {
      assert forall i :: 0 <= i < |t| ==> !IsSpaceOrTab(t[i]);
    }
    assert Trim(t) == t by {
      TrimIdentity(t);
    }
    assert CountChar(t, '\n') == 0 by {
      assert '\n' !in t;
      CountAbsent(t, '\n');
    }
  }

  /** `runInput` of viz.js: all white space is removed (a missing value makes `.replace`
      throw), and the value `new Array` builds from the parsed text is what gets shown. */
  function RunInputViz(field: Option<string>, parse: string -> Option<JValue>, current: Option<Constructed>)
    : (r: (Outcome<Constructed>, Option<Constructed>))
    ensures field.None? ==> r == (Crashed, current)
    ensures field.Some? ==> (r.0.Shown? <==> ValidArrayViz(parse(StripWhitespace(field.value))))
    ensures field.Some? && !r.0.Shown? ==> r == (Alerted(NotValid), current)
    ensures r.0.Shown? ==> r.1 == Some(r.0.data)
    ensures r.0.Shown? ==> ConstructedShape(r.0.data).Shape? && |ConstructedShape(r.0.data).dims| <= 3
  {
    if field.None? then (Crashed, current)
    else
      var input := StripWhitespace(field.value);
      if ValidArrayViz(parse(input)) then
        var built := NewArray(parse(input).value).value;
        (Shown(built), Some(built))
      else (Alerted(NotValid), current)
  }

  /** What viz.js shows for text that parses to an array: the array wrapped in one more axis,
      shown exactly when the array is a rectangular nest of at most two axes. */
  lemma VizShowsWrapped(field: string, parse: string -> Option<JValue>, current: Option<Constructed>)
    requires parse(StripWhitespace(field)).Some? && parse(StripWhitespace(field)).value.Arr?
    ensures var v := parse(StripWhitespace(field)).value;
            var shape := ArrayShape(InstanceOfArray, v);
            var r := RunInputViz(Some(field), parse, current);
            && (r.0.Shown? <==> shape.Shape? && |shape.dims| <= 2)
            && (r.0.Shown? ==> r.0.data == Filled(Arr([v])) && ConstructedShape(r.0.data) == Shape([1] + shape.dims))
  {
    var v := parse(StripWhitespace(field)).value;
    ValidArrayVizExactly(v);
    WrapAddsAxis(v);
  }

  // ---------------------------------------------------------------- query fields

  /** The call a query handler makes on the visualiser. */
  datatype Action = HighlightEqual(x: Number) | HighlightRange(low: Number, high: Number) | ResetScale | NoChange

  /** The three query fields, as `.value` reads them (`None` where the element is missing). */
  datatype Fields = Fields(equality: Option<string>, lessThan: Option<string>, greaterThan: Option<string>)

  /** The equality handler's decision, the same in all three front ends. */
  function EqualityAction(eq: Option<string>): (a: Action)
    ensures a.HighlightEqual? <==> IsNumeric(eq)
    ensures a.HighlightEqual? ==> ParseFloat(eq.value) == Some(a.x)
    ensures a == ResetScale <==> eq == Some("")
    ensures !a.HighlightRange?
  {
    IsNumericNeedsBoth();
    if IsNumeric(eq) then HighlightEqual(NumericValue(eq))
    else if eq == Some("") then ResetScale
    else NoChange
  }

  /** The range both inequality handlers aim for: an unusable bound is open. */
  function Bounds(lt: Option<string>, gt: Option<string>): (b: (Number, Number))
    ensures IsNumeric(lt) ==> ParseFloat(lt.value) == Some(b.0)
    ensures !IsNumeric(lt) ==> b.0 == NegInf
    ensures IsNumeric(gt) ==> ParseFloat(gt.value) == Some(b.1)
    ensures !IsNumeric(gt) ==> b.1 == PosInf
  {
    (if IsNumeric(lt) then NumericValue(lt) else NegInf, if IsNumeric(gt) then NumericValue(gt) else PosInf)
  }

  /** The field whose emptiness makes a range handler reset: index.js's less-than handler
      looks at the other field, its greater-than handler at the less-than field; app.js and
      viz.js look at the greater-than field in both handlers. */
  function ResetField(f: Frontend, lessThanHandler: bool, fields: Fields): Option<string>
  {
    if f == ModularUi && !lessThanHandler then fields.lessThan else fields.greaterThan
  }

  /** The less-than handler's decision: its own bound first, then the other, then the reset
      rule. */
  function LessThanAction(f: Frontend, fields: Fields): (a: Action)
    ensures a.HighlightRange? <==> IsNumeric(fields.lessThan) || IsNumeric(fields.greaterThan)
    ensures a == ResetScale <==>
              !IsNumeric(fields.lessThan) && !IsNumeric(fields.greaterThan) && fields.greaterThan == Some("")
    ensures !a.HighlightEqual?
  {
    IsNumericNeedsBoth();
    var lt := fields.lessThan;
    var gt := fields.greaterThan;
    if IsNumeric(lt) then HighlightRange(NumericValue(lt), if IsNumeric(gt) then NumericValue(gt) else PosInf)
    else if IsNumeric(gt) then HighlightRange(NegInf, NumericValue(gt))
    else if ResetField(f, true, fields) == Some("") then ResetScale
    else NoChange
  }

  /** The greater-than handler's decision, the mirror image of `LessThanAction`. */
  function GreaterThanAction(f: Frontend, fields: Fields): (a: Action)
    ensures a.HighlightRange? <==> IsNumeric(fields.lessThan) || IsNumeric(fields.greaterThan)
    ensures a == ResetScale <==>
              !IsNumeric(fields.lessThan) && !IsNumeric(fields.greaterThan) && ResetField(f, false, fields) == Some("")
    ensures !a.HighlightEqual?
  {
    var lt := fields.lessThan;
    var gt := fields.greaterThan;
    if IsNumeric(gt) then HighlightRange(if IsNumeric(lt) then NumericValue(lt) else NegInf, NumericValue(gt))
    else if IsNumeric(lt) then HighlightRange(NumericValue(lt), PosInf)
    else if ResetField(f, false, fields) == Some("") then ResetScale
    else NoChange
  }

  /** Whichever bound was edited, the range lit is the same: `(lt, gt)` with a missing or
      unusable bound left open. */
  lemma RangeHandlersAgree(f: Frontend, fields: Fields)
    requires IsNumeric(fields.lessThan) || IsNumeric(fields.greaterThan)
    ensures var b := Bounds(fields.lessThan, fields.greaterThan);
            LessThanAction(f, fields) == GreaterThanAction(f, fields) == HighlightRange(b.0, b.1)
  {
  }

  /** The reset rules differ between the front ends only in index.js's greater-than handler:
      with both bounds unusable it resets on an empty less-than field, where app.js and viz.js
      reset on an empty greater-than field. */
  lemma ResetRulesDiffer(fields: Fields)
    ensures LessThanAction(ModularUi, fields) == LessThanAction(AppUi, fields) == LessThanAction(VizUi, fields)
    ensures GreaterThanAction(AppUi, fields) == GreaterThanAction(VizUi, fields)
    ensures fields.lessThan == fields.greaterThan ==> GreaterThanAction(ModularUi, fields) == GreaterThanAction(AppUi, fields)
  {
  }

  /** Both bounds unusable, one of them erased: index.js's and app.js's greater-than handlers
      take opposite decisions. */
  lemma ResetRulesWitness()
    ensures var erased := Fields(None, Some(""), Some("x"));
            GreaterThanAction(ModularUi, erased) == ResetScale && GreaterThanAction(AppUi, erased) == NoChange
    ensures var erased := Fields(None, Some("x"), Some(""));
            GreaterThanAction(ModularUi, erased) == NoChange && GreaterThanAction(AppUi, erased) == ResetScale
  {
    NotNumeric();
  }

  /** Neither `"x"` nor the empty text is numeric. */
  lemma NotNumeric()
    ensures !IsNumeric(Some("x")) && !IsNumeric(Some(""))
  {
    assert ParseFloat("x") == None by {
      assert LeadingSpaces("x") == 0;
    }
    IsNumericNeedsBoth();
  }

  /** index.js reads every field from the page when a key is released and empties the other
      kind of query (where its element exists). Returns the action and the fields after. */
  function LiveEquality(fields: Fields): (r: (Action, Fields))
    ensures r.0 == EqualityAction(fields.equality)
    ensures r.1.equality == fields.equality
    ensures r.1.lessThan == Clear(fields.lessThan) && r.1.greaterThan == Clear(fields.greaterThan)
  {
    (EqualityAction(fields.equality), Fields(fields.equality, Clear(fields.lessThan), Clear(fields.greaterThan)))
  }

  /** `if (input) input.value = ""`. */
  function Clear(field: Option<string>): (r: Option<string>)
    ensures r.Some? <==> field.Some?
    ensures r.Some? ==> r.value == ""
  {
    if field.Some? then Some("") else None
  }

  function LiveLessThan(fields: Fields): (r: (Action, Fields))
    ensures r.0 == LessThanAction(ModularUi, fields)
    ensures r.1 == fields.(equality := Clear(fields.equality))
  {
    (LessThanAction(ModularUi, fields), fields.(equality := Clear(fields.equality)))
  }

  function LiveGreaterThan(fields: Fields): (r: (Action, Fields))
    ensures r.0 == GreaterThanAction(ModularUi, fields)
    ensures r.1 == fields.(equality := Clear(fields.equality))
  {
    (GreaterThanAction(ModularUi, fields), fields.(equality := Clear(fields.equality)))
  }

  /** app.js and viz.js keep each field's last value in a variable that only that field's
      own handler updates: `shown` is what the page displays, `cached` what the handlers
      read. */
  datatype Page = Page(shown: Fields, cached: Fields)

  /** A key released in the equality field: its value is cached, the inequality fields on
      the page are emptied, but their cached values stay. */
  function CachedEquality(page: Page): (r: (Action, Page))
    ensures r.0 == EqualityAction(page.shown.equality)
    ensures r.1.shown == Fields(page.shown.equality, Some(""), Some(""))
    ensures r.1.cached == page.cached.(equality := page.shown.equality)
  {
    var cached := page.cached.(equality := page.shown.equality);
    (EqualityAction(cached.equality), Page(Fields(page.shown.equality, Some(""), Some("")), cached))
  }

  function CachedLessThan(f: Frontend, page: Page): (r: (Action, Page))
    ensures r.0 == LessThanAction(f, page.cached.(lessThan := page.shown.lessThan))
    ensures r.1.shown == page.shown.(equality := Some(""))
    ensures r.1.cached == page.cached.(lessThan := page.shown.lessThan)
  {
    var cached := page.cached.(lessThan := page.shown.lessThan);
    (LessThanAction(f, cached), Page(page.shown.(equality := Some("")), cached))
  }

  function CachedGreaterThan(f: Frontend, page: Page): (r: (Action, Page))
    ensures r.0 == GreaterThanAction(f, page.cached.(greaterThan := page.shown.greaterThan))
    ensures r.1.shown == page.shown.(equality := Some(""))
    ensures r.1.cached == page.cached.(greaterThan := page.shown.greaterThan)
  {
    var cached := page.cached.(greaterThan := page.shown.greaterThan);
    (GreaterThanAction(f, cached), Page(page.shown.(equality := Some("")), cached))
  }

  /** After an equality query the page shows empty range fields, yet app.js and viz.js still
      use the bound typed before it: typing `9` as the upper bound, `5` as the value and then
      `1` as the lower bound lights `(1, 9)`, while the page shows no upper bound. */
  lemma CachedRangeUsesErasedBound(f: Frontend, page: Page, low: string)
    requires f != ModularUi
    requires IsNumeric(Some(low)) && IsNumeric(page.cached.greaterThan)
    ensures var after := CachedEquality(page).1;
            var typed := after.(shown := after.shown.(lessThan := Some(low)));
            var r := CachedLessThan(f, typed);
            && r.1.shown.greaterThan == Some("")
            && r.0 == HighlightRange(NumericValue(Some(low)), NumericValue(page.cached.greaterThan))
    ensures var start := Page(Fields(Some(""), Some(""), Some("9")), Fields(Some(""), Some(""), Some("")));
            var p1 := CachedGreaterThan(f, start).1;
            var p2 := CachedEquality(p1.(shown := p1.shown.(equality := Some("5")))).1;
            var r := CachedLessThan(f, p2.(shown := p2.shown.(lessThan := Some("1"))));
            r.0 == HighlightRange(IntNum(1), IntNum(9)) && r.1.shown.greaterThan == Some("")
  {
    IntRoundTrip(1);
    IntRoundTrip(9);
    assert IntToString(1) == "1";
    assert IntToString(9) == "9";
  }

  /** index.js reads the page itself, so a range query after an equality query uses only the
      bound just typed: the erased one is open. */
  lemma LiveRangeForgetsErasedBound(fields: Fields, low: string)
    requires fields.lessThan.Some? && fields.greaterThan.Some? && IsNumeric(Some(low))
    ensures var after := LiveEquality(fields).1;
            var r := LiveLessThan(after.(lessThan := Some(low)));
            r.0 == HighlightRange(NumericValue(Some(low)), PosInf)
    ensures var r := LiveLessThan(Fields(Some(""), Some("1"), Some("")));
            r.0 == HighlightRange(IntNum(1), PosInf)
  {
    IsNumericNeedsBoth();
    IntRoundTrip(1);
    assert IntToString(1) == "1";
  }

  // ---------------------------------------------------------------- slice fields

  /** A slice coordinate handed to `highlightSlice`: `null` for an empty field, `NaN` when
      `parseInt` finds no digits, otherwise the integer. */
  datatype SliceArg = AllSlices | NotANumber | At(index: int)

  datatype Axis = X | Y | Z

  /** `value === "" ? null : parseInt(value, 10)` on the trimmed field. */
  function SliceArgOf(text: string): (a: SliceArg)
    ensures a == AllSlices <==> Trim(text) == ""
    ensures a.At? ==> ParseInt(Trim(text)) == Some(a.index)
    ensures a == NotANumber <==> Trim(text) != "" && ParseInt(Trim(text)).None?
  {
    var value := Trim(text);
    if value == "" then AllSlices
    else match ParseInt(value)
      case None => NotANumber
      case Some(i) => At(i)
  }

  /** The field a slice handler validates. */
  function Own(axis: Axis, x: string, y: string, z: string): string
  {
    match axis
    case X => x
    case Y => y
    case Z => z
  }

  /** `handleX/Y/ZSliceInput` of index.js: the edited field must be empty or a non-negative
      integer, otherwise nothing happens (`None`); the other two are passed on unchecked. */
  function SliceQuery(axis: Axis, x: string, y: string, z: string): (r: Option<(SliceArg, SliceArg, SliceArg)>)
    ensures var own := SliceArgOf(Own(axis, x, y, z));
            r.Some? <==> own == AllSlices || (own.At? && own.index >= 0)
    ensures r.Some? ==> r.value == (SliceArgOf(x), SliceArgOf(y), SliceArgOf(z))
  {
    var own := SliceArgOf(Own(axis, x, y, z));
    if own.NotANumber? || (own.At? && own.index < 0) then None
    else Some((SliceArgOf(x), SliceArgOf(y), SliceArgOf(z)))
  }

  /** Every natural number typed in a slice field, with white space around it, selects that
      slice; a negative one is refused. */
  lemma SliceNumbersRoundTrip(axis: Axis, x: string, y: string, z: string, i: int)
    requires Own(axis, x, y, z) == " " + IntToString(i) + " "
    ensures i >= 0 ==> SliceQuery(axis, x, y, z).Some? && SliceArgOf(Own(axis, x, y, z)) == At(i)
    ensures i < 0 ==> SliceQuery(axis, x, y, z).None?
  {
    var t := IntToString(i);
    var s := " " + t + " ";
    assert !IsJsSpace(t[0]) && !IsJsSpace(t[|t| - 1]);
    TrimStripsPad(t);
    ParseIntRoundTrip(i);
  }

  /** Trimming removes a blank on each side of text that starts and ends with a visible
      character. A helper of `SliceNumbersRoundTrip`. */
  lemma TrimStripsPad(t: string)
    requires |t| >= 1 && !IsJsSpace(t[0]) && !IsJsSpace(t[|t| - 1])
    ensures Trim(" " + t + " ") == t
  {
    var s := " " + t + " ";
    assert s[1..] == t + " ";
    assert LeadingSpaces(t + " ") == 0;
    assert LeadingSpaces(s) == 1;
    assert (t + " ")[..|t + " "| - 1] == t;
    assert TrailingSpaces(t) == 0;
    assert TrailingSpaces(t + " ") == 1;
    assert (t + " ")[..|t|] == t;
  }

  /** Only the edited field is checked: a non-numeric Y field reaches `highlightSlice` as
      `NaN` when X is edited, and is refused when Y is edited. */
  lemma SliceOthersUnchecked()
    ensures SliceQuery(X, "1", "y", "") == Some((At(1), NotANumber, AllSlices))
    ensures SliceQuery(Y, "1", "y", "") == None
  {
    SliceArgOne();
    SliceArgLetter();
    SliceArgEmpty();
  }

  /** A fraction in a slice field selects the slice of its integer part. */
  lemma SliceFractionTruncated()
    ensures SliceQuery(Z, "", "", "2.5") == Some((AllSlices, AllSlices, At(2)))
  {
    SliceArgEmpty();
    SliceArgFraction();
  }

  /** The slice arguments of the sample fields, one per lemma to keep each proof small. */
  lemma SliceArgOne()
    ensures SliceArgOf("1") == At(1)
  {
    TrimIdentity("1");
    ParseIntRoundTrip(1);
    assert IntToString(1) == "1";
  }

  lemma SliceArgLetter()
    ensures SliceArgOf("y") == NotANumber
  {
    TrimIdentity("y");
    assert LeadingSpaces("y") == 0;
    assert DigitRunEnd("y", 0) == 0;
  }

  lemma SliceArgEmpty()
    ensures SliceArgOf("") == AllSlices
  {
    TrimIdentity("");
  }

  lemma SliceArgFraction()
    ensures SliceArgOf("2.5") == At(2)
  {
    TrimIdentity("2.5");
    TwoAndAHalf();
  }

  /** `parseInt("2.5", 10)` stops at the point. */
  lemma TwoAndAHalf()
    ensures ParseInt("2.5") == Some(2)
  {
    assert LeadingSpaces("2.5") == 0;
    assert DigitRunEnd("2.5", 1) == 1;
    assert DigitRunEnd("2.5", 0) == 1;
    assert "2.5"[0..1] == "2";
    assert DigitsValue("2") == 2;
  }
}
