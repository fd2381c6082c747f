/** Validation and parsing of the text typed into the input box: JSON arrays checked against
    the three-axis limit (three variants), CSV validated by field counts and converted cell by
    cell, and viz.js's `new Array(JSON.parse(input))` wrapping. `JSON.parse` itself is a
    parameter: its result is `None` when it throws. */
module InputParsing {
  import opened JsValues
  import opened Text
  import opened Numerals
  import opened Shapes

  // ---------------------------------------------------------------- JSON validation

  /** `validJSONArray` of array-utils.js: the parsed value must be an array whose leftmost
      descent is at most three deep. */
  predicate ValidJsonLeftmost(parsed: Option<JValue>)
  {
    parsed.Some? && parsed.value.Arr? && |LeftmostShape(parsed.value)| <= 3
  }

  /** What passing the leftmost check means: an array whose leftmost descent has one to three
      entries, so that whatever dimensions `arrayShape` finds are at most three; the empty
      array passes. */
  lemma LeftmostLimitsShape(g: Guard, parsed: Option<JValue>)
    ensures ValidJsonLeftmost(parsed) ==> parsed.value.Arr? && 1 <= |LeftmostShape(parsed.value)| <= 3
    ensures ValidJsonLeftmost(parsed) && ArrayShape(g, parsed.value).Shape? ==> |ArrayShape(g, parsed.value).dims| <= 3
    ensures ValidJsonLeftmost(Some(Arr([])))
  {
    if ValidJsonLeftmost(parsed) && ArrayShape(g, parsed.value).Shape? {
      ShapeWithinLeftmost(g, parsed.value, ArrayShape(g, parsed.value).dims);
    }
  }

  /** `validJSONArray` of input-parser.js and app.js: parsing and `arrayShape` must not throw,
      and a list of dimensions must be at most three long. The value `false` has no length, so
      ragged input passes, and so does any scalar. */
  predicate ValidJsonRecursive(g: Guard, parsed: Option<JValue>): (b: bool)
    ensures parsed.Some? && parsed.value.Num? ==> b
    ensures b ==> parsed.Some? && !ArrayShape(g, parsed.value).Error?
    ensures parsed.Some? && ArrayShape(g, parsed.value).Ragged? ==> b
  {
    parsed.Some? &&
    match ArrayShape(g, parsed.value)
    case Shape(d) => |d| <= 3
    case Ragged => true
    case Error => false
  }

  /** The recursive validator accepts every array the leftmost one accepts, unless
      `arrayShape` throws on it: the leftmost descent is never shallower than the shape. */
  lemma LeftmostAcceptsLess(g: Guard, v: JValue)
    requires ValidJsonLeftmost(Some(v)) && ArrayShape(g, v) != Error
    ensures ValidJsonRecursive(g, Some(v))
  {
    if ArrayShape(g, v).Shape? {
      ShapeWithinLeftmost(g, v, ArrayShape(g, v).dims);
    }
  }

  /** Where the validators part: a scalar passes only the recursive one; `[[[[]]]]` (three
      axes, then an empty array) passes only the recursive one; a ragged array passes both;
      and `["a"]`, on which the truthiness guard throws, passes only the leftmost one. */
  lemma ValidatorsDisagree()
    ensures ValidJsonRecursive(InstanceOfArray, Some(Num(IntNum(5)))) && !ValidJsonLeftmost(Some(Num(IntNum(5))))
    ensures ValidJsonRecursive(InstanceOfArray, Some(Arr([Arr([Arr([Arr([])])])])))
    ensures !ValidJsonLeftmost(Some(Arr([Arr([Arr([Arr([])])])])))
    ensures ValidJsonRecursive(InstanceOfArray, Some(Arr([Arr([Num(IntNum(1))]), Arr([])])))
    ensures ValidJsonLeftmost(Some(Arr([Arr([Num(IntNum(1))]), Arr([])])))
    ensures ValidJsonLeftmost(Some(Arr([Str("a")]))) && !ValidJsonRecursive(Truthiness, Some(Arr([Str("a")])))
  {
    var deep := Arr([Arr([Arr([Arr([])])])]);
    assert Rect(InstanceOfArray, deep, [1, 1, 1]) by {
      assert Rect(InstanceOfArray, Arr([]), []);
      assert Rect(InstanceOfArray, Arr([Arr([])]), [1]);
      assert [1, 1, 1][1..] == [1, 1];
      assert [1, 1][1..] == [1];
      assert Rect(InstanceOfArray, Arr([Arr([Arr([])])]), [1, 1]);
    }
    ShapeIffRect(InstanceOfArray, deep, [1, 1, 1]);
    LeavesLookAlike(InstanceOfArray);
    GuardsDisagreeOnText();
  }

  // ---------------------------------------------------------------- viz.js wrapping

  /** What `new Array(x)` builds: `length` empty slots when `x` is a number, otherwise the
      one-element array `[x]`. */
  datatype Constructed = Holes(length: nat) | Filled(arr: JValue)

  /** `new Array(x)`: a number must be an integer in [0, 2^32), otherwise the constructor
      throws a RangeError (`None`). */
  function NewArray(x: JValue): (c: Option<Constructed>)
    ensures !x.Num? ==> c == Some(Filled(Arr([x])))
    ensures x.Num? ==> (c.Some? <==> IsIntegral(x.n) && 0 <= x.n.r.Floor < 0x1_0000_0000)
    ensures x.Num? && c.Some? ==> c.value.Holes? && c.value.length == x.n.r.Floor
    ensures c.Some? && c.value.Holes? ==> x == Num(IntNum(c.value.length))
  {
    match x
    case Num(n) =>
      if IsIntegral(n) && 0 <= n.r.Floor < 0x1_0000_0000 then Some(Holes(n.r.Floor)) else None
    case _ => Some(Filled(Arr([x])))
  }

  /** The argument a constructed array came from: its `length` for holes, its one element
      otherwise. */
  function Argument(c: Constructed): JValue
  {
    match c
    case Holes(n) => Num(IntNum(n))
    case Filled(a) => if a.Arr? && |a.items| == 1 then a.items[0] else a
  }

  /** `new Array` loses nothing: whenever it does not throw, the argument can be read back
      from what it built, so distinct arguments build distinct arrays. */
  lemma NewArrayRecoversArgument(x: JValue, y: JValue)
    ensures NewArray(x).Some? ==> Argument(NewArray(x).value) == x
    ensures NewArray(x).Some? && NewArray(x) == NewArray(y) ==> x == y
  {
    if NewArray(x).Some? && NewArray(x) == NewArray(y) {
      assert NewArray(y).Some?;
      assert Argument(NewArray(y).value) == y;
    }
  }

  /** `arrayShape` of what `new Array` built. `reduce` skips empty slots, so for `n > 0` holes
      the initial value `arrayShape(undefined) = []` is never compared. */
  function ConstructedShape(c: Constructed): ShapeResult
  {
    match c
    case Holes(n) => if n == 0 then Shape([]) else Shape([n])
    case Filled(a) => ArrayShape(InstanceOfArray, a)
  }

  /** Wrapping adds a leading axis of 1 to a shape, and turns a ragged value into an exception:
      its `false` is compared with itself. */
  lemma WrapAddsAxis(x: JValue)
    ensures ArrayShape(InstanceOfArray, Arr([x])) == match ArrayShape(InstanceOfArray, x)
                                                      case Shape(d) => Shape([1] + d)
                                                      case _ => Error
  {
    var s := ArrayShape(InstanceOfArray, x);
    assert ChildShapes(InstanceOfArray, [x]) == [s];
    assert [s][..0] == [];
    assert Fold(s, [s]) == Step(s, s);
  }

  /** `validArray` of viz.js. */
  predicate ValidArrayViz(parsed: Option<JValue>)
  {
    parsed.Some? && NewArray(parsed.value).Some? &&
    match ConstructedShape(NewArray(parsed.value).value)
    case Shape(d) => |d| <= 3
    case _ => false
  }

  /** viz.js accepts a non-number exactly when it is a rectangular nest of at most two axes:
      the wrapper's extra axis pushes a three-axis array past the limit, and a ragged array
      makes the wrapped `arrayShape` throw. A number is accepted exactly when `new Array`
      accepts it. */
  lemma ValidArrayVizExactly(x: JValue)
    ensures !x.Num? ==> (ValidArrayViz(Some(x)) <==> ArrayShape(InstanceOfArray, x).Shape? && |ArrayShape(InstanceOfArray, x).dims| <= 2)
    ensures x.Num? ==> (ValidArrayViz(Some(x)) <==> NewArray(x).Some?)
  {
    if !x.Num? {
      WrapAddsAxis(x);
    }
  }

  // ---------------------------------------------------------------- CSV

  /** The lines of the text after trimming it: `csvText.trim().split("\n")`. */
  function Lines(text: string): (rows: seq<string>)
    ensures |rows| == CountChar(Trim(text), '\n') + 1
    ensures Join(rows, '\n') == Trim(text)
    ensures forall i :: 0 <= i < |rows| ==> '\n' !in rows[i]
  {
    SplitCount(Trim(text), '\n');
    Split(Trim(text), '\n')
  }

  /** Lines joined with line breaks come back as those lines, provided the text neither starts
      nor ends with white space (which the trim would remove). */
  lemma LinesOfJoin(rows: seq<string>)
    requires |rows| >= 1 && forall i :: 0 <= i < |rows| ==> '\n' !in rows[i]
    requires var t := Join(rows, '\n'); |t| == 0 || (!IsJsSpace(t[0]) && !IsJsSpace(t[|t| - 1]))
    ensures Lines(Join(rows, '\n')) == rows
  {
    TrimIdentity(Join(rows, '\n'));
    SplitJoin(rows, '\n');
  }

  /** `row.split(",").length`. */
  function FieldCount(line: string): (n: nat)
    ensures n == CountChar(line, ',') + 1
  {
    SplitCount(line, ',');
    |Split(line, ',')|
  }

  /** Every line has the first line's number of fields. */
  predicate Rectangular(rows: seq<string>)
  {
    forall i :: 0 <= i < |rows| ==> FieldCount(rows[i]) == FieldCount(rows[0])
  }

  /** `validCSVArray`: every line has as many fields as the first. There is always at least
      one line, so the `rows.length < 1` exit is dead and one-line text is always valid. */
  method ValidCsv(text: string) returns (ok: bool)
    ensures ok <==> Rectangular(Lines(text))
    ensures |Lines(text)| == 1 ==> ok
  {
    ok := SameFieldCounts(Lines(text));
  }

  /** The loop of `validCSVArray`: compares each later line's field count with the first's. */
  method SameFieldCounts(rows: seq<string>) returns (ok: bool)
    requires |rows| >= 1
    ensures ok <==> Rectangular(rows)
  {
    var columnCount := FieldCount(rows[0]);
    var i := 1;
    while i < |rows|
      invariant 1 <= i <= |rows|
      invariant forall k :: 0 <= k < i ==> FieldCount(rows[k]) == columnCount
    {
      if FieldCount(rows[i]) != columnCount {
        return false;
      }
      i := i + 1;
    }
    return true;
  }

  /** `tryParseNumber` (array-utils.js and input-parser.js): the `parseFloat` value, or the
      cell itself when it has no numeric prefix. */
  function TryParseNumber(cell: string): (v: JValue)
    ensures v.Str? <==> ParseFloat(cell) == None
    ensures v.Str? ==> v.s == cell
    ensures v.Num? ==> ParseFloat(cell) == Some(v.n)
  {
    match ParseFloat(cell)
    case None => Str(cell)
    case Some(n) => Num(n)
  }

  /** `tryParseInt` (app.js): the `parseInt(value, 10)` value, or the cell itself. */
  function TryParseInt(cell: string): (v: JValue)
    ensures v.Str? <==> ParseInt(cell) == None
    ensures v.Str? ==> v.s == cell
    ensures v.Num? ==> exists i :: ParseInt(cell) == Some(i) && v.n == IntNum(i)
  {
    match ParseInt(cell)
    case None => Str(cell)
    case Some(i) => Num(IntNum(i))
  }

  /** Which cell conversion the CSV parser uses. */
  datatype CellParser = FloatCells | IntCells

  function ConvertCell(p: CellParser, cell: string): (v: JValue)
    ensures !v.Arr?
    ensures v.Str? ==> v.s == cell
    ensures p.FloatCells? && v.Num? ==> ParseFloat(cell) == Some(v.n)
    ensures p.IntCells? && v.Num? ==> ParseInt(cell).Some? && v.n == IntNum(ParseInt(cell).value)
  {
    match p
    case FloatCells => TryParseNumber(cell)
    case IntCells => TryParseInt(cell)
  }

  /** One line: `row.split(",").map(value => convert(value.trim()))`. */
  function ParseRow(p: CellParser, line: string): (cells: seq<JValue>)
    ensures |cells| == FieldCount(line)
    ensures forall k :: 0 <= k < |cells| ==> !cells[k].Arr?
    ensures forall k :: 0 <= k < |cells| ==> cells[k] == ConvertCell(p, Trim(Split(line, ',')[k]))
  {
    var fields := Split(line, ',');
    seq(|fields|, k requires 0 <= k < |fields| => ConvertCell(p, Trim(fields[k])))
  }

  /** Integers written out and joined with commas, each with white space on either side,
      parse back to those integers under either cell conversion. */
  lemma RowRoundTrip(p: CellParser, xs: seq<int>, before: seq<string>, after: seq<string>)
    requires |xs| >= 1 && |before| == |xs| && |after| == |xs|
    requires forall k :: 0 <= k < |xs| ==> AllSpaces(before[k]) && AllSpaces(after[k])
    ensures ParseRow(p, Join(Padded(xs, before, after), ',')) == seq(|xs|, k requires 0 <= k < |xs| => Num(IntNum(xs[k])))
  {
    var fields := Padded(xs, before, after);
    forall k | 0 <= k < |fields|
      ensures ',' !in fields[k]
    {
      NoCommaInPadded(xs[k], before[k], after[k]);
    }
    SplitJoin(fields, ',');
    hide ConvertCell, Trim, IntToString;
    var cells := ParseRow(p, Join(fields, ','));
    forall k | 0 <= k < |xs|
      ensures cells[k] == Num(IntNum(xs[k]))
    {
      CellRoundTrip(p, xs[k], before[k], after[k]);
    }
  }

  /** One integer field, with white space around it, converts back to the integer. */
  lemma CellRoundTrip(p: CellParser, x: int, l: string, r: string)
    requires AllSpaces(l) && AllSpaces(r)
    ensures ConvertCell(p, Trim(l + IntToString(x) + r)) == Num(IntNum(x))
  {
    var t := IntToString(x);
    assert !IsJsSpace(t[0]) && !IsJsSpace(t[|t| - 1]);
    TrimPadded(l, t, r);
    IntRoundTrip(x);
  }

  /** Each integer's text with its white space around it. */
  function Padded(xs: seq<int>, before: seq<string>, after: seq<string>): seq<string>
    requires |before| == |xs| && |after| == |xs|
  {
    seq(|xs|, k requires 0 <= k < |xs| => before[k] + IntToString(xs[k]) + after[k])
  }

  lemma NoCommaInPadded(x: int, l: string, r: string)
    requires AllSpaces(l) && AllSpaces(r)
    ensures ',' !in l + IntToString(x) + r
  {
    var t := IntToString(x);
    if x < 0 {
      assert t == [t[0]] + t[1..];
      assert ',' !in t[1..];
    }
  }

  /** `parseCSVArray`: the row itself for one-line text, otherwise one array per line. */
  function ParseCsv(p: CellParser, text: string): (r: JValue)
    ensures r.Arr?
    ensures |Lines(text)| == 1 ==> r.items == ParseRow(p, Lines(text)[0])
    ensures |Lines(text)| > 1 ==> |r.items| == |Lines(text)|
    ensures |Lines(text)| > 1 ==> forall i :: 0 <= i < |r.items| ==> r.items[i] == Arr(ParseRow(p, Lines(text)[i]))
  {
    var rows := Lines(text);
    var data := seq(|rows|, i requires 0 <= i < |rows| => ParseRow(p, rows[i]));
    if |data| == 1 then Arr(data[0]) else Arr(seq(|data|, i requires 0 <= i < |data| => Arr(data[i])))
  }

  /** Parsed CSV has a shape exactly when the text passed `validCSVArray`: `[fields]` for one
      line and `[lines, fields]` otherwise; lines of differing lengths give `false`. */
  lemma CsvShape(p: CellParser, text: string)
    ensures var rows := Lines(text);
            var shape := ArrayShape(InstanceOfArray, ParseCsv(p, text));
            && (Rectangular(rows) ==> shape == if |rows| == 1 then Shape([FieldCount(rows[0])])
                                               else Shape([|rows|, FieldCount(rows[0])]))
            && (!Rectangular(rows) ==> shape == Ragged)
  {
    var rows := Lines(text);
    if |rows| == 1 {
      RowShape(p, rows[0]);
    } else {
      GridShape(p, rows, ParseCsv(p, text).items);
    }
  }

  /** The shape of a list of parsed lines. */
  lemma GridShape(p: CellParser, rows: seq<string>, items: seq<JValue>)
    requires |rows| > 1 && |items| == |rows|
    requires forall i :: 0 <= i < |rows| ==> items[i] == Arr(ParseRow(p, rows[i]))
    ensures Rectangular(rows) ==> ArrayShape(InstanceOfArray, Arr(items)) == Shape([|rows|, FieldCount(rows[0])])
    ensures !Rectangular(rows) ==> ArrayShape(InstanceOfArray, Arr(items)) == Ragged
  {
    var shapes := ChildShapes(InstanceOfArray, items);
    RowShapes(p, rows, items);
    assert ArrayShape(InstanceOfArray, Arr(items)) == Combine(|rows|, FoldSpec(shapes)) by {
      ShapeOfArray(InstanceOfArray, items);
    }
    FlatFold(shapes, rows);
    if Rectangular(rows) {
      var c := FieldCount(rows[0]);
      assert Combine(|rows|, Shape([c])) == Shape([|rows|, c]) by {
        assert [|rows|] + [c] == [|rows|, c];
      }
    }
  }

  lemma RowShapes(p: CellParser, rows: seq<string>, items: seq<JValue>)
    requires |items| == |rows|
    requires forall i :: 0 <= i < |rows| ==> items[i] == Arr(ParseRow(p, rows[i]))
    ensures forall i :: 0 <= i < |rows| ==> ChildShapes(InstanceOfArray, items)[i] == Shape([FieldCount(rows[i])])
  {
    forall i | 0 <= i < |rows|
      ensures ChildShapes(InstanceOfArray, items)[i] == Shape([FieldCount(rows[i])])
    {
      RowShape(p, rows[i]);
    }
  }

  /** The shapes of parsed lines: the fold keeps the first when every line has as many
      fields as the first and gives `false` otherwise. */
  lemma FlatFold(shapes: seq<ShapeResult>, rows: seq<string>)
    requires |shapes| == |rows| >= 1
    requires forall i :: 0 <= i < |shapes| ==> shapes[i] == Shape([FieldCount(rows[i])])
    ensures Rectangular(rows) ==> FoldSpec(shapes) == shapes[0]
    ensures !Rectangular(rows) ==> FoldSpec(shapes) == Ragged
  {
    assert !FoldThrows(shapes);
    if !Rectangular(rows) {
      var i :| 0 <= i < |rows| && FieldCount(rows[i]) != FieldCount(rows[0]);
      assert shapes[i] != shapes[0];
    }
  }

  /** A parsed line is a flat array of its fields. */
  lemma RowShape(p: CellParser, line: string)
    ensures ArrayShape(InstanceOfArray, Arr(ParseRow(p, line))) == Shape([FieldCount(line)])
  {
    var cells := ParseRow(p, line);
    assert Rect(InstanceOfArray, Arr(cells), [FieldCount(line)]) by {
      assert forall k :: 0 <= k < |cells| ==> Rect(InstanceOfArray, cells[k], []);
    }
    ShapeIffRect(InstanceOfArray, Arr(cells), [FieldCount(line)]);
  }

  /** The two cell conversions on "3.7": `parseInt` keeps the integer prefix, so it becomes 3
      where `parseFloat` keeps 3.7. */
  lemma FractionCell()
    ensures TryParseInt("3.7") == Num(IntNum(3))
    ensures TryParseNumber("3.7") == Num(Fin(3.7))
  {
    ThreeSevenInt();
    ThreeSevenFloat();
  }

  lemma ThreeSevenInt()
    ensures ParseInt("3.7") == Some(3)
  {
    var s := "3.7";
    assert LeadingSpaces(s) == 0;
    assert DigitRunEnd(s, 1) == 1;
    assert DigitRunEnd(s, 0) == 1;
    assert s[0..1] == "3";
    assert DigitsValue("3") == 3;
  }

  lemma ThreeSevenFloat()
    ensures ParseFloat("3.7") == Some(Fin(3.7))
  {
    ThreeSevenScan();
    ThreeSevenValue();
  }

  lemma ThreeSevenValue()
    ensures LiteralValue(DecimalLit(false, 37, 1, 0)) == Fin(3.7)
  {
    assert Pow10(1) == 10;
  }

  lemma ThreeSevenScan()
    ensures LeadingSpaces("3.7") == 0 && !StartsWithAt("3.7", 0, "Infinity")
    ensures ScanDecimal("3.7", 0) == Some((DecimalLit(false, 37, 1, 0), 3))
  {
    var s := "3.7";
    assert LeadingSpaces(s) == 0;
    assert DigitRunEnd(s, 1) == 1;
    assert DigitRunEnd(s, 0) == 1;
    assert RunValue(s, 0, 1) == 3;
    assert DigitRunEnd(s, 3) == 3;
    assert DigitRunEnd(s, 2) == 3;
    assert RunValue(s, 2, 3) == 7;
    assert Pow10(1) == 10;
    assert !StartsWithAt(s, 0, "Infinity");
  }

  /** "12x" becomes 12 under `parseInt`; text without a numeric prefix stays text under both
      conversions. */
  lemma PrefixCells()
    ensures TryParseInt("12x") == Num(IntNum(12))
    ensures TryParseInt("x1") == Str("x1") && TryParseNumber("x1") == Str("x1")
  {
    var s := "12x";
    assert LeadingSpaces(s) == 0;
    assert DigitRunEnd(s, 2) == 2;
    assert DigitRunEnd(s, 1) == 2;
    assert DigitRunEnd(s, 0) == 2;
    assert s[0..2] == "12";
    assert DigitsValue("12") == 12 by {
      assert "12"[..1] == "1";
    }
    assert LeadingSpaces("x1") == 0;
    assert DigitRunEnd("x1", 0) == 0;
    assert !StartsWithAt("x1", 0, "Infinity");
  }
}
