# array-3d-viz in Dafny

array-3d-viz draws a JSON or CSV array of rank 1 to 3 as a grid of translucent cubes and lets
the user highlight cubes by value or by range. It ships three front ends:
- the module-based page (public/js/index.js with visualization.js, types.js, array-utils.js
  and input-parser.js);
- the older single-file page public/app.js;
- the minimal page public/viz.js.

A Node server (server.js) serves either the input form ("GUI mode") or a data file given on
the command line. A NumPy file is converted to nested arrays first.

This project models the deterministic logic under the rendering, as pure functions over
immutable values:
- `JsValues` holds JavaScript values. Numbers are exact rationals plus ±Infinity, and NaN
  appears as `None`. A value is a number, a string or an array.
- `Text` covers `trim`, `split`, `join`, the white-space-stripping regular expressions,
  `toLowerCase` and `String(n)`.
- `Numerals` covers `parseFloat`, `parseInt(s, 10)`, `Number(s)`, and the `isNumeric`,
  `isInt` and `isInteger` tests built on them.
- `Comparison` covers JavaScript's `<` and `<=` on these values (text order for two strings,
  numeric order otherwise) and the text a value becomes as a property key.
- `Shapes` covers the recursive `arrayShape`/`arrayEquals` pair. It has both leaf guards:
  `instanceof Array`, and the truthiness test of array-utils.js. It also covers the
  leftmost `getArrayShape`. An outcome is a shape, `false` (`Ragged`) or a thrown exception
  (`Error`).
- `InputParsing` covers JSON validation (the three variants), viz.js's `new Array(...)`
  wrapping, and CSV validation and parsing with either cell converter.
- `Server` covers the command-line path default, `path.extname`, loader dispatch, the NumPy
  reshapes with their round trip, and the start-up decision sequence.
- `Scene` covers the flat index and grid cell of every cube, the label sampling and text,
  the size thresholds, camera framing and viz.js's shape caption.
- `Highlighting` covers `highlightValue`/`highlightInequality` of each front end, `minMax`
  and `resetScale`, and the histogram counts of `graphDistribution`.
- `Controls` covers what "Run", the three query fields and the slice fields decide.

Each front end is a value of `Highlighting.Frontend` where behaviour differs:
`ModularUi`, `AppUi` or `VizUi`. DOM reads are `Option<string>` parameters (`None` for a
missing element). `JSON.parse` is a parameter returning `None` where it throws. The file
system and the loaders of server.js are parameters too.

## Model

| member | source | states |
|---|---|---|
| Shapes.ArrayEquals | public/js/types.js:58-65 | `arrayEquals` on two dimension lists is true exactly when the lists are equal |
| Shapes.Step | public/js/types.js:76-78 | one step of the `reduce` keeps a shape exactly when the accumulated result is a shape and the next element has the same one; `false` arises only from a ragged side or a mismatch |
| Shapes.Fold | public/js/types.js:76-78 | the `reduce` ends on a shape only when every element has the first element's shape, and then it is that shape |
| Shapes.ArrayShape | public/js/types.js:72-80 | a non-empty shape starts with the array's own length; a non-empty array never has the shape `[]` |
| Shapes.FoldMatchesSpec | public/js/types.js:76-78 | the left-to-right `reduce` yields: an exception when an element throws, when the first element is ragged, or when a ragged element follows a mismatch; otherwise `false` when some element's shape differs from the first; otherwise the first element's shape |
| Shapes.ShapeOfArray | public/js/types.js:72-80 | `arrayShape` of a non-empty array is its length prepended to the reduce's outcome, with `false` and exceptions passed through |
| Shapes.EmptyShapeIffLeaf | public/js/types.js:73-75 | `arrayShape` gives `[]` exactly for non-arrays and the empty array, except for a non-empty string under the truthiness guard |
| Shapes.ShapeIffRect | public/js/types.js:72-80 | `arrayShape` returns dimensions `d` exactly when the value is a rectangular nest with dimensions `d`, every sibling having the same shape |
| Shapes.ShapeHasNoZero | public/js/types.js:73-79 | a returned shape never contains 0, because an empty array counts as a leaf |
| Shapes.MismatchNeverShape | public/js/types.js:76-78 | once any element's shape differs from the first element's, the result is `false` or an exception, never a partial shape |
| Shapes.LeavesLookAlike | public/js/types.js:73-79 | `[[],[]]` and `[1,2]` both have shape `[2]`; `[[1],[]]` is ragged, but its leftmost descent is `[2,1]` |
| Shapes.RaggedThrows | public/js/types.js:58-65 | a ragged first element, or a second ragged element after a mismatch, reaches `false.every` and throws |
| Shapes.LeftmostShape | public/js/array-utils.js:22-32 | `getArrayShape` is non-empty exactly for arrays, and its first entry is the array's length |
| Shapes.LeftmostOfRect | public/js/array-utils.js:22-32 | on a rectangular nest the leftmost descent finds its dimensions, plus a trailing 0 when the innermost arrays are empty |
| Shapes.ShapeWithinLeftmost | public/js/array-utils.js:22-32 | whenever `arrayShape` returns `d`, `getArrayShape` is as long as `d` or one entry longer |
| Shapes.GuardsAgree | public/js/array-utils.js:109-117 | the truthiness-guarded `arrayShape` equals the `instanceof` one on every value without non-empty strings |
| Shapes.GuardsDisagreeOnText | public/js/array-utils.js:109-117 | on `["a"]` the `instanceof` guard gives `[1]`, but the truthiness guard recurses into the string without end (an exception) |
| InputParsing.LeftmostLimitsShape | public/js/array-utils.js:6-15 | only an array whose leftmost descent has 1 to 3 entries passes; `[]` passes; whatever `arrayShape` returns for a passing value has at most 3 dimensions |
| InputParsing.ValidJsonRecursive | public/js/input-parser.js:12-24 | every JSON number passes, and so does every ragged value; nothing on which `arrayShape` throws passes |
| InputParsing.LeftmostAcceptsLess | public/js/array-utils.js:6-15 | every JSON value the leftmost validator accepts, the recursive validator accepts too, unless `arrayShape` throws on it |
| InputParsing.ValidatorsDisagree | public/js/input-parser.js:12-24 | example, not a general property: the recursive validator accepts the scalar `5`, which the leftmost one rejects; both reject `[[[[]]]]`; both accept the ragged `[[1],[]]`; `["a"]` passes the leftmost validator but not the truthiness-guarded recursive one |
| InputParsing.NewArray | public/viz.js:49-62 | `new Array(x)` wraps a non-number in a one-element array; a number gives exactly that many holes when it is an integer in [0, 2^32), and otherwise the constructor throws |
| InputParsing.NewArrayRecoversArgument | public/viz.js:49-62 | whenever `new Array(x)` does not throw, `x` can be read back from what it built (the length of the holes, or the one element), so different arguments never build the same array |
| InputParsing.WrapAddsAxis | public/viz.js:49-62 | wrapping adds a leading axis of 1 to a shape, turns `false` into an exception and passes an exception through |
| InputParsing.ValidArrayVizExactly | public/viz.js:49-62 | viz.js accepts a non-number exactly when it is a rectangular nest of at most 2 axes, so a 3-D input is refused; it accepts a number exactly when `new Array` does not throw |
| InputParsing.Lines | public/js/array-utils.js:39-41 | the lines are the pieces of the trimmed text between line breaks: none holds a line break, joining them with line breaks gives the trimmed text back, and there is one more line than line breaks |
| InputParsing.LinesOfJoin | public/js/array-utils.js:39-41 | lines without line breaks, joined into a text that does not start or end with white space, split back into exactly those lines |
| InputParsing.FieldCount | public/js/array-utils.js:43-46 | a line's field count is its number of commas plus one |
| InputParsing.ValidCsv | public/js/array-utils.js:39-52 | `validCSVArray` is true exactly when every line has the first line's field count, so every one-line text is valid |
| InputParsing.SameFieldCounts | public/js/input-parser.js:39-50 | the comparison loop returns true exactly when every later line has the first line's field count |
| InputParsing.TryParseNumber | public/js/input-parser.js:78-85 | the cell stays the same string exactly when `parseFloat` gives NaN; otherwise it becomes `parseFloat`'s number |
| InputParsing.TryParseInt | public/app.js:88-96 | the cell stays the same string exactly when `parseInt` gives NaN; otherwise it becomes `parseInt`'s integer |
| InputParsing.ConvertCell | public/js/array-utils.js:59-64 | a cell is never an array: it stays its own text, or becomes the number `parseFloat` (index.js) or `parseInt` (app.js) reads from it |
| InputParsing.ParseRow | public/js/array-utils.js:59-64 | a parsed line has one cell per comma-separated field, none of them an array, and cell k is the k-th field trimmed and then converted |
| InputParsing.RowRoundTrip | public/js/array-utils.js:61-63 | integers written out and joined with commas, with white space around each field, parse back to those integers under either cell conversion |
| InputParsing.CellRoundTrip | public/js/array-utils.js:62 | one integer field with white space around it is trimmed and converted back to the integer |
| InputParsing.ParseCsv | public/js/array-utils.js:59-66 | one line parses to a flat row; more lines parse to one array per line, in line order |
| InputParsing.CsvShape | public/app.js:58-87 | parsed CSV has shape `[fields]` for one line and `[lines, fields]` when the text passes `validCSVArray`; lines of different lengths give `false` |
| InputParsing.GridShape | public/js/input-parser.js:59-71 | the array of parsed lines has shape `[lines, fields]` when all lines have equal field counts, and is ragged otherwise |
| InputParsing.RowShape | public/js/input-parser.js:64 | a parsed line is a flat array with one entry per field |
| InputParsing.FractionCell | public/app.js:88-96 | example, not a general property: `"3.7"` becomes 3 under `tryParseInt` and 3.7 under `tryParseNumber` |
| InputParsing.PrefixCells | public/app.js:88-96 | example, not a general property: `"12x"` becomes 12 under `tryParseInt`; `"x1"` stays text under both converters |
| Numerals.ParseInt | public/app.js:89 | `parseInt` yields a number only for text that holds a decimal digit |
| Numerals.ParseFloat | public/js/index.js:98 | `parseFloat` of blank text is NaN and of a run of digits is the number they spell; otherwise it is the value of the longest decimal literal after the leading white space, and NaN exactly when no literal starts there |
| Numerals.ParseFloatReadsLiteral | public/js/index.js:98 | white space in front of a literal is skipped and text after it is ignored when its first character cannot continue the literal |
| Numerals.ParseFloatFraction | public/js/index.js:98 | example, not a general property: `parseFloat(" 2.5x")` is 2.5 |
| Numerals.ParseFloatExponent | public/js/index.js:98 | example, not a general property: `parseFloat("-1e3")` is -1000 |
| Numerals.StringToNumber | public/js/types.js:109-115 | `Number` of text that is empty after trimming is 0 |
| Numerals.ToNumber | public/viz.js:496-504 | `Number` leaves numbers unchanged and gives NaN for arrays of two or more items |
| Numerals.IsNumeric | public/js/types.js:109-115 | `isNumeric` refuses a missing field and blank text; on what it accepts, `Number` and `parseFloat` agree unless the text is a `0x`, `0o` or `0b` integer |
| Numerals.IsInt | public/js/types.js:30-36 | whatever passes `isInt` (a number, numeric text, or a one-item array of such) converts under `Number` to an integer |
| Numerals.IsIntegerArray | public/js/types.js:43-50 | the loop passes exactly when every element passes `isInt` |
| Numerals.IsIntegerText | public/js/array-utils.js:83-86 | `isInteger` accepts every run of digits and refuses blank text, which `Number` would read as 0 |
| Numerals.NumericValue | public/js/index.js:93-98 | the value a handler passes on for a field `isNumeric` accepted is `parseFloat` of its text |
| Numerals.IntRoundTrip | public/js/index.js:170-191 | the decimal rendering of any integer reads back as that integer under `parseInt`, `parseFloat` and `Number`, and `isNumeric` accepts it |
| Numerals.ParseIntRoundTrip | public/js/index.js:175 | `parseInt` reads back the decimal rendering of every integer |
| Numerals.ParseFloatRoundTrip | public/js/index.js:98 | `parseFloat` reads back the decimal rendering of every integer |
| Numerals.NumberRoundTrip | public/js/types.js:109-115 | `Number` reads back the decimal rendering of every integer |
| Numerals.IsIntegerVariants | public/js/array-utils.js:83-86 | the 32-bit `(x\|0) === x` test implies the `Number.isInteger` test, but 3000000000 passes only the second |
| Numerals.IsNumericNeedsBoth | public/js/types.js:109-115 | `isNumeric` needs both conversions: `""` converts to 0 but has no `parseFloat` value, `"5px"` has a `parseFloat` value but does not convert, and a missing field is never numeric |
| Text.Trim | public/js/index.js:172 | the trimmed text neither starts nor ends with white space, and is the input with leading and trailing white space removed |
| Text.TrimIdentity | public/js/index.js:172 | trimming text without leading or trailing white space changes nothing |
| Text.TrimPadded | public/js/array-utils.js:62 | trimming white space off both sides of a text that neither starts nor ends with white space gives the text back |
| Text.Split | public/js/array-utils.js:40 | `split` gives at least one piece, no piece holds the separator, and joining the pieces gives the text back |
| Text.SplitJoin | public/js/array-utils.js:40-46 | splitting text joined from separator-free pieces gives the pieces back: the inverse of `Split` |
| Text.SplitCount | public/js/array-utils.js:43 | the number of pieces is the number of separators plus one |
| Text.RemoveAll | public/js/index.js:65 | a regular-expression removal keeps only characters it does not match, keeps every character it does not match, and keeps text without matches as it is |
| Text.StripSpacesAndTabs | public/js/index.js:61-65 | removing spaces and tabs leaves none, keeps every line break, and keeps every other character of the input |
| Text.StripWhitespace | public/viz.js:65 | removing `\s` leaves no white space at all, keeps every other character of the input, and changes text without white space not at all |
| Text.StripPieces | public/js/index.js:65 | both strippings work piece by piece and character by character (a stripped character vanishes, any other stays), so the kept characters stay in their order |
| Text.LowerAscii | server.js:37-39 | lower-casing maps each capital ASCII letter to its small letter and keeps every other character |
| Text.NatToString | public/viz.js:111 | `String(n)` is a non-empty run of digits without a leading zero |
| Text.IntToString | public/js/visualization.js:105-107 | the rendering is digits, with a minus sign in front for a negative integer; this is `String(i)` below 10^21 in magnitude |
| Text.NatToStringValue | public/viz.js:110-113 | the digits of `String(n)` read back as `n` |
| Server.GetFilePath | server.js:13-26 | the path is absent exactly when the argument is missing or empty; `.json` is appended exactly when it has no dot; the result always holds a dot |
| Server.GetFilePathIdempotent | server.js:13-26 | feeding the chosen path back in chooses the same path |
| Server.IsGuiEnabled | server.js:41-44 | with no argument after the script GUI mode is on and there is no path; when it is off, the path is missing only for an empty argument |
| Server.LastIndexOf | server.js:37-39 | `lastIndexOf` finds the last occurrence, and is -1 exactly when there is none |
| Server.StripTrailingSlashes | server.js:37-39 | trailing slashes are removed, and only those |
| Server.ExtName | server.js:37-39 | `path.extname` is empty, or a dot followed by text without dots or slashes |
| Server.GetFileExtension | server.js:37-39 | the extension has no dot and no slash |
| Server.DefaultExtension | server.js:13-39 | a dot-free file name given on the command line ends up with extension `json`; one ending in a slash ends up with none |
| Server.ChooseLoader | server.js:149-167 | a missing path is an error; extension `json` picks the JSON loader; `npy` and `npz` pick the NumPy loader; any other extension is the error `Unsupported file type: .<ext>` |
| Server.Chunks | server.js:69-82 | the buffer cut into `n` runs of `stride` entries |
| Server.ChunksIndex | server.js:69-82 | entry `j` of run `i` is entry `i*stride + j` of the buffer |
| Server.ChunksFlatten | server.js:69-101 | joining the runs again gives the buffer back |
| Server.Row | server.js:65-67 | the 1-D conversion has one entry per buffer entry |
| Server.Reshape2Index | server.js:69-82 | the 2-D reshape has `rows` rows, and `[i][j]` is `data[i*cols + j]` |
| Server.Reshape3Index | server.js:84-101 | the 3-D reshape has `depth` planes, and `[i][j][k]` is `data[(i*rows + j)*cols + k]` |
| Server.ConvertNdArrayToArray | server.js:103-116 | conversion succeeds exactly for rank 1, 2 or 3; any other rank is an error naming the rank |
| Server.Reshape2RoundTrip | server.js:69-82 | reading the 2-D reshape in order gives the buffer back |
| Server.Reshape3RoundTrip | server.js:84-101 | reading the 3-D reshape in order gives the buffer back |
| Server.ConvertRoundTrip | server.js:103-116 | conversion loses and reorders nothing: its entries in reading order are the buffer |
| Server.Reshape2Rect | server.js:69-82 | with positive dimensions the 2-D reshape is a rectangular `[rows, cols]` nest |
| Server.Reshape3Rect | server.js:84-101 | with positive dimensions the 3-D reshape is a rectangular `[depth, rows, cols]` nest |
| Server.ConvertShape | server.js:103-116 | with positive dimensions `arrayShape` of the converted array is the array's own shape |
| Server.Routes | server.js:169-199 | `/` and `/gui` are always served; `/data` is served exactly outside GUI mode |
| Server.Startup | server.js:210-243 | GUI mode serves at once; otherwise the server starts exactly when a path was given, the file exists, the extension is supported and the conversion does not throw; a missing path exits with "No file path provided" |
| Server.LoadNumPy | server.js:118-134 | a read error is reported as is; after a successful read, loading succeeds exactly when the rank is 1, 2 or 3, `JSON.stringify` meets no BigInt, and the store succeeds; the rank error comes first, then the BigInt TypeError |
| Server.StringifyError | server.js:127 | `JSON.stringify` throws its BigInt TypeError exactly when the file's elements are BigInts and there is at least one |
| Server.Int64FilesFail | server.js:118-134 | a non-empty 64-bit integer file of rank 1 to 3 fails to load, while the same data as floats loads |
| Scene.Flat2RoundTrip | public/js/visualization.js:255-291 | every in-range `[i][j]` has an in-range flat index, and unflattening it gives `(i, j)` back |
| Scene.Unflatten2RoundTrip | public/js/visualization.js:255-291 | every flat index below `n0*n1` is the flat index of an in-range pair, so the flat index is a bijection |
| Scene.Flat3RoundTrip | public/js/visualization.js:298-336 | every in-range `[i][j][k]` has an in-range flat index `i*n1*n2 + j*n2 + k`, and unflattening it gives the triple back |
| Scene.Unflatten3RoundTrip | public/js/visualization.js:298-336 | every flat index below `n0*n1*n2` is the flat index of an in-range triple |
| Scene.BuildCubes1 | public/js/visualization.js:219-248 | `cubeData[m]` records element `m` under index `m`, all cubes lie in the grid box, and no two share a cell |
| Scene.BuildCubes2 | public/js/visualization.js:255-291 | `cubeData[m].index == m`, `[i][j]` sits at flat index `i*n1 + j` in cell `(x+j, y+n0-1-i, z)`, all cubes lie in the grid box, and no two share a cell |
| Scene.BuildCubes3 | public/js/visualization.js:298-336 | `cubeData[m].index == m`, `[i][j][k]` sits at flat index `i*n1*n2 + j*n2 + k`, all cubes lie in the grid box, and no two share a cell |
| Scene.Multiples | public/js/visualization.js:100-101 | the kept indices are exactly those below `n` divisible by the step, in increasing order |
| Scene.LabelledIndices | public/js/visualization.js:95-101 | the kept indices increase and lie below `n`; with `maxLabels > 0` an index is kept exactly when it is divisible by the step `max(1, floor(n / maxLabels))`, so every index is kept below `2*maxLabels` elements; with `maxLabels` 0 only index 0 is kept |
| Scene.EveryElementLabelled | public/js/visualization.js:245-246 | at the call sites `maxLabels` is the element count, so every element is labelled |
| Scene.LabelText | public/js/visualization.js:105-107 | a label is a prefix of the value's text, 8 characters long at most when it holds a point and 6 otherwise |
| Scene.NatToStringLength | public/js/visualization.js:105-107 | a rendering has at most `k` digits exactly when the number is below `10^k` |
| Scene.IntegerLabelExact | public/js/visualization.js:105-107 | below 10^21 in magnitude, an integer label shows the whole number exactly when it lies between -99999 and 999999 |
| Scene.Plan | public/js/visualization.js:143-147 | individual meshes exactly when there are at most 2000 elements; labels exactly when a 1-D array has at most 2000 elements or a 2-D or 3-D array at most 1000; labels only with individual meshes |
| Scene.Pad3 | public/js/visualization.js:514 | the shape padded with zeros to three entries |
| Scene.Framing | public/js/visualization.js:510-535 | `init` frames arrays of rank at most 3 with a shape and throws otherwise; the camera sits at the padded dimensions with a third coordinate of `max(padded dims, 3)`; viz.js aims at `(c2, c1, c0)` |
| Scene.AimedInsideGrid | public/js/visualization.js:519-535 | the rank-aware target is a cell of the drawn grid for every array of rank 1 to 3 with positive dimensions |
| Scene.FixedAimMissesGrid | public/viz.js:448-458 | viz.js's target for `[1,2]` is (0,0,1), outside the grid, and every 3-D array of two or more planes also has its target outside the grid |
| Scene.SpaceCommas | public/viz.js:111 | `replaceAll(',', ', ')` lengthens the text by one per comma, adds only blanks, and keeps every character |
| Scene.UnspaceCommas | public/viz.js:111 | deleting the blanks undoes `replaceAll(',', ', ')` on text without blanks |
| Scene.ShapeCaption | public/viz.js:110-113 | a caption exists exactly when `arrayShape` does not throw; it is parenthesised, and `(false)` for a ragged array |
| Scene.ShapeString | public/viz.js:111 | the comma-joined shape has no blanks, and splitting it at the commas gives each dimension's digits back |
| Scene.CaptionRoundTrip | public/viz.js:110-113 | reading a caption back gives the dimensions, so the caption determines the shape |
| Highlighting.DimLevel | public/js/visualization.js:342-360 | the dim level is below the highlight level 0.8 and not negative |
| Highlighting.HighlightValue | public/js/visualization.js:342-360 | one opacity per cube: 0.8 exactly for the cubes whose value matches the target and the dim level for every other cube |
| Highlighting.HighlightInequality | public/js/visualization.js:367-386 | one opacity per cube: 0.8 exactly for `low < v < high`, both strict, and the dim level otherwise |
| Highlighting.StrictWithinLoose | public/viz.js:496-504 | every cube app.js's `===` lights, viz.js's `==` lights too; `"5"` and `[]` show that the converse fails |
| Highlighting.EmptyRangeLightsNothing | public/js/visualization.js:367-386 | a range whose lower bound is not below its upper bound lights no cube |
| Highlighting.OpenRangeLightsFinite | public/js/visualization.js:367-386 | the open range (-Infinity, +Infinity), the bounds a handler uses for unusable fields, lights exactly the cubes whose value converts to a finite number |
| Highlighting.BoundsStep | public/js/types.js:92-99 | on finite numbers, comparing one more number against the bounds so far gives the least and greatest of the longer list |
| Highlighting.RawBoundsAmongValues | public/js/types.js:87-102 | the scan ends on (+Infinity, -Infinity) exactly when no value passes `isNumeric2`; otherwise both bounds are values that pass |
| Highlighting.RawBoundsOfNumbers | public/js/types.js:87-102 | when every value passing `isNumeric2` is a number, the bounds are the least and the greatest finite values |
| Highlighting.RawBoundsOfStrings | public/js/types.js:87-102 | when every value passing `isNumeric2` is a string, the bounds are the first and the last of those strings in text order, whatever numbers they spell |
| Highlighting.ScanBounds | public/js/types.js:87-102 | the loop from index `start` ends on the bounds of the comparison scan over the values from there on, `<` and `>` taken on the values as they are |
| Highlighting.MinMax | public/js/types.js:87-102 | `minMax` returns (+Infinity, -Infinity) exactly when no value passes `isNumeric2`; otherwise two values that pass; the least and greatest when those values are numbers, the first and last in text order when they are strings |
| Highlighting.MinMaxComparesText | public/js/types.js:93-98 | example, not a general property: the strings "10" and "9" give the minimum "10" and the maximum "9" |
| Highlighting.AppMinMax | public/app.js:308-323 | app.js's `minMax` as written returns the scan's bounds over the values after the first one, and (+Infinity, -Infinity) for no values |
| Highlighting.AppMinMaxSkipsFirst | public/app.js:308-323 | for [9, 1, 2] app.js reports the maximum 2; a single value gives (+Infinity, -Infinity) |
| Highlighting.SeededMinMax | public/viz.js:506-517 | `resetScale` throws on no cubes; otherwise both bounds are cube values, and the least and greatest when every cube value is a number |
| Highlighting.OccurrencesAbsent | public/js/visualization.js:569-590 | a value has count zero exactly when it does not occur |
| Highlighting.FlatOnce | public/js/visualization.js:570 | `arr.flat()` keeps every non-array item and brings in only items or items of array items |
| Highlighting.FillGaps | public/js/visualization.js:587-590 | after gap filling there is a key for every counted text and every key the loop visits between the bounds, holding the count (0 for a gap) |
| Highlighting.GraphDistribution | public/js/visualization.js:569-590 | the histogram is built exactly when every value of the twice-flattened array passes `isInt`; it then counts each text and fills the keys between the raw bounds; on numbers it is the histogram of their integers |
| Highlighting.DistributionOfNumbers | public/js/visualization.js:569-590 | on numbers, the counts form a histogram: a key for exactly each integer from the least to the greatest value, holding its occurrences (0 for gaps), and no other key |
| Highlighting.IntTextIsInt | public/js/array-utils.js:139-144 | the decimal text of every integer from 0 below 2^31 passes `isInt` |
| Highlighting.DistributionOfTwoTexts | public/js/visualization.js:569-590 | for two integer texts whose text order runs against their numeric order, only the two texts get keys, each with count 1 |
| Highlighting.DistributionComparesText | public/app.js:164-184 | example, not a general property: for the strings "5" and "10" the bounds are "10" and "5", so the histogram has only those two keys and 6 to 9 get no bar |
| Highlighting.IntValues | public/js/array-utils.js:139-144 | one integer per value passing `isInt`, in order, each the integer `parseFloat` reads from the value's text |
| Highlighting.CountByText | public/js/visualization.js:572-585 | the counting loop has a key exactly for each text some value has, holding how many values have it, and ends on the comparison scan's bounds |
| Highlighting.GapKeyExists | public/js/visualization.js:588-589 | the keys `i++` reaches above a bound up to `max` are exactly the texts of the integers in between |
| Highlighting.GapKeyOfInt | public/js/visualization.js:588-589 | an integer's text is reached exactly when the integer lies above the lower bound and not above the upper one |
| Controls.Typed | public/js/index.js:61-65 | the input box's text with no spaces or tabs left; a missing box counts as empty |
| Controls.RunInputModular | public/js/index.js:61-91 | JSON first, then CSV, otherwise "JSON or CSV format required."; empty input alerts too; it never does nothing; the stored array changes only when something is shown, and then it is the array shown |
| Controls.TooManyAxesUnreachable | public/js/index.js:70-73 | the "Maximum of 3 dimensions" alert is never raised, because the leftmost validation has already refused every such input |
| Controls.ModularShowsParsed | public/js/index.js:66-86 | index.js shows the parsed JSON when it passed the leftmost validation and otherwise the parsed CSV |
| Controls.TextArrayCrashes | public/js/index.js:61-91 | `["a"]` passes index.js's validation and then makes its `arrayShape` throw, uncaught |
| Controls.RunInputApp | public/app.js:106-130 | app.js alerts exactly for empty input or input that is neither valid JSON nor valid CSV; it stores a falsy JSON value and shows nothing; it crashes exactly on a truthy JSON scalar or a ragged JSON array; what it shows is an array with a shape, also stored |
| Controls.AppCrashesOnScalars | public/app.js:164-166 | a JSON number or string passing validation is stored, and makes `array.flat()` throw unless it is falsy, in which case nothing is shown |
| Controls.AppCrashesOnRagged | public/app.js:566-573 | example, not a general property: the ragged `[[1],[2,3]]` passes app.js's validation and then makes `init` throw |
| Controls.ModularAlertNeedsLines | public/js/index.js:74-79 | index.js's format alert needs empty input or more than one line, since every line is a valid CSV row |
| Controls.ModularFallsBackToCsv | public/js/index.js:74-76 | one line of text that is not a valid JSON array is shown as the CSV row it parses to |
| Controls.OneLine | public/js/index.js:61-65 | text without white space is typed unchanged and is one valid CSV line |
| Controls.RunInputViz | public/viz.js:64-76 | a missing box crashes; otherwise the input is shown exactly when `validArray` accepts the stripped text, else "Array not valid." is alerted with nothing changed; what is shown has a shape of at most 3 axes |
| Controls.VizShowsWrapped | public/viz.js:49-76 | a parsed array is shown wrapped in one more axis, and only when it is rectangular with at most 2 axes |
| Controls.EqualityAction | public/js/index.js:93-108 | numeric input highlights its `parseFloat` value, empty input resets, anything else changes nothing; never a range |
| Controls.Bounds | public/js/index.js:110-165 | a numeric field gives its `parseFloat` value as a bound; any other field leaves the bound open |
| Controls.LessThanAction | public/js/index.js:110-135 | a range exactly when either bound is numeric; otherwise a reset exactly when the front end's reset field is empty |
| Controls.GreaterThanAction | public/js/index.js:137-165 | a range exactly when either bound is numeric; otherwise a reset exactly when the front end's reset field is empty (index.js's `lt`, the others' `gt`) |
| Controls.RangeHandlersAgree | public/js/index.js:110-165 | whichever bound was edited, the range lit is `(lt, gt)` with unusable bounds open |
| Controls.ResetRulesDiffer | public/app.js:680-719 | the less-than handlers of all front ends decide alike, and so do app.js's and viz.js's greater-than handlers; index.js's greater-than handler agrees with them when both fields hold the same text |
| Controls.ResetRulesWitness | public/js/index.js:137-165 | example, not a general property: with both bounds unusable and one field erased, index.js's and app.js's greater-than handlers decide differently |
| Controls.LiveEquality | public/js/index.js:93-108 | index.js's equality handler decides from the field, keeps it, and empties both range fields where they exist |
| Controls.Clear | public/js/index.js:104-107 | emptying a field keeps a missing field missing |
| Controls.LiveLessThan | public/js/index.js:110-135 | index.js's less-than handler decides from the page and empties only the equality field |
| Controls.LiveGreaterThan | public/js/index.js:137-165 | index.js's greater-than handler decides from the page and empties only the equality field |
| Controls.CachedEquality | public/app.js:656-669 | app.js's equality handler decides from the field, caches only that field, and shows empty range fields while their caches keep the old text |
| Controls.CachedLessThan | public/app.js:680-699 | app.js's and viz.js's less-than handler decides from its own field plus the other bound's cached value, and caches only its own field |
| Controls.CachedGreaterThan | public/app.js:700-719 | app.js's and viz.js's greater-than handler decides from its own field plus the other bound's cached value, and caches only its own field |
| Controls.CachedRangeUsesErasedBound | public/app.js:656-699 | after an equality query, a less-than query lights the range up to the erased greater-than bound; typing gt 9, eq 5, lt 1 lights (1, 9) while the gt field shows nothing |
| Controls.LiveRangeForgetsErasedBound | public/js/index.js:93-135 | in index.js the same sequence lights `(lt, +Infinity)`: an erased bound stays erased |
| Controls.SliceArgOf | public/js/index.js:172-175 | an empty trimmed field means all slices; otherwise the `parseInt` value of the trimmed field, or NaN when it has none |
| Controls.SliceQuery | public/js/index.js:170-237 | the edited field must be empty or parse to a non-negative integer; only then are all three fields passed on, as read |
| Controls.SliceNumbersRoundTrip | public/js/index.js:170-191 | a natural number typed with blanks around it selects that slice; a negative one is refused |
| Controls.SliceOthersUnchecked | public/js/index.js:170-214 | example, not a general property: only the edited field is checked: a non-numeric Y field reaches the slice call as NaN from the X handler, but the Y handler refuses it |
| Controls.SliceFractionTruncated | public/js/index.js:219-237 | example, not a general property: `2.5` in a slice field selects slice 2 |
| JsValues.LtTrichotomy | public/js/visualization.js:367-386 | JavaScript `<` on non-NaN numbers is a strict total order |
| JsValues.LtTransitive | public/js/visualization.js:367-386 | JavaScript `<` on numbers is transitive |
| Comparison.NumberTextReadsBack | public/js/visualization.js:577-578 | the text a number turns into as a property key reads back under `Number` as that number |
| Comparison.TextLessTrichotomy | public/js/types.js:93-98 | text order is a strict total order |
| Comparison.ComparisonCases | public/js/types.js:93-98 | `<` and `<=` are the numeric order on two numbers and the text order on two strings |
| Comparison.LessEqIsNotGreater | public/js/visualization.js:588 | unless NaN is involved, `a <= b` is exactly `!(b < a)` |
| Comparison.TextOrderIsNotNumeric | public/js/types.js:93-98 | example, not a general property: "10" < "9" holds for strings while 10 < 9 does not for numbers |

## Left out

- Rendering is not modelled: Three.js meshes, materials, fonts, wireframes, instancing, lights, OrbitControls and animation loops. The model keeps only the index, cell, label and camera arithmetic beneath them.
- The opacity scaling `((v-min)/(max-min))*0.8` in `resetScale` is not modelled. It is floating-point division, and it divides by zero when min equals max. `Highlighting.SeededMinMax` and `Highlighting.MinMax` model only the bounds.
- Numbers are exact rationals plus ±Infinity, not IEEE-754 doubles. Rounding, -0, and `|0` truncation of non-integers are not modelled; `isInt` is its range-and-integrality predicate.
- JSON `null`, booleans and objects are left out. `JSON.parse` is an abstract parameter returning a number, string or array, or `None` where it throws.
- Text.LowerAscii: lower-cases ASCII letters only, not the rest of Unicode.
- Text.IntToString: renders integers only, in plain decimal at every magnitude. From 10^21 in magnitude JavaScript's `String(i)` switches to exponent form (`"1e+21"`), which is not modelled; `Comparison.NumberText` gives no text for such numbers. The label text of a non-integer number, whose `String(x)` is not modelled either, is taken as given by `Scene.LabelText`.
- Scene.IntegerLabelExact: holds below 10^21 in magnitude only. Above that the label of `"1e+21"` would be shown whole, and the exponent form is not modelled.
- The parts of server.js that do I/O are parameters or left out: `fs`, streams, `npyjs` parsing, Express listening, and `loadNumPyWithPython`, which refers to an undeclared `PythonShell`. `Server.Startup` takes the file system and the loaders as functions.
- Server.Reshape2Index: this lemma and `Server.Reshape3Index` assume the default C-order strides of a freshly parsed array. Custom strides are not modelled.
- The `/data` and `/gui` route bodies are not modelled. The JSON text `convertToJSON` writes is not modelled either.
- public/js/axis-labels.js, gui.js and border.js are not part of this model (presentation only), nor are main.js, vis.js and scripts/.
- The markup of `setArrayDimensions` (visualization.js:647-660) and `setArrayShape` (app.js:260-273) is not modelled. It is DOM HTML with no logic beyond `arrayShape`.
- Highlighting.GraphDistribution: omits the final `Object.keys(data).sort(...)`, which only orders the keys for plotting; the result is the key-to-count map. Keys are the values' texts; a value whose text holds a non-integer number has no modelled text, so such a value is only ever compared, never counted (it fails `isInt` anyway).
- Comparing two arrays, or an array and a string, whose text holds a non-integer number falls back to numeric comparison in the model, because `String(x)` of such numbers is not modelled. JavaScript would compare the texts.
- Text order is by Unicode code point. JavaScript compares UTF-16 code units, which differs only between characters above U+FFFF and those from U+E000 to U+FFFF.
- Alerts and console logging are not modelled beyond the alert text. `Controls.RunInputViz` models a missing input box as a crash, because viz.js calls `.replace` on `undefined`. The query handlers take each field as `Option<string>`, and a missing field only ever fails `isNumeric`.
- Numerals.ParseFloat: the literal it reads is the one `ScanDecimal` finds; that this is the longest literal is how the scanner is written, not a separate proof. The value is exact, without rounding to a double.
- Server.LoadNumPy: which `.npy` element types npyjs decodes to BigInt is the library's business; the model takes the element kind as part of the parsed file.
- Numerals.ParseInt: its own contract says only that a result needs a digit. The value read is stated for integer renderings by `Numerals.ParseIntRoundTrip`, and for sample cells by `InputParsing.FractionCell` and `InputParsing.PrefixCells`.
- Numerals.StringToNumber: its own contract states only the blank case. Other texts are covered by `Numerals.NumberRoundTrip` and `Numerals.IsNumericNeedsBoth`.
- Numerals.ToNumber: its own contract covers numbers and arrays of two or more items. Strings and one-item arrays go through `Numerals.StringToNumber`.
- Server.ExtName: its own contract states the form of the extension. Its value on the paths `Server.GetFilePath` produces is stated by `Server.DefaultExtension`.
- Server.GetFileExtension: its own contract states the form of the result only. Its value on chosen paths is stated by `Server.DefaultExtension`.
- Text.NatToString: its own contract states the form of the digits. Their value is stated by `Text.NatToStringValue`.
- Text.IntToString: its own contract states the form of the text. Its value is stated by `Numerals.IntRoundTrip`.
- Highlighting.SeededMinMax: states the least and the greatest only when every cube value is a number. For other cube values (viz.js compares them directly with `<` and `>`, without `isNumeric2`) it states only that both bounds are cube values.
- Numerals.IsInt: its own contract states one direction, that what passes converts to an integer. Which texts pass is stated for integer renderings by `Highlighting.IntTextIsInt`.
- Numerals.IsNumeric: its own contract states what acceptance implies. The two conversions it needs are separated by `Numerals.IsNumericNeedsBoth`.

## Findings

| source | as written | input that shows it | evidently intended | confidence | as-written member | corrected member |
|---|---|---|---|---|---|---|
| public/app.js:308-323 | `minMax` starts its loop at index 1, so the first value never counts | `[9, 1, 2]` gives max 2 instead of 9; `[5]` gives (+Infinity, -Infinity) | start at index 0, as public/js/types.js:87-102 does | high; not executed | Highlighting.AppMinMaxSkipsFirst | Highlighting.MinMax |
| public/viz.js:448-458 | the camera target is `(c2, c1, c0)` for every rank | `[1, 2]` (shape `[2]`) gives target (0,0,1), off the drawn cells (0,0,0) and (1,0,0) | the rank-aware target of public/js/visualization.js:519-535, which is always a grid cell | medium; not executed | Scene.FixedAimMissesGrid | Scene.AimedInsideGrid |
| public/app.js:656-719 | range handlers combine their own field with the other field's cached value, which the equality handler does not clear | type gt `9`, then eq `5` (the range fields are emptied on screen), then lt `1`: the range (1, 9) lights, though the gt field is empty | an emptied field counts as empty, as in public/js/index.js:93-135 | medium; not executed | Controls.CachedRangeUsesErasedBound | Controls.LiveRangeForgetsErasedBound |
