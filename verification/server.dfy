/** The command-line side of the server: choosing the data file from the arguments, picking a
    loader by extension, reshaping a NumPy buffer into nested arrays, and the start-up decision
    between serving and exiting with status 1. File access and loading are parameters. */
module Server {
  import opened JsValues
  import opened Text
  import opened Shapes

  // ---------------------------------------------------------------- arguments

  /** `getFilePath()`: `process.argv[2]`, absent when missing or empty, with `.json` appended
      when it has no dot anywhere. */
  function GetFilePath(argv: seq<string>): (r: Option<string>)
    ensures r.Some? <==> |argv| > 2 && argv[2] != ""
    ensures r.Some? && '.' in argv[2] ==> r.value == argv[2]
    ensures r.Some? && '.' !in argv[2] ==> r.value == argv[2] + ".json"
    ensures r.Some? ==> '.' in r.value
  {
    if |argv| <= 2 || argv[2] == "" then None
    else if '.' !in argv[2] then
      assert (argv[2] + ".json")[|argv[2]|] == '.';
      Some(argv[2] + ".json")
    else Some(argv[2])
  }

  /** Feeding the chosen path back in changes nothing. */
  lemma GetFilePathIdempotent(argv: seq<string>)
    requires GetFilePath(argv).Some?
    ensures GetFilePath(argv[..2] + [GetFilePath(argv).value]) == GetFilePath(argv)
  {
  }

  /** `isGUIEnabled()`: GUI mode unless exactly one argument follows the script. */
  predicate IsGuiEnabled(argv: seq<string>): (b: bool)
    ensures !b ==> |argv| > 2 && (GetFilePath(argv).None? <==> argv[2] == "")
    ensures |argv| <= 2 ==> b && GetFilePath(argv).None?
  {
    |argv| != 3
  }

  // ---------------------------------------------------------------- extensions

  /** `s.lastIndexOf(c)`, `None` for -1. */
  function LastIndexOf(s: string, c: char): (r: Option<nat>)
    ensures r.None? <==> c !in s
    ensures r.Some? ==> r.value < |s| && s[r.value] == c
    ensures r.Some? ==> forall j :: r.value < j < |s| ==> s[j] != c
  {
    if |s| == 0 then None
    else if s[|s| - 1] == c then Some(|s| - 1)
    else
      assert s == s[..|s| - 1] + [s[|s| - 1]];
      LastIndexOf(s[..|s| - 1], c)
  }

  /** The path without its trailing slashes. */
  function StripTrailingSlashes(p: string): (r: string)
    ensures |r| <= |p| && r == p[..|r|]
    ensures |r| == 0 || r[|r| - 1] != '/'
    ensures forall i :: |r| <= i < |p| ==> p[i] == '/'
  {
    if |p| > 0 && p[|p| - 1] == '/' then StripTrailingSlashes(p[..|p| - 1]) else p
  }

  /** The last path component, trailing slashes ignored. */
  function LastComponent(p: string): (r: string)
    ensures '/' !in r
  {
    var t := StripTrailingSlashes(p);
    match LastIndexOf(t, '/')
    case None => t
    case Some(i) => t[i + 1..]
  }

  /** `path.extname(p)` of Node (POSIX): the last component's text from its last dot on, or
      `""` when the component has no dot, starts with its only dot (a dot file) or is `..`. */
  function ExtName(p: string): (r: string)
    ensures r == "" || (r[0] == '.' && '.' !in r[1..] && '/' !in r)
  {
    var c := LastComponent(p);
    match LastIndexOf(c, '.')
    case None => ""
    case Some(i) => if i == 0 || c == ".." then "" else c[i..]
  }

  /** `getFileExtension(p)`: the extension without its dot, lower-cased. */
  function GetFileExtension(p: string): (r: string)
    ensures '.' !in r && '/' !in r
  {
    var e := ExtName(p);
    if e == "" then "" else LowerAscii(e[1..])
  }

  /** One more character at the end is the last occurrence when it is the one sought. */
  lemma LastIndexOfSnoc(s: string, x: char, c: char)
    ensures LastIndexOf(s + [x], c) == if x == c then Some(|s|) else LastIndexOf(s, c)
  {
    assert (s + [x])[..|s|] == s;
  }

  /** Appending text moves the last occurrence into the appended part when it holds one,
      and leaves it where it was otherwise. */
  lemma {:induction false} LastIndexOfAppend(u: string, v: string, c: char)
    ensures c !in v ==> LastIndexOf(u + v, c) == LastIndexOf(u, c)
    ensures c in v ==> LastIndexOf(u + v, c) == Some(|u| + LastIndexOf(v, c).value)
    decreases |v|
  {
    if |v| == 0 {
      assert u + v == u;
    } else {
      var init := v[..|v| - 1];
      var x := v[|v| - 1];
      assert v == init + [x];
      assert (c in v) == (c in init || x == c);
      assert LastIndexOf(u + v, c) == if x == c then Some(|u| + |init|) else LastIndexOf(u + init, c) by {
        assert u + v == (u + init) + [x];
        LastIndexOfSnoc(u + init, x, c);
      }
      assert LastIndexOf(v, c) == if x == c then Some(|init|) else LastIndexOf(init, c) by {
        LastIndexOfSnoc(init, x, c);
      }
      LastIndexOfAppend(u, init, c);
    }
  }

  /** A plain file name given without an extension ends up with the `json` extension; given
      as a directory (a trailing slash), the appended `.json` becomes a dot file with none. */
  lemma DefaultExtension(argv: seq<string>)
    requires |argv| > 2 && argv[2] != "" && '.' !in argv[2]
    ensures argv[2][|argv[2]| - 1] != '/' ==> GetFileExtension(GetFilePath(argv).value) == "json"
    ensures argv[2][|argv[2]| - 1] == '/' ==> GetFileExtension(GetFilePath(argv).value) == ""
  {
    var a := argv[2];
    assert GetFilePath(argv).value == a + ".json";
    if a[|a| - 1] != '/' {
      assert GetFileExtension(a + ".json") == "json" by {
        PlainNameExt(a);
        PlainNameExtension(a);
      }
    } else {
      assert ExtName(a + ".json") == "" by {
        DirectoryNameExt(a);
      }
    }
  }

  lemma LowerJson()
    ensures LowerAscii("json") == "json"
  {
    var r := LowerAscii("json");
    assert r[0] == 'j' && r[1] == 's' && r[2] == 'o' && r[3] == 'n';
  }

  lemma PlainNameExtension(a: string)
    requires ExtName(a + ".json") == ".json"
    ensures GetFileExtension(a + ".json") == "json"
  {
    assert ".json"[1..] == "json";
    LowerJson();
  }

  lemma PlainNameExt(a: string)
    requires |a| > 0 && '.' !in a && a[|a| - 1] != '/'
    ensures ExtName(a + ".json") == ".json"
  {
    PlainComponent(a);
    JsonSuffixExt(LastComponent(a));
  }

  /** The last component of a name not ending in a slash is a non-empty tail of it. */
  lemma PlainComponent(a: string)
    requires |a| > 0 && '.' !in a && a[|a| - 1] != '/'
    ensures LastComponent(a + ".json") == LastComponent(a) + ".json"
    ensures |LastComponent(a)| > 0 && '.' !in LastComponent(a)
  {
    var p := a + ".json";
    assert StripTrailingSlashes(a) == a;
    assert StripTrailingSlashes(p) == p;
    LastIndexOfAppend(a, ".json", '/');
    if LastIndexOf(a, '/').Some? {
      var k := LastIndexOf(a, '/').value;
      assert p[k + 1..] == a[k + 1..] + ".json";
    }
  }

  lemma DirectoryNameExt(a: string)
    requires |a| > 0 && '.' !in a && a[|a| - 1] == '/'
    ensures ExtName(a + ".json") == ""
  {
    var p := a + ".json";
    assert LastComponent(p) == ".json" by {
      assert StripTrailingSlashes(p) == p;
      LastIndexOfAppend(a, ".json", '/');
      assert LastIndexOf(a, '/') == Some(|a| - 1);
      assert p[|a|..] == ".json";
    }
    DotJson();
  }

  /** A component that is a non-empty dot-free name followed by `.json`. */
  lemma JsonSuffixExt(q: string)
    requires |q| > 0 && '.' !in q
    ensures var c := q + ".json";
            LastIndexOf(c, '.') == Some(|q|) && c != ".." && c[|q|..] == ".json"
  {
    LastIndexOfAppend(q, ".json", '.');
    DotJson();
  }

  lemma DotJson()
    ensures LastIndexOf(".json", '.') == Some(0)
  {
    assert ".json" == "." + "json";
    assert '.' !in "json";
    LastIndexOfAppend(".", "json", '.');
  }

  /** The loaders `convertToJSON` dispatches to. */
  datatype Loader = JsonLoader | NumPyLoader

  /** `convertToJSON`'s dispatch: an absent path is an error, `json` goes to the JSON loader,
      `npy` and `npz` to the NumPy loader, anything else is an unsupported file type. */
  function ChooseLoader(path: Option<string>): (r: Result<Loader>)
    ensures path.None? || path.value == "" ==> r == Failure("File path is required")
    ensures r == Ok(JsonLoader) <==> path.Some? && GetFileExtension(path.value) == "json"
    ensures r == Ok(NumPyLoader) <==> path.Some? && GetFileExtension(path.value) in {"npy", "npz"}
    ensures r.Failure? && path.Some? && path.value != "" ==> r.message == "Unsupported file type: ." + GetFileExtension(path.value)
  {
    if path.None? || path.value == "" then Failure("File path is required")
    else
      var ext := GetFileExtension(path.value);
      if ext == "json" then Ok(JsonLoader)
      else if ext == "npy" || ext == "npz" then Ok(NumPyLoader)
      else Failure("Unsupported file type: ." + ext)
  }

  // ---------------------------------------------------------------- reshaping

  /** A NumPy array as npyjs hands it over: a flat buffer in row-major (C) order whose length
      is the product of the shape. */
  datatype NdArray = NdArray(data: seq<Number>, shape: seq<nat>)

  type WellFormedNdArray = nd: NdArray | |nd.data| == Product(nd.shape) witness NdArray([], [0])

  /** The buffer cut into `n` consecutive runs of `stride` entries. */
  function Chunks(data: seq<Number>, n: nat, stride: nat): (blocks: seq<seq<Number>>)
    requires |data| == n * stride
    ensures |blocks| == n
    ensures forall i :: 0 <= i < n ==> |blocks[i]| == stride
    decreases n
  {
    if n == 0 then []
    else
      MulPred(n, stride);
      assert |data[stride..]| == (n - 1) * stride;
      [data[..stride]] + Chunks(data[stride..], n - 1, stride)
  }

  /** Entry `j` of run `i` is entry `i * stride + j` of the buffer. */
  lemma {:induction false} ChunksIndex(data: seq<Number>, n: nat, stride: nat, i: nat, j: nat)
    requires |data| == n * stride && i < n && j < stride
    ensures i * stride + j < |data|
    ensures Chunks(data, n, stride)[i][j] == data[i * stride + j]
    decreases i
  {
    if i > 0 {
      var rest := data[stride..];
      MulPred(n, stride);
      MulPred(i, stride);
      ChunksIndex(rest, n - 1, stride, i - 1, j);
      assert Chunks(data, n, stride)[i] == Chunks(rest, n - 1, stride)[i - 1];
    } else {
      MulPred(n, stride);
    }
  }

  lemma MulPred(k: nat, stride: nat)
    requires k > 0
    ensures (k - 1) * stride + stride == k * stride
  {
  }

  /** The runs concatenated in order. */
  function Flatten(blocks: seq<seq<Number>>): seq<Number>
  {
    if |blocks| == 0 then [] else Flatten(blocks[..|blocks| - 1]) + blocks[|blocks| - 1]
  }

  lemma {:induction false} FlattenCons(b: seq<Number>, rest: seq<seq<Number>>)
    ensures Flatten([b] + rest) == b + Flatten(rest)
    decreases |rest|
  {
    if |rest| > 0 {
      var all := [b] + rest;
      assert all[..|all| - 1] == [b] + rest[..|rest| - 1];
      FlattenCons(b, rest[..|rest| - 1]);
    } else {
      assert [b][..0] == [];
    }
  }

  /** Cutting the buffer into runs and joining them again gives the buffer. */
  lemma {:induction false} ChunksFlatten(data: seq<Number>, n: nat, stride: nat)
    requires |data| == n * stride
    ensures Flatten(Chunks(data, n, stride)) == data
    decreases n
  {
    if n > 0 {
      MulPred(n, stride);
      assert |data[stride..]| == (n - 1) * stride;
      ChunksFlatten(data[stride..], n - 1, stride);
      FlattenCons(data[..stride], Chunks(data[stride..], n - 1, stride));
      assert data == data[..stride] + data[stride..];
    }
  }

  /** `Array.from(data)`, also what `convertNdArray1D` returns: one entry per buffer entry. */
  function Row(data: seq<Number>): (r: JValue)
    ensures r.Arr? && |r.items| == |data|
  {
    Arr(seq(|data|, k requires 0 <= k < |data| => Num(data[k])))
  }

  /** `convertNdArray2D`: `rows` arrays of `cols` entries, row `i` holding the buffer's
      `i`-th run of `cols` entries. */
  function Reshape2(data: seq<Number>, rows: nat, cols: nat): (r: JValue)
    requires |data| == rows * cols
    ensures r.Arr? && |r.items| == rows
  {
    var runs := Chunks(data, rows, cols);
    Arr(seq(rows, i requires 0 <= i < rows => Row(runs[i])))
  }

  /** `convertNdArray3D`: `depth` planes, plane `i` the 2-D reshape of the buffer's `i`-th run
      of `rows * cols` entries. */
  function Reshape3(data: seq<Number>, depth: nat, rows: nat, cols: nat): (r: JValue)
    requires |data| == depth * (rows * cols)
    ensures r.Arr? && |r.items| == depth
  {
    var planes := Chunks(data, depth, rows * cols);
    Arr(seq(depth, i requires 0 <= i < depth => Reshape2(planes[i], rows, cols)))
  }

  /** Entry `[i][j]` of the 2-D reshape is `data[i * cols + j]` (ndarray's default strides). */
  lemma Reshape2Index(data: seq<Number>, rows: nat, cols: nat, i: nat, j: nat)
    requires |data| == rows * cols && i < rows && j < cols
    ensures i * cols + j < |data|
    ensures var r := Reshape2(data, rows, cols);
            r.items[i].Arr? && |r.items[i].items| == cols && r.items[i].items[j] == Num(data[i * cols + j])
  {
    ChunksIndex(data, rows, cols, i, j);
  }

  /** Entry `[i][j][k]` of the 3-D reshape is `data[(i * rows + j) * cols + k]`. */
  lemma Reshape3Index(data: seq<Number>, depth: nat, rows: nat, cols: nat, i: nat, j: nat, k: nat)
    requires |data| == depth * (rows * cols) && i < depth && j < rows && k < cols
    ensures (i * rows + j) * cols + k < |data|
    ensures var r := Reshape3(data, depth, rows, cols);
            && r.items[i].Arr? && |r.items[i].items| == rows
            && r.items[i].items[j].Arr? && |r.items[i].items[j].items| == cols
            && r.items[i].items[j].items[k] == Num(data[(i * rows + j) * cols + k])
  {
    var plane := rows * cols;
    var planes := Chunks(data, depth, plane);
    Reshape2Index(planes[i], rows, cols, j, k);
    ChunksIndex(data, depth, plane, i, j * cols + k);
    Distribute(i, rows, j, cols);
  }

  lemma Distribute(i: nat, rows: nat, j: nat, cols: nat)
    ensures (i * rows + j) * cols == i * (rows * cols) + j * cols
  {
    calc {
      (i * rows + j) * cols;
      i * rows * cols + j * cols;
      i * (rows * cols) + j * cols;
    }
  }

  /** `convertNdArrayToArray`: dispatch on the rank; ranks other than 1, 2 and 3 are errors
      naming the rank. */
  function ConvertNdArrayToArray(nd: WellFormedNdArray): (r: Result<JValue>)
    ensures r.Ok? <==> 1 <= |nd.shape| <= 3
    ensures r.Failure? ==> r.message == "Unsupported ndarray dimensions: " + NatToString(|nd.shape|)
                                        + ". Only 1D, 2D, and 3D arrays are supported."
  {
    var shape := nd.shape;
    ProductOfSmallShapes(shape);
    if |shape| == 1 then Ok(Row(nd.data))
    else if |shape| == 2 then Ok(Reshape2(nd.data, shape[0], shape[1]))
    else if |shape| == 3 then Ok(Reshape3(nd.data, shape[0], shape[1], shape[2]))
    else Failure("Unsupported ndarray dimensions: " + NatToString(|shape|) + ". Only 1D, 2D, and 3D arrays are supported.")
  }

  /** The entries of a nest in reading order (what `flat(Infinity)` lists). */
  function Leaves(v: JValue): seq<Number>
    decreases v, 1
  {
    match v
    case Num(n) => [n]
    case Str(_) => []
    case Arr(items) => LeavesOf(items)
  }

  function LeavesOf(items: seq<JValue>): seq<Number>
    decreases items, 0
  {
    if |items| == 0 then [] else LeavesOf(items[..|items| - 1]) + Leaves(items[|items| - 1])
  }

  /** Reading a list of nests in order gives their runs of entries joined. */
  lemma {:induction false} LeavesOfBlocks(items: seq<JValue>, blocks: seq<seq<Number>>)
    requires |items| == |blocks|
    requires forall i :: 0 <= i < |items| ==> Leaves(items[i]) == blocks[i]
    ensures LeavesOf(items) == Flatten(blocks)
    decreases |items|
  {
    if |items| > 0 {
      LeavesOfBlocks(items[..|items| - 1], blocks[..|blocks| - 1]);
    }
  }

  lemma RowLeaves(data: seq<Number>)
    ensures Leaves(Row(data)) == data
  {
    var items := Row(data).items;
    var blocks := seq(|data|, k requires 0 <= k < |data| => [data[k]]);
    LeavesOfBlocks(items, blocks);
    FlattenSingletons(data, blocks);
  }

  lemma {:induction false} FlattenSingletons(data: seq<Number>, blocks: seq<seq<Number>>)
    requires |blocks| == |data| && forall k :: 0 <= k < |data| ==> blocks[k] == [data[k]]
    ensures Flatten(blocks) == data
    decreases |data|
  {
    if |data| > 0 {
      FlattenSingletons(data[..|data| - 1], blocks[..|blocks| - 1]);
      assert data == data[..|data| - 1] + [data[|data| - 1]];
    }
  }

  lemma Reshape2RoundTrip(data: seq<Number>, rows: nat, cols: nat)
    requires |data| == rows * cols
    ensures Leaves(Reshape2(data, rows, cols)) == data
  {
    var runs := Chunks(data, rows, cols);
    var items := Reshape2(data, rows, cols).items;
    forall i | 0 <= i < rows
      ensures Leaves(items[i]) == runs[i]
    {
      RowLeaves(runs[i]);
    }
    LeavesOfBlocks(items, runs);
    ChunksFlatten(data, rows, cols);
  }

  lemma Reshape3RoundTrip(data: seq<Number>, depth: nat, rows: nat, cols: nat)
    requires |data| == depth * (rows * cols)
    ensures Leaves(Reshape3(data, depth, rows, cols)) == data
  {
    var planes := Chunks(data, depth, rows * cols);
    var items := Reshape3(data, depth, rows, cols).items;
    forall i | 0 <= i < depth
      ensures Leaves(items[i]) == planes[i]
    {
      Reshape2RoundTrip(planes[i], rows, cols);
    }
    LeavesOfBlocks(items, planes);
    ChunksFlatten(data, depth, rows * cols);
  }

  /** Reshaping loses and reorders nothing: reading the result back in order gives the
      buffer, for every supported rank. */
  lemma ConvertRoundTrip(nd: WellFormedNdArray)
    requires 1 <= |nd.shape| <= 3
    ensures Leaves(ConvertNdArrayToArray(nd).value) == nd.data
  {
    var shape := nd.shape;
    ProductOfSmallShapes(shape);
    if |shape| == 1 {
      RowLeaves(nd.data);
    } else if |shape| == 2 {
      Reshape2RoundTrip(nd.data, shape[0], shape[1]);
    } else {
      Reshape3RoundTrip(nd.data, shape[0], shape[1], shape[2]);
    }
  }

  lemma RowRect(data: seq<Number>)
    requires |data| > 0
    ensures Rect(InstanceOfArray, Row(data), [|data|])
  {
    var r := Row(data);
    assert forall k :: 0 <= k < |data| ==> Rect(InstanceOfArray, r.items[k], []);
    assert [|data|][1..] == [];
  }

  lemma Reshape2Rect(data: seq<Number>, rows: nat, cols: nat)
    requires |data| == rows * cols && rows > 0 && cols > 0
    ensures Rect(InstanceOfArray, Reshape2(data, rows, cols), [rows, cols])
  {
    var r := Reshape2(data, rows, cols);
    var runs := Chunks(data, rows, cols);
    forall i | 0 <= i < rows
      ensures Rect(InstanceOfArray, r.items[i], [cols])
    {
      RowRect(runs[i]);
    }
    assert [rows, cols][1..] == [cols];
  }

  lemma Reshape3Rect(data: seq<Number>, depth: nat, rows: nat, cols: nat)
    requires |data| == depth * (rows * cols) && depth > 0 && rows > 0 && cols > 0
    ensures Rect(InstanceOfArray, Reshape3(data, depth, rows, cols), [depth, rows, cols])
  {
    var r := Reshape3(data, depth, rows, cols);
    var planes := Chunks(data, depth, rows * cols);
    forall i | 0 <= i < depth
      ensures Rect(InstanceOfArray, r.items[i], [rows, cols])
    {
      Reshape2Rect(planes[i], rows, cols);
    }
    assert [depth, rows, cols][1..] == [rows, cols];
  }

  /** With every dimension positive, the converted nest has exactly the array's shape. */
  lemma ConvertShape(nd: WellFormedNdArray)
    requires 1 <= |nd.shape| <= 3
    requires forall i :: 0 <= i < |nd.shape| ==> nd.shape[i] > 0
    ensures ArrayShape(InstanceOfArray, ConvertNdArrayToArray(nd).value) == Shape(nd.shape)
  {
    var shape := nd.shape;
    ProductOfSmallShapes(shape);
    var r := ConvertNdArrayToArray(nd).value;
    if |shape| == 1 {
      RowRect(nd.data);
      assert shape == [|nd.data|];
    } else if |shape| == 2 {
      Reshape2Rect(nd.data, shape[0], shape[1]);
      assert shape == [shape[0], shape[1]];
    } else {
      Reshape3Rect(nd.data, shape[0], shape[1], shape[2]);
      assert shape == [shape[0], shape[1], shape[2]];
    }
    ShapeIffRect(InstanceOfArray, r, shape);
  }

  // ---------------------------------------------------------------- start-up

  /** How the process ends up: serving (in GUI mode or not), or exiting with status 1 after
      printing a message. */
  datatype Exit = Serve(gui: bool) | ExitFailure(message: string)

  /** The routes the server registers: `/data` only outside GUI mode. */
  function Routes(gui: bool): (r: seq<string>)
    ensures "/data" in r <==> !gui
    ensures "/" in r && "/gui" in r
  {
    ["/", "/gui"] + (if gui then [] else ["/data"])
  }

  /** `main()`: in GUI mode serve at once; otherwise pick the path, check that the file exists,
      convert it with the chosen loader, and serve only after all three succeeded. The file
      system is `fileExists`; `load` runs a loader on a path and reports the error it throws. */
  function Startup(argv: seq<string>, fileExists: string -> bool, load: (Loader, string) -> Option<string>): (r: Exit)
    ensures r.Serve? ==> r.gui == IsGuiEnabled(argv)
    ensures IsGuiEnabled(argv) ==> r == Serve(true)
    ensures r == Serve(false) <==>
              && !IsGuiEnabled(argv) && GetFilePath(argv).Some? && fileExists(GetFilePath(argv).value)
              && ChooseLoader(GetFilePath(argv)).Ok?
              && load(ChooseLoader(GetFilePath(argv)).value, GetFilePath(argv).value).None?
    ensures !IsGuiEnabled(argv) && GetFilePath(argv).None? ==> r == ExitFailure("No file path provided")
  {
    if IsGuiEnabled(argv) then Serve(true)
    else
      match GetFilePath(argv)
      case None => ExitFailure("No file path provided")
      case Some(path) =>
        if !fileExists(path) then ExitFailure("Data file path " + path + " is invalid or file does not exist.")
        else
          match ChooseLoader(Some(path))
          case Failure(message) => ExitFailure(message)
          case Ok(loader) =>
            match load(loader, path)
            case Some(message) => ExitFailure(message)
            case None => Serve(false)
  }

  /** What npyjs decodes a file's elements to: JavaScript numbers (float and narrow integer
      files), or BigInts (64-bit integer files, numpy's default integer type). */
  datatype ElementKind = Doubles | BigInts

  /** A parsed `.npy` file: its ndarray and the kind of its elements. */
  datatype NpyData = NpyData(nd: WellFormedNdArray, elements: ElementKind)

  /** The TypeError `JSON.stringify` throws on a BigInt. */
  const BigIntMessage := "Do not know how to serialize a BigInt"

  /** `JSON.stringify` of a converted array: it fails exactly when some element is a BigInt,
      that is, when a BigInt file has any element at all. */
  function StringifyError(npy: NpyData): (r: Option<string>)
    ensures r.Some? <==> npy.elements.BigInts? && |npy.nd.data| > 0
    ensures r.Some? ==> r.value == BigIntMessage
  {
    if npy.elements.BigInts? && |npy.nd.data| > 0 then Some(BigIntMessage) else None
  }

  /** Loading a NumPy file as the server does: read and parse (an error message on failure),
      reshape (the rank error), `JSON.stringify` (the BigInt error), then store the text, whose
      write error `store` stands for. The first error is what the process reports. */
  function LoadNumPy(read: Result<NpyData>, store: Option<string>): (r: Option<string>)
    ensures read.Failure? ==> r == Some(read.message)
    ensures read.Ok? ==> (r.None? <==> && 1 <= |read.value.nd.shape| <= 3
                                       && (read.value.elements.BigInts? ==> |read.value.nd.data| == 0)
                                       && store.None?)
    ensures read.Ok? && !(1 <= |read.value.nd.shape| <= 3) ==>
              r == Some(ConvertNdArrayToArray(read.value.nd).message)
    ensures read.Ok? && 1 <= |read.value.nd.shape| <= 3 && read.value.elements.BigInts? && |read.value.nd.data| > 0 ==>
              r == Some(BigIntMessage)
  {
    match read
    case Failure(message) => Some(message)
    case Ok(npy) =>
      match ConvertNdArrayToArray(npy.nd)
      case Failure(message) => Some(message)
      case Ok(_) =>
        match StringifyError(npy)
        case Some(message) => Some(message)
        case None => store
  }

  /** An int64 file of any rank the server accepts cannot be loaded, although its float
      counterpart with the same values loads. */
  lemma Int64FilesFail(nd: WellFormedNdArray)
    requires 1 <= |nd.shape| <= 3 && |nd.data| > 0
    ensures LoadNumPy(Ok(NpyData(nd, BigInts)), None) == Some(BigIntMessage)
    ensures LoadNumPy(Ok(NpyData(nd, Doubles)), None).None?
  {
  }
}
