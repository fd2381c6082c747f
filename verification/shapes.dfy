/** Shape inference over nested arrays: the recursive `arrayShape`/`arrayEquals` pair shared by
    types.js, app.js and viz.js, the variant of array-utils.js that guards by truthiness, and
    the leftmost-descent `getArrayShape`. */
module Shapes {
  import opened JsValues

  /** How `arrayShape` decides that it has reached a leaf. `InstanceOfArray` is
      `!(arr instanceof Array) || !arr.length`; `Truthiness` is `!(arr) || !arr.length`, which
      lets a non-empty string through: indexing it yields a one-character string, which
      recurses into itself until the stack overflows. */
  datatype Guard = InstanceOfArray | Truthiness

  /** The outcome of `arrayShape`: a list of dimensions, the value `false` for an array whose
      elements disagree, or a thrown exception. */
  datatype ShapeResult = Shape(dims: seq<nat>) | Ragged | Error

  /** `a.every((value, index) => value === b[index])` from position `i` on. */
  function EveryFrom(a: seq<nat>, b: seq<nat>, i: nat): (r: bool)
    requires |a| == |b| && i <= |a|
    ensures r <==> a[i..] == b[i..]
    decreases |a| - i
  {
    if i == |a| then true
    else if a[i] != b[i] then false
    else
      assert a[i..] == [a[i]] + a[i + 1..] && b[i..] == [b[i]] + b[i + 1..];
      EveryFrom(a, b, i + 1)
  }

  /** `arrayEquals(a, b)` on two lists of numbers. */
  function ArrayEquals(a: seq<nat>, b: seq<nat>): (r: bool)
    ensures r <==> a == b
  {
    |a| == |b| && EveryFrom(a, b, 0)
  }

  /** A non-empty string under the truthiness guard: `arrayShape` never returns. */
  predicate Diverges(g: Guard, v: JValue)
  {
    g == Truthiness && v.Str? && |v.s| > 0
  }

  /** One step of the `reduce`: `arrayEquals(result, arrayShape(current)) ? result : false`.
      With `result === false`, `false.length` is undefined; it equals an array's length never,
      but equals `undefined` again when `current`'s shape is `false` too, and then
      `false.every` throws. */
  function Step(acc: ShapeResult, s: ShapeResult): (r: ShapeResult)
    ensures r.Shape? <==> acc.Shape? && s == acc
    ensures r.Ragged? ==> acc.Ragged? || s.Ragged? || (acc.Shape? && s.Shape? && acc != s)
  {
    match (acc, s)
    case (Error, _) => Error
    case (_, Error) => Error
    case (Shape(d), Shape(e)) => if ArrayEquals(d, e) then acc else Ragged
    case (Shape(_), Ragged) => Ragged
    case (Ragged, Shape(_)) => Ragged
    case (Ragged, Ragged) => Error
  }

  /** The `reduce` over the element shapes, left to right, from `init`. */
  function Fold(init: ShapeResult, shapes: seq<ShapeResult>): (r: ShapeResult)
    ensures r.Shape? ==> r == init && forall i :: 0 <= i < |shapes| ==> shapes[i] == init
  {
    if |shapes| == 0 then init else Step(Fold(init, shapes[..|shapes| - 1]), shapes[|shapes| - 1])
  }

  /** `dim && [arr.length].concat(dim)`. */
  function Combine(n: nat, dim: ShapeResult): ShapeResult
  {
    match dim
    case Shape(d) => Shape([n] + d)
    case _ => dim
  }

  /** `arrayShape` of every element. */
  function ChildShapes(g: Guard, items: seq<JValue>): (shapes: seq<ShapeResult>)
    ensures |shapes| == |items|
    decreases items, 0
  {
    seq(|items|, i requires 0 <= i < |items| => ArrayShape(g, items[i]))
  }

  /** `arrayShape(arr)`. */
  function ArrayShape(g: Guard, v: JValue): (r: ShapeResult)
    ensures r.Shape? && |r.dims| > 0 ==> v.Arr? && r.dims[0] == |v.items|
    ensures v.Arr? && |v.items| > 0 && r.Shape? ==> |r.dims| > 0
    decreases v, 1
  {
    match v
    case Num(_) => Shape([])
    case Str(s) => if Diverges(g, v) then Error else Shape([])
    case Arr(items) =>
      if |items| == 0 then Shape([])
      else
        var shapes := ChildShapes(g, items);
        Combine(|items|, Fold(shapes[0], shapes))
  }

  /** The reduce throws when an element throws, when the first element is itself ragged
      (it is compared with its own `false` at once), or when a ragged element comes after the
      accumulator has already become `false`. */
  predicate FoldThrows(shapes: seq<ShapeResult>)
    requires |shapes| >= 1
  {
    || (exists i :: 0 <= i < |shapes| && shapes[i].Error?)
    || shapes[0].Ragged?
    || (exists k, j :: 0 <= k < j < |shapes| && shapes[k] != shapes[0] && shapes[j].Ragged?)
  }

  /** What the reduce yields, stated without iterating: an exception as above, otherwise the
      common shape when all elements agree and `false` when some element differs. */
  function FoldSpec(shapes: seq<ShapeResult>): ShapeResult
    requires |shapes| >= 1
  {
    if FoldThrows(shapes) then Error
    else if forall i :: 0 <= i < |shapes| ==> shapes[i] == shapes[0] then shapes[0]
    else Ragged
  }

  /** The iterated reduce agrees with its declarative description on every list of element
      shapes. */
  lemma {:induction false} FoldMatchesSpec(shapes: seq<ShapeResult>)
    requires |shapes| >= 1
    ensures Fold(shapes[0], shapes) == FoldSpec(shapes)
    decreases |shapes|
  {
    var s0 := shapes[0];
    var n := |shapes|;
    if n == 1 {
      assert Fold(s0, shapes[..0]) == s0;
    } else {
      var p := shapes[..n - 1];
      var x := shapes[n - 1];
      assert p[0] == s0;
      FoldMatchesSpec(p);
      assert Fold(s0, shapes) == Step(FoldSpec(p), x);
      if FoldThrows(p) {
        if i :| 0 <= i < |p| && p[i].Error? {
          assert shapes[i].Error?;
        } else if !s0.Ragged? {
          var k, j :| 0 <= k < j < |p| && p[k] != p[0] && p[j].Ragged?;
          assert shapes[k] != shapes[0] && shapes[j].Ragged?;
        }
      } else if x.Error? {
        assert shapes[n - 1].Error?;
      } else if forall i :: 0 <= i < |p| ==> p[i] == s0 {
        assert s0.Shape?;
        forall i | 0 <= i < n - 1
          ensures shapes[i] == s0
        {
          assert p[i] == s0;
        }
      } else {
        var m :| 0 <= m < |p| && p[m] != s0;
        assert shapes[m] != shapes[0];
        forall i | 0 <= i < n - 1
          ensures shapes[i] == p[i]
        {
        }
        if x.Ragged? {
          assert shapes[m] != shapes[0] && shapes[n - 1].Ragged?;
        }
      }
    }
  }

  /** The reference characterisation of `arrayShape` on a non-empty array: the declarative
      fold over the element shapes, with the array's length put in front of a common shape. */
  lemma ShapeOfArray(g: Guard, items: seq<JValue>)
    requires |items| >= 1
    ensures ArrayShape(g, Arr(items)) == Combine(|items|, FoldSpec(ChildShapes(g, items)))
  {
    FoldMatchesSpec(ChildShapes(g, items));
  }

  /** `arrayShape` gives `[]` exactly for the values it does not descend into: scalars and the
      empty array (and under the truthiness guard never for a non-empty string). */
  lemma EmptyShapeIffLeaf(g: Guard, v: JValue)
    ensures ArrayShape(g, v) == Shape([]) <==> (!v.Arr? || |v.items| == 0) && !Diverges(g, v)
  {
  }

  /** `v` is a rectangular nest with dimensions `d`: a leaf when `d` is empty, otherwise an
      array of `d[0] > 0` elements that are all rectangular with dimensions `d[1..]`. */
  ghost predicate Rect(g: Guard, v: JValue, d: seq<nat>)
    decreases v
  {
    if |d| == 0 then (!v.Arr? || |v.items| == 0) && !Diverges(g, v)
    else v.Arr? && |v.items| == d[0] && d[0] > 0 && forall i :: 0 <= i < |v.items| ==> Rect(g, v.items[i], d[1..])
  }

  /** `arrayShape` returns a list of dimensions exactly for rectangular nests, and that list
      is the nest's dimensions. */
  lemma {:induction false} ShapeIffRect(g: Guard, v: JValue, d: seq<nat>)
    ensures ArrayShape(g, v) == Shape(d) <==> Rect(g, v, d)
    decreases v
  {
    if v.Arr? && |v.items| > 0 {
      var items := v.items;
      var n := |items|;
      var shapes := ChildShapes(g, items);
      ShapeOfArray(g, items);
      if ArrayShape(g, v) == Shape(d) {
        var spec := FoldSpec(shapes);
        assert spec.Shape? && d == [n] + spec.dims;
        var e := spec.dims;
        assert d[1..] == e;
        forall i | 0 <= i < n
          ensures Rect(g, items[i], d[1..])
        {
          assert shapes[i] == shapes[0] == Shape(e);
          ShapeIffRect(g, items[i], e);
        }
      }
      if Rect(g, v, d) {
        var e := d[1..];
        forall i | 0 <= i < n
          ensures shapes[i] == Shape(e)
        {
          ShapeIffRect(g, items[i], e);
        }
        assert !FoldThrows(shapes);
        assert d == [n] + e;
      }
    }
  }

  /** A list of dimensions never contains 0: empty arrays count as leaves. */
  lemma {:induction false} ShapeHasNoZero(g: Guard, v: JValue, d: seq<nat>)
    requires ArrayShape(g, v) == Shape(d)
    ensures forall i :: 0 <= i < |d| ==> d[i] > 0
    decreases v
  {
    ShapeIffRect(g, v, d);
    RectNoZero(g, v, d);
  }

  lemma {:induction false} RectNoZero(g: Guard, v: JValue, d: seq<nat>)
    requires Rect(g, v, d)
    ensures forall i :: 0 <= i < |d| ==> d[i] > 0
    decreases v
  {
    if |d| > 0 {
      RectNoZero(g, v.items[0], d[1..]);
      forall i | 1 <= i < |d|
        ensures d[i] > 0
      {
        assert d[i] == d[1..][i - 1];
      }
    }
  }

  /** As soon as some element's shape differs from the first element's, the answer is `false`
      or an exception, never a partial shape. */
  lemma MismatchNeverShape(g: Guard, items: seq<JValue>, i: nat)
    requires i < |items| && ArrayShape(g, items[i]) != ArrayShape(g, items[0])
    ensures ArrayShape(g, Arr(items)) == Ragged || ArrayShape(g, Arr(items)) == Error
  {
    ShapeOfArray(g, items);
    var shapes := ChildShapes(g, items);
    assert shapes[i] != shapes[0];
  }

  /** `getArrayShape`: the lengths met following first elements only, so an empty array adds a
      0 and raggedness deeper in the nest goes unnoticed. */
  function LeftmostShape(v: JValue): (d: seq<nat>)
    ensures v.Arr? <==> |d| > 0
    ensures v.Arr? ==> d[0] == |v.items|
    decreases v
  {
    match v
    case Arr(items) => [|items|] + (if |items| > 0 then LeftmostShape(items[0]) else [])
    case _ => []
  }

  /** On a rectangular nest the leftmost descent finds the dimensions, plus a trailing 0 when
      the leaves are empty arrays. */
  lemma {:induction false} LeftmostOfRect(g: Guard, v: JValue, d: seq<nat>)
    requires Rect(g, v, d)
    ensures LeftmostShape(v) == d || LeftmostShape(v) == d + [0]
    decreases v
  {
    if |d| > 0 {
      var e := d[1..];
      LeftmostOfRect(g, v.items[0], e);
      assert d == [d[0]] + e;
      assert d + [0] == [d[0]] + (e + [0]);
    }
  }

  /** Whatever `arrayShape` finds, the leftmost descent is at least as deep. */
  lemma ShapeWithinLeftmost(g: Guard, v: JValue, d: seq<nat>)
    requires ArrayShape(g, v) == Shape(d)
    ensures |d| <= |LeftmostShape(v)| <= |d| + 1
  {
    ShapeIffRect(g, v, d);
    LeftmostOfRect(g, v, d);
  }

  /** Values without non-empty strings: the two guards cannot tell them apart. */
  predicate NoText(v: JValue)
    decreases v
  {
    match v
    case Num(_) => true
    case Str(s) => |s| == 0
    case Arr(items) => forall i :: 0 <= i < |items| ==> NoText(items[i])
  }

  /** The two guards agree on every value without non-empty strings. */
  lemma {:induction false} GuardsAgree(v: JValue)
    requires NoText(v)
    ensures ArrayShape(Truthiness, v) == ArrayShape(InstanceOfArray, v)
    decreases v
  {
    if v.Arr? && |v.items| > 0 {
      forall i | 0 <= i < |v.items|
        ensures ArrayShape(Truthiness, v.items[i]) == ArrayShape(InstanceOfArray, v.items[i])
      {
        GuardsAgree(v.items[i]);
      }
      assert ChildShapes(Truthiness, v.items) == ChildShapes(InstanceOfArray, v.items);
    }
  }

  /** Values that look alike: an empty sub-array and a scalar both have shape `[]`, so
      `[[], []]` and `[1, 2]` are both of shape `[2]`, while `[[1], []]` is ragged although
      its leftmost descent reports `[2, 1]`. */
  lemma LeavesLookAlike(g: Guard)
    ensures ArrayShape(g, Arr([Arr([]), Arr([])])) == Shape([2])
    ensures ArrayShape(g, Arr([Num(IntNum(1)), Num(IntNum(2))])) == Shape([2])
    ensures ArrayShape(g, Arr([Arr([Num(IntNum(1))]), Arr([])])) == Ragged
    ensures LeftmostShape(Arr([Arr([Num(IntNum(1))]), Arr([])])) == [2, 1]
  {
    var one := Arr([Num(IntNum(1))]);
    assert ArrayShape(g, one) == Shape([1]) by {
      assert ChildShapes(g, [Num(IntNum(1))]) == [Shape([])];
    }
    var mixed := [Shape([1]), Shape([])];
    assert ChildShapes(g, [one, Arr([])]) == mixed;
    FoldTwo(Shape([1]), Shape([]));
    assert ChildShapes(g, [Arr([]), Arr([])]) == [Shape([]), Shape([])];
    FoldTwo(Shape([]), Shape([]));
    assert ChildShapes(g, [Num(IntNum(1)), Num(IntNum(2))]) == [Shape([]), Shape([])];
  }

  /** The `false.every` exception: a ragged first element, or a ragged element after a
      mismatch, makes `arrayShape` throw. */
  lemma RaggedThrows(g: Guard)
    ensures ArrayShape(g, Arr([Arr([Arr([Num(IntNum(1))]), Arr([])])])) == Error
    ensures ArrayShape(g, Arr([Arr([Num(IntNum(1))]), Arr([]), Arr([Arr([Num(IntNum(1))]), Arr([])])])) == Error
  {
    var one := Arr([Num(IntNum(1))]);
    var ragged := Arr([one, Arr([])]);
    LeavesLookAlike(g);
    assert ArrayShape(g, one) == Shape([1]) by {
      assert ChildShapes(g, [Num(IntNum(1))]) == [Shape([])];
    }
    assert ChildShapes(g, [ragged]) == [Ragged];
    assert Fold(Ragged, [Ragged]) == Error by {
      assert [Ragged][..0] == [];
    }
    var three := [Shape([1]), Shape([]), Ragged];
    assert ChildShapes(g, [one, Arr([]), ragged]) == three;
    FoldTwo(Shape([1]), Shape([]));
    assert three[..2] == [Shape([1]), Shape([])];
  }

  /** The reduce over two element shapes, spelled out. */
  lemma FoldTwo(a: ShapeResult, b: ShapeResult)
    ensures Fold(a, [a, b]) == Step(Step(a, a), b)
  {
    assert [a, b][..1] == [a];
    assert [a][..0] == [];
    assert Fold(a, [a]) == Step(Fold(a, []), a);
    assert Fold(a, [a, b]) == Step(Fold(a, [a]), b);
  }

  /** The guards disagree on `["a"]`: one sees a leaf, the other never returns. */
  lemma GuardsDisagreeOnText()
    ensures ArrayShape(InstanceOfArray, Arr([Str("a")])) == Shape([1])
    ensures ArrayShape(Truthiness, Arr([Str("a")])) == Error
  {
    assert ChildShapes(InstanceOfArray, [Str("a")]) == [Shape([])];
    assert ChildShapes(Truthiness, [Str("a")]) == [Error];
  }

  /** Product of the dimensions: the number of entries an array of that shape holds. */
  function Product(shape: seq<nat>): nat
  {
    if |shape| == 0 then 1 else shape[0] * Product(shape[1..])
  }

  /** Unfolds `Product` for ranks 1 to 3; it only keeps the reshape proofs short and cheap. */
  lemma ProductOfSmallShapes(shape: seq<nat>)
    ensures |shape| == 1 ==> Product(shape) == shape[0]
    ensures |shape| == 2 ==> Product(shape) == shape[0] * shape[1]
    ensures |shape| == 3 ==> Product(shape) == shape[0] * (shape[1] * shape[2])
  {
    if 1 <= |shape| <= 3 {
      assert Product(shape[|shape|..]) == 1;
    }
    if |shape| == 3 {
      assert shape[1..][1..] == shape[2..];
      assert Product(shape[1..]) == shape[1] * Product(shape[2..]);
      assert Product(shape[2..]) == shape[2] * Product(shape[3..]);
    }
    if |shape| == 2 {
      assert Product(shape[1..]) == shape[1] * Product(shape[2..]);
    }
  }
}
