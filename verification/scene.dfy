/** The integer arithmetic of the 3-D view: the flat index and grid cell each element of a
    1-, 2- or 3-D array is drawn at, which elements get a text label and what it says,
    when individual meshes and labels are used, where the camera is put, and the shape
    caption. */
module Scene {
  import opened JsValues
  import opened Text
  import opened Shapes
  import Numerals

  /** An integer grid point. A cube occupies the unit cell whose corner this is and is
      centred at `(x + 0.5, y + 0.5, z - 0.5)`. */
  datatype Point = Point(x: int, y: int, z: int)

  /** An entry of `cubeData`: the element's value, its flat index and its grid cell. */
  datatype Cube = Cube(value: JValue, index: nat, cell: Point)

  // ---------------------------------------------------------------- flat indices

  /** Flat index of `arr[i][j]` in a 2-D array with `n1` columns. */
  function FlatIndex2(i: nat, j: nat, n1: nat): nat
  {
    i * n1 + j
  }

  /** Flat index of `arr[i][j][k]` in a 3-D array of `n1` rows of `n2` columns. */
  function FlatIndex3(i: nat, j: nat, k: nat, n1: nat, n2: nat): nat
  {
    i * n1 * n2 + j * n2 + k
  }

  /** Row and column of a flat index: the inverse of `FlatIndex2`. */
  function Unflatten2(m: nat, n1: nat): (nat, nat)
    requires n1 > 0
  {
    (m / n1, m % n1)
  }

  /** Plane, row and column of a flat index: the inverse of `FlatIndex3`. */
  function Unflatten3(m: nat, n1: nat, n2: nat): (nat, nat, nat)
    requires n1 > 0 && n2 > 0
  {
    var (i, r) := Unflatten2(m, n1 * n2);
    var (j, k) := Unflatten2(r, n2);
    (i, j, k)
  }

  lemma MulMono(a: nat, b: nat, d: nat)
    requires a <= b
    ensures a * d <= b * d
  {
  }

  lemma MulSub(a: int, b: int, d: int)
    ensures a * d - b * d == (a - b) * d
  {
  }

  /** Quotient and remainder are determined by `m == q * d + r` with `0 <= r < d`. */
  lemma DivModUnique(m: nat, d: nat, q: nat, r: nat)
    requires d > 0 && r < d && m == q * d + r
    ensures m / d == q && m % d == r
  {
    var q', r' := m / d, m % d;
    assert m == q' * d + r';
    if q' > q {
      MulSub(q', q, d);
      MulMono(1, q' - q, d);
    } else if q' < q {
      MulSub(q, q', d);
      MulMono(1, q - q', d);
    }
  }

  /** Every in-range pair has an in-range flat index, and unflattening gives it back. */
  lemma Flat2RoundTrip(i: nat, j: nat, n0: nat, n1: nat)
    requires i < n0 && j < n1
    ensures FlatIndex2(i, j, n1) < n0 * n1
    ensures Unflatten2(FlatIndex2(i, j, n1), n1) == (i, j)
  {
    DivModUnique(i * n1 + j, n1, i, j);
    MulMono(i + 1, n0, n1);
  }

  /** Every flat index below `n0 * n1` is the flat index of an in-range pair. */
  lemma Unflatten2RoundTrip(m: nat, n0: nat, n1: nat)
    requires m < n0 * n1
    ensures n1 > 0
    ensures Unflatten2(m, n1).0 < n0 && Unflatten2(m, n1).1 < n1
    ensures FlatIndex2(Unflatten2(m, n1).0, Unflatten2(m, n1).1, n1) == m
  {
    var i := m / n1;
    if i >= n0 {
      MulMono(n0, i, n1);
    }
  }

  /** Every in-range triple has an in-range flat index, and unflattening gives it back. */
  lemma Flat3RoundTrip(i: nat, j: nat, k: nat, n0: nat, n1: nat, n2: nat)
    requires i < n0 && j < n1 && k < n2
    ensures FlatIndex3(i, j, k, n1, n2) < n0 * (n1 * n2)
    ensures Unflatten3(FlatIndex3(i, j, k, n1, n2), n1, n2) == (i, j, k)
  {
    Flat2RoundTrip(j, k, n1, n2);
    var t := FlatIndex2(j, k, n2);
    Flat2RoundTrip(i, t, n0, n1 * n2);
    assert i * n1 * n2 == i * (n1 * n2);
    assert FlatIndex3(i, j, k, n1, n2) == FlatIndex2(i, t, n1 * n2);
  }

  /** Every flat index below `n0 * n1 * n2` is the flat index of an in-range triple. */
  lemma Unflatten3RoundTrip(m: nat, n0: nat, n1: nat, n2: nat)
    requires m < n0 * (n1 * n2)
    ensures n1 > 0 && n2 > 0
    ensures Unflatten3(m, n1, n2).0 < n0 && Unflatten3(m, n1, n2).1 < n1
    ensures Unflatten3(m, n1, n2).2 < n2
    ensures FlatIndex3(Unflatten3(m, n1, n2).0, Unflatten3(m, n1, n2).1, Unflatten3(m, n1, n2).2, n1, n2) == m
  {
    Unflatten2RoundTrip(m, n0, n1 * n2);
    var (i, r) := Unflatten2(m, n1 * n2);
    Unflatten2RoundTrip(r, n1, n2);
    assert i * n1 * n2 == i * (n1 * n2);
  }

  // ---------------------------------------------------------------- grid layout

  /** Cell of `arr[i]` in a 1-D array drawn from `loc`: along the x axis. */
  function Layout1(loc: Point, i: nat): Point
  {
    Point(loc.x + i, loc.y, loc.z)
  }

  /** Cell of `arr[i][j]` in a 2-D array of `n0` rows drawn from `loc`: columns along x,
      row 0 on top. */
  function Layout2(loc: Point, n0: nat, i: nat, j: nat): Point
  {
    Point(loc.x + j, loc.y + n0 - 1 - i, loc.z)
  }

  /** Cell of `arr[i][j][k]` in a 3-D array with `n1` rows per plane drawn from `loc`:
      columns along x, row 0 on top, planes receding along -z. */
  function Layout3(loc: Point, n1: nat, i: nat, j: nat, k: nat): Point
  {
    Point(loc.x + k, loc.y + n1 - 1 - j, loc.z - i)
  }

  /** The box of cells an array with dimensions `dims` (rank 1 to 3) occupies when drawn
      from `loc`. */
  predicate InGrid(p: Point, loc: Point, dims: seq<nat>)
    requires 1 <= |dims| <= 3
  {
    match |dims|
    case 1 => loc.x <= p.x < loc.x + dims[0] && p.y == loc.y && p.z == loc.z
    case 2 => loc.x <= p.x < loc.x + dims[1] && loc.y <= p.y < loc.y + dims[0] && p.z == loc.z
    case _ =>
      && loc.x <= p.x < loc.x + dims[2] && loc.y <= p.y < loc.y + dims[1]
      && loc.z - dims[0] < p.z <= loc.z
  }

  /** The entry a 2-D array's `m`-th pushed cube should hold, read through the inverse
      index map. */
  function Expected2(loc: Point, arr: seq<seq<JValue>>, n1: nat, m: nat): Cube
    requires forall i :: 0 <= i < |arr| ==> |arr[i]| == n1
    requires m < |arr| * n1
  {
    Unflatten2RoundTrip(m, |arr|, n1);
    var (i, j) := Unflatten2(m, n1);
    Cube(arr[i][j], m, Layout2(loc, |arr|, i, j))
  }

  /** The entry a 3-D array's `m`-th pushed cube should hold. */
  function Expected3(loc: Point, arr: seq<seq<seq<JValue>>>, n1: nat, n2: nat, m: nat): Cube
    requires forall i :: 0 <= i < |arr| ==> |arr[i]| == n1
    requires forall i, j :: 0 <= i < |arr| && 0 <= j < n1 ==> |arr[i][j]| == n2
    requires m < |arr| * (n1 * n2)
  {
    Unflatten3RoundTrip(m, |arr|, n1, n2);
    var (i, j, k) := Unflatten3(m, n1, n2);
    Cube(arr[i][j][k], m, Layout3(loc, n1, i, j, k))
  }

  /** `cubes` holds the first entries `BuildCubes3` pushes. */
  ghost predicate Built3(loc: Point, arr: seq<seq<seq<JValue>>>, n1: nat, n2: nat, cubes: seq<Cube>)
    requires forall i :: 0 <= i < |arr| ==> |arr[i]| == n1
    requires forall i, j :: 0 <= i < |arr| && 0 <= j < n1 ==> |arr[i][j]| == n2
  {
    && |cubes| <= |arr| * (n1 * n2)
    && forall m :: 0 <= m < |cubes| ==> cubes[m] == Expected3(loc, arr, n1, n2, m)
  }

  /** `graph1DArray`'s loop: one cube per element, recorded under its position. */
  method BuildCubes1(loc: Point, arr: seq<JValue>) returns (cubes: seq<Cube>)
    ensures |cubes| == |arr|
    ensures forall m :: 0 <= m < |cubes| ==> cubes[m].index == m && cubes[m].value == arr[m]
    ensures forall m :: 0 <= m < |cubes| ==> InGrid(cubes[m].cell, loc, [|arr|])
    ensures forall m, m' :: 0 <= m < m' < |cubes| ==> cubes[m].cell != cubes[m'].cell
  {
    cubes := [];
    var i := 0;
    while i < |arr|
      invariant 0 <= i <= |arr| && |cubes| == i
      invariant forall m :: 0 <= m < i ==> cubes[m] == Cube(arr[m], m, Layout1(loc, m))
    {
      cubes := cubes + [Cube(arr[i], i, Layout1(loc, i))];
      i := i + 1;
    }
  }

  /** `graph2DArray`'s nested loops over a rectangular array of `n1` columns: `cubeData`
      starts empty and is filled in loop order, so entry `m` has index `m`, the element at
      `[i][j]` sits at flat index `i * n1 + j`, and distinct elements occupy distinct cells
      of the grid box. */
  method BuildCubes2(loc: Point, arr: seq<seq<JValue>>, n1: nat) returns (cubes: seq<Cube>)
    requires forall i :: 0 <= i < |arr| ==> |arr[i]| == n1
    ensures |cubes| == |arr| * n1
    ensures forall m :: 0 <= m < |cubes| ==> cubes[m].index == m
    ensures forall i, j :: 0 <= i < |arr| && 0 <= j < n1 ==>
              && FlatIndex2(i, j, n1) < |cubes|
              && cubes[FlatIndex2(i, j, n1)].value == arr[i][j]
              && cubes[FlatIndex2(i, j, n1)].cell == Layout2(loc, |arr|, i, j)
    ensures forall m :: 0 <= m < |cubes| ==> InGrid(cubes[m].cell, loc, [|arr|, n1])
    ensures forall m, m' :: 0 <= m < m' < |cubes| ==> cubes[m].cell != cubes[m'].cell
  {
    cubes := [];
    var i := 0;
    while i < |arr|
      invariant 0 <= i <= |arr| && |cubes| == i * n1 && |cubes| <= |arr| * n1
      invariant forall m :: 0 <= m < |cubes| ==> cubes[m] == Expected2(loc, arr, n1, m)
    {
      var j := 0;
      while j < n1
        invariant 0 <= j <= n1 && |cubes| == i * n1 + j && |cubes| <= |arr| * n1
        invariant forall m :: 0 <= m < |cubes| ==> cubes[m] == Expected2(loc, arr, n1, m)
      {
        Flat2RoundTrip(i, j, |arr|, n1);
        cubes := cubes + [Cube(arr[i][j], i * n1 + j, Layout2(loc, |arr|, i, j))];
        j := j + 1;
      }
      assert i * n1 + n1 == (i + 1) * n1;
      i := i + 1;
    }
    forall i, j | 0 <= i < |arr| && 0 <= j < n1
      ensures FlatIndex2(i, j, n1) < |cubes|
      ensures cubes[FlatIndex2(i, j, n1)].value == arr[i][j]
      ensures cubes[FlatIndex2(i, j, n1)].cell == Layout2(loc, |arr|, i, j)
    {
      Flat2RoundTrip(i, j, |arr|, n1);
    }
    forall m | 0 <= m < |cubes|
      ensures InGrid(cubes[m].cell, loc, [|arr|, n1])
    {
      Unflatten2RoundTrip(m, |arr|, n1);
    }
    forall m, m' | 0 <= m < m' < |cubes|
      ensures cubes[m].cell != cubes[m'].cell
    {
      Unflatten2RoundTrip(m, |arr|, n1);
      Unflatten2RoundTrip(m', |arr|, n1);
    }
  }

  /** What a cube list that follows `Expected3` entry by entry says about the array. */
  lemma Cubes3Facts(loc: Point, arr: seq<seq<seq<JValue>>>, n1: nat, n2: nat, cubes: seq<Cube>)
    requires forall i :: 0 <= i < |arr| ==> |arr[i]| == n1
    requires forall i, j :: 0 <= i < |arr| && 0 <= j < n1 ==> |arr[i][j]| == n2
    requires |cubes| == |arr| * (n1 * n2)
    requires Built3(loc, arr, n1, n2, cubes)
    ensures forall i, j, k :: 0 <= i < |arr| && 0 <= j < n1 && 0 <= k < n2 ==>
              && FlatIndex3(i, j, k, n1, n2) < |cubes|
              && cubes[FlatIndex3(i, j, k, n1, n2)].value == arr[i][j][k]
              && cubes[FlatIndex3(i, j, k, n1, n2)].cell == Layout3(loc, n1, i, j, k)
    ensures forall m :: 0 <= m < |cubes| ==> InGrid(cubes[m].cell, loc, [|arr|, n1, n2])
    ensures forall m, m' :: 0 <= m < m' < |cubes| ==> cubes[m].cell != cubes[m'].cell
  {
    forall i, j, k | 0 <= i < |arr| && 0 <= j < n1 && 0 <= k < n2
      ensures FlatIndex3(i, j, k, n1, n2) < |cubes|
      ensures cubes[FlatIndex3(i, j, k, n1, n2)].value == arr[i][j][k]
      ensures cubes[FlatIndex3(i, j, k, n1, n2)].cell == Layout3(loc, n1, i, j, k)
    {
      Flat3RoundTrip(i, j, k, |arr|, n1, n2);
    }
    forall m | 0 <= m < |cubes|
      ensures InGrid(cubes[m].cell, loc, [|arr|, n1, n2])
    {
      Unflatten3RoundTrip(m, |arr|, n1, n2);
    }
    forall m, m' | 0 <= m < m' < |cubes|
      ensures cubes[m].cell != cubes[m'].cell
    {
      Unflatten3RoundTrip(m, |arr|, n1, n2);
      Unflatten3RoundTrip(m', |arr|, n1, n2);
    }
  }

  /** `graph3DArray`'s nested loops over a rectangular array of `n1` rows of `n2` columns:
      entry `m` has index `m`, the element at `[i][j][k]` sits at flat index
      `i * n1 * n2 + j * n2 + k`, and distinct elements occupy distinct cells. */
  method BuildCubes3(loc: Point, arr: seq<seq<seq<JValue>>>, n1: nat, n2: nat)
    returns (cubes: seq<Cube>)
    requires forall i :: 0 <= i < |arr| ==> |arr[i]| == n1
    requires forall i, j :: 0 <= i < |arr| && 0 <= j < n1 ==> |arr[i][j]| == n2
    ensures |cubes| == |arr| * (n1 * n2)
    ensures forall m :: 0 <= m < |cubes| ==> cubes[m].index == m
    ensures forall i, j, k :: 0 <= i < |arr| && 0 <= j < n1 && 0 <= k < n2 ==>
              && FlatIndex3(i, j, k, n1, n2) < |cubes|
              && cubes[FlatIndex3(i, j, k, n1, n2)].value == arr[i][j][k]
              && cubes[FlatIndex3(i, j, k, n1, n2)].cell == Layout3(loc, n1, i, j, k)
    ensures forall m :: 0 <= m < |cubes| ==> InGrid(cubes[m].cell, loc, [|arr|, n1, n2])
    ensures forall m, m' :: 0 <= m < m' < |cubes| ==> cubes[m].cell != cubes[m'].cell
  {
    cubes := [];
    var i := 0;
    while i < |arr|
      invariant 0 <= i <= |arr| && |cubes| == i * (n1 * n2)
      invariant Built3(loc, arr, n1, n2, cubes)
    {
      cubes := PushPlane3(loc, arr, n1, n2, cubes, i);
      assert n1 * n2 + i * (n1 * n2) == (i + 1) * (n1 * n2);
      i := i + 1;
    }
    Cubes3Facts(loc, arr, n1, n2, cubes);
  }

  /** The middle loop of `graph3DArray`: the cubes of plane `i`, row by row. */
  method PushPlane3(loc: Point, arr: seq<seq<seq<JValue>>>, n1: nat, n2: nat, cubes: seq<Cube>, i: nat)
    returns (out: seq<Cube>)
    requires forall i :: 0 <= i < |arr| ==> |arr[i]| == n1
    requires forall i, j :: 0 <= i < |arr| && 0 <= j < n1 ==> |arr[i][j]| == n2
    requires i < |arr| && |cubes| == i * (n1 * n2) && Built3(loc, arr, n1, n2, cubes)
    ensures |out| == |cubes| + n1 * n2 && Built3(loc, arr, n1, n2, out)
  {
    out := cubes;
    var j := 0;
    while j < n1
      invariant 0 <= j <= n1 && |out| == i * (n1 * n2) + j * n2
      invariant Built3(loc, arr, n1, n2, out)
    {
      out := PushLine3(loc, arr, n1, n2, out, i, j);
      assert j * n2 + n2 == (j + 1) * n2;
      j := j + 1;
    }
  }

  /** The innermost loop of `graph3DArray`: the cubes of row `j` of plane `i`. */
  method PushLine3(loc: Point, arr: seq<seq<seq<JValue>>>, n1: nat, n2: nat, cubes: seq<Cube>, i: nat, j: nat)
    returns (out: seq<Cube>)
    requires forall i :: 0 <= i < |arr| ==> |arr[i]| == n1
    requires forall i, j :: 0 <= i < |arr| && 0 <= j < n1 ==> |arr[i][j]| == n2
    requires i < |arr| && j < n1 && |cubes| == i * (n1 * n2) + j * n2 && Built3(loc, arr, n1, n2, cubes)
    ensures |out| == |cubes| + n2 && Built3(loc, arr, n1, n2, out)
  {
    out := cubes;
    var k := 0;
    while k < n2
      invariant 0 <= k <= n2 && |out| == i * (n1 * n2) + j * n2 + k
      invariant Built3(loc, arr, n1, n2, out)
    {
      Cubes3Step(loc, arr, n1, n2, out, i, j, k);
      out := out + [Cube(arr[i][j][k], i * n1 * n2 + j * n2 + k, Layout3(loc, n1, i, j, k))];
      k := k + 1;
    }
  }

  /** One turn of `BuildCubes3`'s innermost loop appends the expected entry. */
  lemma Cubes3Step(loc: Point, arr: seq<seq<seq<JValue>>>, n1: nat, n2: nat, cubes: seq<Cube>, i: nat, j: nat, k: nat)
    requires forall i :: 0 <= i < |arr| ==> |arr[i]| == n1
    requires forall i, j :: 0 <= i < |arr| && 0 <= j < n1 ==> |arr[i][j]| == n2
    requires i < |arr| && j < n1 && k < n2
    requires |cubes| == i * (n1 * n2) + j * n2 + k
    requires Built3(loc, arr, n1, n2, cubes)
    ensures Built3(loc, arr, n1, n2, cubes + [Cube(arr[i][j][k], i * n1 * n2 + j * n2 + k, Layout3(loc, n1, i, j, k))])
  {
    Flat3RoundTrip(i, j, k, |arr|, n1, n2);
    assert i * n1 * n2 == i * (n1 * n2);
  }

  // ---------------------------------------------------------------- labels

  /** The indices below `n` that are multiples of `step`, in increasing order. */
  function Multiples(n: nat, step: nat): (r: seq<nat>)
    requires step >= 1
    ensures forall i: nat :: i in r <==> i < n && i % step == 0
    ensures forall a, b :: 0 <= a < b < |r| ==> r[a] < r[b]
  {
    if n == 0 then []
    else
      var prev := Multiples(n - 1, step);
      assert forall a :: 0 <= a < |prev| ==> prev[a] in prev;
      prev + (if (n - 1) % step == 0 then [n - 1] else [])
  }

  /** The indices of the `n` elements `createOptimizedLabels` keeps for labelling with at most
      `maxLabels` requested: the step is `max(1, floor(n / maxLabels))`. With `maxLabels`
      zero, `n / 0` is +Infinity for `n > 0` and `index % Infinity === index`, so only index 0
      passes the `=== 0` test; for `n == 0` there is nothing to keep. */
  function LabelledIndices(n: nat, maxLabels: nat): (r: seq<nat>)
    ensures forall a, b :: 0 <= a < b < |r| ==> r[a] < r[b]
    ensures forall i :: i in r ==> i < n
    ensures n > 0 ==> 0 in r
    ensures maxLabels > 0 ==>
              var step := if n / maxLabels > 1 then n / maxLabels else 1;
              forall i: nat :: i in r <==> i < n && i % step == 0
    ensures maxLabels > 0 && n < 2 * maxLabels ==> forall i: nat :: i in r <==> i < n
    ensures maxLabels == 0 ==> r == (if n > 0 then [0] else [])
  {
    if maxLabels == 0 then (if n > 0 then [0] else [])
    else
      var step := if n / maxLabels > 1 then n / maxLabels else 1;
      assert n < 2 * maxLabels ==> step == 1 by {
        if n / maxLabels >= 2 {
          MulMono(2, n / maxLabels, maxLabels);
        }
      }
      Multiples(n, step)
  }

  function Iota(n: nat): (r: seq<nat>)
    ensures |r| == n && forall i :: 0 <= i < n ==> r[i] == i
  {
    seq(n, i => i)
  }

  lemma {:induction false} MultiplesOfOne(n: nat)
    ensures Multiples(n, 1) == Iota(n)
  {
    if n > 0 {
      MultiplesOfOne(n - 1);
      assert Iota(n) == Iota(n - 1) + [n - 1];
    }
  }

  /** At both call sites `maxLabels` is the element count itself, so the step is 1 and every
      element is labelled: the sampling never thins anything out. */
  lemma EveryElementLabelled(n: nat)
    ensures LabelledIndices(n, n) == Iota(n)
  {
    if n > 0 {
      MultiplesOfOne(n);
    }
  }

  /** The label text of a value whose string form is `text`: its first 8 characters when it
      holds a decimal point, its first 6 otherwise. */
  function LabelText(text: string): (shown: string)
    ensures shown <= text
    ensures '.' in text ==> |shown| == (if |text| < 8 then |text| else 8)
    ensures '.' !in text ==> |shown| == (if |text| < 6 then |text| else 6)
  {
    var nDigits := if '.' in text then 7 else 5;
    if |text| <= nDigits + 1 then text else text[..nDigits + 1]
  }

  /** A decimal rendering has at most `k` digits exactly when the number is below `10^k`. */
  lemma {:induction false} NatToStringLength(n: nat, k: nat)
    requires k >= 1
    ensures |NatToString(n)| <= k <==> n < Numerals.Pow10(k)
    decreases n
  {
    if n >= 10 {
      if k == 1 {
        assert Numerals.Pow10(1) == 10;
      } else {
        NatToStringLength(n / 10, k - 1);
        assert Numerals.Pow10(k) == 10 * Numerals.Pow10(k - 1);
      }
    } else {
      assert Numerals.Pow10(k) == 10 * Numerals.Pow10(k - 1);
    }
  }

  /** An integer's label shows the whole number exactly when it is between -99999 and
      999999; any other integer below 10^21 in magnitude is cut to its first six characters.
      From 10^21 on `String` switches to exponent form, which `IntToString` does not write. */
  lemma IntegerLabelExact(i: int)
    ensures -PlainDigitsLimit < i < PlainDigitsLimit ==>
              (LabelText(IntToString(i)) == IntToString(i) <==> -99999 <= i <= 999999)
  {
    var t := IntToString(i);
    assert '.' !in t by {
      if i >= 0 {
        assert forall c :: c in t ==> IsDigit(c);
      } else {
        assert t == "-" + NatToString(-i);
        assert forall c :: c in NatToString(-i) ==> IsDigit(c);
      }
    }
    if i >= 0 {
      NatToStringLength(i, 6);
      assert Numerals.Pow10(6) == 1000000;
    } else {
      NatToStringLength(-i, 5);
      assert Numerals.Pow10(5) == 100000;
    }
  }

  // ---------------------------------------------------------------- size thresholds

  /** Rendering choices made from the element count: individual transparent meshes (count at
      most 2000) or one instanced mesh, and whether text labels are drawn (a 1-D array of at
      most 2000 elements, a 2-D or 3-D array of at most 1000). */
  datatype RenderPlan = RenderPlan(individualMeshes: bool, labels: bool)

  function Plan(dims: seq<nat>): (p: RenderPlan)
    requires 1 <= |dims| <= 3
    ensures p.labels ==> p.individualMeshes
    ensures p.individualMeshes <==> Product(dims) <= 2000
    ensures p.labels <==> Product(dims) <= (if |dims| == 1 then 2000 else 1000)
  {
    ProductOfSmallShapes(dims);
    RenderPlan(Product(dims) <= 2000, if |dims| == 1 then dims[0] <= 2000 else Product(dims) <= 1000)
  }

  // ---------------------------------------------------------------- camera

  /** How the camera target is derived from the centre of the padded shape:
      `RankAware` (public/js/visualization.js, public/app.js) switches on the rank,
      `Fixed` (public/viz.js) always aims at `(c2, c1, c0)`. */
  datatype CameraAim = RankAware | Fixed

  datatype Camera = Camera(position: Point, target: Point)

  /** The shape padded with zeros to three entries. */
  function Pad3(d: seq<nat>): (p: seq<nat>)
    requires |d| <= 3
    ensures |p| == 3
    ensures forall i :: 0 <= i < 3 ==> p[i] == (if i < |d| then d[i] else 0)
  {
    d + seq(3 - |d|, _ => 0)
  }

  function Max(a: int, b: int): int
  {
    if a < b then b else a
  }

  /** The camera `init` sets up for an array whose `arrayShape` is `shape`, or `None` when
      `init` throws: `arrayShape` itself throws on `Error`, and for a ragged array (shape
      `false`) or one of rank above 3 `Array(3 - nDim)` gets an invalid length. */
  function Framing(aim: CameraAim, shape: ShapeResult): (r: Option<Camera>)
    ensures r.Some? <==> shape.Shape? && |shape.dims| <= 3
    ensures r.Some? ==>
              var p := Pad3(shape.dims);
              var pos := r.value.position;
              && pos.x == p[0] && pos.y == p[1]
              && pos.z >= 3 && pos.z >= p[0] && pos.z >= p[1] && pos.z >= p[2]
              && (pos.z == 3 || pos.z == p[0] || pos.z == p[1] || pos.z == p[2])
    ensures r.Some? && aim.Fixed? ==>
              var p := Pad3(shape.dims);
              r.value.target == Point(p[2] / 2, p[1] / 2, p[0] / 2)
  {
    if !shape.Shape? || |shape.dims| > 3 then None
    else
      var p := Pad3(shape.dims);
      var c: seq<int> := [p[0] / 2, p[1] / 2, p[2] / 2];
      var position := Point(p[0], p[1], Max(Max(Max(p[0], p[1]), p[2]), 3));
      var target :=
        if aim.Fixed? then Point(c[2], c[1], c[0])
        else if |shape.dims| == 3 then Point(c[2], c[1], -c[0])
        else if |shape.dims| == 2 then Point(c[1], c[0], 0)
        else Point(c[0], 0, 0);
      Some(Camera(position, target))
  }

  /** The rank-aware camera looks at a cell of the drawn grid (drawn from the origin), for
      every array of rank 1 to 3 with positive dimensions: the middle element's cell. */
  lemma AimedInsideGrid(dims: seq<nat>)
    requires 1 <= |dims| <= 3
    requires forall i :: 0 <= i < |dims| ==> dims[i] > 0
    ensures Framing(RankAware, Shape(dims)).Some?
    ensures InGrid(Framing(RankAware, Shape(dims)).value.target, Point(0, 0, 0), dims)
  {
  }

  /** The fixed aim misses the grid: a 1-D array of two elements is drawn in cells (0,0,0)
      and (1,0,0), but the camera looks at (0,0,1); for every 3-D array of two or more planes
      the target lies in front of the grid, which recedes along -z. */
  lemma FixedAimMissesGrid(dims: seq<nat>)
    ensures Framing(Fixed, Shape([2])).value.target == Point(0, 0, 1)
    ensures !InGrid(Framing(Fixed, Shape([2])).value.target, Point(0, 0, 0), [2])
    ensures |dims| == 3 && dims[0] >= 2 ==>
              !InGrid(Framing(Fixed, Shape(dims)).value.target, Point(0, 0, 0), dims)
  {
    assert Pad3([2]) == [2, 0, 0];
  }

  // ---------------------------------------------------------------- shape caption

  /** `s.replaceAll(',', ', ')`. */
  function SpaceCommas(s: string): (r: string)
    ensures |r| == |s| + CountChar(s, ',')
    ensures forall c :: c in r ==> c in s || c == ' '
    ensures forall c :: c in s ==> c in r
  {
    if |s| == 0 then ""
    else
      CountConcat([s[0]], s[1..], ',');
      assert [s[0]] + s[1..] == s;
      assert CountChar([s[0]], ',') == (if s[0] == ',' then 1 else 0) by {
        assert [s[0]][..0] == "";
      }
      (if s[0] == ',' then ", " else [s[0]]) + SpaceCommas(s[1..])
  }

  predicate IsBlank(c: char)
  {
    c == ' '
  }

  /** Deleting the blanks undoes `SpaceCommas` on text without blanks. */
  lemma {:induction false} UnspaceCommas(s: string)
    requires ' ' !in s
    ensures RemoveAll(SpaceCommas(s), IsBlank) == s
    decreases |s|
  {
    if |s| > 0 {
      var head := if s[0] == ',' then ", " else [s[0]];
      RemoveAllConcat(head, SpaceCommas(s[1..]), IsBlank);
      UnspaceCommas(s[1..]);
      if s[0] == ',' {
        assert RemoveAll(", ", IsBlank) == [','] by {
          assert ", "[1..] == " ";
          assert RemoveAll(" ", IsBlank) == "" by {
            assert " "[1..] == "";
          }
        }
      } else {
        assert RemoveAll([s[0]], IsBlank) == [s[0]] by {
          assert [s[0]][1..] == "";
        }
      }
      assert s == [s[0]] + s[1..];
    }
  }

  /** `String(shape)`: the decimal entries joined with commas. */
  function ShapeString(dims: seq<nat>): (r: string)
    ensures ' ' !in r
    ensures |dims| > 0 ==> |r| > 0 && Split(r, ',') == DimPieces(dims)
  {
    JoinedPieces(dims);
    Join(DimPieces(dims), ',')
  }

  /** public/viz.js `setArrayShape`: `"(" + String(arrayShape(arr)).replaceAll(",", ", ") + ")"`;
      a ragged array reads "(false)", and `None` is the exception `arrayShape` throws. */
  function ShapeCaption(shape: ShapeResult): (r: Option<string>)
    ensures r.Some? <==> !shape.Error?
    ensures r.Some? ==> |r.value| >= 2 && r.value[0] == '(' && r.value[|r.value| - 1] == ')'
    ensures shape.Ragged? ==> r == Some("(false)")
  {
    match shape
    case Error => None
    case Ragged => Some("(false)")
    case Shape(dims) => Some("(" + SpaceCommas(ShapeString(dims)) + ")")
  }

  /** Reads a caption back into a shape: the inverse of `ShapeCaption` on shapes. */
  function ParseCaption(caption: string): (r: Option<seq<nat>>)
  {
    if |caption| < 2 || caption[0] != '(' || caption[|caption| - 1] != ')' then None
    else
      var inner := caption[1..|caption| - 1];
      if inner == "" then Some([])
      else
        var parts := Split(RemoveAll(inner, IsBlank), ',');
        if forall i :: 0 <= i < |parts| ==> AllDigits(parts[i]) then
          Some(seq(|parts|, i requires 0 <= i < |parts| => DigitsValue(parts[i])))
        else None
  }

  /** The decimal entries, one piece per dimension. */
  function DimPieces(dims: seq<nat>): (pieces: seq<string>)
    ensures |pieces| == |dims|
    ensures forall i :: 0 <= i < |dims| ==> pieces[i] == NatToString(dims[i])
  {
    seq(|dims|, i requires 0 <= i < |dims| => NatToString(dims[i]))
  }

  /** The comma-joined entries hold no blank, are non-empty for a non-empty shape, and split
      back into the pieces. */
  lemma JoinedPieces(dims: seq<nat>)
    ensures ' ' !in Join(DimPieces(dims), ',')
    ensures |dims| > 0 ==> |Join(DimPieces(dims), ',')| > 0 && Split(Join(DimPieces(dims), ','), ',') == DimPieces(dims)
  {
    var pieces := DimPieces(dims);
    forall i | 0 <= i < |pieces|
      ensures ' ' !in pieces[i] && ',' !in pieces[i]
    {
      assert forall c :: c in pieces[i] ==> IsDigit(c);
    }
    JoinAvoids(pieces, ',', ' ');
    if |dims| > 0 {
      if |pieces| > 1 {
        JoinCons(pieces[0], pieces[1..], ',');
        assert pieces == [pieces[0]] + pieces[1..];
      }
      SplitJoin(pieces, ',');
    }
  }

  /** Reading the digit pieces back gives the dimensions. */
  lemma PiecesValues(dims: seq<nat>)
    ensures forall i :: 0 <= i < |dims| ==> AllDigits(DimPieces(dims)[i])
    ensures forall i :: 0 <= i < |dims| ==> DigitsValue(DimPieces(dims)[i]) == dims[i]
  {
    forall i | 0 <= i < |dims|
      ensures DigitsValue(DimPieces(dims)[i]) == dims[i]
    {
      NatToStringValue(dims[i]);
    }
  }

  /** The caption determines the shape: reading it back gives the dimensions, so two arrays
      of different shapes never show the same caption. */
  lemma CaptionRoundTrip(dims: seq<nat>)
    ensures ParseCaption(ShapeCaption(Shape(dims)).value) == Some(dims)
  {
    var joined := ShapeString(dims);
    UnspaceCommas(joined);
    var caption := ShapeCaption(Shape(dims)).value;
    var inner := caption[1..|caption| - 1];
    assert inner == SpaceCommas(joined);
    if |dims| > 0 {
      assert inner != "";
      PiecesValues(dims);
      var parts := Split(RemoveAll(inner, IsBlank), ',');
      assert parts == DimPieces(dims);
      assert forall i :: 0 <= i < |parts| ==> AllDigits(parts[i]);
      var values := seq(|parts|, i requires 0 <= i < |parts| => DigitsValue(parts[i]));
      assert values == dims;
    }
  }
}
