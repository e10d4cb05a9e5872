/** The brightness derivatives of one refinement step
    (`opfl_get_derivatives`): a 7-tap central difference applied along rows
    (Ex) and along columns (Ey) of the temporal blend `(1 - p) * b0 + p * b1`
    of the two warped luma planes, with indices clamped to the plane, and the
    plain difference `b1 - b0` (Et). Outputs are `width * height` planes in
    row-major order. */
module Derivatives {
  import opened OpflParams
  import opened Arith

  /** An 8-bit luma sample. */
  type Pixel = x: int | 0 <= x < 256

  /** Row i starts at `i * stride`; a row holds `width` samples. */
  lemma PixelIndex(height: nat, stride: nat, width: nat, i: nat, j: nat)
    requires width <= stride && i < height && j < width
    ensures Mul(i, stride) + j < Mul(height, stride)
  {
    MulMono(i + 1, height, stride);
  }

  /** The luma plane of a frame buffer. */
  datatype Plane = Plane(width: nat, height: nat, stride: nat, y: seq<Pixel>) {
    predicate Valid()
    {
      width <= stride && Mul(height, stride) <= |y|
    }

    function At(i: nat, j: nat): real
      requires Valid() && i < height && j < width
    {
      PixelIndex(height, stride, width, i, j);
      y[Mul(i, stride) + j] as real
    }

    /** Row i as a line of samples. */
    function Row(i: nat): (r: seq<real>)
      requires Valid() && i < height
      ensures |r| == width && forall j :: 0 <= j < width ==> r[j] == At(i, j)
    {
      seq(width, j requires 0 <= j < width => At(i, j))
    }

    /** Column j as a line of samples. */
    function Column(j: nat): (c: seq<real>)
      requires Valid() && j < width
      ensures |c| == height && forall i :: 0 <= i < height ==> c[i] == At(i, j)
    {
      seq(height, i requires 0 <= i < height => At(i, j))
    }
  }

  /** The two warped buffers are allocated alike, and the source reads both
      with the first one's dimensions and stride. */
  predicate Pair(b0: Plane, b1: Plane)
  {
    b0.Valid() && b1.Valid() && b0.width == b1.width && b0.height == b1.height && b0.stride == b1.stride
  }

  /** The filter taps `[-1, 9, -45, 0, 45, -9, 1] / 60`. */
  const Taps: seq<real> := [-1.0 / 60.0, 9.0 / 60.0, -45.0 / 60.0, 0.0, 45.0 / 60.0, -9.0 / 60.0, 1.0 / 60.0]

  /** Taps to the left of the centre, `(DERIVATIVE_FILTER_LENGTH - 1) / 2`. */
  const HalfLength: nat := (DerivativeFilterLength - 1) / 2

  /** A tap position moved back into `[0, n - 1]`. */
  function Clamp(idx: int, n: nat): (r: int)
    ensures n > 0 ==> 0 <= r < n
    ensures 0 <= idx < n ==> r == idx
  {
    if idx < 0 then 0 else if idx > n - 1 then n - 1 else idx
  }

  /** Sample `x + k - 3` of a line, clamped. */
  function Tap(line: seq<real>, x: nat, k: nat): real
    requires x < |line|
  {
    line[Clamp(x + k - HalfLength, |line|)]
  }

  /** The seven samples under the stencil. */
  datatype Window = Window(s0: real, s1: real, s2: real, s3: real, s4: real, s5: real, s6: real)
  {
    function Sample(k: nat): real
      requires k < |Taps|
    {
      match k
      case 0 => s0
      case 1 => s1
      case 2 => s2
      case 3 => s3
      case 4 => s4
      case 5 => s5
      case _ => s6
    }
  }

  function WindowAt(line: seq<real>, x: nat): Window
    requires x < |line|
  {
    Window(Tap(line, x, 0), Tap(line, x, 1), Tap(line, x, 2), Tap(line, x, 3), Tap(line, x, 4), Tap(line, x, 5), Tap(line, x, 6))
  }

  /** The taps applied to a window. */
  function Dot(w: Window): real
  {
    (-w.s0 + 9.0 * w.s1 - 45.0 * w.s2 + 45.0 * w.s4 - 9.0 * w.s5 + w.s6) / 60.0
  }

  /** The derivative estimate D at position x of a line. */
  function Stencil(line: seq<real>, x: nat): real
    requires x < |line|
  {
    Dot(WindowAt(line, x))
  }

  /** The first n terms of the stencil, in the order the source adds them. */
  function StencilTo(w: Window, n: nat): real
    requires n <= |Taps|
  {
    if n == 0 then 0.0 else StencilTo(w, n - 1) + Weighted(n - 1, w.Sample(n - 1))
  }

  /** Sample s weighted by tap k. */
  function Weighted(k: nat, s: real): real
    requires k < |Taps|
  {
    Taps[k] * s
  }

  /** Adding the taps one by one in the source's order gives D. */
  lemma StencilToAll(w: Window)
    ensures StencilTo(w, |Taps|) == Dot(w)
  {
    assert StencilTo(w, 1) == -w.s0 / 60.0;
    assert StencilTo(w, 2) == (-w.s0 + 9.0 * w.s1) / 60.0;
    assert StencilTo(w, 3) == (-w.s0 + 9.0 * w.s1 - 45.0 * w.s2) / 60.0;
    assert StencilTo(w, 4) == (-w.s0 + 9.0 * w.s1 - 45.0 * w.s2) / 60.0;
    assert StencilTo(w, 5) == (-w.s0 + 9.0 * w.s1 - 45.0 * w.s2 + 45.0 * w.s4) / 60.0;
    assert StencilTo(w, 6) == (-w.s0 + 9.0 * w.s1 - 45.0 * w.s2 + 45.0 * w.s4 - 9.0 * w.s5) / 60.0;
  }

  /** The weighted mix `(1 - p) * a + p * b`. */
  function Mix(a: real, b: real, p: real): real
  {
    (1.0 - p) * a + p * b
  }

  /** The blend of two lines, sample by sample: the first line at position
      0, the second at position 1. */
  function Blend(u: seq<real>, v: seq<real>, p: real): (w: seq<real>)
    requires |u| == |v|
    ensures |w| == |u| && forall x :: 0 <= x < |u| ==> w[x] == Mix(u[x], v[x], p)
    ensures p == 0.0 ==> w == u
    ensures p == 1.0 ==> w == v
    ensures u == v ==> w == u
  {
    seq(|u|, x requires 0 <= x < |u| => Mix(u[x], v[x], p))
  }

  function MixWindow(a: Window, b: Window, p: real): Window
  {
    Window(Mix(a.s0, b.s0, p), Mix(a.s1, b.s1, p), Mix(a.s2, b.s2, p), Mix(a.s3, b.s3, p),
           Mix(a.s4, b.s4, p), Mix(a.s5, b.s5, p), Mix(a.s6, b.s6, p))
  }

  /** The three derivative planes. */
  datatype Derivative = Horizontal | Vertical | Temporal

  /** The value stored for pixel (i, j) of plane `d`: the stencil along row
      i, or along column j, of the blend, or the plain difference. */
  function Value(d: Derivative, b0: Plane, b1: Plane, p: real, i: nat, j: nat): real
    requires Pair(b0, b1) && i < b0.height && j < b0.width
  {
    match d
    case Horizontal => Stencil(Blend(b0.Row(i), b1.Row(i), p), j)
    case Vertical => Stencil(Blend(b0.Column(j), b1.Column(j), p), i)
    case Temporal => b1.At(i, j) - b0.At(i, j)
  }

  lemma BlendTap(u: seq<real>, v: seq<real>, p: real, x: nat, k: nat)
    requires |u| == |v| && x < |u|
    ensures Tap(Blend(u, v, p), x, k) == Mix(Tap(u, x, k), Tap(v, x, k), p)
  {
  }

  /** The window of a blend is the blend of the windows. */
  lemma WindowOfBlend(u: seq<real>, v: seq<real>, p: real, x: nat)
    requires |u| == |v| && x < |u|
    ensures WindowAt(Blend(u, v, p), x) == MixWindow(WindowAt(u, x), WindowAt(v, x), p)
  {
    BlendTap(u, v, p, x, 0);
    BlendTap(u, v, p, x, 1);
    BlendTap(u, v, p, x, 2);
    BlendTap(u, v, p, x, 3);
    BlendTap(u, v, p, x, 4);
    BlendTap(u, v, p, x, 5);
    BlendTap(u, v, p, x, 6);
  }

  /** The taps commute with the mix. */
  lemma DotOfMix(a: Window, b: Window, p: real)
    ensures Dot(MixWindow(a, b, p)) == Mix(Dot(a), Dot(b), p)
  {
  }

  /** D is linear: the stencil of a blend is the blend of the stencils. */
  lemma StencilOfBlend(u: seq<real>, v: seq<real>, p: real, x: nat)
    requires |u| == |v| && x < |u|
    ensures Stencil(Blend(u, v, p), x) == Mix(Stencil(u, x), Stencil(v, x), p)
  {
    WindowOfBlend(u, v, p, x);
    DotOfMix(WindowAt(u, x), WindowAt(v, x), p);
  }

  /** Ex and Ey are `(1 - p) * D(b0) + p * D(b1)` for the same stencil D,
      along row i and along column j. */
  lemma DerivativesAreBlends(b0: Plane, b1: Plane, p: real, i: nat, j: nat)
    requires Pair(b0, b1) && i < b0.height && j < b0.width
    ensures Value(Horizontal, b0, b1, p, i, j) == Mix(Stencil(b0.Row(i), j), Stencil(b1.Row(i), j), p)
    ensures Value(Vertical, b0, b1, p, i, j) == Mix(Stencil(b0.Column(j), i), Stencil(b1.Column(j), i), p)
  {
    StencilOfBlend(b0.Row(i), b1.Row(i), p, j);
    StencilOfBlend(b0.Column(j), b1.Column(j), p, i);
  }

  /** Every clamped tap reads a sample of the line. */
  lemma TapInLine(line: seq<real>, x: nat, k: nat)
    requires x < |line|
    ensures 0 <= Clamp(x + k - HalfLength, |line|) < |line|
    ensures Tap(line, x, k) == line[Clamp(x + k - HalfLength, |line|)]
  {
  }

  /** The coefficients are antisymmetric about the centre tap and sum to
      zero, so a constant line has derivative zero everywhere, borders
      included. */
  lemma StencilConstantZero(line: seq<real>, c: real, x: nat)
    requires x < |line|
    requires forall y :: 0 <= y < |line| ==> line[y] == c
    ensures forall k :: 0 <= k < |Taps| ==> Taps[k] == -Taps[|Taps| - 1 - k]
    ensures Stencil(line, x) == 0.0
  {
    TapInLine(line, x, 0);
    TapInLine(line, x, 1);
    TapInLine(line, x, 2);
    TapInLine(line, x, 4);
    TapInLine(line, x, 5);
    TapInLine(line, x, 6);
  }

  /** Where the blend is constant along row i, Ex vanishes on that row;
      where it is constant along column j, Ey vanishes on that column. */
  lemma ConstantBlendHasNoDerivative(b0: Plane, b1: Plane, p: real, i: nat, j: nat, c: real)
    requires Pair(b0, b1) && i < b0.height && j < b0.width
    ensures (forall x :: 0 <= x < b0.width ==> Mix(b0.At(i, x), b1.At(i, x), p) == c) ==>
              Value(Horizontal, b0, b1, p, i, j) == 0.0
    ensures (forall y :: 0 <= y < b0.height ==> Mix(b0.At(y, j), b1.At(y, j), p) == c) ==>
              Value(Vertical, b0, b1, p, i, j) == 0.0
  {
    if forall x :: 0 <= x < b0.width ==> Mix(b0.At(i, x), b1.At(i, x), p) == c {
      StencilConstantZero(Blend(b0.Row(i), b1.Row(i), p), c, j);
    }
    if forall y :: 0 <= y < b0.height ==> Mix(b0.At(y, j), b1.At(y, j), p) == c {
      StencilConstantZero(Blend(b0.Column(j), b1.Column(j), p), c, i);
    }
  }

  /** Away from the borders the stencil reads `x - 3 .. x + 3` unclamped,
      and on a ramp `a * x + c` it returns the slope a exactly. */
  lemma StencilOfRamp(line: seq<real>, a: real, c: real, x: nat)
    requires HalfLength <= x && x + HalfLength < |line|
    requires forall y :: 0 <= y < |line| ==> line[y] == a * (y as real) + c
    ensures Stencil(line, x) == a
  {
    var m := a * (x as real) + c;
    RampSample(line, a, c, x, -3);
    RampSample(line, a, c, x, -2);
    RampSample(line, a, c, x, -1);
    RampSample(line, a, c, x, 1);
    RampSample(line, a, c, x, 2);
    RampSample(line, a, c, x, 3);
    assert Tap(line, x, 0) == m - 3.0 * a;
    assert Tap(line, x, 1) == m - 2.0 * a;
    assert Tap(line, x, 2) == m - a;
    assert Tap(line, x, 4) == m + a;
    assert Tap(line, x, 5) == m + 2.0 * a;
    assert Tap(line, x, 6) == m + 3.0 * a;
  }

  /** d samples away from x, a ramp has moved by d times its slope. */
  lemma RampSample(line: seq<real>, a: real, c: real, x: nat, d: int)
    requires 0 <= x + d < |line|
    requires forall y :: 0 <= y < |line| ==> line[y] == a * (y as real) + c
    ensures line[x + d] == a * (x as real) + c + (d as real) * a
  {
    assert line[x + d] == a * ((x + d) as real) + c;
    assert (x + d) as real == x as real + d as real;
    assert a * (x as real + d as real) == a * (x as real) + (d as real) * a;
  }

  /** On 8-bit samples the stencil stays within `255 * 55 / 60` of zero. */
  lemma StencilBound(line: seq<real>, x: nat)
    requires x < |line|
    requires forall y :: 0 <= y < |line| ==> 0.0 <= line[y] <= 255.0
    ensures -233.75 <= Stencil(line, x) <= 233.75
  {
    TapInLine(line, x, 0);
    TapInLine(line, x, 1);
    TapInLine(line, x, 2);
    TapInLine(line, x, 4);
    TapInLine(line, x, 5);
    TapInLine(line, x, 6);
  }

  /** Et is zero exactly where the two warped buffers agree. */
  lemma TemporalZeroIff(b0: Plane, b1: Plane, p: real, i: nat, j: nat)
    requires Pair(b0, b1) && i < b0.height && j < b0.width
    ensures Value(Temporal, b0, b1, p, i, j) == 0.0 <==> b0.At(i, j) == b1.At(i, j)
  {
  }

  /** Position of pixel (i, j) in an output plane. */
  function PlaneIdx(width: nat, i: nat, j: nat): nat
  {
    Mul(i, width) + j
  }

  /** Sample k of a window is tap k of the line. */
  lemma WindowSample(line: seq<real>, x: nat, k: nat)
    requires x < |line| && k < |Taps|
    ensures WindowAt(line, x).Sample(k) == Tap(line, x, k)
  {
  }

  /** One tap's contribution in the source's form,
      `filter[k] * b0 * (1 - dstpos) + filter[k] * b1 * dstpos`. */
  method TapTerm(k: nat, s0: real, s1: real, p: real) returns (term: real)
    requires k < |Taps|
    ensures term == Weighted(k, Mix(s0, s1, p))
  {
    term := Taps[k] * s0 * (1.0 - p) + Taps[k] * s1 * p;
  }

  /** Tap k of `Ex[i * width + j]`: the column is clamped to the row. */
  method HorizontalTap(b0: Plane, b1: Plane, p: real, i: nat, j: nat, k: nat) returns (term: real)
    requires Pair(b0, b1) && i < b0.height && j < b0.width && k < |Taps|
    ensures term == Weighted(k, WindowAt(Blend(b0.Row(i), b1.Row(i), p), j).Sample(k))
  {
    var idx := Clamp(j + k - HalfLength, b0.width);
    ghost var u, v := b0.Row(i), b1.Row(i);
    BlendTap(u, v, p, j, k);
    WindowSample(Blend(u, v, p), j, k);
    assert Tap(u, j, k) == b0.At(i, idx);
    assert Tap(v, j, k) == b1.At(i, idx);
    term := TapTerm(k, b0.At(i, idx), b1.At(i, idx), p);
  }

  /** Tap k of `Ey[i * width + j]`: the row is clamped to the column. */
  method VerticalTap(b0: Plane, b1: Plane, p: real, i: nat, j: nat, k: nat) returns (term: real)
    requires Pair(b0, b1) && i < b0.height && j < b0.width && k < |Taps|
    ensures term == Weighted(k, WindowAt(Blend(b0.Column(j), b1.Column(j), p), i).Sample(k))
  {
    var idx := Clamp(i + k - HalfLength, b0.height);
    ghost var u, v := b0.Column(j), b1.Column(j);
    BlendTap(u, v, p, i, k);
    WindowSample(Blend(u, v, p), i, k);
    assert Tap(u, i, k) == b0.At(idx, j);
    assert Tap(v, i, k) == b1.At(idx, j);
    term := TapTerm(k, b0.At(idx, j), b1.At(idx, j), p);
  }

  /** `Ex[i * width + j]`: the seven taps along row i. */
  method HorizontalAt(b0: Plane, b1: Plane, p: real, i: nat, j: nat) returns (v: real)
    requires Pair(b0, b1) && i < b0.height && j < b0.width
    ensures v == Value(Horizontal, b0, b1, p, i, j)
  {
    ghost var w := WindowAt(Blend(b0.Row(i), b1.Row(i), p), j);
    v := 0.0;
    var k := 0;
    while k < DerivativeFilterLength
      invariant 0 <= k <= |Taps|
      invariant v == StencilTo(w, k)
    {
      var term := HorizontalTap(b0, b1, p, i, j, k);
      v := v + term;
      k := k + 1;
    }
    StencilToAll(w);
  }

  /** `Ey[i * width + j]`: the seven taps along column j. */
  method VerticalAt(b0: Plane, b1: Plane, p: real, i: nat, j: nat) returns (v: real)
    requires Pair(b0, b1) && i < b0.height && j < b0.width
    ensures v == Value(Vertical, b0, b1, p, i, j)
  {
    ghost var w := WindowAt(Blend(b0.Column(j), b1.Column(j), p), i);
    v := 0.0;
    var k := 0;
    while k < DerivativeFilterLength
      invariant 0 <= k <= |Taps|
      invariant v == StencilTo(w, k)
    {
      var term := VerticalTap(b0, b1, p, i, j, k);
      v := v + term;
      k := k + 1;
    }
    StencilToAll(w);
  }

  /** One output pixel of plane `d`. */
  method DerivativeAt(d: Derivative, b0: Plane, b1: Plane, p: real, i: nat, j: nat) returns (v: real)
    requires Pair(b0, b1) && i < b0.height && j < b0.width
    ensures v == Value(d, b0, b1, p, i, j)
  {
    match d
    case Horizontal => v := HorizontalAt(b0, b1, p, i, j);
    case Vertical => v := VerticalAt(b0, b1, p, i, j);
    case Temporal => v := b1.At(i, j) - b0.At(i, j);
  }

  /** One row of an output plane, left to right. */
  method DerivativeRow(d: Derivative, b0: Plane, b1: Plane, p: real, i: nat) returns (row: seq<real>)
    requires Pair(b0, b1) && i < b0.height
    ensures |row| == b0.width
    ensures forall j :: 0 <= j < b0.width ==> row[j] == Value(d, b0, b1, p, i, j)
  {
    row := [];
    var j := 0;
    while j < b0.width
      invariant 0 <= j <= b0.width && |row| == j
      invariant forall j' :: 0 <= j' < j ==> row[j'] == Value(d, b0, b1, p, i, j')
    {
      var v := DerivativeAt(d, b0, b1, p, i, j);
      ghost var prev := row;
      row := row + [v];
      forall j' | 0 <= j' < j + 1
        ensures row[j'] == Value(d, b0, b1, p, i, j')
      {
        if j' < j {
          assert row[j'] == prev[j'];
        }
      }
      j := j + 1;
    }
  }

  /** Rows before row i lie inside the first `i * width` entries, and row i
      starts right after them. */
  lemma RowPlacement(width: nat, i: nat)
    ensures forall i': nat, j': nat {:trigger PlaneIdx(width, i', j')} :: i' < i && j' < width ==>
      PlaneIdx(width, i', j') < Mul(i, width)
    ensures forall j': nat {:trigger PlaneIdx(width, i, j')} :: PlaneIdx(width, i, j') == Mul(i, width) + j'
    ensures Mul(i + 1, width) == Mul(i, width) + width
  {
    forall i': nat, j': nat | i' < i && j' < width
      ensures PlaneIdx(width, i', j') < Mul(i, width)
    {
      MulMono(i' + 1, i, width);
    }
  }

  /** One derivative plane, row by row. */
  method DerivativePlane(d: Derivative, b0: Plane, b1: Plane, p: real) returns (plane: seq<real>)
    requires Pair(b0, b1)
    ensures |plane| == Mul(b0.height, b0.width)
    ensures forall i: nat, j: nat {:trigger PlaneIdx(b0.width, i, j)} :: i < b0.height && j < b0.width ==>
      PlaneIdx(b0.width, i, j) < |plane| && plane[PlaneIdx(b0.width, i, j)] == Value(d, b0, b1, p, i, j)
  {
    var width := b0.width;
    plane := [];
    var i := 0;
    while i < b0.height
      invariant 0 <= i <= b0.height && |plane| == Mul(i, width)
      invariant forall i': nat, j': nat {:trigger PlaneIdx(width, i', j')} :: i' < i && j' < width ==>
        PlaneIdx(width, i', j') < |plane| && plane[PlaneIdx(width, i', j')] == Value(d, b0, b1, p, i', j')
    {
      var row := DerivativeRow(d, b0, b1, p, i);
      AppendRow(d, b0, b1, p, i, plane, row);
      plane := plane + row;
      i := i + 1;
    }
  }

  /** Appending row i to the rows before it keeps every earlier entry and
      places row i's entries at their offsets. */
  lemma AppendRow(d: Derivative, b0: Plane, b1: Plane, p: real, i: nat, plane: seq<real>, row: seq<real>)
    requires Pair(b0, b1) && i < b0.height && |plane| == Mul(i, b0.width) && |row| == b0.width
    requires forall i': nat, j': nat {:trigger PlaneIdx(b0.width, i', j')} :: i' < i && j' < b0.width ==>
      PlaneIdx(b0.width, i', j') < |plane| && plane[PlaneIdx(b0.width, i', j')] == Value(d, b0, b1, p, i', j')
    requires forall j :: 0 <= j < b0.width ==> row[j] == Value(d, b0, b1, p, i, j)
    ensures |plane + row| == Mul(i + 1, b0.width)
    ensures forall i': nat, j': nat {:trigger PlaneIdx(b0.width, i', j')} :: i' < i + 1 && j' < b0.width ==>
      PlaneIdx(b0.width, i', j') < |plane + row| && (plane + row)[PlaneIdx(b0.width, i', j')] == Value(d, b0, b1, p, i', j')
  {
    var width := b0.width;
    RowPlacement(width, i);
    var next := plane + row;
    forall i': nat, j': nat | i' < i + 1 && j' < width
      ensures PlaneIdx(width, i', j') < |next| && next[PlaneIdx(width, i', j')] == Value(d, b0, b1, p, i', j')
    {
      if i' < i {
        assert next[PlaneIdx(width, i', j')] == plane[PlaneIdx(width, i', j')];
      } else {
        assert next[PlaneIdx(width, i', j')] == row[j'];
      }
    }
  }

  /** `opfl_get_derivatives`: the horizontal, vertical and temporal planes. */
  method OpflGetDerivatives(b0: Plane, b1: Plane, dstpos: real) returns (ex: seq<real>, ey: seq<real>, et: seq<real>)
    requires Pair(b0, b1)
    ensures |ex| == |ey| == |et| == Mul(b0.height, b0.width)
    ensures forall i: nat, j: nat {:trigger PlaneIdx(b0.width, i, j)} :: i < b0.height && j < b0.width ==>
      PlaneIdx(b0.width, i, j) < |ex| &&
      ex[PlaneIdx(b0.width, i, j)] == Value(Horizontal, b0, b1, dstpos, i, j) &&
      ey[PlaneIdx(b0.width, i, j)] == Value(Vertical, b0, b1, dstpos, i, j) &&
      et[PlaneIdx(b0.width, i, j)] == b1.At(i, j) - b0.At(i, j)
  {
    ex := DerivativePlane(Horizontal, b0, b1, dstpos);
    ey := DerivativePlane(Vertical, b0, b1, dstpos);
    et := DerivativePlane(Temporal, b0, b1, dstpos);
  }
}
