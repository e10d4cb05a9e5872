/** A motion field of one pyramid level: `width * height` interior cells
    surrounded by a margin of `AvgMfBorder` cells on every side, stored row by
    row in one flat buffer with stride `width + 2 * AvgMfBorder`. */
module MotionFields {
  import opened OpflParams
  import opened Arith

  function Stride(width: nat): nat
  {
    width + 2 * AvgMfBorder
  }

  /** Number of cells allocated for a field of the given interior size:
      `height + 64` rows of `Stride(width)` cells. */
  function BufferSize(width: nat, height: nat): nat
  {
    Mul(height + 2 * AvgMfBorder, Stride(width))
  }

  lemma BufferSizeIsProduct(width: nat, height: nat)
    ensures BufferSize(width, height) == (width + 2 * AvgMfBorder) * (height + 2 * AvgMfBorder)
  {
    MulIsProduct(height + 2 * AvgMfBorder, Stride(width));
  }

  /** Offset of the first interior cell, where the field's start pointer sits. */
  function Origin(width: nat): nat
  {
    AvgMfBorder * Stride(width) + AvgMfBorder
  }

  /** Buffer offset of interior cell (i, j), reached from the start pointer. */
  function Idx(width: nat, i: nat, j: nat): nat
  {
    Origin(width) + Mul(i, Stride(width)) + j
  }

  /** Buffer row and column of offset k, counted from the interior origin. */
  function RowOf(width: nat, k: nat): int
  {
    Quot(k, Stride(width)) - AvgMfBorder
  }

  function ColOf(width: nat, k: nat): int
  {
    Rem(k, Stride(width)) - AvgMfBorder
  }

  /** Whether offset k is an interior cell (and not part of the margin). */
  predicate InInterior(width: nat, height: nat, k: nat)
  {
    0 <= RowOf(width, k) < height && 0 <= ColOf(width, k) < width
  }

  datatype MotionField = MotionField(width: nat, height: nat, cells: seq<DbMv>) {
    predicate Valid()
    {
      |cells| == BufferSize(width, height)
    }

    predicate SameShape(o: MotionField)
    {
      width == o.width && height == o.height && |cells| == |o.cells|
    }
  }

  /** A calloc'd field: every cell is the zero vector. */
  function ZeroField(width: nat, height: nat): (f: MotionField)
    ensures f.Valid() && f.width == width && f.height == height
    ensures forall k :: 0 <= k < |f.cells| ==> f.cells[k] == ZeroDbMv
  {
    MotionField(width, height, seq(BufferSize(width, height), k => ZeroDbMv))
  }

  /** The offset of interior cell (i, j) is `(i + 32) * stride + (j + 32)`,
      lies inside the buffer, and decodes back to (i, j). */
  lemma IdxInterior(width: nat, height: nat, i: nat, j: nat)
    requires i < height && j < width
    ensures Idx(width, i, j) == Mul(i + AvgMfBorder, Stride(width)) + (j + AvgMfBorder)
    ensures Idx(width, i, j) < BufferSize(width, height)
    ensures RowOf(width, Idx(width, i, j)) == i && ColOf(width, Idx(width, i, j)) == j
    ensures InInterior(width, height, Idx(width, i, j))
  {
    var s := Stride(width);
    var k := Idx(width, i, j);
    MulAdd(i, AvgMfBorder, s);
    MulIsProduct(AvgMfBorder, s);
    QuotRemUnique(k, s, i + AvgMfBorder, j + AvgMfBorder);
    MulAdd(i + AvgMfBorder, 1, s);
    MulMono(i + AvgMfBorder + 1, height + 2 * AvgMfBorder, s);
  }

  /** The C form of the interior offset, `(i + 32) * mvstr + (j + 32)`. */
  lemma IdxIsProduct(width: nat, i: nat, j: nat)
    ensures Idx(width, i, j) == (i + AvgMfBorder) * Stride(width) + (j + AvgMfBorder)
  {
    MulIsProduct(i, Stride(width));
  }

  /** `IdxInterior` for every interior cell at once. */
  lemma IdxInteriorAll(width: nat, height: nat)
    ensures forall i: nat, j: nat {:trigger Idx(width, i, j)} :: i < height && j < width ==>
      && Idx(width, i, j) < BufferSize(width, height)
      && RowOf(width, Idx(width, i, j)) == i && ColOf(width, Idx(width, i, j)) == j
      && InInterior(width, height, Idx(width, i, j))
  {
    forall i: nat, j: nat | i < height && j < width
      ensures && Idx(width, i, j) < BufferSize(width, height)
              && RowOf(width, Idx(width, i, j)) == i && ColOf(width, Idx(width, i, j)) == j
              && InInterior(width, height, Idx(width, i, j))
    {
      IdxInterior(width, height, i, j);
    }
  }

  /** Every interior offset is the offset of the cell it decodes to. */
  lemma InteriorIsIdx(width: nat, height: nat, k: nat)
    requires InInterior(width, height, k)
    ensures k == Idx(width, RowOf(width, k) as nat, ColOf(width, k) as nat)
  {
    var s := Stride(width);
    QuotRemSplit(k, s);
    MulAdd(RowOf(width, k) as nat, AvgMfBorder, s);
    MulIsProduct(AvgMfBorder, s);
  }

  /** Distinct interior cells occupy distinct offsets. */
  lemma IdxInjective(width: nat, height: nat, i1: nat, j1: nat, i2: nat, j2: nat)
    requires i1 < height && j1 < width && i2 < height && j2 < width
    requires Idx(width, i1, j1) == Idx(width, i2, j2)
    ensures i1 == i2 && j1 == j2
  {
    IdxInterior(width, height, i1, j1);
    IdxInterior(width, height, i2, j2);
  }

  /** The sum written back by one iteration of the refinement loop. */
  function AccumulatedCell(last: MotionField, upd: MotionField, k: nat): DbMv
    requires last.Valid() && last.SameShape(upd) && k < |last.cells|
  {
    if InInterior(last.width, last.height, k) then last.cells[k].Plus(upd.cells[k]) else last.cells[k]
  }

  /** One accumulation pass: the increment `upd` (the freshly updated
      `mf_new`) is added to every interior cell of `mf_last`, and the sum is
      mirrored into `mf_new`; margin cells of both fields are left alone. */
  function Accumulate(last: MotionField, upd: MotionField): (r: (MotionField, MotionField))
    requires last.Valid() && last.SameShape(upd)
    ensures r.0.Valid() && r.0.SameShape(last) && r.1.SameShape(last)
    ensures forall i: nat, j: nat {:trigger Idx(last.width, i, j)} :: i < last.height && j < last.width ==>
      var k := Idx(last.width, i, j);
      k < |last.cells| && r.0.cells[k] == last.cells[k].Plus(upd.cells[k]) && r.1.cells[k] == r.0.cells[k]
    ensures forall k :: 0 <= k < |last.cells| && !InInterior(last.width, last.height, k) ==>
      r.0.cells[k] == last.cells[k] && r.1.cells[k] == upd.cells[k]
  {
    IdxInteriorAll(last.width, last.height);
    var n := |last.cells|;
    (MotionField(last.width, last.height, seq(n, k requires 0 <= k < n => AccumulatedCell(last, upd, k))),
     MotionField(last.width, last.height,
                 seq(n, k requires 0 <= k < n =>
                       if InInterior(last.width, last.height, k) then AccumulatedCell(last, upd, k) else upd.cells[k])))
  }

  /** What the accumulation pass has done once it reaches cell (i, j) in
      row-major order: earlier cells of both buffers hold the sum, later
      interior cells are as they were, and margin cells are untouched. */
  ghost predicate AccumulatedUpTo(last: MotionField, upd: MotionField, a: seq<DbMv>, b: seq<DbMv>, i: nat, j: nat)
    requires last.Valid() && last.SameShape(upd) && |a| == |b| == |last.cells|
  {
    && (forall i': nat, j': nat {:trigger Idx(last.width, i', j')} :: i' < last.height && j' < last.width ==>
          Idx(last.width, i', j') < |a| &&
          if i' < i || (i' == i && j' < j) then
            a[Idx(last.width, i', j')] == AccumulatedCell(last, upd, Idx(last.width, i', j')) &&
            b[Idx(last.width, i', j')] == a[Idx(last.width, i', j')]
          else
            a[Idx(last.width, i', j')] == last.cells[Idx(last.width, i', j')] &&
            b[Idx(last.width, i', j')] == upd.cells[Idx(last.width, i', j')])
    && (forall k :: 0 <= k < |a| && !InInterior(last.width, last.height, k) ==>
          a[k] == last.cells[k] && b[k] == upd.cells[k])
  }

  /** Accumulating cell (i, j) advances the pass by one cell. */
  lemma AccumulatedStep(last: MotionField, upd: MotionField, a: seq<DbMv>, b: seq<DbMv>, i: nat, j: nat)
    requires last.Valid() && last.SameShape(upd) && |a| == |b| == |last.cells|
    requires i < last.height && j < last.width
    requires AccumulatedUpTo(last, upd, a, b, i, j)
    ensures Idx(last.width, i, j) < |a|
    ensures var k := Idx(last.width, i, j);
            var sum := a[k].Plus(b[k]);
            AccumulatedUpTo(last, upd, a[k := sum], b[k := sum], i, j + 1)
  {
    var width, height := last.width, last.height;
    IdxInterior(width, height, i, j);
    var k := Idx(width, i, j);
    var sum := a[k].Plus(b[k]);
    var a', b' := a[k := sum], b[k := sum];
    forall i': nat, j': nat | i' < height && j' < width
      ensures Idx(width, i', j') < |a'|
      ensures if i' < i || (i' == i && j' < j + 1) then
                a'[Idx(width, i', j')] == AccumulatedCell(last, upd, Idx(width, i', j')) &&
                b'[Idx(width, i', j')] == a'[Idx(width, i', j')]
              else
                a'[Idx(width, i', j')] == last.cells[Idx(width, i', j')] &&
                b'[Idx(width, i', j')] == upd.cells[Idx(width, i', j')]
    {
      IdxInterior(width, height, i', j');
      if Idx(width, i', j') == k {
        IdxInjective(width, height, i', j', i, j);
      }
    }
  }

  /** Having finished row i is having reached the start of row i + 1. */
  lemma AccumulatedNextRow(last: MotionField, upd: MotionField, a: seq<DbMv>, b: seq<DbMv>, i: nat)
    requires last.Valid() && last.SameShape(upd) && |a| == |b| == |last.cells|
    requires AccumulatedUpTo(last, upd, a, b, i, last.width)
    ensures AccumulatedUpTo(last, upd, a, b, i + 1, 0)
  {
  }

  /** The inner loop of the accumulation pass: row i, left to right. */
  method AccumulateRow(mfLast: MotionField, mfNew: MotionField, a0: seq<DbMv>, b0: seq<DbMv>, i: nat)
    returns (a: seq<DbMv>, b: seq<DbMv>)
    requires mfLast.Valid() && mfLast.SameShape(mfNew) && |a0| == |b0| == |mfLast.cells|
    requires i < mfLast.height
    requires AccumulatedUpTo(mfLast, mfNew, a0, b0, i, 0)
    ensures |a| == |b| == |mfLast.cells|
    ensures AccumulatedUpTo(mfLast, mfNew, a, b, i + 1, 0)
  {
    a, b := a0, b0;
    var j := 0;
    while j < mfLast.width
      invariant 0 <= j <= mfLast.width
      invariant |a| == |b| == |mfLast.cells|
      invariant AccumulatedUpTo(mfLast, mfNew, a, b, i, j)
    {
      AccumulatedStep(mfLast, mfNew, a, b, i, j);
      var k := Idx(mfLast.width, i, j);
      var sum := a[k].Plus(b[k]);
      a := a[k := sum];
      b := b[k := sum];
      j := j + 1;
    }
    AccumulatedNextRow(mfLast, mfNew, a, b, i);
  }

  /** The pass of the refinement loop that prepares the next iteration,
      visiting interior cells row by row. */
  method AccumulateInterior(mfLast: MotionField, mfNew: MotionField) returns (last: MotionField, next: MotionField)
    requires mfLast.Valid() && mfLast.SameShape(mfNew)
    ensures (last, next) == Accumulate(mfLast, mfNew)
  {
    var width, height := mfLast.width, mfLast.height;
    IdxInteriorAll(width, height);
    var a, b := mfLast.cells, mfNew.cells;
    var i := 0;
    while i < height
      invariant 0 <= i <= height
      invariant |a| == |b| == |mfLast.cells|
      invariant AccumulatedUpTo(mfLast, mfNew, a, b, i, 0)
    {
      a, b := AccumulateRow(mfLast, mfNew, a, b, i);
      i := i + 1;
    }
    last := MotionField(width, height, a);
    next := MotionField(width, height, b);
    var r := Accumulate(mfLast, mfNew);
    forall k | 0 <= k < |a|
      ensures a[k] == r.0.cells[k] && b[k] == r.1.cells[k]
    {
      if InInterior(width, height, k) {
        InteriorIsIdx(width, height, k);
        var i', j' := RowOf(width, k) as nat, ColOf(width, k) as nat;
        assert k == Idx(width, i', j');
      }
    }
    assert a == r.0.cells && b == r.1.cells;
  }
}
