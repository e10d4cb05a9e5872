/** The bridge between the solver's flat unknown vector and a strided motion
    field. The vector holds `2 * width * height` entries: first every row
    displacement, then every column displacement, each block laid out
    column-major (entry `j * height + i` belongs to interior cell (i, j)). */
module Reshape {
  import opened OpflParams
  import opened Arith
  import opened MotionFields

  /** Number of interior cells, `width * height`. */
  function Cells(width: nat, height: nat): nat
  {
    Mul(width, height)
  }

  /** Length of the solver's vector, `2 * width * height`. */
  function Unknowns(width: nat, height: nat): nat
  {
    2 * Cells(width, height)
  }

  /** Position of the row component of interior cell (i, j) in the vector. */
  function RowSlot(height: nat, i: nat, j: nat): nat
  {
    Mul(j, height) + i
  }

  /** Position of the column component of interior cell (i, j) in the vector. */
  function ColSlot(width: nat, height: nat, i: nat, j: nat): nat
  {
    Cells(width, height) + RowSlot(height, i, j)
  }

  /** Column-major slots of a `width * height` grid stay below `width * height`. */
  lemma SlotBound(width: nat, height: nat, i: nat, j: nat)
    requires i < height && j < width
    ensures RowSlot(height, i, j) < Cells(width, height)
  {
    MulMono(j + 1, width, height);
  }

  /** A slot decodes back to its cell: row `n % height`, column `n / height`. */
  lemma SlotDecode(width: nat, height: nat, i: nat, j: nat)
    requires i < height && j < width
    ensures Rem(RowSlot(height, i, j), height) == i && Quot(RowSlot(height, i, j), height) == j
  {
    QuotRemUnique(RowSlot(height, i, j), height, j, i);
  }

  /** Every position below `width * height` is the slot of some interior cell. */
  lemma SlotEncode(width: nat, height: nat, n: nat)
    requires n < Cells(width, height)
    ensures height > 0 && Rem(n, height) < height && Quot(n, height) < width
    ensures n == RowSlot(height, Rem(n, height), Quot(n, height))
  {
    if height == 0 {
      MulZeroRight(width);
      assert false;
    }
    QuotRemSplit(n, height);
    if Quot(n, height) >= width {
      MulMono(width, Quot(n, height), height);
      assert false;
    }
  }

  /** The reshape indices of the source: all distinct, row slots in
      `[0, W*H)`, column slots in `[W*H, 2*W*H)`. */
  lemma SlotsDistinct(width: nat, height: nat, i1: nat, j1: nat, i2: nat, j2: nat)
    requires i1 < height && j1 < width && i2 < height && j2 < width
    ensures RowSlot(height, i1, j1) < Cells(width, height) <= ColSlot(width, height, i1, j1) < Unknowns(width, height)
    ensures RowSlot(height, i1, j1) == RowSlot(height, i2, j2) ==> i1 == i2 && j1 == j2
    ensures ColSlot(width, height, i1, j1) == ColSlot(width, height, i2, j2) ==> i1 == i2 && j1 == j2
    ensures RowSlot(height, i1, j1) != ColSlot(width, height, i2, j2)
  {
    SlotBound(width, height, i1, j1);
    SlotBound(width, height, i2, j2);
    SlotDecode(width, height, i1, j1);
    SlotDecode(width, height, i2, j2);
  }

  /** `x * x`, the term the cost loops add. */
  function Square(x: real): real
  {
    x * x
  }

  lemma NonnegativeSquare(x: real)
    ensures Square(x) >= 0.0
  {
  }

  /** Sum of the squares of the first n entries, accumulated from the front
      as the source's loops do. */
  function SumSqTo(v: seq<real>, n: nat): (r: real)
    requires n <= |v|
    ensures r >= 0.0
  {
    if n == 0 then 0.0 else SumSqTo(v, n - 1) + Square(v[n - 1])
  }

  /** One more entry adds its square. */
  lemma SumSqToNext(v: seq<real>, n: nat, x: real)
    requires n < |v| && x == v[n]
    ensures SumSqTo(v, n + 1) == SumSqTo(v, n) + x * x
  {
  }

  /** Zero entries from position m to n add nothing. */
  lemma {:induction false} SumSqToZeroTail(v: seq<real>, m: nat, n: nat)
    requires m <= n <= |v| && forall k :: m <= k < n ==> v[k] == 0.0
    ensures SumSqTo(v, n) == SumSqTo(v, m)
  {
    if n > m {
      SumSqToZeroTail(v, m, n - 1);
    }
  }

  /** The sum over a prefix depends on that prefix only. */
  lemma {:induction false} SumSqToSamePrefix(v: seq<real>, u: seq<real>, n: nat)
    requires n <= |v| && n <= |u| && v[..n] == u[..n]
    ensures SumSqTo(v, n) == SumSqTo(u, n)
  {
    if n > 0 {
      assert v[..n - 1] == v[..n][..n - 1] && u[..n - 1] == u[..n][..n - 1];
      assert v[n - 1] == v[..n][n - 1] && u[n - 1] == u[..n][n - 1];
      SumSqToSamePrefix(v, u, n - 1);
    }
  }

  /** The squared L2 norm of `v`. */
  function SumSq(v: seq<real>): real
  {
    SumSqTo(v, |v|)
  }

  /** A product vanishes only if a factor does. */
  lemma ZeroProduct(x: real, y: real)
    requires x * y == 0.0
    ensures x == 0.0 || y == 0.0
  {
  }

  /** Only zero squares to zero. */
  lemma SquareZero(x: real)
    requires Square(x) == 0.0
    ensures x == 0.0
  {
    ZeroProduct(x, x);
  }

  /** A prefix sum of squares vanishes exactly when the prefix is zero. */
  lemma {:induction false} SumSqToZeroIff(v: seq<real>, n: nat)
    requires n <= |v|
    ensures SumSqTo(v, n) == 0.0 <==> forall k :: 0 <= k < n ==> v[k] == 0.0
  {
    if n > 0 {
      var x := v[n - 1];
      SumSqToZeroIff(v, n - 1);
      assert SumSqTo(v, n) == SumSqTo(v, n - 1) + Square(x);
      if SumSqTo(v, n) == 0.0 {
        NonnegativeSquare(x);
        assert Square(x) == 0.0;
        SquareZero(x);
        forall k | 0 <= k < n ensures v[k] == 0.0 {
          if k < n - 1 {
            assert v[k] == 0.0;
          }
        }
      }
    }
  }

  /** The squared norm is non-negative and vanishes exactly on the zero
      vector; so the cost of an update is zero iff the update is. */
  lemma SumSqZeroIff(v: seq<real>)
    ensures SumSq(v) >= 0.0
    ensures SumSq(v) == 0.0 <==> forall k :: 0 <= k < |v| ==> v[k] == 0.0
  {
    SumSqToZeroIff(v, |v|);
  }

  function ScatteredCell(f: MotionField, vec: seq<real>, k: nat): DbMv
    requires f.Valid() && |vec| == Unknowns(f.width, f.height) && k < |f.cells|
  {
    if InInterior(f.width, f.height, k) then
      var i, j := RowOf(f.width, k) as nat, ColOf(f.width, k) as nat;
      SlotBound(f.width, f.height, i, j);
      DbMv(vec[RowSlot(f.height, i, j)], vec[ColSlot(f.width, f.height, i, j)])
    else
      f.cells[k]
  }

  /** The solution vector written into the interior of `mf_new`: cell (i, j)
      receives row component `vec[j*H + i]` and column component
      `vec[W*H + j*H + i]`; margin cells keep their values. */
  function Scatter(f: MotionField, vec: seq<real>): (r: MotionField)
    requires f.Valid() && |vec| == Unknowns(f.width, f.height)
    ensures r.Valid() && r.SameShape(f)
    ensures forall i: nat, j: nat {:trigger Idx(f.width, i, j)} :: i < f.height && j < f.width ==>
      Idx(f.width, i, j) < |r.cells| && RowSlot(f.height, i, j) < Cells(f.width, f.height) &&
      r.cells[Idx(f.width, i, j)] == DbMv(vec[RowSlot(f.height, i, j)], vec[ColSlot(f.width, f.height, i, j)])
    ensures forall k :: 0 <= k < |f.cells| && !InInterior(f.width, f.height, k) ==> r.cells[k] == f.cells[k]
  {
    IdxInteriorAll(f.width, f.height);
    forall i: nat, j: nat | i < f.height && j < f.width ensures RowSlot(f.height, i, j) < Cells(f.width, f.height) {
      SlotBound(f.width, f.height, i, j);
    }
    MotionField(f.width, f.height, seq(|f.cells|, k requires 0 <= k < |f.cells| => ScatteredCell(f, vec, k)))
  }

  function GatheredEntry(f: MotionField, n: nat): real
    requires f.Valid() && n < Unknowns(f.width, f.height)
  {
    var wh := Cells(f.width, f.height);
    var m := if n < wh then n else n - wh;
    SlotEncode(f.width, f.height, m);
    IdxInterior(f.width, f.height, Rem(m, f.height), Quot(m, f.height));
    var c := f.cells[Idx(f.width, Rem(m, f.height), Quot(m, f.height))];
    if n < wh then c.row else c.col
  }

  /** The interior of a field read out in the solver's layout. */
  function Gather(f: MotionField): (v: seq<real>)
    requires f.Valid()
    ensures |v| == Unknowns(f.width, f.height)
    ensures forall i: nat, j: nat {:trigger Idx(f.width, i, j)} :: i < f.height && j < f.width ==>
      Idx(f.width, i, j) < |f.cells| && ColSlot(f.width, f.height, i, j) < |v| &&
      v[RowSlot(f.height, i, j)] == f.cells[Idx(f.width, i, j)].row &&
      v[ColSlot(f.width, f.height, i, j)] == f.cells[Idx(f.width, i, j)].col
  {
    var n := Unknowns(f.width, f.height);
    var v := seq(n, k requires 0 <= k < n => GatheredEntry(f, k));
    forall i: nat, j: nat | i < f.height && j < f.width
      ensures Idx(f.width, i, j) < |f.cells| && ColSlot(f.width, f.height, i, j) < |v|
      ensures v[RowSlot(f.height, i, j)] == f.cells[Idx(f.width, i, j)].row
      ensures v[ColSlot(f.width, f.height, i, j)] == f.cells[Idx(f.width, i, j)].col
    {
      IdxInterior(f.width, f.height, i, j);
      SlotBound(f.width, f.height, i, j);
      SlotDecode(f.width, f.height, i, j);
    }
    v
  }

  /** Reading back what was scattered returns the solver's vector. */
  lemma GatherScatter(f: MotionField, vec: seq<real>)
    requires f.Valid() && |vec| == Unknowns(f.width, f.height)
    ensures Gather(Scatter(f, vec)) == vec
  {
    var s := Scatter(f, vec);
    var g := Gather(s);
    var wh := Cells(f.width, f.height);
    forall n | 0 <= n < |vec| ensures g[n] == vec[n] {
      var m := if n < wh then n else n - wh;
      SlotEncode(f.width, f.height, m);
      var i, j := Rem(m, f.height), Quot(m, f.height);
      assert m == RowSlot(f.height, i, j);
      var c := s.cells[Idx(f.width, i, j)];
      assert c == DbMv(vec[RowSlot(f.height, i, j)], vec[ColSlot(f.width, f.height, i, j)]);
      if n < wh {
        assert g[n] == c.row;
      } else {
        assert n == ColSlot(f.width, f.height, i, j);
        assert g[n] == c.col;
      }
    }
  }

  /** Scattering a field's own interior changes nothing. */
  lemma ScatterGather(f: MotionField)
    requires f.Valid()
    ensures Scatter(f, Gather(f)) == f
  {
    var r := Scatter(f, Gather(f));
    forall k | 0 <= k < |f.cells| ensures r.cells[k] == f.cells[k] {
      if InInterior(f.width, f.height, k) {
        InteriorIsIdx(f.width, f.height, k);
      }
    }
    assert r.cells == f.cells;
  }

  /** The row (`isCol == false`) or column component of a vector. */
  function Component(v: DbMv, isCol: bool): real
  {
    if isCol then v.col else v.row
  }

  function WithComponent(v: DbMv, isCol: bool, x: real): DbMv
  {
    if isCol then DbMv(v.row, x) else DbMv(x, v.col)
  }

  /** Where the block of one component starts in the solver's vector. */
  function Base(width: nat, height: nat, isCol: bool): nat
  {
    if isCol then Cells(width, height) else 0
  }

  /** What one column-major pass has written once it reaches cell (i, j):
      cells of earlier grid columns, and of column j above row i, carry
      `vec[Base + j'*H + i']` in component `isCol`; all others are as in `a0`. */
  ghost predicate ColumnsWritten(width: nat, height: nat, a0: seq<DbMv>, a: seq<DbMv>, vec: seq<real>, isCol: bool,
                                 j: nat, i: nat)
    requires |a0| == |a| == BufferSize(width, height) && |vec| == Unknowns(width, height)
  {
    forall i': nat, j': nat {:trigger Idx(width, i', j')} :: i' < height && j' < width ==>
      Idx(width, i', j') < |a| && Base(width, height, isCol) + RowSlot(height, i', j') < |vec| &&
      a[Idx(width, i', j')] == (if j' < j || (j' == j && i' < i)
                                then WithComponent(a0[Idx(width, i', j')], isCol, vec[Base(width, height, isCol) + RowSlot(height, i', j')])
                                else a0[Idx(width, i', j')])
  }

  /** Writing cell (i, j) extends what a pass has written by one cell. */
  lemma ColumnsWrittenStep(width: nat, height: nat, a0: seq<DbMv>, a: seq<DbMv>, vec: seq<real>, isCol: bool,
                           j: nat, i: nat)
    requires i < height && j < width
    requires |a0| == |a| == BufferSize(width, height) && |vec| == Unknowns(width, height)
    requires ColumnsWritten(width, height, a0, a, vec, isCol, j, i)
    requires forall k :: 0 <= k < |a| && !InInterior(width, height, k) ==> a[k] == a0[k]
    ensures Idx(width, i, j) < |a| && Base(width, height, isCol) + RowSlot(height, i, j) < |vec|
    ensures var k := Idx(width, i, j);
            var a' := a[k := WithComponent(a[k], isCol, vec[Base(width, height, isCol) + RowSlot(height, i, j)])];
            ColumnsWritten(width, height, a0, a', vec, isCol, j, i + 1) &&
            forall k' :: 0 <= k' < |a'| && !InInterior(width, height, k') ==> a'[k'] == a0[k']
  {
    IdxInterior(width, height, i, j);
    SlotBound(width, height, i, j);
    var k := Idx(width, i, j);
    var base := Base(width, height, isCol);
    var a' := a[k := WithComponent(a[k], isCol, vec[base + RowSlot(height, i, j)])];
    forall i': nat, j': nat | i' < height && j' < width
      ensures Idx(width, i', j') < |a'| && base + RowSlot(height, i', j') < |vec|
      ensures a'[Idx(width, i', j')] == (if j' < j || (j' == j && i' < i + 1)
                                        then WithComponent(a0[Idx(width, i', j')], isCol, vec[base + RowSlot(height, i', j')])
                                        else a0[Idx(width, i', j')])
    {
      IdxInterior(width, height, i', j');
      SlotBound(width, height, i', j');
      if Idx(width, i', j') == k {
        IdxInjective(width, height, i', j', i, j);
      }
    }
  }

  /** The inner loop of one reshape pass: grid column j, top to bottom. */
  method ScatterColumn(width: nat, height: nat, a0: seq<DbMv>, a1: seq<DbMv>, vec: seq<real>, isCol: bool,
                       j: nat, cost0: real)
    returns (a: seq<DbMv>, cost: real)
    requires j < width
    requires |a0| == |a1| == BufferSize(width, height) && |vec| == Unknowns(width, height)
    requires ColumnsWritten(width, height, a0, a1, vec, isCol, j, 0)
    requires forall k :: 0 <= k < |a1| && !InInterior(width, height, k) ==> a1[k] == a0[k]
    requires Mul(j + 1, height) <= Cells(width, height)
    requires cost0 == SumSqTo(vec, Base(width, height, isCol) + Mul(j, height))
    ensures |a| == |a0|
    ensures ColumnsWritten(width, height, a0, a, vec, isCol, j + 1, 0)
    ensures forall k :: 0 <= k < |a| && !InInterior(width, height, k) ==> a[k] == a0[k]
    ensures cost == SumSqTo(vec, Base(width, height, isCol) + Mul(j + 1, height))
  {
    var base := Base(width, height, isCol);
    a, cost := a1, cost0;
    var i := 0;
    while i < height
      invariant 0 <= i <= height
      invariant |a| == |a0|
      invariant ColumnsWritten(width, height, a0, a, vec, isCol, j, i)
      invariant forall k :: 0 <= k < |a| && !InInterior(width, height, k) ==> a[k] == a0[k]
      invariant cost == SumSqTo(vec, base + Mul(j, height) + i)
    {
      ColumnsWrittenStep(width, height, a0, a, vec, isCol, j, i);
      var n := base + RowSlot(height, i, j);
      var k := Idx(width, i, j);
      a := a[k := WithComponent(a[k], isCol, vec[n])];
      SumSqToNext(vec, n, vec[n]);
      cost := cost + vec[n] * vec[n];
      i := i + 1;
    }
    ColumnsWrittenNext(width, height, a0, a, vec, isCol, j);
  }

  /** Having written all of grid column j is having reached the top of column j + 1. */
  lemma ColumnsWrittenNext(width: nat, height: nat, a0: seq<DbMv>, a: seq<DbMv>, vec: seq<real>, isCol: bool, j: nat)
    requires |a0| == |a| == BufferSize(width, height) && |vec| == Unknowns(width, height)
    requires ColumnsWritten(width, height, a0, a, vec, isCol, j, height)
    ensures ColumnsWritten(width, height, a0, a, vec, isCol, j + 1, 0)
  {
  }

  /** One column-major pass of the reshape: component `isCol` of every
      interior cell (i, j) receives `vec[Base + j*H + i]`, and the squares of
      the block are added to the running cost. */
  method ScatterComponent(width: nat, height: nat, a0: seq<DbMv>, vec: seq<real>, isCol: bool, cost0: real)
    returns (a: seq<DbMv>, cost: real)
    requires |a0| == BufferSize(width, height) && |vec| == Unknowns(width, height)
    requires cost0 == SumSqTo(vec, Base(width, height, isCol))
    ensures |a| == |a0|
    ensures cost == SumSqTo(vec, Base(width, height, isCol) + Cells(width, height))
    ensures forall i: nat, j: nat {:trigger Idx(width, i, j)} :: i < height && j < width ==>
      Idx(width, i, j) < |a| && Base(width, height, isCol) + RowSlot(height, i, j) < |vec| &&
      a[Idx(width, i, j)] == WithComponent(a0[Idx(width, i, j)], isCol, vec[Base(width, height, isCol) + RowSlot(height, i, j)])
    ensures forall k :: 0 <= k < |a| && !InInterior(width, height, k) ==> a[k] == a0[k]
  {
    IdxInteriorAll(width, height);
    forall i: nat, j: nat | i < height && j < width ensures RowSlot(height, i, j) < Cells(width, height) {
      SlotBound(width, height, i, j);
    }
    a := a0;
    cost := cost0;
    var j := 0;
    while j < width
      invariant 0 <= j <= width
      invariant |a| == |a0|
      invariant ColumnsWritten(width, height, a0, a, vec, isCol, j, 0)
      invariant forall k :: 0 <= k < |a| && !InInterior(width, height, k) ==> a[k] == a0[k]
      invariant Mul(j, height) <= Cells(width, height)
      invariant cost == SumSqTo(vec, Base(width, height, isCol) + Mul(j, height))
    {
      MulMono(j + 1, width, height);
      a, cost := ScatterColumn(width, height, a0, a, vec, isCol, j, cost);
      j := j + 1;
    }
    assert ColumnsWritten(width, height, a0, a, vec, isCol, width, 0);
  }

  /** The reshape and cost of the exact update: the solution is written
      into `mf_new` column by column, row components first, and the cost
      accumulates the square of every entry in the same order. */
  method ReshapeMv(mfNew: MotionField, vec: seq<real>) returns (r: MotionField, cost: real)
    requires mfNew.Valid() && |vec| == Unknowns(mfNew.width, mfNew.height)
    ensures r == Scatter(mfNew, vec)
    ensures cost == SumSq(vec)
  {
    var width, height := mfNew.width, mfNew.height;
    var rows, c1 := ScatterComponent(width, height, mfNew.cells, vec, false, 0.0);
    var a, c2 := ScatterComponent(width, height, rows, vec, true, c1);
    cost := c2;
    r := MotionField(width, height, a);
    var s := Scatter(mfNew, vec);
    forall k | 0 <= k < |a| ensures a[k] == s.cells[k] {
      if InInterior(width, height, k) {
        InteriorIsIdx(width, height, k);
      }
    }
    assert a == s.cells;
  }

  /** The cost-only pass reads component `isCol` of interior cell (i, j) at
      position `Base + j*H + i` of the solver's layout `g`. */
  ghost predicate LaidOut(f: MotionField, g: seq<real>, isCol: bool)
    requires f.Valid() && |g| == Unknowns(f.width, f.height)
  {
    forall i: nat, j: nat {:trigger Idx(f.width, i, j)} :: i < f.height && j < f.width ==>
      Idx(f.width, i, j) < |f.cells| && Base(f.width, f.height, isCol) + RowSlot(f.height, i, j) < |g| &&
      g[Base(f.width, f.height, isCol) + RowSlot(f.height, i, j)] == Component(f.cells[Idx(f.width, i, j)], isCol)
  }

  /** Both components of a field sit where the cost-only passes read them. */
  lemma GatherLaidOut(f: MotionField)
    requires f.Valid()
    ensures LaidOut(f, Gather(f), false) && LaidOut(f, Gather(f), true)
  {
    var g := Gather(f);
    forall i: nat, j: nat | i < f.height && j < f.width
      ensures Idx(f.width, i, j) < |f.cells| && Cells(f.width, f.height) + RowSlot(f.height, i, j) < |g|
      ensures g[RowSlot(f.height, i, j)] == f.cells[Idx(f.width, i, j)].row
      ensures g[Cells(f.width, f.height) + RowSlot(f.height, i, j)] == f.cells[Idx(f.width, i, j)].col
    {
      assert ColSlot(f.width, f.height, i, j) == Cells(f.width, f.height) + RowSlot(f.height, i, j);
    }
  }

  /** The inner loop of one cost-only pass: grid column j, top to bottom. */
  method SquareColumn(f: MotionField, ghost g: seq<real>, isCol: bool, j: nat, cost0: real) returns (cost: real)
    requires f.Valid() && j < f.width && |g| == Unknowns(f.width, f.height) && LaidOut(f, g, isCol)
    requires Mul(j + 1, f.height) <= Cells(f.width, f.height)
    requires cost0 == SumSqTo(g, Base(f.width, f.height, isCol) + Mul(j, f.height))
    ensures cost == SumSqTo(g, Base(f.width, f.height, isCol) + Mul(j + 1, f.height))
  {
    var width, height := f.width, f.height;
    var base := Base(width, height, isCol);
    MulMono(j + 1, width, height);
    cost := cost0;
    var i := 0;
    while i < height
      invariant 0 <= i <= height
      invariant cost == SumSqTo(g, base + Mul(j, height) + i)
    {
      var x := Component(f.cells[Idx(width, i, j)], isCol);
      SumSqToNext(g, base + Mul(j, height) + i, x);
      cost := cost + x * x;
      i := i + 1;
    }
  }

  /** One column-major pass of the cost-only update: the squares of
      component `isCol` of every interior cell are added to the cost. */
  method SquareComponent(f: MotionField, ghost g: seq<real>, isCol: bool, cost0: real) returns (cost: real)
    requires f.Valid() && |g| == Unknowns(f.width, f.height) && LaidOut(f, g, isCol)
    requires cost0 == SumSqTo(g, Base(f.width, f.height, isCol))
    ensures cost == SumSqTo(g, Base(f.width, f.height, isCol) + Cells(f.width, f.height))
  {
    cost := cost0;
    var j := 0;
    while j < f.width
      invariant 0 <= j <= f.width
      invariant Mul(j, f.height) <= Cells(f.width, f.height)
      invariant cost == SumSqTo(g, Base(f.width, f.height, isCol) + Mul(j, f.height))
    {
      MulMono(j + 1, f.width, f.height);
      cost := SquareColumn(f, g, isCol, j, cost);
      j := j + 1;
    }
  }

  /** The row block starts the vector, the column block follows it and
      ends it. */
  lemma BlocksAdjoin(width: nat, height: nat)
    ensures Base(width, height, false) == 0
    ensures Base(width, height, false) + Cells(width, height) == Base(width, height, true)
    ensures Base(width, height, true) + Cells(width, height) == Unknowns(width, height)
  {
  }

  /** The cost of the cost-only update: the squared norm of the interior of
      `mf_new` in the solver's layout. The field itself is not touched. */
  method FastCost(mfNew: MotionField) returns (cost: real)
    requires mfNew.Valid()
    ensures cost == SumSq(Gather(mfNew))
  {
    ghost var g := Gather(mfNew);
    GatherLaidOut(mfNew);
    BlocksAdjoin(mfNew.width, mfNew.height);
    var rows := SquareComponent(mfNew, g, false, 0.0);
    cost := SquareComponent(mfNew, g, true, rows);
  }
}
