/** The per-level refinement loop (`refine_motion_field`) and the update it
    calls once per iteration (`iterate_update_mv`, or `iterate_update_mv_fast`
    in a build with `FAST_OPTICAL_FLOW` set).

    Costs are carried SQUARED: the source compares `sqrt` of sums of squares,
    and for non-negative reals `sqrt` preserves and reflects `>=`
    (`SquaredComparison`), so the loop takes the same branches on the squares.
    The sentinel `DBL_MAX` becomes `DBL_MAX * DBL_MAX`.

    In the source the warped buffers and the derivatives computed by an update
    never reach the solver (the system matrix is not assembled and the right
    hand side stays zero), so the model leaves them out of the update and
    takes the solver's answer for the n-th call of a level as an input. */
module Refine {
  import opened OpflParams
  import opened Arith
  import opened MotionFields
  import opened Reshape

  /** `MAX_ITER_OPTICAL_FLOW + 2 - level` update calls at most; a level past
      the cap makes none. */
  function IterationCap(level: nat): nat
  {
    if level <= MaxIterOpticalFlow + 2 then MaxIterOpticalFlow + 2 - level else 0
  }

  /** The `DBL_MAX` sentinel of `last_cost`, squared. */
  const CostSentinel: real := DblMax * DblMax

  lemma SentinelPositive()
    ensures CostSentinel > 0.0
  {
    PositiveProduct(DblMax, DblMax);
  }

  /** For non-negative norms, comparing the norms and comparing their squares
      agree; so a loop on squared costs branches as the loop on `sqrt`s. */
  lemma SquaredComparison(x: real, y: real)
    requires x >= 0.0 && y >= 0.0
    ensures x >= y <==> x * x >= y * y
  {
    if x >= y {
      assert x * x - y * y == (x - y) * (x + y);
      assert (x - y) * (x + y) >= 0.0;
    } else {
      assert y * y - x * x == (y - x) * (y + x);
      assert (y - x) * (y + x) > 0.0 by { PositiveProduct(y - x, y + x); }
    }
  }

  lemma PositiveProduct(a: real, b: real)
    requires a > 0.0 && b > 0.0
    ensures a * b > 0.0
  {
  }

  /** The solver writes its answer into `mv_vec`, which holds `n` zeros
      beforehand: the answer fills the front and the rest stays zero. */
  function Fit(sol: seq<real>, n: nat): (v: seq<real>)
    ensures |v| == n
    ensures |sol| >= n ==> v == sol[..n]
    ensures |sol| < n ==> v[..|sol|] == sol && forall k :: |sol| <= k < n ==> v[k] == 0.0
  {
    seq(n, k requires 0 <= k < n => if k < |sol| then sol[k] else 0.0)
  }

  /** The part of the solver's answer that lands in `mv_vec`. */
  function Used(sol: seq<real>, n: nat): seq<real>
  {
    if |sol| >= n then sol[..n] else sol
  }

  /** The zero padding adds nothing to the norm: the fitted vector has the
      squared norm of the part of the answer it holds. */
  lemma FitCost(sol: seq<real>, n: nat)
    ensures SumSq(Fit(sol, n)) == SumSq(Used(sol, n))
  {
    var v := Fit(sol, n);
    if |sol| < n {
      SumSqToZeroTail(v, |sol|, n);
      SumSqToSamePrefix(v, sol, |sol|);
    }
  }

  /** The squared L2 norm of the interior of a field, read in the solver's layout. */
  function FieldCost(f: MotionField): real
    requires f.Valid()
  {
    SumSq(Gather(f))
  }

  /** A nonzero entry of the gathered vector comes from a nonzero interior cell. */
  lemma NonzeroEntryCell(f: MotionField, n: nat) returns (i: nat, j: nat)
    requires f.Valid() && n < |Gather(f)| && Gather(f)[n] != 0.0
    ensures i < f.height && j < f.width && f.cells[Idx(f.width, i, j)] != ZeroDbMv
  {
    var wh := Cells(f.width, f.height);
    var m := if n < wh then n else n - wh;
    SlotEncode(f.width, f.height, m);
    i, j := Rem(m, f.height), Quot(m, f.height);
    assert m == RowSlot(f.height, i, j);
  }

  /** A field's cost is zero exactly when every interior cell is the zero vector. */
  lemma FieldCostZeroIff(f: MotionField)
    requires f.Valid()
    ensures FieldCost(f) >= 0.0
    ensures FieldCost(f) == 0.0 <==>
      forall i: nat, j: nat {:trigger Idx(f.width, i, j)} :: i < f.height && j < f.width ==>
        f.cells[Idx(f.width, i, j)] == ZeroDbMv
  {
    var g := Gather(f);
    SumSqZeroIff(g);
    if FieldCost(f) == 0.0 {
      forall i: nat, j: nat | i < f.height && j < f.width
        ensures f.cells[Idx(f.width, i, j)] == ZeroDbMv
      {
        IdxInterior(f.width, f.height, i, j);
        SlotBound(f.width, f.height, i, j);
        assert g[RowSlot(f.height, i, j)] == 0.0;
        assert g[ColSlot(f.width, f.height, i, j)] == 0.0;
      }
    } else {
      var n :| 0 <= n < |g| && g[n] != 0.0;
      var i, j := NonzeroEntryCell(f, n);
    }
  }

  /** A freshly calloc'd field costs nothing, and a field of the same shape
      costs nothing exactly when its interior agrees with it. */
  lemma ZeroFieldCost(f: MotionField)
    requires f.Valid()
    ensures FieldCost(ZeroField(f.width, f.height)) == 0.0
    ensures FieldCost(f) == 0.0 <==>
      forall i: nat, j: nat {:trigger Idx(f.width, i, j)} :: i < f.height && j < f.width ==>
        f.cells[Idx(f.width, i, j)] == ZeroField(f.width, f.height).cells[Idx(f.width, i, j)]
  {
    var z := ZeroField(f.width, f.height);
    IdxInteriorAll(f.width, f.height);
    FieldCostZeroIff(z);
    FieldCostZeroIff(f);
  }

  /** What one update call leaves behind: the new `mf_new` (the increment the
      loop then accumulates) and the squared cost it returns. */
  datatype Update = Update(field: MotionField, cost: real)

  /** Interior cells of `u` are those of the increment; margin cells are
      those of the field the update was given. */
  ghost predicate KeepsMargin(u: MotionField, f: MotionField)
    requires u.Valid() && u.SameShape(f)
  {
    forall k :: 0 <= k < |u.cells| && !InInterior(u.width, u.height, k) ==> u.cells[k] == f.cells[k]
  }

  /** `iterate_update_mv`: the solver's answer, fitted to `2 * W * H`
      entries, is scattered into the interior of `mf_new`, and the cost is
      its squared norm. */
  function ExactUpdate(mfNew: MotionField, sol: seq<real>): (u: Update)
    requires mfNew.Valid()
    ensures u.field.Valid() && u.field.SameShape(mfNew) && KeepsMargin(u.field, mfNew)
    ensures Gather(u.field) == Fit(sol, Unknowns(mfNew.width, mfNew.height))
    ensures u.cost == FieldCost(u.field)
    ensures u.cost == SumSq(Used(sol, Unknowns(mfNew.width, mfNew.height)))
  {
    var vec := Fit(sol, Unknowns(mfNew.width, mfNew.height));
    GatherScatter(mfNew, vec);
    FitCost(sol, Unknowns(mfNew.width, mfNew.height));
    Update(Scatter(mfNew, vec), SumSq(vec))
  }

  /** `iterate_update_mv_fast`: no solve; `mf_new` is left as it is and the
      cost is its own squared norm. */
  function FastUpdate(mfNew: MotionField): (u: Update)
    requires mfNew.Valid()
    ensures u.field == mfNew
    ensures u.cost == FieldCost(mfNew) && u.cost >= 0.0
    ensures u.cost == 0.0 <==>
      forall i: nat, j: nat {:trigger Idx(mfNew.width, i, j)} :: i < mfNew.height && j < mfNew.width ==>
        mfNew.cells[Idx(mfNew.width, i, j)] == ZeroDbMv
  {
    FieldCostZeroIff(mfNew);
    Update(mfNew, FieldCost(mfNew))
  }

  /** The update a level calls: the exact one, except at levels 0 and 1 of a
      build with the fast mode switched on. */
  function UpdateMv(mfNew: MotionField, level: nat, fast: bool, sol: seq<real>): (u: Update)
    requires mfNew.Valid()
    ensures u.field.Valid() && u.field.SameShape(mfNew) && KeepsMargin(u.field, mfNew)
    ensures u.cost == FieldCost(u.field) && u.cost >= 0.0
  {
    FieldCostZeroIff(mfNew);
    var u := if fast && level != 2 then FastUpdate(mfNew) else ExactUpdate(mfNew, sol);
    FieldCostZeroIff(u.field);
    u
  }

  /** The exact update with its loops. */
  method IterateUpdateMv(mfNew: MotionField, sol: seq<real>) returns (r: MotionField, cost: real)
    requires mfNew.Valid()
    ensures Update(r, cost) == ExactUpdate(mfNew, sol)
  {
    var vec := Fit(sol, Unknowns(mfNew.width, mfNew.height));
    r, cost := ReshapeMv(mfNew, vec);
  }

  /** The cost-only update with its loops. */
  method IterateUpdateMvFast(mfNew: MotionField) returns (r: MotionField, cost: real)
    requires mfNew.Valid()
    ensures Update(r, cost) == FastUpdate(mfNew)
  {
    r := mfNew;
    cost := FastCost(mfNew);
  }

  /** One update call as the loop sees it: from the current `mf_new` and the
      number of the call, the increment and its cost. */
  type Updater = (MotionField, nat) -> Update

  /** What the loop relies on from an update: it returns a field of the
      shape it was given, with the same margin, and a non-negative cost. */
  ghost predicate Conforms(upd: Updater)
  {
    forall f: MotionField, n: nat {:trigger upd(f, n)} :: f.Valid() ==>
      upd(f, n).field.Valid() && upd(f, n).field.SameShape(f) &&
      KeepsMargin(upd(f, n).field, f) && upd(f, n).cost >= 0.0
  }

  /** The update calls of one level: call n is answered by `sols(n)`. */
  function LevelUpdater(level: nat, fast: bool, sols: nat -> seq<real>): (upd: Updater)
    ensures Conforms(upd)
    ensures forall f: MotionField, n: nat {:trigger upd(f, n)} :: f.Valid() ==>
      upd(f, n) == UpdateMv(f, level, fast, sols(n))
  {
    var upd := (f: MotionField, n: nat) => if f.Valid() then UpdateMv(f, level, fast, sols(n)) else Update(f, 0.0);
    assert forall f: MotionField, n: nat {:trigger upd(f, n)} :: f.Valid() ==> upd(f, n) == UpdateMv(f, level, fast, sols(n));
    upd
  }

  /** The record of one level's refinement: the final `mf_last` and `mf_new`,
      and per update call, in order, the cost returned, the increment
      accumulated and the annealing scale passed. */
  datatype Outcome = Outcome(last: MotionField, next: MotionField,
                             costs: seq<real>, increments: seq<MotionField>, scales: seq<real>)

  /** The loop from iteration `count` on, with `lastCost` and `scale` as the
      loop variables hold them: update, accumulate, then stop at the first
      cost that is not strictly below the previous one, or once `cap` calls
      have improved. */
  function Run(last: MotionField, next: MotionField, cap: nat, upd: Updater,
               count: nat, lastCost: real, scale: real): (o: Outcome)
    requires last.Valid() && last.SameShape(next) && Conforms(upd)
    decreases cap - count
  {
    if count >= cap then
      Outcome(last, next, [], [], [])
    else
      var u := upd(next, count);
      var acc := Accumulate(last, u.field);
      if u.cost >= lastCost then
        Outcome(acc.0, acc.1, [u.cost], [u.field], [scale])
      else
        var o := Run(acc.0, acc.1, cap, upd, count + 1, u.cost, scale * OpflAnnealFactor);
        Outcome(o.last, o.next, [u.cost] + o.costs, [u.field] + o.increments, [scale] + o.scales)
  }

  /** `refine_motion_field` from its initial state. */
  function Refinement(mfLast: MotionField, mfNew: MotionField, level: nat, fast: bool, sols: nat -> seq<real>): Outcome
    requires mfLast.Valid() && mfLast.SameShape(mfNew)
  {
    Run(mfLast, mfNew, IterationCap(level), LevelUpdater(level, fast, sols), 0, CostSentinel, 1.0)
  }

  /** One turn of the loop, unfolded: the update is called, its increment
      accumulated, and the loop either stops with this call's cost or goes on
      from the accumulated fields. */
  lemma RunStep(last: MotionField, next: MotionField, cap: nat, upd: Updater,
                count: nat, lastCost: real, scale: real, u: Update, acc: (MotionField, MotionField))
    requires last.Valid() && last.SameShape(next) && Conforms(upd)
    requires count < cap && u == upd(next, count) && acc == Accumulate(last, u.field)
    ensures acc.0.Valid() && acc.0.SameShape(acc.1)
    ensures var o := Run(last, next, cap, upd, count, lastCost, scale);
            if u.cost >= lastCost then o.last == acc.0 && o.next == acc.1 && |o.costs| == 1
            else var r := Run(acc.0, acc.1, cap, upd, count + 1, u.cost, scale * OpflAnnealFactor);
                 o.last == r.last && o.next == r.next && |o.costs| == 1 + |r.costs|
  {
  }

  /** `refine_motion_field` as written: a counted loop over calls of the
      update `upd`, with `mf_last`, `mf_new`, `last_cost`, `count` and the
      annealing scale as loop variables. It returns the final fields and the
      number of update calls made. */
  method RefineMotionField(mfLast: MotionField, mfNew: MotionField, level: nat, upd: Updater)
    returns (last: MotionField, next: MotionField, calls: nat)
    requires mfLast.Valid() && mfLast.SameShape(mfNew) && Conforms(upd)
    ensures var o := Run(mfLast, mfNew, IterationCap(level), upd, 0, CostSentinel, 1.0);
            last == o.last && next == o.next && calls == |o.costs|
  {
    var cap := IterationCap(level);
    var count := 0;
    var lastCost := CostSentinel;
    var scale := 1.0;
    last, next := mfLast, mfNew;
    calls := 0;
    ghost var o := Run(mfLast, mfNew, cap, upd, 0, CostSentinel, 1.0);
    while count < cap
      invariant last.Valid() && last.SameShape(next)
      invariant calls == count <= cap
      invariant var r := Run(last, next, cap, upd, count, lastCost, scale);
                r.last == o.last && r.next == o.next && calls + |r.costs| == |o.costs|
      decreases cap - count
    {
      var u := upd(next, count);
      ghost var acc := Accumulate(last, u.field);
      RunStep(last, next, cap, upd, count, lastCost, scale, u, acc);
      calls := calls + 1;
      last, next := AccumulateInterior(last, u.field);
      if u.cost >= lastCost {
        break;
      }
      lastCost := u.cost;
      count := count + 1;
      scale := scale * OpflAnnealFactor;
    }
  }

  /** The loop run with the updates of a level: every call made is
      `UpdateMv` on the `mf_new` of the moment, answered by the solver's
      n-th answer. */
  method RefineLevel(mfLast: MotionField, mfNew: MotionField, level: nat, fast: bool, sols: nat -> seq<real>)
    returns (last: MotionField, next: MotionField, calls: nat)
    requires mfLast.Valid() && mfLast.SameShape(mfNew)
    ensures var o := Refinement(mfLast, mfNew, level, fast, sols);
            last == o.last && next == o.next && calls == |o.costs|
  {
    last, next, calls := RefineMotionField(mfLast, mfNew, level, LevelUpdater(level, fast, sols));
  }

  /** The cost the n-th call was compared against: `start` for the first,
      the previous cost for the others. */
  function PreviousCost(costs: seq<real>, start: real, n: nat): real
    requires n < |costs|
  {
    if n == 0 then start else costs[n - 1]
  }

  /** The exit rule of the loop: every cost but the last is strictly below
      the one before it, and the last either is not or was returned at the
      cap. */
  ghost predicate StopsAtFirstRegression(costs: seq<real>, start: real, cap: nat)
  {
    && (forall n :: 0 <= n < |costs| - 1 ==> costs[n] < PreviousCost(costs, start, n))
    && (0 < |costs| ==> costs[|costs| - 1] >= PreviousCost(costs, start, |costs| - 1) || |costs| == cap)
  }

  /** Sum over the increments of their cell k. */
  function SumAt(incs: seq<MotionField>, k: nat): DbMv
  {
    if |incs| == 0 then ZeroDbMv
    else (if k < |incs[0].cells| then incs[0].cells[k] else ZeroDbMv).Plus(SumAt(incs[1..], k))
  }

  /** The loop makes between one and `cap - count` update calls when it
      starts below the cap, and none otherwise; every record has one entry
      per call, and every cost is non-negative. */
  lemma {:induction false} RunCalls(last: MotionField, next: MotionField, cap: nat, upd: Updater,
                                    count: nat, lastCost: real, scale: real, o: Outcome)
    requires last.Valid() && last.SameShape(next) && Conforms(upd)
    requires o == Run(last, next, cap, upd, count, lastCost, scale)
    ensures |o.costs| == |o.increments| == |o.scales|
    ensures count < cap ==> 1 <= |o.costs| <= cap - count
    ensures count >= cap ==> |o.costs| == 0
    ensures forall n :: 0 <= n < |o.costs| ==> o.costs[n] >= 0.0
    decreases cap - count
  {
    if count < cap {
      var u := upd(next, count);
      var acc := Accumulate(last, u.field);
      if u.cost < lastCost {
        var r := Run(acc.0, acc.1, cap, upd, count + 1, u.cost, scale * OpflAnnealFactor);
        RunCalls(acc.0, acc.1, cap, upd, count + 1, u.cost, scale * OpflAnnealFactor, r);
        assert o.costs == [u.cost] + r.costs;
      } else {
        assert o.costs == [u.cost];
      }
    }
  }

  /** A cost strictly below `start` followed by a record that obeys the
      exit rule from that cost obeys it from `start`, with one more call
      allowed. */
  lemma StopsAfterImprovement(c: real, rest: seq<real>, start: real, cap: nat)
    requires c < start && 1 <= cap && (|rest| == 0 ==> cap == 1)
    requires StopsAtFirstRegression(rest, c, cap - 1)
    ensures StopsAtFirstRegression([c] + rest, start, cap)
  {
    var o := [c] + rest;
    forall n | 0 < n < |o|
      ensures o[n] == rest[n - 1] && PreviousCost(o, start, n) == PreviousCost(rest, c, n - 1)
    {
    }
  }

  /** The exit rule: every cost but the last is strictly below the one
      before it (the first below the starting `last_cost`), and the last is
      not, unless the cap was reached. */
  lemma {:induction false} RunStops(last: MotionField, next: MotionField, cap: nat, upd: Updater,
                                    count: nat, lastCost: real, scale: real, o: Outcome)
    requires last.Valid() && last.SameShape(next) && Conforms(upd)
    requires o == Run(last, next, cap, upd, count, lastCost, scale)
    ensures StopsAtFirstRegression(o.costs, lastCost, if count <= cap then cap - count else 0)
    decreases cap - count
  {
    if count < cap {
      var u := upd(next, count);
      var acc := Accumulate(last, u.field);
      if u.cost < lastCost {
        var r := Run(acc.0, acc.1, cap, upd, count + 1, u.cost, scale * OpflAnnealFactor);
        RunStops(acc.0, acc.1, cap, upd, count + 1, u.cost, scale * OpflAnnealFactor, r);
        RunCalls(acc.0, acc.1, cap, upd, count + 1, u.cost, scale * OpflAnnealFactor, r);
        StopsAfterImprovement(u.cost, r.costs, lastCost, cap - count);
        assert o.costs == [u.cost] + r.costs;
      } else {
        assert o.costs == [u.cost];
      }
    }
  }

  /** Every increment has the shape of the fields, and the annealing scale
      handed to every call is the initial one: the factor is 1, so the
      Laplacian weight `OF_A_SQUARED * scale` stays what it was at the first call. */
  lemma {:induction false} RunScales(last: MotionField, next: MotionField, cap: nat, upd: Updater,
                                     count: nat, lastCost: real, scale: real, o: Outcome)
    requires last.Valid() && last.SameShape(next) && Conforms(upd)
    requires o == Run(last, next, cap, upd, count, lastCost, scale)
    ensures forall n :: 0 <= n < |o.scales| ==> o.scales[n] == scale && OfASquared * o.scales[n] == OfASquared * scale
    ensures forall n :: 0 <= n < |o.increments| ==> o.increments[n].Valid() && o.increments[n].SameShape(last)
    decreases cap - count
  {
    if count < cap {
      var u := upd(next, count);
      var acc := Accumulate(last, u.field);
      if u.cost < lastCost {
        var r := Run(acc.0, acc.1, cap, upd, count + 1, u.cost, scale * OpflAnnealFactor);
        RunScales(acc.0, acc.1, cap, upd, count + 1, u.cost, scale * OpflAnnealFactor, r);
        assert o.scales == [scale] + r.scales && o.increments == [u.field] + r.increments;
      } else {
        assert o.scales == [scale] && o.increments == [u.field];
      }
    }
  }

  /** After the loop, every interior cell of `mf_last` is its initial value
      plus the sum of all increments returned (the last, regressing one
      included), and `mf_new` agrees with it there once a call was made;
      margin cells of both fields are as they were. */
  lemma {:induction false} RunFields(last: MotionField, next: MotionField, cap: nat, upd: Updater,
                                     count: nat, lastCost: real, scale: real, o: Outcome)
    requires last.Valid() && last.SameShape(next) && Conforms(upd)
    requires o == Run(last, next, cap, upd, count, lastCost, scale)
    ensures o.last.Valid() && o.last.SameShape(last) && o.next.SameShape(last)
    ensures forall i: nat, j: nat {:trigger Idx(last.width, i, j)} :: i < last.height && j < last.width ==>
              var k := Idx(last.width, i, j);
              k < |last.cells| &&
              o.last.cells[k] == last.cells[k].Plus(SumAt(o.increments, k)) &&
              (|o.costs| > 0 ==> o.next.cells[k] == o.last.cells[k])
    ensures forall k :: 0 <= k < |last.cells| && !InInterior(last.width, last.height, k) ==>
              o.last.cells[k] == last.cells[k] && o.next.cells[k] == next.cells[k]
    decreases cap - count
  {
    IdxInteriorAll(last.width, last.height);
    if count < cap {
      var u := upd(next, count);
      var acc := Accumulate(last, u.field);
      if u.cost < lastCost {
        var r := Run(acc.0, acc.1, cap, upd, count + 1, u.cost, scale * OpflAnnealFactor);
        RunFields(acc.0, acc.1, cap, upd, count + 1, u.cost, scale * OpflAnnealFactor, r);
        RunCalls(acc.0, acc.1, cap, upd, count + 1, u.cost, scale * OpflAnnealFactor, r);
        assert o.increments == [u.field] + r.increments && o.increments[1..] == r.increments;
        forall i: nat, j: nat | i < last.height && j < last.width
          ensures o.last.cells[Idx(last.width, i, j)] == last.cells[Idx(last.width, i, j)].Plus(SumAt(o.increments, Idx(last.width, i, j)))
          ensures o.next.cells[Idx(last.width, i, j)] == o.last.cells[Idx(last.width, i, j)]
        {
          var k := Idx(last.width, i, j);
          assert SumAt(o.increments, k) == u.field.cells[k].Plus(SumAt(r.increments, k));
          if |r.costs| == 0 {
            assert r.increments == [];
          }
        }
      } else {
        assert o.increments == [u.field] && o.increments[1..] == [];
        forall i: nat, j: nat | i < last.height && j < last.width
          ensures o.last.cells[Idx(last.width, i, j)] == last.cells[Idx(last.width, i, j)].Plus(SumAt(o.increments, Idx(last.width, i, j)))
        {
          var k := Idx(last.width, i, j);
          assert SumAt(o.increments, k) == u.field.cells[k].Plus(SumAt([], k));
        }
      }
    }
  }

  /** The loop at level 0, 1 and 2 makes at least one and at most 5, 4 and
      3 update calls, whatever the solver answers. */
  lemma CallsPerLevel(mfLast: MotionField, mfNew: MotionField, level: nat, fast: bool, sols: nat -> seq<real>)
    requires mfLast.Valid() && mfLast.SameShape(mfNew) && level <= 2
    ensures 1 <= |Refinement(mfLast, mfNew, level, fast, sols).costs| <= 5 - level
  {
    RunCalls(mfLast, mfNew, IterationCap(level), LevelUpdater(level, fast, sols), 0, CostSentinel, 1.0,
             Refinement(mfLast, mfNew, level, fast, sols));
  }

  /** At every level the costs fall strictly from the `DBL_MAX` sentinel
      until the first one that does not (the last), or until the cap; and
      every call sees the Laplacian weight `OF_A_SQUARED`. */
  lemma LevelStops(mfLast: MotionField, mfNew: MotionField, level: nat, fast: bool, sols: nat -> seq<real>)
    requires mfLast.Valid() && mfLast.SameShape(mfNew)
    ensures var o := Refinement(mfLast, mfNew, level, fast, sols);
            && StopsAtFirstRegression(o.costs, CostSentinel, IterationCap(level))
            && |o.scales| == |o.costs|
            && forall n :: 0 <= n < |o.scales| ==> OfASquared * o.scales[n] == OfASquared
  {
    var o := Refinement(mfLast, mfNew, level, fast, sols);
    var upd := LevelUpdater(level, fast, sols);
    RunStops(mfLast, mfNew, IterationCap(level), upd, 0, CostSentinel, 1.0, o);
    RunCalls(mfLast, mfNew, IterationCap(level), upd, 0, CostSentinel, 1.0, o);
    RunScales(mfLast, mfNew, IterationCap(level), upd, 0, CostSentinel, 1.0, o);
  }

  /** At every level the final `mf_last` is the initial one plus every
      increment returned, on each interior cell; `mf_new` equals it there;
      the margins of both are untouched. */
  lemma LevelFields(mfLast: MotionField, mfNew: MotionField, level: nat, fast: bool, sols: nat -> seq<real>)
    requires mfLast.Valid() && mfLast.SameShape(mfNew) && level <= 2
    ensures var o := Refinement(mfLast, mfNew, level, fast, sols);
            && o.last.SameShape(mfLast) && o.next.SameShape(mfLast)
            && (forall i: nat, j: nat {:trigger Idx(mfLast.width, i, j)} :: i < mfLast.height && j < mfLast.width ==>
                  var k := Idx(mfLast.width, i, j);
                  k < |mfLast.cells| &&
                  o.last.cells[k] == mfLast.cells[k].Plus(SumAt(o.increments, k)) &&
                  o.next.cells[k] == o.last.cells[k])
            && (forall k :: 0 <= k < |mfLast.cells| && !InInterior(mfLast.width, mfLast.height, k) ==>
                  o.last.cells[k] == mfLast.cells[k] && o.next.cells[k] == mfNew.cells[k])
  {
    var o := Refinement(mfLast, mfNew, level, fast, sols);
    var upd := LevelUpdater(level, fast, sols);
    RunFields(mfLast, mfNew, IterationCap(level), upd, 0, CostSentinel, 1.0, o);
    RunCalls(mfLast, mfNew, IterationCap(level), upd, 0, CostSentinel, 1.0, o);
  }

  /** In a build with the fast mode on, levels 0 and 1 started from an
      all-zero `mf_new` make exactly two calls and leave the interior of
      `mf_last` DOUBLED: the first call's cost is 0, which is below the
      sentinel, and accumulating copies `mf_last` into `mf_new`; the second
      call returns `mf_new` itself as increment and a cost that cannot be
      below 0. */
  lemma FastModeDoubles(mfLast: MotionField, mfNew: MotionField, level: nat, sols: nat -> seq<real>)
    requires mfLast.Valid() && level < 2
    requires mfNew == ZeroField(mfLast.width, mfLast.height)
    ensures var o := Refinement(mfLast, mfNew, level, true, sols);
            && |o.costs| == 2 && o.costs[0] == 0.0 && o.last.SameShape(mfLast)
            && forall i: nat, j: nat {:trigger Idx(mfLast.width, i, j)} :: i < mfLast.height && j < mfLast.width ==>
                 Idx(mfLast.width, i, j) < |mfLast.cells| &&
                 o.last.cells[Idx(mfLast.width, i, j)] == mfLast.cells[Idx(mfLast.width, i, j)].Plus(mfLast.cells[Idx(mfLast.width, i, j)])
  {
    var w, h := mfLast.width, mfLast.height;
    var upd := LevelUpdater(level, true, sols);
    var cap := IterationCap(level);
    IdxInteriorAll(w, h);
    FieldCostZeroIff(mfNew);
    var u1 := upd(mfNew, 0);
    assert u1 == FastUpdate(mfNew);
    assert u1.cost == 0.0;
    var a1 := Accumulate(mfLast, u1.field);
    var u2 := upd(a1.1, 1);
    assert u2 == FastUpdate(a1.1);
    var o2 := Run(a1.0, a1.1, cap, upd, 1, 0.0, 1.0);
    assert o2.costs == [u2.cost];
    var a2 := Accumulate(a1.0, u2.field);
    assert o2.last == a2.0;
    var o := Refinement(mfLast, mfNew, level, true, sols);
    assert o == Run(mfLast, mfNew, cap, upd, 0, CostSentinel, 1.0);
    SentinelPositive();
    assert u1.cost < CostSentinel;
    assert o == Outcome(o2.last, o2.next, [u1.cost] + o2.costs, [u1.field] + o2.increments, [1.0] + o2.scales);
    assert o.last == a2.0;
    forall i: nat, j: nat | i < h && j < w
      ensures o.last.cells[Idx(w, i, j)] == mfLast.cells[Idx(w, i, j)].Plus(mfLast.cells[Idx(w, i, j)])
    {
      var k := Idx(w, i, j);
      assert a1.0.cells[k] == mfLast.cells[k].Plus(ZeroDbMv);
    }
  }
}
