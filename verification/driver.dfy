/** The index and size arithmetic of the driver `optical_flow_get_ref`: the
    per-level allocation loop, the all-zero motion-vector array used when no
    motion vectors are passed in, the strides handed to the collaborators,
    and the order in which levels are refined and upscaled. The collaborators
    themselves (`create_motion_field`, the median filter, border padding,
    `upscale_mv_by_2`, `interp_optical_flow`) are not part of this model. The
    schedule records each refinement with its level's geometry (the padding
    and median filter after it keep that geometry) and each `upscale_mv_by_2`
    with both of its strides; of `create_motion_field` only the stride it is
    handed is modelled (`InitStride`), and `interp_optical_flow` is not
    placed at all. */
module Driver {
  import opened OpflParams
  import opened Arith
  import opened MotionFields

  /** Number of pyramid levels the driver allocates and refines. */
  const Levels: nat := 3

  /** The allocation loop: for l = 0, 1, 2 three fields of
      `(wid + 64) * (hgt + 64)` cells are allocated, then `wid` and `hgt` are
      halved. Returns, per level, the dimensions the loop held and the number
      of cells allocated. */
  method AllocateLevels(width: nat, height: nat) returns (wids: seq<nat>, hgts: seq<nat>, sizes: seq<nat>)
    ensures |wids| == |hgts| == |sizes| == Levels
    ensures forall l :: 0 <= l < Levels ==> wids[l] == Shr(width, l) && hgts[l] == Shr(height, l)
    ensures forall l :: 0 <= l < Levels ==>
      sizes[l] == (Shr(width, l) + 2 * AvgMfBorder) * (Shr(height, l) + 2 * AvgMfBorder)
  {
    var wid, hgt := width, height;
    wids, hgts, sizes := [], [], [];
    var l := 0;
    while l < Levels
      invariant 0 <= l <= Levels
      invariant wid == Shr(width, l) && hgt == Shr(height, l)
      invariant |wids| == |hgts| == |sizes| == l
      invariant forall l' :: 0 <= l' < l ==> wids[l'] == Shr(width, l') && hgts[l'] == Shr(height, l')
      invariant forall l' :: 0 <= l' < l ==>
        sizes[l'] == (Shr(width, l') + 2 * AvgMfBorder) * (Shr(height, l') + 2 * AvgMfBorder)
    {
      BufferSizeIsProduct(wid, hgt);
      wids, hgts, sizes := wids + [wid], hgts + [hgt], sizes + [BufferSize(wid, hgt)];
      HalveShr(width, l);
      HalveShr(height, l);
      wid := wid / 2;
      hgt := hgt / 2;
      l := l + 1;
    }
  }

  /** Every interior cell (i, j) of level l, reached as
      `(i + 32) * mvstr + (j + 32)` with `mvstr = (width >> l) + 64`, lies
      inside the level's allocation and is the cell the field functions
      address. */
  lemma LevelInteriorInBuffer(width: nat, height: nat, l: nat, i: nat, j: nat)
    requires i < Shr(height, l) && j < Shr(width, l)
    ensures var wid, hgt := Shr(width, l), Shr(height, l);
      (i + AvgMfBorder) * (wid + 2 * AvgMfBorder) + (j + AvgMfBorder) == Idx(wid, i, j) &&
      Idx(wid, i, j) < (wid + 2 * AvgMfBorder) * (hgt + 2 * AvgMfBorder)
  {
    var wid, hgt := Shr(width, l), Shr(height, l);
    IdxInterior(wid, hgt, i, j);
    IdxIsProduct(wid, i, j);
    BufferSizeIsProduct(wid, hgt);
  }

  /** Entries of the zero motion-vector array: `width / 4 * height / 4`,
      which C evaluates as `((width / 4) * height) / 4`. */
  function FallbackCount(width: nat, height: nat): nat
  {
    Mul(width / 4, height) / 4
  }

  /** The fallback has at least one entry per 4x4 block, and exactly one
      when the height is a multiple of 4. */
  lemma FallbackCoversBlocks(width: nat, height: nat)
    ensures FallbackCount(width, height) >= Mul(width / 4, height / 4)
    ensures height % 4 == 0 ==> FallbackCount(width, height) == Mul(width / 4, height / 4)
  {
    var a, q, r := width / 4, height / 4, height % 4;
    assert Mul(a, height) == 4 * Mul(a, q) + Mul(a, r) by {
      MulIsProduct(a, height);
      MulIsProduct(a, q);
      MulIsProduct(a, r);
      assert a * height == a * (4 * q + r);
    }
    if r == 0 {
      MulZeroRight(a);
    }
  }

  /** The motion vectors one side uses: the ones passed in, or a freshly
      allocated array of `FallbackCount` zero vectors; `owned` records
      that the array is the driver's own. */
  method ResolveMvs(given: Option<seq<IntMv>>, width: nat, height: nat) returns (mvs: seq<IntMv>, owned: bool)
    ensures owned <==> given.None?
    ensures given.Some? ==> mvs == given.value
    ensures given.None? ==>
      |mvs| == FallbackCount(width, height) && (forall k :: 0 <= k < |mvs| ==> mvs[k] == ZeroIntMv)
  {
    if given.Some? {
      return given.value, false;
    }
    var n := FallbackCount(width, height);
    mvs := [];
    var k := 0;
    while k < n
      invariant 0 <= k <= n && |mvs| == k
      invariant forall k' :: 0 <= k' < k ==> mvs[k'] == ZeroIntMv
    {
      mvs := mvs + [IntMv(0, 0)];
      k := k + 1;
    }
    owned := true;
  }

  /** Stride passed to `create_motion_field` for the coarsest field:
      `width / 4 + 64`. */
  function InitStride(width: nat): nat
  {
    width / 4 + 2 * AvgMfBorder
  }

  /** The coarsest field is initialised with the stride level 2 is read
      with, for every width. */
  lemma InitStrideIsCoarsest(width: nat)
    ensures InitStride(width) == Stride(Shr(width, 2))
  {
    assert Pow2(2) == 4;
  }

  /** The stride `upscale_mv_by_2` is told to write level l - 1 with, as
      written: `wid * 2 + 64`, where `wid` is the width of level l. */
  function UpscaleStrideAsWritten(width: nat, l: nat): nat
  {
    Shr(width, l) * 2 + 2 * AvgMfBorder
  }

  /** The stride level l - 1 is allocated and later read with. */
  function UpscaleStride(width: nat, l: nat): nat
    requires l >= 1
  {
    Stride(Shr(width, l - 1))
  }

  /** The written stride matches the stride of the level it writes, on both
      upscaled levels, exactly when the width is a multiple of 4. */
  lemma UpscaleStrideAgreesIff(width: nat)
    ensures (UpscaleStrideAsWritten(width, 2) == UpscaleStride(width, 2) &&
             UpscaleStrideAsWritten(width, 1) == UpscaleStride(width, 1)) <==> width % 4 == 0
  {
    assert Pow2(0) == 1 && Pow2(1) == 2 && Pow2(2) == 4;
    var h, q := width / 2, width / 4;
    assert width == 2 * h + width % 2;
    assert h == 2 * q + h % 2;
    assert width == 4 * q + 2 * (h % 2) + width % 2;
    assert width % 4 == 2 * (h % 2) + width % 2;
  }

  /** A width of 10 gives level 2 a width of 2, written with stride 68 into
      level 1, whose width 5 gives it stride 69: the schedule the loop builds
      hands the upscale of level 2 a stride other than the one level 1 is
      refined with. */
  lemma UpscaleStrideMismatch(height: nat)
    ensures UpscaleStrideAsWritten(10, 2) == 68 && UpscaleStride(10, 2) == 69
    ensures ScheduledStep(10, height, 1).strideNext == 68 && ScheduledStep(10, height, 2).stride == 69
  {
    assert Pow2(1) == 2 && Pow2(2) == 4;
  }

  /** One step of the per-level loop: the refinement of level l (followed by
      the border padding and the median filter, which keep its geometry), or
      the upscale of level l into level l - 1. */
  datatype Step =
    | RefineAt(level: nat, wid: nat, hgt: nat, stride: nat)
    | UpscaleFrom(level: nat, wid: nat, hgt: nat, stride: nat, strideNext: nat)

  /** The schedule as the loop builds it, step s: level `2 - s / 2`,
      refined on even steps and upscaled on odd ones, the upscale told to
      write with `wid * 2 + 64`. */
  function ScheduledStep(width: nat, height: nat, s: nat): Step
    requires s < 2 * Levels - 1
  {
    var l := Levels - 1 - s / 2;
    var wid, hgt := Shr(width, l), Shr(height, l);
    if s % 2 == 0 then RefineAt(l, wid, hgt, Stride(wid))
    else UpscaleFrom(l, wid, hgt, Stride(wid), UpscaleStrideAsWritten(width, l))
  }

  /** The order and geometry of the steps: levels 2, 1, 0 are refined in
      that order, each with its own dimensions and stride, an upscale follows
      every level but the last and is followed by the refinement of the next
      finer level, and the schedule ends with the refinement of the full
      frame. */
  ghost predicate WellOrdered(width: nat, height: nat, plan: seq<Step>)
  {
    && |plan| == 2 * Levels - 1
    && (forall s :: 0 <= s < |plan| ==> (plan[s].RefineAt? <==> s % 2 == 0))
    && (forall s :: 0 <= s < |plan| ==>
          plan[s].level == Levels - 1 - s / 2 &&
          plan[s].wid == Shr(width, plan[s].level) && plan[s].hgt == Shr(height, plan[s].level) &&
          plan[s].stride == Stride(plan[s].wid))
    && (forall s :: 0 <= s < |plan| && plan[s].UpscaleFrom? ==>
          s + 1 < |plan| && plan[s + 1].RefineAt? && plan[s + 1].level + 1 == plan[s].level)
    && plan[|plan| - 1] == RefineAt(0, width, height, Stride(width))
  }

  /** Every upscale writes with the stride of the level refined next. */
  ghost predicate UpscalesFit(plan: seq<Step>)
  {
    forall s :: 0 <= s < |plan| - 1 && plan[s].UpscaleFrom? ==> plan[s].strideNext == plan[s + 1].stride
  }

  /** The schedule the loop builds is well ordered; each upscale is told the
      stride `wid * 2 + 64`, and that is the stride of the level refined next
      on every upscale exactly when the width is a multiple of 4. */
  lemma ScheduleShape(width: nat, height: nat, plan: seq<Step>)
    requires |plan| == 2 * Levels - 1
    requires forall s :: 0 <= s < |plan| ==> plan[s] == ScheduledStep(width, height, s)
    ensures WellOrdered(width, height, plan)
    ensures forall s :: 0 <= s < |plan| && plan[s].UpscaleFrom? ==>
      plan[s].strideNext == UpscaleStrideAsWritten(width, plan[s].level)
    ensures UpscalesFit(plan) <==> width % 4 == 0
  {
    assert Pow2(0) == 1;
    forall s | 0 <= s < |plan| && plan[s].UpscaleFrom?
      ensures s + 1 < |plan| && plan[s + 1].RefineAt? && plan[s + 1].level + 1 == plan[s].level
    {
      assert s % 2 == 1 && (s + 1) / 2 == s / 2 + 1;
    }
    UpscaleStrideAgreesIff(width);
    assert plan[1].strideNext == UpscaleStrideAsWritten(width, 2) && plan[2].stride == UpscaleStride(width, 2);
    assert plan[3].strideNext == UpscaleStrideAsWritten(width, 1) && plan[4].stride == UpscaleStride(width, 1);
  }

  /** The level loop `for (l = 2; l >= 0; l--)` as written: refine level l
      with `wid = width >> l`, `hgt = height >> l` and `mvstr = wid + 64`,
      then, unless l is 0, upscale into level l - 1 with
      `mvstr_next = wid * 2 + 64`. */
  method LevelSchedule(width: nat, height: nat) returns (plan: seq<Step>)
    ensures WellOrdered(width, height, plan)
    ensures forall s :: 0 <= s < |plan| && plan[s].UpscaleFrom? ==>
      plan[s].strideNext == UpscaleStrideAsWritten(width, plan[s].level)
    ensures UpscalesFit(plan) <==> width % 4 == 0
  {
    plan := [];
    var l: int := Levels - 1;
    while l >= 0
      invariant -1 <= l <= Levels - 1
      invariant |plan| == if l >= 0 then 2 * (Levels - 1 - l) else 2 * Levels - 1
      invariant forall s :: 0 <= s < |plan| ==> plan[s] == ScheduledStep(width, height, s)
    {
      var wid, hgt := Shr(width, l), Shr(height, l);
      var mvstr := wid + 2 * AvgMfBorder;
      plan := plan + [RefineAt(l, wid, hgt, mvstr)];
      if l != 0 {
        var mvstrNext := wid * 2 + 2 * AvgMfBorder;
        plan := plan + [UpscaleFrom(l, wid, hgt, mvstr, mvstrNext)];
      }
      l := l - 1;
    }
    ScheduleShape(width, height, plan);
  }

  /** Step s of the corrected schedule: the step the loop builds, except
      that an upscale is told the stride of the level it writes. */
  function CorrectedStep(width: nat, height: nat, s: nat): Step
    requires s < 2 * Levels - 1
  {
    var step := ScheduledStep(width, height, s);
    if step.UpscaleFrom? then step.(strideNext := UpscaleStride(width, step.level)) else step
  }

  /** The corrected schedule keeps the order and geometry of the loop's,
      every upscale writes with the stride of the level refined next, and
      it is the loop's own schedule when the width is a multiple of 4. */
  lemma CorrectedShape(width: nat, height: nat, plan: seq<Step>)
    requires |plan| == 2 * Levels - 1
    requires forall s :: 0 <= s < |plan| ==> plan[s] == CorrectedStep(width, height, s)
    ensures WellOrdered(width, height, plan)
    ensures UpscalesFit(plan)
    ensures forall s :: 0 <= s < |plan| && plan[s].UpscaleFrom? ==>
      plan[s].strideNext == UpscaleStride(width, plan[s].level)
    ensures width % 4 == 0 ==> forall s :: 0 <= s < |plan| ==> plan[s] == ScheduledStep(width, height, s)
  {
    var written := seq(2 * Levels - 1, s requires 0 <= s < 2 * Levels - 1 => ScheduledStep(width, height, s));
    ScheduleShape(width, height, written);
    assert Pow2(0) == 1;
    forall s | 0 <= s < |plan| && plan[s].UpscaleFrom?
      ensures s + 1 < |plan| && plan[s].strideNext == plan[s + 1].stride
    {
      assert s % 2 == 1 && (s + 1) / 2 == s / 2 + 1;
    }
    UpscaleStrideAgreesIff(width);
  }

  /** The level schedule with every upscale told the stride of the level it
      writes. */
  function CorrectedSchedule(width: nat, height: nat): (plan: seq<Step>)
    ensures WellOrdered(width, height, plan)
    ensures UpscalesFit(plan)
    ensures forall s :: 0 <= s < |plan| && plan[s].UpscaleFrom? ==>
      plan[s].strideNext == UpscaleStride(width, plan[s].level)
    ensures width % 4 == 0 ==> forall s :: 0 <= s < |plan| ==> plan[s] == ScheduledStep(width, height, s)
  {
    var plan := seq(2 * Levels - 1, s requires 0 <= s < 2 * Levels - 1 => CorrectedStep(width, height, s));
    CorrectedShape(width, height, plan);
    plan
  }
}
