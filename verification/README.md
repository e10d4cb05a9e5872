# Optical-flow reference interpolator: a Dafny model

This project models the core of `av1/common/optical_flow_ref.c`. That file is the
frame-level optical-flow interpolator: it estimates a dense motion field between
two reference frames on a three-level resolution pyramid and interpolates a
frame between them. The model covers five parts of that code:

- the per-level refinement loop `refine_motion_field`. The loop calls an update,
  adds the returned increment to the interior of `mf_last`, mirrors the sum into
  `mf_new`, and stops at the first cost that does not strictly decrease or at
  `MAX_ITER_OPTICAL_FLOW + 2 - level` calls;
- the reshape and cost of `iterate_update_mv`. The solver's flat vector of
  `2 * W * H` entries, stored column-major (row components first, then column
  components), is scattered into the strided field, and the cost is its L2 norm.
  `iterate_update_mv_fast`, whose body only computes a cost, is modelled as well;
- `opfl_get_derivatives`. A 7-tap central difference `[-1, 9, -45, 0, 45, -9, 1] / 60`
  with clamped indices is applied to the blend `(1 - dstpos) * b0 + dstpos * b1`
  along rows (Ex) and columns (Ey); Et is `b1 - b0`;
- the index and size arithmetic of the driver `optical_flow_get_ref`:
  - the halving allocation loop, with buffers of `(wid + 64) * (hgt + 64)` cells
    whose interior starts at `32 * mvstr + 32`;
  - the all-zero motion-vector fallback;
  - the strides handed to the collaborators;
  - the order of levels 2, 1, 0, with an upscale after every level but 0;
- the constants of `av1/common/optical_flow_ref.h` and the `DB_MV` vector.

Modules follow the program's structure:

| module | file | contents |
|---|---|---|
| `Arith` | arith.dfy | `>>` on non-negative ints, and products, quotients and remainders as recursive functions |
| `OpflParams` | params.dfy | header constants, `DB_MV`, `int_mv` |
| `MotionFields` | field.dfy | the strided field with its margin, and the accumulate step of the loop |
| `Reshape` | reshape.dfy | the solver layout, scatter and gather, and the squared cost |
| `Refine` | refine.dfy | the update call and the refinement loop |
| `Derivatives` | derivatives.dfy | the stencil and the three derivative planes |
| `Driver` | driver.dfy | allocation, fallback, strides and the level schedule |

**Modelling choices:**

- **Doubles are exact `real`s.** Costs are carried squared. For non-negative
  reals, `sqrt` preserves and reflects `>=` (`Refine.SquaredComparison`), so the
  loop takes the same branches on the squares. The `DBL_MAX` sentinel becomes
  `DBL_MAX * DBL_MAX`.
- **The solver is an input.** It is queried once per update call: `sols(n)` is
  its answer to the n-th call of a level. Its answer is fitted into the
  zero-initialised `mv_vec` of `2 * W * H` entries. In the code, the warped
  buffers and derivatives an update computes never reach the solver: the system
  matrix is not assembled and the right-hand side stays zero. So the update model
  leaves them out.
- **The loop is generic in its update.** It runs over any update function that
  keeps the field's shape and margin and returns a non-negative cost.

**Two behaviours of the code that its comments do not make plain; the model follows the code:**

- **Fast mode.** The comment above `iterate_update_mv_fast`
  (av1/common/optical_flow_ref.c:368-379) calls it an update of the motion
  field "by a fast iterative method" and names `mf_new` as its output. Its body
  never writes `mf_new`: it returns the norm of the `mf_new` it was given. The
  loop then adds that `mf_new` to `mf_last` as the increment. So, in a build with
  `FAST_OPTICAL_FLOW` set, a level started from an all-zero `mf_new` makes two
  calls and doubles its field (`Refine.FastModeDoubles`).
- **Fallback size.** The motion-vector fallback has `width / 4 * height / 4`
  entries. C evaluates this as `((width / 4) * height) / 4`.

## Model

| member | source | states |
|---|---|---|
| `Arith.HalveShr` | av1/common/optical_flow_ref.c:100-101 | halving `width >> l` once more gives `width >> (l + 1)`, so `wid /= 2` keeps `wid == width >> l` |
| `MotionFields.BufferSizeIsProduct` | av1/common/optical_flow_ref.c:86-91 | a field buffer holds `(wid + 64) * (hgt + 64)` cells |
| `MotionFields.IdxInterior` | av1/common/optical_flow_ref.c:231-241 | interior cell (i, j) sits at `(i + 32) * mvstr + (j + 32)`, lies in the buffer, is an interior offset, and decodes back to (i, j) |
| `MotionFields.IdxIsProduct` | av1/common/optical_flow_ref.c:231-236 | the interior offset is the C product `(i + 32) * mvstr + (j + 32)` |
| `MotionFields.InteriorIsIdx` | av1/common/optical_flow_ref.c:231-236 | every interior offset is the offset of the cell it decodes to |
| `MotionFields.IdxInjective` | av1/common/optical_flow_ref.c:231-236 | distinct interior cells have distinct offsets |
| `MotionFields.Accumulate` | av1/common/optical_flow_ref.c:231-241 | on every interior cell, `mf_last` becomes its old value plus the increment and `mf_new` becomes that sum; margin cells of `mf_last` keep their value and those of `mf_new` keep the increment's |
| `MotionFields.AccumulateInterior` | av1/common/optical_flow_ref.c:233-241 | the double loop over rows and columns computes exactly `Accumulate` |
| `Reshape.SlotEncode` | av1/common/optical_flow_ref.c:333-345 | every index below `W * H` is `j * height + i` for exactly the cell its remainder and quotient by `height` name |
| `Reshape.SlotDecode` | av1/common/optical_flow_ref.c:333-345 | dividing `j * height + i` by `height` gives back j, with remainder i |
| `Reshape.SlotsDistinct` | av1/common/optical_flow_ref.c:333-345 | row slots `j * height + i` lie in `[0, W * H)` and column slots `W * H + j * height + i` lie in `[W * H, 2 * W * H)`; slots of distinct cells differ, and no row slot is a column slot |
| `Reshape.SumSqToZeroIff` | av1/common/optical_flow_ref.c:336-343 | a prefix sum of squares is zero exactly when every entry of the prefix is zero |
| `Reshape.SumSqZeroIff` | av1/common/optical_flow_ref.c:336-343 | the squared cost is non-negative and is zero exactly for the zero vector |
| `Reshape.Scatter` | av1/common/optical_flow_ref.c:332-345 | interior cell (i, j) receives `(vec[j * H + i], vec[W * H + j * H + i])`; margin cells are unchanged |
| `Reshape.Gather` | av1/common/optical_flow_ref.c:434-444 | the solver-layout reading of a field: entry `j * H + i` is the row and entry `W * H + j * H + i` the column of interior cell (i, j) |
| `Reshape.GatherScatter` | av1/common/optical_flow_ref.c:332-345 | reading back a scattered vector returns the vector |
| `Reshape.ScatterGather` | av1/common/optical_flow_ref.c:332-345 | scattering a field's own reading leaves the field unchanged |
| `Reshape.ScatterComponent` | av1/common/optical_flow_ref.c:333-338 | one double loop writes one component of every interior cell from the solver vector, leaves the margin alone, and adds the squares of its half of the vector to the cost |
| `Reshape.ReshapeMv` | av1/common/optical_flow_ref.c:332-345 | the two double loops produce the scattered field and the sum of squares of the whole vector |
| `Reshape.FastCost` | av1/common/optical_flow_ref.c:434-444 | the fast cost loops read the row and then the column component of every interior cell of the field and add up their squares, which is the squared norm of the field's solver-layout reading |
| `Refine.SquaredComparison` | av1/common/optical_flow_ref.c:243 | for non-negative costs, `x >= y` holds exactly when `x * x >= y * y`, so squared costs take the same exit |
| `Refine.FitCost` | av1/common/optical_flow_ref.c:293 | the zero-initialised `mv_vec` of `2 * W * H` entries adds nothing to the norm: the fitted vector's squared norm is that of the part of the solver's answer it holds |
| `Refine.ZeroFieldCost` | av1/common/optical_flow_ref.c:86-91 | a calloc'd field has cost zero, and a field of the same shape has cost zero exactly when its interior agrees with the calloc'd one |
| `Refine.FieldCostZeroIff` | av1/common/optical_flow_ref.c:433-444 | a field's squared cost is non-negative and is zero exactly when every interior cell is the zero vector |
| `Refine.ExactUpdate` | av1/common/optical_flow_ref.c:266-366 | `iterate_update_mv` returns a field of the same shape and margin whose interior, read in solver layout, is the fitted solver answer; its cost is that field's squared norm, which is the squared norm of the solver's answer |
| `Refine.FastUpdate` | av1/common/optical_flow_ref.c:381-457 | `iterate_update_mv_fast` leaves `mf_new` unchanged and returns a non-negative cost that is zero exactly when every interior cell of `mf_new` is the zero vector |
| `Refine.UpdateMv` | av1/common/optical_flow_ref.c:219-229 | every update the loop calls keeps the field's shape and margin and returns a non-negative cost that is the squared norm of its increment |
| `Refine.IterateUpdateMv` | av1/common/optical_flow_ref.c:331-345 | the update's loops compute `ExactUpdate` |
| `Refine.IterateUpdateMvFast` | av1/common/optical_flow_ref.c:433-444 | the fast update's loops compute `FastUpdate` |
| `Refine.LevelUpdater` | av1/common/optical_flow_ref.c:219-229 | the update of a level conforms to what the loop relies on, and call n is `UpdateMv` answered by the solver's n-th answer |
| `Refine.RunStep` | av1/common/optical_flow_ref.c:219-248 | one turn of the loop: it accumulates the call's increment, then either stops with that call's fields or continues from them with the new cost |
| `Refine.RefineMotionField` | av1/common/optical_flow_ref.c:209-251 | the C loop returns the final fields and the number of calls that the recursive definition of the loop gives |
| `Refine.RefineLevel` | av1/common/optical_flow_ref.c:209-251 | the loop run with a level's updates returns the fields and the call count of that level's refinement |
| `Refine.RunCalls` | av1/common/optical_flow_ref.c:219-247 | the loop makes between 1 and `cap - count` calls when it starts below the cap, and none otherwise; every record has one entry per call; every cost is non-negative |
| `Refine.RunStops` | av1/common/optical_flow_ref.c:213-247 | every cost but the last is strictly below the one before it, starting from `last_cost`; the last is not, unless the cap was reached |
| `Refine.RunScales` | av1/common/optical_flow_ref.c:217-248 | every call receives the initial annealing scale, because the factor is 1; every increment has the fields' shape |
| `Refine.RunFields` | av1/common/optical_flow_ref.c:231-244 | every interior cell of the final `mf_last` is its initial value plus the sum of all returned increments, including a regressing last one; `mf_new` equals it there once a call was made; margins of both are unchanged |
| `Refine.CallsPerLevel` | av1/common/optical_flow_ref.c:219 | levels 0, 1 and 2 make at least 1 and at most 5, 4 and 3 update calls, whatever the solver answers |
| `Refine.LevelStops` | av1/common/optical_flow_ref.c:213-248 | at every level the costs fall strictly from the `DBL_MAX` sentinel up to the exit rule, and the Laplacian weight `OF_A_SQUARED * scale` stays 25 |
| `Refine.LevelFields` | av1/common/optical_flow_ref.c:231-244 | at levels 0 to 2 the final `mf_last` is the initial one plus all increments on the interior, `mf_new` equals it there, and both margins are untouched |
| `Refine.FastModeDoubles` | av1/common/optical_flow_ref.c:219-248 | in a fast-mode build, levels 0 and 1 started from a zero `mf_new` make exactly two calls, and the final interior of `mf_last` is twice the initial one |
| `Derivatives.PixelIndex` | av1/common/optical_flow_ref.c:482-485 | sample `i * stride + j` of a row of width at most stride lies inside `height * stride` samples |
| `Derivatives.Clamp` | av1/common/optical_flow_ref.c:475-479 | a clamped tap index lies in `[0, n - 1]` for a non-empty line, and equals the unclamped index when that is already in range |
| `Derivatives.TapInLine` | av1/common/optical_flow_ref.c:475-485 | every clamped tap reads a sample of the line |
| `Derivatives.StencilToAll` | av1/common/optical_flow_ref.c:473-486 | adding the seven weighted taps in the source's order gives the stencil `(-s0 + 9 s1 - 45 s2 + 45 s4 - 9 s5 + s6) / 60` |
| `Derivatives.Blend` | av1/common/optical_flow_ref.c:482-485 | the blend at position 0 is the first line and at position 1 the second, and the blend of a line with itself is that line |
| `Derivatives.BlendTap` | av1/common/optical_flow_ref.c:482-485 | a tap of the blend is the blend of the taps |
| `Derivatives.WindowOfBlend` | av1/common/optical_flow_ref.c:473-486 | the seven samples under the stencil on a blend are the blends of the samples |
| `Derivatives.DotOfMix` | av1/common/optical_flow_ref.c:464-465 | the taps commute with the weighted mix |
| `Derivatives.StencilOfBlend` | av1/common/optical_flow_ref.c:471-486 | the stencil of a blend is `(1 - p) * D(u) + p * D(v)` |
| `Derivatives.DerivativesAreBlends` | av1/common/optical_flow_ref.c:471-503 | Ex at (i, j) is `(1 - p) * D(b0 row i) + p * D(b1 row i)` at j, and Ey is the same along column j, with the same stencil D |
| `Derivatives.StencilConstantZero` | av1/common/optical_flow_ref.c:464-465 | the taps are antisymmetric about the centre, and the stencil of a constant line is zero everywhere, borders included |
| `Derivatives.ConstantBlendHasNoDerivative` | av1/common/optical_flow_ref.c:471-503 | a blend constant along row i gives Ex = 0 on that row, and one constant along column j gives Ey = 0 on that column |
| `Derivatives.StencilOfRamp` | av1/common/optical_flow_ref.c:462-486 | three or more samples from the borders, the stencil of a ramp `a * x + c` is exactly its slope a |
| `Derivatives.StencilBound` | av1/common/optical_flow_ref.c:464-486 | on 8-bit samples the stencil lies within `[-233.75, 233.75]` |
| `Derivatives.TemporalZeroIff` | av1/common/optical_flow_ref.c:505-510 | Et is zero exactly where the two warped buffers agree |
| `Derivatives.WindowSample` | av1/common/optical_flow_ref.c:475-485 | sample k of the window at x is tap k of the line |
| `Derivatives.TapTerm` | av1/common/optical_flow_ref.c:482-485 | the C term `filter[k] * b0 * (1 - p) + filter[k] * b1 * p` is tap k's weight times the blend of the two samples |
| `Derivatives.HorizontalTap` | av1/common/optical_flow_ref.c:475-485 | tap k of Ex at (i, j), with the column clamped to the row, is tap k's weight times sample k of the blended row's window |
| `Derivatives.VerticalTap` | av1/common/optical_flow_ref.c:492-502 | tap k of Ey at (i, j), with the row clamped to the column, is tap k's weight times sample k of the blended column's window |
| `Derivatives.HorizontalAt` | av1/common/optical_flow_ref.c:473-486 | the k loop leaves Ex at (i, j) equal to the stencil of the blended row i at j |
| `Derivatives.VerticalAt` | av1/common/optical_flow_ref.c:490-503 | the k loop leaves Ey at (i, j) equal to the stencil of the blended column j at i |
| `Derivatives.DerivativeAt` | av1/common/optical_flow_ref.c:471-510 | each plane's pixel is the value its definition gives |
| `Derivatives.DerivativeRow` | av1/common/optical_flow_ref.c:472-486 | one row of a plane holds, at every column, that plane's value |
| `Derivatives.RowPlacement` | av1/common/optical_flow_ref.c:472-480 | rows before row i lie below `i * width`, and row i starts there |
| `Derivatives.DerivativePlane` | av1/common/optical_flow_ref.c:471-486 | a plane has `height * width` entries, and entry `i * width + j` is the plane's value at (i, j) |
| `Derivatives.OpflGetDerivatives` | av1/common/optical_flow_ref.c:459-511 | the three planes have `height * width` entries; at `i * width + j`, Ex and Ey are the row and column stencils of the blend, and Et is `b1 - b0` |
| `Driver.AllocateLevels` | av1/common/optical_flow_ref.c:81-102 | at level l the halving loop holds `width >> l` by `height >> l` and allocates `((width >> l) + 64) * ((height >> l) + 64)` cells |
| `Driver.LevelInteriorInBuffer` | av1/common/optical_flow_ref.c:125-147 | every interior cell `(i + 32) * mvstr + (j + 32)` of level l lies below that level's allocation |
| `Driver.FallbackCoversBlocks` | av1/common/optical_flow_ref.c:64-73 | the fallback array has at least one entry per 4x4 block, and exactly one when the height is a multiple of 4 |
| `Driver.ResolveMvs` | av1/common/optical_flow_ref.c:63-73 | the given motion vectors are used when present; otherwise the driver owns `width / 4 * height / 4` zero vectors |
| `Driver.InitStrideIsCoarsest` | av1/common/optical_flow_ref.c:118-119 | the stride `width / 4 + 64` given to `create_motion_field` is level 2's stride, for every width |
| `Driver.UpscaleStrideAgreesIff` | av1/common/optical_flow_ref.c:124-156 | the upscale's written stride `wid * 2 + 64` equals the stride of the level it writes, on both upscaled levels, exactly when the width is a multiple of 4 |
| `Driver.UpscaleStrideMismatch` | av1/common/optical_flow_ref.c:151-156 | at width 10, the loop's schedule upscales level 2 with stride 68 into level 1, which is refined with stride 69 |
| `Driver.ScheduleShape` | av1/common/optical_flow_ref.c:124-158 | the schedule the loop builds refines levels 2, 1, 0 in turn with each level's own dimensions and stride, upscales after each level but 0 into the level refined next, and ends with level 0 at full size; each upscale is told `wid * 2 + 64`, which is the stride of the level refined next on every upscale exactly when the width is a multiple of 4 |
| `Driver.LevelSchedule` | av1/common/optical_flow_ref.c:124-158 | the level loop as written builds that schedule, with `mvstr_next = wid * 2 + 64`, so its upscales write with the next level's stride exactly when the width is a multiple of 4 |
| `Driver.CorrectedShape` | av1/common/optical_flow_ref.c:124-158 | the schedule whose upscales are told `(width >> (l - 1)) + 64` keeps the loop's order and geometry, writes every upscale with the stride of the level refined next, and equals the loop's schedule when the width is a multiple of 4 |
| `Driver.CorrectedSchedule` | av1/common/optical_flow_ref.c:124-158 | the corrected level schedule: the same order and geometry as the loop's, every upscale told the stride of the level it writes |

## Left out

- Warpers (`warp_optical_flow_fwd`, `warp_optical_flow_back` and their bilinear versions), `median_2D_MV_5x5`, `pad_motion_field_border`, `upscale_mv_by_2`, `create_motion_field` and `interp_optical_flow`: their bodies are not part of this model, nor the values they compute. The schedule (`Driver.ScheduleShape`) records each call of `refine_motion_field` with its level's geometry, which the border padding and median filter after it (av1/common/optical_flow_ref.c:134-149) keep, and each call of `upscale_mv_by_2` with the stride it reads and the stride it is told to write. Of `create_motion_field` only the stride it is handed is modelled (`Driver.InitStrideIsCoarsest`). The warpers run inside the updates, which leave them out, and `interp_optical_flow` is not placed in the schedule at all.
- The 16-phase sub-pixel table is used only by the warpers, so it is left out with them.
- `conjugate_gradient_sparse` and the sparse matrices: the solver is an external routine. Its answers are an input to the model.
- Pyramid downscaling with `aom_scale_frame`, frame and field allocation and freeing, and the level-0 copy: library and memory plumbing. The copy is a self-assignment because `ref0_ds[0]` aliases `ref0`.
- `clock()` timers, `printf` and `write_image_opfl`: debug I/O.
- IEEE-754 rounding, overflow and `sqrt`: costs are exact reals, carried squared.
- The block-based interface declared in the header (`OPFL_BUFFER_STRUCT` and reference-pair selection): no bodies for it exist. The header's prototypes of the modelled functions differ from the `.c` definitions; the model follows the `.c` definitions.
- The width and height of a level: the driver sizes each level's field buffers from `dst->y_width >> l` and `dst->y_height >> l` (av1/common/optical_flow_ref.c:54-55, 86-91, 125-127), but the refinement loop and the updates take them from `ref0->y_width` and `ref0->y_height` of that level's frame (av1/common/optical_flow_ref.c:215, 274, 390). The model gives a level one width and height for both. At level 0 this assumes `ref0` has the size of `dst`; at levels 1 and 2 it assumes `aom_alloc_frame_buffer`, whose body is not part of this model, records the size it is asked for.
- Refine.LevelFields: requires `level <= 2`, the levels the driver uses. For a level past the iteration cap no update is called, and `mf_new` keeps its own interior.
- Derivatives.StencilOfRamp: states exactness only three or more samples from the borders, where no tap is clamped.

## Findings

| source | as written | input that shows it | evidently intended | confidence | as-written member | corrected member |
|---|---|---|---|---|---|---|
| av1/common/optical_flow_ref.c:153-156 | the upscale writes level l - 1 with stride `wid * 2 + 64`, where `wid = width >> l`; level l - 1 is allocated and refined with stride `(width >> (l - 1)) + 64` | width 10: level 2 (width 2) is written into level 1 with stride 68, and level 1 (width 5) has stride 69; any width that is not a multiple of 4 misplaces the upscaled rows | write level l - 1 with its own stride `(width >> (l - 1)) + 64` | not executed; medium | `Driver.LevelSchedule` | `Driver.CorrectedSchedule` |
