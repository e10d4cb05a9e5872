/** The compile-time parameters of the frame-level optical-flow interpolator
    (av1/common/optical_flow_ref.h) and its two value types: the
    double-precision motion vector `DB_MV` and the integer block vector
    `int_mv`. Doubles are idealised as exact `real`s. */
module OpflParams {

  /** Margin of cells kept on every side of a motion field. */
  const AvgMfBorder: nat := 32
  const DerivativeFilterLength: nat := 7

  /** Base number of refinement iterations per level. */
  const MaxIterOpticalFlow: nat := 3
  /** Weight of the Laplacian smoothness term. */
  const OfASquared: real := 25.0
  /** Multiplier applied to the annealing scale after every improving iteration. */
  const OpflAnnealFactor: real := 1.0

  /** `DBL_MAX`, the largest finite IEEE-754 double, `(2^53 - 1) * 2^971`. */
  const DblMax: real := 179769313486231570814527423731704356798070567525844996598917476803157260780028538760589558632766878171540458953514382464234321326889464182768467546703537516986049910576551282076245490090389328944075868508455133942304583236903222948165808559332123348274797826204144723168738177180919299881250404026184124858368.0

  /** A motion vector with real row and column displacements (`DB_MV`). */
  datatype DbMv = DbMv(row: real, col: real) {
    function Plus(o: DbMv): DbMv {
      DbMv(row + o.row, col + o.col)
    }
  }

  const ZeroDbMv: DbMv := DbMv(0.0, 0.0)

  /** A block motion vector (`int_mv`); `as_int == 0` is the zero vector. */
  datatype IntMv = IntMv(row: int, col: int)

  const ZeroIntMv: IntMv := IntMv(0, 0)

  datatype Option<T> = None | Some(value: T)
}
