/** JavaScript numbers as the parameter inputs produce them. */
module Numbers {

  /**
   * A number emitted by an input: a finite value, or `NaN`. The values are exact decimals
   * (`real`); double rounding and overflow to infinity are not modelled.
   */
  datatype Num = Finite(value: real) | NaN

  /** The `-1` the inputs emit for "no valid value". */
  const Sentinel: Num := Finite(-1.0)
}
