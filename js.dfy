/** JavaScript truthiness and the `x || fallback` idiom, on the value kinds the
    movie handlers read from a request. */
module Js {
  import opened Wrappers

  /** A string is truthy unless it is absent or empty. */
  predicate TextTruthy(v: Option<string>) { v.Some? && v.value != "" }

  /** A number is truthy unless it is absent, NaN (also `None`) or zero. */
  predicate IntTruthy(v: Option<int>) { v.Some? && v.value != 0 }

  predicate RealTruthy(v: Option<real>) { v.Some? && v.value != 0.0 }

  /** `v || fallback` for a string. */
  function OrText(v: Option<string>, fallback: string): (r: string)
  {
    if TextTruthy(v) then v.value else fallback
  }

  /** `v || fallback` for an integer. */
  function OrInt(v: Option<int>, fallback: int): (r: int)
  {
    if IntTruthy(v) then v.value else fallback
  }

  /** `v || fallback` for a number. */
  function OrReal(v: Option<real>, fallback: real): (r: real)
  {
    if RealTruthy(v) then v.value else fallback
  }

  /** `v || fallback` for an array: every array, the empty one too, is truthy. */
  function OrList(v: Option<seq<string>>, fallback: seq<string>): (r: seq<string>)
  {
    if v.Some? then v.value else fallback
  }
}
