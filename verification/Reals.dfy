/** The larger and the smaller of two numbers. */
module Reals {

  function Max(a: real, b: real): real {
    if a > b then a else b
  }

  function Min(a: real, b: real): real {
    if a < b then a else b
  }
}
