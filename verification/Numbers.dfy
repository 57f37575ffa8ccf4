/** The larger and the smaller of two numbers. */
module Numbers {

  function Max(a: real, b: real): real {
    if a >= b then a else b
  }

  function Min(a: real, b: real): real {
    if a <= b then a else b
  }

  function Larger(a: int, b: int): int {
    if a >= b then a else b
  }
}
