/** C's int, and arithmetic shared by the byte loops. */
module Integers {
  const INT_MAX := 0x7fff_ffff
  const INT_MIN := -0x8000_0000

  function Min(a: nat, b: nat): nat {
    if a < b then a else b
  }
}
