/** What several modules share: optional values, the machine words of the program, and arithmetic. */
module Basics {

  datatype Option<+T> = None | Some(value: T)

  const UINT32: nat := 0x1_0000_0000
  const UINT64: nat := 0x1_0000_0000_0000_0000

  /** A uint64_t. */
  type Word = x: nat | x < UINT64

  function Least(a: nat, b: nat): nat {
    if a < b then a else b
  }

  /** b to the power of k. */
  function Pow(b: nat, k: nat): (p: nat)
    ensures b > 0 ==> p > 0
  {
    if k == 0 then 1 else b * Pow(b, k - 1)
  }
}
