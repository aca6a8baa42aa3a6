/** What several parts of the model share: constants of param.h and riscv.h, and
    sequences without repetition. */
module Params {
  /** The blocks begin_op reserves for one operation. */
  const MAXOPBLOCKS: nat := 10

  /** 2^38. */
  const MAXVA: int := 0x40_0000_0000

  ghost predicate Distinct(s: seq<int>) {
    forall i, j :: 0 <= i < j < |s| ==> s[i] != s[j]
  }
}
