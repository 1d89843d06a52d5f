/** What every module may need. */
module Basics {

  datatype Option<T> = None | Some(value: T)

  /** How many values 32 and 64 bits hold. */
  const U32: nat := 0x1_0000_0000
  const U64: nat := 0x1_0000_0000_0000_0000

  function Min(a: nat, b: nat): nat { if a < b then a else b }
}
