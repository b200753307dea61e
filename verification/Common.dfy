/** Types every part of the model shares. */
module Common {
  datatype Option<+T> = None | Some(value: T)

  const U32_MAX: nat := 0xffff_ffff
  const WORDS: nat := 0x1_0000_0000

  type u32 = x: nat | x <= 0xffff_ffff
  type byte = x: nat | x < 256
  type Bytes = seq<byte>

  function One(b: bool): nat { if b then 1 else 0 }

  /** 32-bit wrapping addition and subtraction of one. */
  function Increment(n: u32): u32 { if n == U32_MAX then 0 else n + 1 }

  function Decrement(n: u32): u32 { if n == 0 then U32_MAX else n - 1 }

  function Range(low: nat, high: nat): (r: set<nat>)
    ensures forall i: nat :: i in r <==> low <= i < high
    decreases high
  {
    if low >= high then {} else Range(low, high - 1) + {high - 1}
  }

  function Min(a: nat, b: nat): nat { if a < b then a else b }
}
