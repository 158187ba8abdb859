/** Value types shared by the whole console: Rust's Option and the unsigned
    integer widths that cross the boundary to the emulator core. */
module Common {

  datatype Option<+T> = None | Some(value: T)

  /** Rust's u32. */
  type U32 = x: int | 0 <= x < 0x1_0000_0000

  /** Rust's u8. */
  type U8 = x: int | 0 <= x < 0x100

  /** u32 addition as a release build performs it: the sum modulo 2^32. */
  function Wrap32(x: nat): (r: U32)
    ensures x < 0x1_0000_0000 ==> r == x
    ensures 0x1_0000_0000 <= x < 0x2_0000_0000 ==> r == x - 0x1_0000_0000
  {
    x % 0x1_0000_0000
  }

  /** Wrapping once per addition or once at the end gives the same sum. */
  lemma Wrap32Add(x: nat, y: nat)
    ensures Wrap32(Wrap32(x) + y) == Wrap32(x + y)
  {
    var q := x / 0x1_0000_0000;
    assert x == q * 0x1_0000_0000 + Wrap32(x);
    assert (q * 0x1_0000_0000 + (Wrap32(x) + y)) % 0x1_0000_0000 == (Wrap32(x) + y) % 0x1_0000_0000;
  }

  function Min(a: int, b: int): int
  {
    if a <= b then a else b
  }
}
