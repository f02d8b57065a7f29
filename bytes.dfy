/**
 * Machine integers and their byte encodings.  Rust's `u8`/`u16`/`u32`/`u64`
 * are subset types of `int`; `to_be_bytes`/`from_be_bytes` and the
 * little-endian forms used by the flash layout are written out.
 */
module Bytes {
  type byte = x: int | 0 <= x < 0x100
  type u16 = x: int | 0 <= x < 0x1_0000
  type u32 = x: int | 0 <= x < 0x1_0000_0000
  type u64 = x: int | 0 <= x < 0x1_0000_0000_0000_0000

  const U8_MAX: int := 0xFF
  const U16_MAX: int := 0xFFFF
  const U32_MAX: int := 0xFFFF_FFFF
  const U64_MAX: int := 0xFFFF_FFFF_FFFF_FFFF

  /** `u16::to_be_bytes` */
  function BE16(x: u16): (r: seq<byte>)
    ensures |r| == 2 && r[0] as int * 0x100 + r[1] == x
  {
    [x / 0x100, x % 0x100]
  }

  /** `u16::from_be_bytes` of a two-byte slice */
  function FromBE16(s: seq<byte>): (x: u16)
    requires |s| == 2
    ensures x == s[0] as int * 0x100 + s[1]
  {
    s[0] as int * 0x100 + s[1]
  }

  /** `u32::to_be_bytes` */
  function BE32(x: u32): (r: seq<byte>)
    ensures |r| == 4
  {
    [x / 0x100_0000, (x / 0x1_0000) % 0x100, (x / 0x100) % 0x100, x % 0x100]
  }

  /** `u32::from_be_bytes` of a four-byte slice */
  function FromBE32(s: seq<byte>): u32
    requires |s| == 4
  {
    ((s[0] as int * 0x100 + s[1]) * 0x100 + s[2]) * 0x100 + s[3]
  }

  /** `u32::to_le_bytes` */
  function LE32(x: u32): (r: seq<byte>)
    ensures |r| == 4
  {
    [x % 0x100, (x / 0x100) % 0x100, (x / 0x1_0000) % 0x100, x / 0x100_0000]
  }

  /** `u32::from_le_bytes` of a four-byte slice */
  function FromLE32(s: seq<byte>): u32
    requires |s| == 4
  {
    ((s[3] as int * 0x100 + s[2]) * 0x100 + s[1]) * 0x100 + s[0]
  }

  /** `u16::from_le_bytes` of a two-byte slice */
  function FromLE16(s: seq<byte>): u16
    requires |s| == 2
  {
    s[1] as int * 0x100 + s[0]
  }

  lemma {:induction false} BE16RoundTrip(x: u16)
    ensures FromBE16(BE16(x)) == x
  {
  }

  /** Three-way split of a 32-bit value into its quotient digits, used by both byte orders. */
  lemma {:induction false} Digits32(x: u32)
    ensures ((x / 0x100_0000 * 0x100 + (x / 0x1_0000) % 0x100) * 0x100 + (x / 0x100) % 0x100) * 0x100 + x % 0x100 == x
  {
    var d0, d1, d2, d3 := x / 0x100_0000, (x / 0x1_0000) % 0x100, (x / 0x100) % 0x100, x % 0x100;
    assert x / 0x100 == (x / 0x100_0000 * 0x100 + (x / 0x1_0000) % 0x100) * 0x100 + (x / 0x100) % 0x100 by {
      assert x / 0x1_0000 == x / 0x100_0000 * 0x100 + (x / 0x1_0000) % 0x100;
      assert x / 0x100 == x / 0x1_0000 * 0x100 + (x / 0x100) % 0x100;
    }
  }

  lemma {:induction false} BE32RoundTrip(x: u32)
    ensures FromBE32(BE32(x)) == x
  {
    Digits32(x);
  }

  lemma {:induction false} LE32RoundTrip(x: u32)
    ensures FromLE32(LE32(x)) == x
  {
    Digits32(x);
  }

  /** Every four bytes are the little-endian encoding of the value they denote. */
  lemma {:induction false} FromLE32RoundTrip(s: seq<byte>)
    requires |s| == 4
    ensures LE32(FromLE32(s)) == s
  {
    var x := FromLE32(s);
    var hi := (s[3] as int * 0x100 + s[2]) * 0x100 + s[1];
    assert x == hi * 0x100 + s[0];
    assert x % 0x100 == s[0] && x / 0x100 == hi;
    var hi2 := s[3] as int * 0x100 + s[2];
    assert hi == hi2 * 0x100 + s[1];
    assert (x / 0x100) % 0x100 == s[1] && x / 0x1_0000 == hi2 by {
      assert x / 0x1_0000 == (x / 0x100) / 0x100;
    }
    assert (x / 0x1_0000) % 0x100 == s[2];
    assert x / 0x100_0000 == s[3] by {
      assert x / 0x100_0000 == (x / 0x1_0000) / 0x100;
    }
  }
}
