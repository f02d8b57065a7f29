/**
 * The two checksums of the firmware, written bit by bit as the catalogue
 * defines them (MSB-first, no reflection):
 *   CRC-16/XMODEM  width 16, poly 0x1021, init 0, xorout 0      (ESP-NOW frames)
 *   CRC-32/CKSUM   width 32, poly 0x04C11DB7, init 0, xorout 0xFFFFFFFF (parameter block)
 * A running register is exposed so that a digest fed in several `update`
 * calls can be related to one `checksum` call over the concatenation.
 */
module Crc {
  import opened Bytes

  const XMODEM_POLY: bv16 := 0x1021
  const CKSUM_POLY: bv32 := 0x04C1_1DB7
  const CKSUM_XOROUT: bv32 := 0xFFFF_FFFF

  /** One bit of the XMODEM register: shift left, folding in the polynomial when the top bit falls out. */
  function Bit16(c: bv16): bv16
  {
    if c & 0x8000 != 0 then (c << 1) ^ XMODEM_POLY else c << 1
  }

  /** The XMODEM register after one more byte, most significant bit first. */
  function Step16(c: bv16, b: byte): bv16
  {
    var x := c ^ ((b as bv16) << 8);
    Bit16(Bit16(Bit16(Bit16(Bit16(Bit16(Bit16(Bit16(x))))))))
  }

  /** The XMODEM register after feeding `s` into register `c` (a digest `update`). */
  function Update16(c: bv16, s: seq<byte>): bv16
    decreases |s|
  {
    if |s| == 0 then c else Update16(Step16(c, s[0]), s[1..])
  }

  /** `Crc::<u16>::new(&CRC_16_XMODEM).checksum(s)` */
  function Crc16(s: seq<byte>): u16
  {
    Update16(0, s) as int
  }

  function Bit32(c: bv32): bv32
  {
    if c & 0x8000_0000 != 0 then (c << 1) ^ CKSUM_POLY else c << 1
  }

  function Step32(c: bv32, b: byte): bv32
  {
    var x := c ^ ((b as bv32) << 24);
    Bit32(Bit32(Bit32(Bit32(Bit32(Bit32(Bit32(Bit32(x))))))))
  }

  function Update32(c: bv32, s: seq<byte>): bv32
    decreases |s|
  {
    if |s| == 0 then c else Update32(Step32(c, s[0]), s[1..])
  }

  /** `Crc::<u32>::new(&CRC_32_CKSUM).checksum(s)` */
  function Crc32(s: seq<byte>): u32
  {
    (Update32(0, s) ^ CKSUM_XOROUT) as int
  }

  /** Feeding `a` then `b` to a digest is the same as feeding `a + b`. */
  lemma {:induction false} Update16Append(c: bv16, a: seq<byte>, b: seq<byte>)
    ensures Update16(c, a + b) == Update16(Update16(c, a), b)
    decreases |a|
  {
    if |a| > 0 {
      assert (a + b)[1..] == a[1..] + b;
      Update16Append(Step16(c, a[0]), a[1..], b);
    } else {
      assert a + b == b;
    }
  }

  lemma {:induction false} Update32Append(c: bv32, a: seq<byte>, b: seq<byte>)
    ensures Update32(c, a + b) == Update32(Update32(c, a), b)
    decreases |a|
  {
    if |a| > 0 {
      assert (a + b)[1..] == a[1..] + b;
      Update32Append(Step32(c, a[0]), a[1..], b);
    } else {
      assert a + b == b;
    }
  }

  /** One byte of a register update, with the new register value named. */
  lemma {:induction false} UpdateStep16(c: bv16, b: byte, c': bv16, s: seq<byte>)
    requires |s| > 0 && s[0] == b && Step16(c, b) == c'
    ensures Update16(c, s) == Update16(c', s[1..])
  {
  }

  lemma {:induction false} UpdateStep32(c: bv32, b: byte, c': bv32, s: seq<byte>)
    requires |s| > 0 && s[0] == b && Step32(c, b) == c'
    ensures Update32(c, s) == Update32(c', s[1..])
  {
  }

  /** The catalogue check input "123456789". */
  const check: seq<byte> := [0x31, 0x32, 0x33, 0x34, 0x35, 0x36, 0x37, 0x38, 0x39]

  /** The catalogue check value of CRC-16/XMODEM: "123456789" gives 0x31C3. */
  lemma {:induction false} Crc16Check()
    ensures Crc16(check) == 0x31C3
  {
    UpdateStep16(0, 0x31, 0x2672, check[0..]);
    UpdateStep16(0x2672, 0x32, 0x20B5, check[1..]);
    UpdateStep16(0x20B5, 0x33, 0x9752, check[2..]);
    UpdateStep16(0x9752, 0x34, 0xD789, check[3..]);
    UpdateStep16(0xD789, 0x35, 0x546C, check[4..]);
    UpdateStep16(0x546C, 0x36, 0x20E4, check[5..]);
    UpdateStep16(0x20E4, 0x37, 0x86D6, check[6..]);
    UpdateStep16(0x86D6, 0x38, 0x9015, check[7..]);
    UpdateStep16(0x9015, 0x39, 0x31C3, check[8..]);
    assert check[9..] == [];
  }

  /** The CKSUM register over the first three bytes of the check input. */
  lemma {:induction false} CksumFirst()
    ensures Update32(0, check) == Update32(0x6E36_8C64, check[3..])
  {
    UpdateStep32(0, 0x31, 0xD0F3_7027, check[0..]);
    UpdateStep32(0xD0F3_7027, 0x32, 0x3F5B_3A17, check[1..]);
    UpdateStep32(0x3F5B_3A17, 0x33, 0x6E36_8C64, check[2..]);
  }

  /** ... over the next three ... */
  lemma {:induction false} CksumMiddle()
    ensures Update32(0x6E36_8C64, check[3..]) == Update32(0xE28A_D0FD, check[6..])
  {
    UpdateStep32(0x6E36_8C64, 0x34, 0x6191_19D1, check[3..]);
    UpdateStep32(0x6191_19D1, 0x35, 0xFA8A_0CDB, check[4..]);
    UpdateStep32(0xFA8A_0CDB, 0x36, 0xE28A_D0FD, check[5..]);
  }

  /** ... and over the last three. */
  lemma {:induction false} CksumLast()
    ensures Update32(0xE28A_D0FD, check[6..]) == 0x89A1_897F
  {
    UpdateStep32(0xE28A_D0FD, 0x37, 0x8C8E_DD82, check[6..]);
    UpdateStep32(0x8C8E_DD82, 0x38, 0x20E7_79A2, check[7..]);
    UpdateStep32(0x20E7_79A2, 0x39, 0x89A1_897F, check[8..]);
    assert check[9..] == [];
  }

  /** The catalogue check value of CRC-32/CKSUM: "123456789" gives 0x765E7680. */
  lemma {:induction false} Crc32Check()
    ensures Crc32(check) == 0x765E_7680
  {
    CksumFirst();
    CksumMiddle();
    CksumLast();
  }
}
