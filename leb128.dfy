/**
 * Unsigned LEB128 (section 7.6 of the DWARF 4 standard), the varint that
 * postcard uses for every unsigned integer, enum tag and length: 7-bit groups,
 * least significant first, bit 0x80 set on every byte except the last.
 */
module Leb128 {
  import opened Bytes
  import opened Wrappers

  /** The shortest encoding of `x`. */
  function Encode(x: nat): (r: seq<byte>)
    ensures |r| > 0 && r[|r| - 1] < 0x80
    ensures forall i | 0 <= i < |r| - 1 :: r[i] >= 0x80
    decreases x
  {
    if x < 0x80 then [x] else [0x80 + x % 0x80] + Encode(x / 0x80)
  }

  /**
   * Decode one number from the front of `s`: the value and the number of
   * bytes consumed, or None when `s` ends before a byte below 0x80.
   */
  function Decode(s: seq<byte>): (r: Option<(nat, nat)>)
    ensures r.Some? ==> 0 < r.value.1 <= |s|
    decreases |s|
  {
    if |s| == 0 then None
    else if s[0] < 0x80 then Some((s[0] as nat, 1))
    else match Decode(s[1..])
      case None => None
      case Some(p) => Some((s[0] - 0x80 + 0x80 * p.0, p.1 + 1))
  }

  /** What `Decode` accepts: it consumes exactly the bytes up to and including the first byte below 0x80. */
  lemma {:induction false} DecodeConsumes(s: seq<byte>)
    ensures Decode(s).Some? <==> exists i | 0 <= i < |s| :: s[i] < 0x80
    ensures Decode(s).Some? ==> var n := Decode(s).value.1;
      0 < n <= |s| && s[n - 1] < 0x80 && forall i | 0 <= i < n - 1 :: s[i] >= 0x80
    decreases |s|
  {
    if |s| > 0 && s[0] >= 0x80 {
      DecodeConsumes(s[1..]);
      if exists i | 0 <= i < |s| :: s[i] < 0x80 {
        var i :| 0 <= i < |s| && s[i] < 0x80;
        assert s[1..][i - 1] < 0x80;
      }
      if exists i | 0 <= i < |s[1..]| :: s[1..][i] < 0x80 {
        var i :| 0 <= i < |s[1..]| && s[1..][i] < 0x80;
        assert s[i + 1] < 0x80;
      }
    }
  }

  /** Round trip: decoding an encoding, whatever follows it, gives the number back and consumes exactly the encoding. */
  lemma {:induction false} DecodeEncode(x: nat, rest: seq<byte>)
    ensures Decode(Encode(x) + rest) == Some((x, |Encode(x)|))
    decreases x
  {
    var s := Encode(x) + rest;
    if x >= 0x80 {
      DecodeEncode(x / 0x80, rest);
      assert s[1..] == Encode(x / 0x80) + rest;
    }
  }

  /** Zig-zag form of a signed integer, as postcard encodes `i64`. */
  function ZigZag(x: int): (n: nat)
  {
    if x >= 0 then 2 * x else -2 * x - 1
  }

  function UnZigZag(n: nat): int
  {
    if n % 2 == 0 then n / 2 else -(n + 1) / 2
  }

  lemma {:induction false} ZigZagRoundTrip(x: int)
    ensures UnZigZag(ZigZag(x)) == x
  {
  }
}
