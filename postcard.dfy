/**
 * A stand-in for the postcard wire format, limited to the shapes the
 * firmware stores: unsigned integers as LEB128 varints, `i64` zig-zagged,
 * `bool`/`Option` tags as one byte, fixed arrays raw, `Vec`s as a varint
 * length followed by the elements. Decoders return the value and the bytes
 * after it; each encoder/decoder pair carries its round-trip lemma.
 */
module Postcard {
  import opened Bytes
  import opened Wrappers
  import Leb128

  function Varint(x: nat): seq<byte>
  {
    Leb128.Encode(x)
  }

  /** A varint whose value must not exceed `max` (the target integer type). */
  function DecVarint(s: seq<byte>, max: nat): (r: Option<(nat, seq<byte>)>)
    ensures r.Some? ==> r.value.0 <= max && |r.value.1| < |s|
  {
    match Leb128.Decode(s)
    case None => None
    case Some(p) => if p.0 <= max then Some((p.0, s[p.1..])) else None
  }

  lemma {:induction false} VarintRoundTrip(x: nat, max: nat, rest: seq<byte>)
    requires x <= max
    ensures DecVarint(Varint(x) + rest, max) == Some((x, rest))
  {
    Leb128.DecodeEncode(x, rest);
    assert (Varint(x) + rest)[|Varint(x)|..] == rest;
  }

  /** `i64`: zig-zag, then a varint. */
  function Signed(x: int): seq<byte>
  {
    Varint(Leb128.ZigZag(x))
  }

  function DecSigned(s: seq<byte>): (r: Option<(int, seq<byte>)>)
    ensures r.Some? ==> |r.value.1| < |s|
  {
    match DecVarint(s, U64_MAX)
    case None => None
    case Some(p) => Some((Leb128.UnZigZag(p.0), p.1))
  }

  lemma {:induction false} SignedRoundTrip(x: int, rest: seq<byte>)
    requires -0x8000_0000_0000_0000 <= x < 0x8000_0000_0000_0000
    ensures DecSigned(Signed(x) + rest) == Some((x, rest))
  {
    VarintRoundTrip(Leb128.ZigZag(x), U64_MAX, rest);
    Leb128.ZigZagRoundTrip(x);
  }

  /** Fixed-size byte arrays are written raw. */
  function DecRaw(s: seq<byte>, n: nat): (r: Option<(seq<byte>, seq<byte>)>)
    ensures r.Some? ==> |r.value.0| == n && r.value.0 + r.value.1 == s
  {
    if |s| < n then None else Some((s[..n], s[n..]))
  }

  lemma {:induction false} RawRoundTrip(b: seq<byte>, rest: seq<byte>)
    ensures DecRaw(b + rest, |b|) == Some((b, rest))
  {
    assert (b + rest)[..|b|] == b && (b + rest)[|b|..] == rest;
  }

  /** `Option<[u8; n]>`: tag 0 for None, tag 1 followed by the bytes for Some. */
  function OptRaw(o: Option<seq<byte>>): seq<byte>
  {
    match o
    case None => [0]
    case Some(b) => [1] + b
  }

  function DecOptRaw(s: seq<byte>, n: nat): (r: Option<(Option<seq<byte>>, seq<byte>)>)
    ensures r.Some? ==> |r.value.1| < |s| && (r.value.0.Some? ==> |r.value.0.value| == n)
  {
    if |s| == 0 then None
    else if s[0] == 0 then Some((None, s[1..]))
    else if s[0] == 1 then
      match DecRaw(s[1..], n)
      case None => None
      case Some(p) => Some((Some(p.0), p.1))
    else None
  }

  lemma {:induction false} OptRawRoundTrip(o: Option<seq<byte>>, n: nat, rest: seq<byte>)
    requires o.Some? ==> |o.value| == n
    ensures DecOptRaw(OptRaw(o) + rest, n) == Some((o, rest))
  {
    var s := OptRaw(o) + rest;
    assert s[1..] == if o.Some? then o.value + rest else rest;
    if o.Some? {
      RawRoundTrip(o.value, rest);
    }
  }

  /** `Vec<uN>`: a varint length, then each element as a varint. */
  function VarintSeq(xs: seq<nat>): seq<byte>
  {
    Varint(|xs|) + Varints(xs)
  }

  function Varints(xs: seq<nat>): seq<byte>
  {
    if xs == [] then [] else Varint(xs[0]) + Varints(xs[1..])
  }

  /** `count` varints each no larger than `max`. */
  function DecVarints(s: seq<byte>, count: nat, max: nat): (r: Option<(seq<nat>, seq<byte>)>)
    ensures r.Some? ==> |r.value.0| == count && |r.value.1| <= |s|
    ensures r.Some? ==> forall i | 0 <= i < count :: r.value.0[i] <= max
    decreases count
  {
    if count == 0 then Some(([], s))
    else match DecVarint(s, max)
      case None => None
      case Some(p) =>
        match DecVarints(p.1, count - 1, max)
        case None => None
        case Some(q) => Some(([p.0] + q.0, q.1))
  }

  /** A `Vec` whose capacity is `cap` (heapless) fails to decode when the length exceeds it. */
  function DecVarintSeq(s: seq<byte>, max: nat, cap: nat): (r: Option<(seq<nat>, seq<byte>)>)
    ensures r.Some? ==> |r.value.0| <= cap && |r.value.1| < |s|
    ensures r.Some? ==> forall i | 0 <= i < |r.value.0| :: r.value.0[i] <= max
  {
    match DecVarint(s, cap)
    case None => None
    case Some(p) => DecVarints(p.1, p.0, max)
  }

  lemma {:induction false} VarintsRoundTrip(xs: seq<nat>, max: nat, rest: seq<byte>)
    requires forall i | 0 <= i < |xs| :: xs[i] <= max
    ensures DecVarints(Varints(xs) + rest, |xs|, max) == Some((xs, rest))
    decreases |xs|
  {
    if xs == [] {
      assert Varints(xs) + rest == rest;
    } else {
      assert Varints(xs) + rest == Varint(xs[0]) + (Varints(xs[1..]) + rest);
      VarintRoundTrip(xs[0], max, Varints(xs[1..]) + rest);
      VarintsRoundTrip(xs[1..], max, rest);
      var p := DecVarint(Varints(xs) + rest, max);
      assert p == Some((xs[0], Varints(xs[1..]) + rest));
      var q := DecVarints(Varints(xs[1..]) + rest, |xs| - 1, max);
      assert q == Some((xs[1..], rest));
      assert [xs[0]] + xs[1..] == xs;
    }
  }

  lemma {:induction false} VarintSeqRoundTrip(xs: seq<nat>, max: nat, cap: nat, rest: seq<byte>)
    requires |xs| <= cap
    requires forall i | 0 <= i < |xs| :: xs[i] <= max
    ensures DecVarintSeq(VarintSeq(xs) + rest, max, cap) == Some((xs, rest))
  {
    assert VarintSeq(xs) + rest == Varint(|xs|) + (Varints(xs) + rest);
    VarintRoundTrip(|xs|, cap, Varints(xs) + rest);
    VarintsRoundTrip(xs, max, rest);
  }

  /** A value below 128^k takes at most k bytes. */
  lemma {:induction false} VarintLength(x: nat, k: nat)
    requires 0 < k && x < Pow128(k)
    ensures |Varint(x)| <= k
    decreases k
  {
    if x >= 0x80 {
      VarintLength(x / 0x80, k - 1);
    }
  }

  function Pow128(k: nat): (r: nat)
    ensures r > 0
  {
    if k == 0 then 1 else 0x80 * Pow128(k - 1)
  }

  /** Varints of `u8`-sized and `u16`-sized values. */
  lemma {:induction false} SmallVarints(x: nat)
    ensures x < 0x80 ==> |Varint(x)| == 1
    ensures x <= U16_MAX ==> |Varint(x)| <= 3
  {
    assert Pow128(3) == 0x20_0000 by {
      assert Pow128(1) == 0x80;
      assert Pow128(2) == 0x4000;
    }
    if x <= U16_MAX {
      VarintLength(x, 3);
    }
  }
}
