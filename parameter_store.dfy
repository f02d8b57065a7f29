/**
 * The device parameter block: one 1024-byte block holding a big-endian
 * length, the serialised `Parameters`, a big-endian CRC-32/CKSUM of length
 * and payload, and zero padding.
 */
module ParamStore {
  import opened Bytes
  import opened Wrappers
  import Crc
  import Postcard

  const BLOCK_SIZE: nat := 1024
  /** `MAX_PEERS` */
  const MAX_PEERS: nat := 16
  /** The largest payload `fetch` accepts: the block less length and checksum. */
  const MAX_PAYLOAD: nat := BLOCK_SIZE - 8

  type GraphIdBytes = s: seq<byte> | |s| == 32 witness seq(32, i => 0)
  type Peers = s: seq<u16> | |s| <= MAX_PEERS

  datatype RgbU8 = RgbU8(red: byte, green: byte, blue: byte)

  datatype Parameters = Parameters(graphId: Option<GraphIdBytes>, address: u16, peers: Peers, color: RgbU8)

  datatype StoreError = IO | PostcardError | Size | Corrupt

  /** The serialised form: fields in declaration order. */
  function Serialize(p: Parameters): (r: seq<byte>)
    ensures |r| <= 88
  {
    SerializedSize(p.address, p.peers);
    Postcard.OptRaw(match p.graphId case None => None case Some(g) => Some(g))
    + Postcard.Varint(p.address)
    + Postcard.VarintSeq(p.peers)
    + [p.color.red, p.color.green, p.color.blue]
  }

  /** `from_bytes`: decodes a value from the front of `s`; trailing bytes are ignored. */
  function Deserialize(s: seq<byte>): Option<Parameters>
  {
    match Postcard.DecOptRaw(s, 32)
    case None => None
    case Some(g) =>
      match Postcard.DecVarint(g.1, U16_MAX)
      case None => None
      case Some(a) =>
        var graphId: Option<GraphIdBytes> := if g.0.None? then None else Some(g.0.value);
        DeserializeTail(graphId, a.0, a.1)
  }

  /** The fields after `address`: the peer list and the colour. */
  function DeserializeTail(graphId: Option<GraphIdBytes>, address: u16, s: seq<byte>): Option<Parameters>
  {
    match Postcard.DecVarintSeq(s, U16_MAX, MAX_PEERS)
    case None => None
    case Some(ps) =>
      if |ps.1| < 3 then None
      else
        var peers: seq<u16> := seq(|ps.0|, i requires 0 <= i < |ps.0| => ps.0[i]);
        Some(Parameters(graphId, address, peers, RgbU8(ps.1[0], ps.1[1], ps.1[2])))
  }

  lemma {:induction false} TailRoundTrip(p: Parameters, rest: seq<byte>)
    ensures DeserializeTail(p.graphId, p.address,
      Postcard.VarintSeq(p.peers) + [p.color.red, p.color.green, p.color.blue] + rest) == Some(p)
  {
    var color := [p.color.red, p.color.green, p.color.blue];
    assert Postcard.VarintSeq(p.peers) + color + rest == Postcard.VarintSeq(p.peers) + (color + rest);
    Postcard.VarintSeqRoundTrip(p.peers, U16_MAX, MAX_PEERS, color + rest);
    var ps := Postcard.DecVarintSeq(Postcard.VarintSeq(p.peers) + (color + rest), U16_MAX, MAX_PEERS).value;
    assert ps.0 == p.peers;
    assert seq(|ps.0|, i requires 0 <= i < |ps.0| => ps.0[i]) == p.peers;
  }

  lemma {:induction false} SerializeRoundTrip(p: Parameters, rest: seq<byte>)
    ensures Deserialize(Serialize(p) + rest) == Some(p)
  {
    var og: Option<seq<byte>> := match p.graphId case None => None case Some(g) => Some(g);
    var tail2 := Postcard.VarintSeq(p.peers) + [p.color.red, p.color.green, p.color.blue] + rest;
    var tail1 := Postcard.Varint(p.address) + tail2;
    assert Serialize(p) + rest == Postcard.OptRaw(og) + tail1;
    Postcard.OptRawRoundTrip(og, 32, tail1);
    Postcard.VarintRoundTrip(p.address, U16_MAX, tail2);
    TailRoundTrip(p, rest);
  }

  /** Size bounds of the variable-length fields; they keep a serialised `Parameters` within 88 bytes. */
  lemma {:induction false} SerializedSize(address: u16, peers: Peers)
    ensures |Postcard.Varint(address)| <= 3
    ensures |Postcard.VarintSeq(peers)| <= 1 + 3 * MAX_PEERS
  {
    Postcard.SmallVarints(address);
    Postcard.SmallVarints(|peers|);
    VarintsSize(peers);
  }

  lemma {:induction false} VarintsSize(xs: seq<u16>)
    ensures |Postcard.Varints(xs)| <= 3 * |xs|
    decreases |xs|
  {
    if xs != [] {
      Postcard.SmallVarints(xs[0]);
      VarintsSize(xs[1..]);
    }
  }

  /** The checksum stored after the payload: CRC-32/CKSUM of the length field and payload, big-endian. */
  function Checksum(lengthAndPayload: seq<byte>): (c: seq<byte>)
    ensures |c| == 4
  {
    BE32(Crc.Crc32(lengthAndPayload))
  }

  /** The block `store` writes for a payload of `n` bytes. */
  function Block(payload: seq<byte>): (b: seq<byte>)
    requires |payload| <= MAX_PAYLOAD
    ensures |b| == BLOCK_SIZE
    ensures b[..4] == BE32(|payload|) && b[4..4 + |payload|] == payload
    ensures b[4 + |payload|..8 + |payload|] == Checksum(b[..4 + |payload|])
    ensures forall i | 8 + |payload| <= i < BLOCK_SIZE :: b[i] == 0
  {
    var head := BE32(|payload|) + payload;
    var padding: seq<byte> := seq(BLOCK_SIZE - 8 - |payload|, i => 0);
    var b := head + Checksum(head) + padding;
    assert b[..4] == head[..4] == BE32(|payload|);
    assert b[4..4 + |payload|] == head[4..] == payload;
    assert b[..4 + |payload|] == head;
    assert b[4 + |payload|..8 + |payload|] == Checksum(head);
    assert forall i | 8 + |payload| <= i < BLOCK_SIZE :: b[i] == padding[i - 8 - |payload|];
    b
  }

  /** What `fetch` makes of a block it has read. */
  function FetchBlock(b: seq<byte>): (r: Result<Parameters, StoreError>)
    requires |b| == BLOCK_SIZE
    ensures FromBE32(b[0..4]) > MAX_PAYLOAD ==> r == Err(Corrupt)
    ensures FromBE32(b[0..4]) <= MAX_PAYLOAD ==>
      var n := FromBE32(b[0..4]);
      (b[n + 4..n + 8] != Checksum(b[0..n + 4]) ==> r == Err(Corrupt)) &&
      (b[n + 4..n + 8] == Checksum(b[0..n + 4]) ==>
        r == match Deserialize(b[4..n + 4]) case None => Err(PostcardError) case Some(v) => Ok(v))
  {
    var dataSize := FromBE32(b[0..4]);
    if dataSize > MAX_PAYLOAD then Err(Corrupt)
    else if Checksum(b[0..dataSize + 4]) != b[dataSize + 4..dataSize + 8] then Err(Corrupt)
    else match Deserialize(b[4..dataSize + 4])
      case None => Err(PostcardError)
      case Some(v) => Ok(v)
  }

  /** Round trip: the block written for `v` is read back as `v`. */
  lemma {:induction false} FetchStoredBlock(v: Parameters)
    ensures |Serialize(v)| <= MAX_PAYLOAD
    ensures FetchBlock(Block(Serialize(v))) == Ok(v)
  {
    var payload := Serialize(v);
    var b := Block(payload);
    BE32RoundTrip(|payload|);
    assert b[4..|payload| + 4] == payload + [];
    SerializeRoundTrip(v, []);
  }

  /** A block whose stored checksum does not match is never accepted. */
  lemma {:induction false} FetchChecksBlock(b: seq<byte>)
    requires |b| == BLOCK_SIZE && FetchBlock(b).Ok?
    ensures FromBE32(b[0..4]) <= MAX_PAYLOAD
    ensures var n := FromBE32(b[0..4]); b[n + 4..n + 8] == Checksum(b[..n + 4])
    ensures Deserialize(b[4..FromBE32(b[0..4]) + 4]) == Some(FetchBlock(b).value)
  {
  }

  /**
   * The store, over a block device that reads and writes the whole block at
   * once. Each I/O call's success is an input of the operation that makes it.
   */
  class ParameterStore {
    const io: array<byte>

    predicate Valid()
      reads this
    {
      io.Length == BLOCK_SIZE
    }

    constructor(io: array<byte>)
      requires io.Length == BLOCK_SIZE
      ensures this.io == io && Valid()
    {
      this.io := io;
    }

    /** `fetch`: read the block, check length and checksum, decode. */
    function Fetch(readOk: bool): (r: Result<Parameters, StoreError>)
      requires Valid()
      reads this, io
      ensures !readOk ==> r == Err(IO)
      ensures readOk ==> r == FetchBlock(io[..])
    {
      if !readOk then Err(IO) else FetchBlock(io[..])
    }

    /** `store`: serialise, frame, pad, write the whole block, then re-fetch. */
    method Store(v: Parameters, writeOk: bool, readOk: bool) returns (r: Result<Parameters, StoreError>)
      requires Valid()
      modifies io
      ensures Valid()
      ensures writeOk ==> io[..] == Block(Serialize(v))
      ensures !writeOk ==> io[..] == old(io[..]) && r == Err(IO)
      ensures writeOk ==> r == (if readOk then Ok(v) else Err(IO))
    {
      var serialized := Serialize(v);
      var buffer: seq<byte> := [];
      buffer := buffer + BE32(|serialized|);
      buffer := buffer + serialized;
      assert buffer == BE32(|serialized|) + serialized;
      var checksum := Checksum(buffer[..|serialized| + 4]);
      assert buffer[..|serialized| + 4] == buffer;
      buffer := buffer + checksum;
      buffer := buffer + seq(BLOCK_SIZE - |buffer|, i => 0);
      assert buffer == Block(serialized);
      if !writeOk {
        return Err(IO);
      }
      forall i | 0 <= i < BLOCK_SIZE {
        io[i] := buffer[i];
      }
      assert io[..] == buffer;
      FetchStoredBlock(v);
      r := Fetch(readOk);
    }

    /** `update`: fetch, apply `f`, store; any error propagates from the step that failed. */
    method Update(f: Parameters -> Parameters, firstReadOk: bool, writeOk: bool, secondReadOk: bool)
      returns (r: Result<Parameters, StoreError>)
      requires Valid()
      modifies io
      ensures Valid()
      ensures old(Fetch(firstReadOk)).Err? ==> r == old(Fetch(firstReadOk)) && io[..] == old(io[..])
      ensures old(Fetch(firstReadOk)).Ok? ==>
        var v := f(old(Fetch(firstReadOk)).value);
        (writeOk ==> io[..] == Block(Serialize(v))) &&
        (!writeOk ==> io[..] == old(io[..])) &&
        r == (if writeOk && secondReadOk then Ok(v) else Err(IO))
    {
      var fetched := Fetch(firstReadOk);
      if fetched.Err? {
        return Err(fetched.error);
      }
      var v := f(fetched.value);
      var stored := Store(v, writeOk, secondReadOk);
      if stored.Err? {
        return Err(stored.error);
      }
      r := Ok(v);
    }
  }
}
