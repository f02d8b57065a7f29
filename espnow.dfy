/**
 * ESP-NOW link layer of the chat application: the on-air frame, the
 * receive filter, per-sender message reassembly and the send path.
 *
 * Frame: F0 0F F0 | recipient u16 BE | sender u16 BE | message_seq u8 |
 * chunk_len u16 BE | total_len u16 BE | contents | CRC-16/XMODEM u16 BE,
 * the CRC covering everything after the three magic bytes.
 *
 * The RaptorQ (RFC 6330) encoder and decoder are opaque: they are passed in
 * as functions.  The radio is modelled by the frames it delivers and by a
 * flag saying whether a transmission succeeded.
 */
module EspNow {
  import opened Bytes
  import opened Wrappers
  import opened Crc
  import opened Util

  const MAGIC: seq<byte> := [0xF0, 0x0F, 0xF0]
  const CHUNK_SIZE: nat := 64
  const HEADER_SIZE: nat := 9
  const CRC_SIZE: nat := 2
  const RAPTORQ_OVERHEAD: nat := 4
  /** Capacity of a packet's contents vector. */
  const MAX_CONTENTS: nat := CHUNK_SIZE + RAPTORQ_OVERHEAD
  const PACKET_SIZE: nat := |MAGIC| + HEADER_SIZE + CHUNK_SIZE + CRC_SIZE + RAPTORQ_OVERHEAD
  const RANDOM_MIN: nat := 25
  const RANDOM_SPREAD: nat := 100
  const SEND_RETRY_DELAY_MS: nat := 50
  /** `EspNowNetworkInterface::BROADCAST` */
  const BROADCAST: u16 := 0

  /** `EspNowPacket`; `contents` holds at most MAX_CONTENTS bytes. */
  datatype Packet = Packet(recipient: u16, sender: u16, messageSeq: byte, chunkLen: u16, totalLen: u16, contents: seq<byte>)

  /** A network-level message. */
  datatype Message = Message(recipient: u16, sender: u16, contents: seq<byte>)

  datatype EspNowError = EspNowFailure

  /** How `recv_packet` treats one received buffer. */
  datatype SkipReason = BadMagic | NotForMe | ChunkTooLong | BadChecksum
  datatype Outcome = Accepted(packet: Packet) | Skipped(reason: SkipReason) | Panicked

  /** The opaque RaptorQ pieces: the decoder sees every encoded packet fed since it was created. */
  type Decoder = (u16, seq<seq<byte>>) -> Option<seq<byte>>
  type Encoder = (seq<byte>, nat) -> seq<seq<byte>>

  // ---------------------------------------------------------------- timing

  /** `random_delay`: the pause after a successful send, derived from the frame CRC. */
  function RandomDelay(crc: u16): (d: nat)
    ensures RANDOM_MIN <= d < RANDOM_MIN + RANDOM_SPREAD
    ensures d == 25 + crc % 100
  {
    RANDOM_MIN + crc % RANDOM_SPREAD
  }

  /** The pause `run_sender` takes after one `send_packet` result. */
  function SenderDelay(r: Result<u16, EspNowError>): (d: nat)
    ensures r.Err? ==> d == SEND_RETRY_DELAY_MS
    ensures 25 <= d <= 124
  {
    match r
    case Ok(crc) => RandomDelay(crc)
    case Err(_) => SEND_RETRY_DELAY_MS
  }

  // ---------------------------------------------------------------- frame

  /** The nine header bytes after the magic. */
  function Header(recipient: u16, sender: u16, messageSeq: byte, chunkLen: u16, totalLen: u16): (h: seq<byte>)
    ensures |h| == HEADER_SIZE
  {
    BE16(recipient) + BE16(sender) + [messageSeq] + BE16(chunkLen) + BE16(totalLen)
  }

  /** The CRC-protected part of the frame sent by `sender` for packet `p`. */
  function Body(sender: u16, p: Packet): seq<byte>
  {
    Header(p.recipient, sender, p.messageSeq, p.chunkLen, p.totalLen) + p.contents
  }

  /** The frame `send_packet` transmits when the engine's own address is `myAddress`. */
  function Frame(myAddress: u16, p: Packet): seq<byte>
  {
    MAGIC + Body(myAddress, p) + BE16(Crc16(Body(myAddress, p)))
  }

  /**
   * `send_packet`: assemble the frame piece by piece, checksum everything
   * after the magic, append the CRC and hand the frame to the radio. The sender
   * field is always `myAddress`, never `p.sender`.
   */
  method SendPacket(myAddress: u16, p: Packet, radioOk: bool) returns (r: Result<u16, EspNowError>, frame: seq<byte>)
    requires |p.contents| <= MAX_CONTENTS
    ensures frame == Frame(myAddress, p) && |frame| <= PACKET_SIZE
    ensures frame[..3] == MAGIC && frame[5..7] == BE16(myAddress)
    ensures r == if radioOk then Ok(Crc16(frame[3..|frame| - 2])) else Err(EspNowFailure)
  {
    var buf := MAGIC;
    buf := buf + BE16(p.recipient);
    buf := buf + BE16(myAddress);
    buf := buf + [p.messageSeq];
    buf := buf + BE16(p.chunkLen);
    buf := buf + BE16(p.totalLen);
    buf := buf + p.contents;
    assert buf[3..] == Body(myAddress, p);
    var crc := Crc16(buf[3..]);
    buf := buf + BE16(crc);
    frame := buf;
    assert frame[3..|frame| - 2] == Body(myAddress, p);
    assert frame[5..7] == BE16(myAddress);
    r := if radioOk then Ok(crc) else Err(EspNowFailure);
  }

  /** Byte-exact layout of a frame. */
  lemma {:induction false} FrameLayout(myAddress: u16, p: Packet)
    ensures var f := Frame(myAddress, p); var n := |p.contents|;
      |f| == 3 + HEADER_SIZE + n + CRC_SIZE
      && f[..3] == MAGIC
      && f[3..5] == BE16(p.recipient) && f[5..7] == BE16(myAddress)
      && f[7] == p.messageSeq
      && f[8..10] == BE16(p.chunkLen) && f[10..12] == BE16(p.totalLen)
      && f[12..12 + n] == p.contents
      && f[12 + n..] == BE16(Crc16(f[3..12 + n]))
  {
    var f := Frame(myAddress, p);
    var n := |p.contents|;
    assert f[3..12 + n] == Body(myAddress, p);
  }

  // ---------------------------------------------------------------- receive filter

  /**
   * What `recv_packet` does with one received buffer `data`, in the order the
   * source checks: slicing past the end of `data` panics.
   */
  function Classify(myAddress: u16, data: seq<byte>): Outcome
  {
    if |data| < 3 then Panicked
    else if data[..3] != MAGIC then Skipped(BadMagic)
    else
      var input := data[3..];
      if |input| < HEADER_SIZE then Panicked
      else
        var recipient := FromBE16(input[0..2]);
        if recipient != myAddress && recipient != BROADCAST then Skipped(NotForMe)
        else
          var chunkLen := FromBE16(input[5..7]);
          if chunkLen > MAX_CONTENTS then Skipped(ChunkTooLong)
          else
            var rest := input[HEADER_SIZE..];
            if |rest| < chunkLen + CRC_SIZE then Panicked
            else
              var digest := Update16(Update16(0, input[..HEADER_SIZE]), rest[..chunkLen]);
              if digest as int != FromBE16(rest[chunkLen..chunkLen + 2]) then Skipped(BadChecksum)
              else Accepted(Packet(myAddress, FromBE16(input[2..4]), input[4], chunkLen, FromBE16(input[7..9]), rest[..chunkLen]))
  }

  /**
   * One pass of the `recv_packet` loop body over `data`, reading the header
   * with a `SliceCursor` as the source does.
   */
  method ReceiveOne(myAddress: u16, data: seq<byte>) returns (o: Outcome)
    ensures o == Classify(myAddress, data)
  {
    if |data| < 3 {
      return Panicked;
    }
    if data[..3] != MAGIC {
      return Skipped(BadMagic);
    }
    var input := data[3..];
    if |input| < HEADER_SIZE {
      return Panicked;
    }
    var header := input[..HEADER_SIZE];
    assert header[0..2] == input[0..2] && header[2..4] == input[2..4] && header[4] == input[4];
    assert header[5..7] == input[5..7] && header[7..9] == input[7..9];
    var digest := Update16(0, header);
    var sc := new SliceCursor(header);
    var recipient := sc.NextU16Be();
    if recipient != myAddress && recipient != BROADCAST {
      return Skipped(NotForMe);
    }
    var sender := sc.NextU16Be();
    var chunkSeq := sc.NextU8();
    var chunkLen := sc.NextU16Be();
    if chunkLen > MAX_CONTENTS {
      return Skipped(ChunkTooLong);
    }
    var totalLen := sc.NextU16Be();
    assert sc.Remaining() == 0;
    var rest := input[HEADER_SIZE..];
    if |rest| < chunkLen + CRC_SIZE {
      return Panicked;
    }
    var checksum := FromBE16(rest[chunkLen..chunkLen + 2]);
    digest := Update16(digest, rest[..chunkLen]);
    if digest as int != checksum {
      return Skipped(BadChecksum);
    }
    o := Accepted(Packet(myAddress, sender, chunkSeq, chunkLen, totalLen, rest[..chunkLen]));
  }

  /** The end of a `recv_packet` call over the buffers the radio delivered. */
  datatype RecvResult = Got(packet: Packet) | Crashed | Exhausted

  /**
   * `recv_packet`: classify buffers until one is accepted; skipped buffers are
   * dropped and scanning goes on. `Exhausted` means the model ran out of
   * input where the firmware would wait for the next buffer.
   */
  method RecvPacket(myAddress: u16, incoming: seq<seq<byte>>) returns (r: RecvResult, used: nat)
    ensures used <= |incoming|
    ensures forall i | 0 <= i < used - 1 :: Classify(myAddress, incoming[i]).Skipped?
    ensures r.Got? ==> used > 0 && Classify(myAddress, incoming[used - 1]) == Accepted(r.packet)
    ensures r.Crashed? ==> used > 0 && Classify(myAddress, incoming[used - 1]) == Panicked
    ensures r.Exhausted? ==> used == |incoming| && forall i | 0 <= i < used :: Classify(myAddress, incoming[i]).Skipped?
  {
    used := 0;
    while used < |incoming|
      invariant used <= |incoming|
      invariant forall i | 0 <= i < used :: Classify(myAddress, incoming[i]).Skipped?
    {
      var o := ReceiveOne(myAddress, incoming[used]);
      used := used + 1;
      match o {
        case Accepted(p) => return Got(p), used;
        case Panicked => return Crashed, used;
        case Skipped(_) =>
      }
    }
    r := Exhausted;
  }

  lemma {:induction false} BE16OfFromBE16(s: seq<byte>)
    requires |s| == 2
    ensures BE16(FromBE16(s)) == s
  {
  }

  /** The fields `recv_packet` reads back from a frame followed by `trailing`. */
  lemma {:induction false} FrameFields(from: u16, p: Packet, trailing: seq<byte>)
    requires p.chunkLen == |p.contents|
    ensures var d := Frame(from, p) + trailing; var n := |p.contents|;
      |d| >= 3 + HEADER_SIZE + n + CRC_SIZE && d[..3] == MAGIC
      && var input := d[3..]; var rest := input[HEADER_SIZE..];
      FromBE16(input[0..2]) == p.recipient && FromBE16(input[2..4]) == from
      && input[4] == p.messageSeq && FromBE16(input[5..7]) == p.chunkLen && FromBE16(input[7..9]) == p.totalLen
      && rest[..n] == p.contents && FromBE16(rest[n..n + 2]) == Crc16(Body(from, p))
      && input[..HEADER_SIZE] + rest[..n] == Body(from, p)
  {
    var d := Frame(from, p) + trailing;
    var n := |p.contents|;
    FrameLayout(from, p);
    var input := d[3..];
    assert input[0..2] == BE16(p.recipient);
    assert input[2..4] == BE16(from);
    assert input[5..7] == BE16(p.chunkLen);
    assert input[7..9] == BE16(p.totalLen);
    BE16RoundTrip(p.recipient);
    BE16RoundTrip(from);
    BE16RoundTrip(p.chunkLen);
    BE16RoundTrip(p.totalLen);
    var rest := input[HEADER_SIZE..];
    assert rest[..n] == p.contents;
    assert rest[n..n + 2] == BE16(Crc16(Body(from, p)));
    BE16RoundTrip(Crc16(Body(from, p)));
    assert input[..HEADER_SIZE] + rest[..n] == Body(from, p);
  }

  /**
   * Round trip: a frame sent by `from` for a packet addressed to this node or
   * to broadcast, whose `chunk_len` is its contents length (at most 68), is
   * accepted whatever trails it, with the same fields and recipient `myAddress`.
   */
  lemma {:induction false} FrameRoundTrip(myAddress: u16, from: u16, p: Packet, trailing: seq<byte>)
    requires p.recipient == myAddress || p.recipient == BROADCAST
    requires p.chunkLen == |p.contents| <= MAX_CONTENTS
    ensures Classify(myAddress, Frame(from, p) + trailing)
         == Accepted(Packet(myAddress, from, p.messageSeq, p.chunkLen, p.totalLen, p.contents))
  {
    var d := Frame(from, p) + trailing;
    var n := |p.contents|;
    FrameFields(from, p, trailing);
    var input := d[3..];
    Update16Append(0, input[..HEADER_SIZE], input[HEADER_SIZE..][..n]);
  }

  /** What an accepted buffer holds, field by field. */
  lemma {:induction false} AcceptedFields(myAddress: u16, data: seq<byte>)
    requires Classify(myAddress, data).Accepted?
    ensures var q := Classify(myAddress, data).packet; var n := q.chunkLen;
      |data| >= 3 + HEADER_SIZE + n + CRC_SIZE && data[..3] == MAGIC
      && var input := data[3..]; var rest := input[HEADER_SIZE..];
      var recipient := FromBE16(input[0..2]);
      (recipient == myAddress || recipient == BROADCAST)
      && q.recipient == myAddress && q.sender == FromBE16(input[2..4]) && q.messageSeq == input[4]
      && q.chunkLen == FromBE16(input[5..7]) <= MAX_CONTENTS && q.totalLen == FromBE16(input[7..9])
      && q.contents == rest[..n]
      && Update16(0, input[..HEADER_SIZE] + rest[..n]) as int == FromBE16(rest[n..n + 2])
  {
    var q := Classify(myAddress, data).packet;
    var input := data[3..];
    Update16Append(0, input[..HEADER_SIZE], input[HEADER_SIZE..][..q.chunkLen]);
  }

  /**
   * Converse of the round trip: whatever is accepted is a well-formed frame
   * from its sender for a packet addressed to this node or to broadcast,
   * possibly followed by trailing bytes.
   */
  lemma {:induction false} AcceptedIsFrame(myAddress: u16, data: seq<byte>)
    requires Classify(myAddress, data).Accepted?
    ensures var q := Classify(myAddress, data).packet;
      exists recipient: u16 | recipient == myAddress || recipient == BROADCAST ::
        var p := Packet(recipient, q.sender, q.messageSeq, q.chunkLen, q.totalLen, q.contents);
        |Frame(q.sender, p)| <= |data| && data[..|Frame(q.sender, p)|] == Frame(q.sender, p)
    ensures var q := Classify(myAddress, data).packet;
      q.recipient == myAddress && q.chunkLen == |q.contents| <= MAX_CONTENTS
  {
    var q := Classify(myAddress, data).packet;
    AcceptedFields(myAddress, data);
    var input := data[3..];
    var recipient := FromBE16(input[0..2]);
    var p := Packet(recipient, q.sender, q.messageSeq, q.chunkLen, q.totalLen, q.contents);
    var n := q.chunkLen;
    var rest := input[HEADER_SIZE..];
    BE16OfFromBE16(input[0..2]);
    BE16OfFromBE16(input[2..4]);
    BE16OfFromBE16(input[5..7]);
    BE16OfFromBE16(input[7..9]);
    BE16OfFromBE16(rest[n..n + 2]);
    assert input[..HEADER_SIZE] == Header(recipient, q.sender, q.messageSeq, q.chunkLen, q.totalLen);
    assert input[..HEADER_SIZE] + rest[..n] == Body(q.sender, p);
    var f := Frame(q.sender, p);
    assert f == data[..|f|];
  }

  /** Any buffer whose first three bytes are not the magic is skipped (when it has three bytes). */
  lemma {:induction false} BadMagicSkipped(myAddress: u16, data: seq<byte>)
    requires |data| >= 3 && data[..3] != MAGIC
    ensures Classify(myAddress, data) == Skipped(BadMagic)
  {
  }

  // ---------------------------------------------------------------- reassembly

  /** The abstract state of one reconstructor. */
  datatype ReconState = ReconState(messageSeq: byte, totalLen: u16, packetsRecvd: nat, finished: bool, fed: seq<seq<byte>>)

  /** The state `new(initial_packet)` gives: the packet's seq and length, nothing fed. */
  function Fresh(initial: Packet): ReconState
  {
    ReconState(initial.messageSeq, initial.totalLen, 0, false, [])
  }

  /**
   * `add_packet` on the abstract state: the new state and what the decoder
   * returned.  A packet of another seq or length restarts reassembly with
   * it; a packet of a finished message is dropped uncounted; otherwise it
   * is counted and given to the decoder, and a decoded message latches
   * `finished`.
   */
  function AddStep(st: ReconState, p: Packet, decode: Decoder): (r: (ReconState, Option<seq<byte>>))
    ensures r.0.messageSeq == p.messageSeq && r.0.totalLen == p.totalLen
    ensures r.1.Some? ==>
      (r.0.finished && |r.0.fed| > 0 && r.0.fed[|r.0.fed| - 1] == p.contents && r.1 == decode(r.0.totalLen, r.0.fed))
    ensures st.finished && r.0.messageSeq == st.messageSeq && r.0.totalLen == st.totalLen ==> r == (st, None)
    ensures !st.finished && r.0.messageSeq == st.messageSeq && r.0.totalLen == st.totalLen ==>
      (r.0.fed == st.fed + [p.contents] && r.0.packetsRecvd == st.packetsRecvd + 1)
    ensures (r.0.messageSeq != st.messageSeq || r.0.totalLen != st.totalLen) ==>
      (r.0.fed == [p.contents] && r.0.packetsRecvd == 1)
  {
    if p.messageSeq != st.messageSeq || p.totalLen != st.totalLen then
      var out := decode(p.totalLen, [p.contents]);
      (ReconState(p.messageSeq, p.totalLen, 1, out.Some?, [p.contents]), out)
    else if st.finished then
      (st, None)
    else
      var out := decode(st.totalLen, st.fed + [p.contents]);
      (ReconState(st.messageSeq, st.totalLen, st.packetsRecvd + 1, out.Some?, st.fed + [p.contents]), out)
  }

  /** `EspNowMessageReconstructor`; `fed` is what its RaptorQ decoder has been given. */
  class Reconstructor {
    var messageSeq: byte
    var totalLen: u16
    var packetsRecvd: nat
    var finished: bool
    var fed: seq<seq<byte>>

    function State(): ReconState
      reads this
    {
      ReconState(messageSeq, totalLen, packetsRecvd, finished, fed)
    }

    /** `new(initial_packet)`: takes the packet's seq and length; the packet itself is not added. */
    constructor (initial: Packet)
      ensures State() == Fresh(initial)
    {
      messageSeq := initial.messageSeq;
      totalLen := initial.totalLen;
      packetsRecvd := 0;
      finished := false;
      fed := [];
    }

    /** `add_packet`: the state moves, and the result is, as `AddStep` says. */
    method AddPacket(p: Packet, decode: Decoder) returns (r: Option<seq<byte>>)
      modifies this
      ensures (State(), r) == AddStep(old(State()), p, decode)
    {
      if p.messageSeq != messageSeq || p.totalLen != totalLen {
        messageSeq := p.messageSeq;
        totalLen := p.totalLen;
        packetsRecvd := 0;
        finished := false;
        fed := [];
        assert fed + [p.contents] == [p.contents];
      } else if finished {
        return None;
      }
      packetsRecvd := packetsRecvd + 1;
      fed := fed + [p.contents];
      r := decode(totalLen, fed);
      if r.Some? {
        finished := true;
      }
    }
  }

  /** Once finished, a reconstructor stays finished until a packet of another seq or length arrives. */
  method FinishedLatches(rc: Reconstructor, p: Packet, decode: Decoder) returns (r: Option<seq<byte>>)
    requires rc.finished && p.messageSeq == rc.messageSeq && p.totalLen == rc.totalLen
    modifies rc
    ensures r == None && rc.finished && rc.packetsRecvd == old(rc.packetsRecvd)
  {
    r := rc.AddPacket(p, decode);
  }

  // ---------------------------------------------------------------- interface

  /** The packets of one message, in the order the encoder produced them. */
  function MessagePackets(recipient: u16, myAddress: u16, messageSeq: byte, contents: seq<byte>, encoded: seq<seq<byte>>): (ps: seq<Packet>)
    ensures |ps| == |encoded|
    ensures forall i | 0 <= i < |ps| ::
      (ps[i].messageSeq == messageSeq && ps[i].totalLen == |contents| % 0x1_0000
       && ps[i].recipient == recipient && ps[i].sender == myAddress
       && ps[i].contents == encoded[i] && ps[i].chunkLen == |encoded[i]| % 0x1_0000)
  {
    seq(|encoded|, i requires 0 <= i < |encoded| =>
      Packet(recipient, myAddress, messageSeq, |encoded[i]| % 0x1_0000, |contents| % 0x1_0000, encoded[i]))
  }

  /** Repair packets requested for a message of `totalLen` bytes: 20% extra per full chunk. */
  function RepairPackets(totalLen: nat): (n: nat)
    ensures n <= totalLen / CHUNK_SIZE * 12 / 10 < totalLen / CHUNK_SIZE + totalLen / CHUNK_SIZE / 4 + 1
  {
    (totalLen / CHUNK_SIZE) * 12 / 10
  }

  datatype DeliverResult = Nothing | Assembled(message: Message)

  /** The senders of a run of packets. */
  function Senders(ps: seq<Packet>): set<u16>
  {
    if ps == [] then {} else Senders(ps[..|ps| - 1]) + {ps[|ps| - 1].sender}
  }

  /**
   * One iteration of `recv` on the reconstructors' abstract states: the
   * sender's reconstructor is created from the packet when there is none,
   * then the packet is added to it; a decoded message is addressed as the
   * packet was.
   */
  function DeliverStep(states: map<u16, ReconState>, p: Packet, decode: Decoder): (r: (map<u16, ReconState>, DeliverResult))
    ensures r.0.Keys == states.Keys + {p.sender}
    ensures forall s | s in states && s != p.sender :: r.0[s] == states[s]
    ensures r.1.Assembled? ==>
      r.1.message.sender == p.sender && r.1.message.recipient == p.recipient
      && r.0[p.sender].finished && Some(r.1.message.contents) == decode(r.0[p.sender].totalLen, r.0[p.sender].fed)
  {
    var st := if p.sender in states then states[p.sender] else Fresh(p);
    var (next, out) := AddStep(st, p, decode);
    (states[p.sender := next], if out.Some? then Assembled(Message(p.recipient, p.sender, out.value)) else Nothing)
  }

  /**
   * `recv` over the packets the channel yields, on abstract states: packets
   * are delivered one by one until one completes a message.  The result is
   * the final states, the message if any, and how many packets were taken.
   */
  function RecvFold(states: map<u16, ReconState>, incoming: seq<Packet>, decode: Decoder): (r: (map<u16, ReconState>, Option<Message>, nat))
    ensures r.2 <= |incoming|
    ensures r.1.None? ==> r.2 == |incoming|
    decreases |incoming|
  {
    if incoming == [] then (states, None, 0)
    else
      var (next, d) := DeliverStep(states, incoming[0], decode);
      if d.Assembled? then (next, Some(d.message), 1)
      else
        var (last, m, n) := RecvFold(next, incoming[1..], decode);
        (last, m, n + 1)
  }

  /**
   * One more packet of a run whose first `used` packets completed nothing:
   * the fold either stops at it or carries on from the state it leaves.
   */
  lemma {:induction false} RecvFoldAdvance(start: map<u16, ReconState>, states: map<u16, ReconState>, incoming: seq<Packet>, decode: Decoder, used: nat)
    requires used < |incoming|
    requires RecvFold(start, incoming, decode) == Later(RecvFold(states, incoming[used..], decode), used)
    ensures DeliverStep(states, incoming[used], decode).1.Assembled? ==>
      RecvFold(start, incoming, decode)
      == (DeliverStep(states, incoming[used], decode).0, Some(DeliverStep(states, incoming[used], decode).1.message), used + 1)
    ensures DeliverStep(states, incoming[used], decode).1.Nothing? ==>
      RecvFold(start, incoming, decode)
      == Later(RecvFold(DeliverStep(states, incoming[used], decode).0, incoming[used + 1..], decode), used + 1)
  {
    assert incoming[used..][0] == incoming[used];
    assert incoming[used..][1..] == incoming[used + 1..];
  }

  /**
   * The message `recv` returns comes from the last packet it took: it is
   * addressed as that packet was, and its contents are what the decoder made
   * of the sender's finished reconstruction.
   */
  lemma {:induction false} RecvFoldFound(states: map<u16, ReconState>, incoming: seq<Packet>, decode: Decoder)
    ensures var r := RecvFold(states, incoming, decode);
      r.1.Some? ==>
        (r.2 > 0
         && r.1.value.sender == incoming[r.2 - 1].sender && r.1.value.recipient == incoming[r.2 - 1].recipient
         && incoming[r.2 - 1].sender in r.0
         && r.0[incoming[r.2 - 1].sender].finished
         && Some(r.1.value.contents) == decode(r.0[incoming[r.2 - 1].sender].totalLen, r.0[incoming[r.2 - 1].sender].fed))
    decreases |incoming|
  {
    if incoming != [] {
      var (next, d) := DeliverStep(states, incoming[0], decode);
      if d.Nothing? {
        RecvFoldFound(next, incoming[1..], decode);
        var r := RecvFold(next, incoming[1..], decode);
        if r.1.Some? {
          assert incoming[1..][r.2 - 1] == incoming[r.2];
        }
      }
    }
  }

  /** The senders with a reconstructor after `recv` are those before it and those of the packets it took. */
  lemma {:induction false} RecvFoldKeys(states: map<u16, ReconState>, incoming: seq<Packet>, decode: Decoder)
    ensures var r := RecvFold(states, incoming, decode);
      r.0.Keys == states.Keys + Senders(incoming[..r.2])
    decreases |incoming|
  {
    var r := RecvFold(states, incoming, decode);
    if incoming == [] {
      assert incoming[..r.2] == [];
    } else {
      var step := DeliverStep(states, incoming[0], decode);
      SendersCons(incoming[..r.2]);
      if step.1.Nothing? {
        RecvFoldKeys(step.0, incoming[1..], decode);
        assert incoming[..r.2][1..] == incoming[1..][..r.2 - 1];
      } else {
        assert incoming[..r.2][1..] == [];
      }
    }
  }

  /** Senders of a sequence, head first. */
  lemma {:induction false} SendersCons(ps: seq<Packet>)
    requires ps != []
    ensures Senders(ps) == {ps[0].sender} + Senders(ps[1..])
    decreases |ps|
  {
    if |ps| > 1 {
      SendersCons(ps[..|ps| - 1]);
      assert ps[..|ps| - 1][1..] == ps[1..][..|ps[1..]| - 1];
    } else {
      assert ps[..0] == [];
      assert ps[1..] == [];
    }
  }

  /** A fold result seen from `k` packets earlier. */
  function Later(t: (map<u16, ReconState>, Option<Message>, nat), k: nat): (map<u16, ReconState>, Option<Message>, nat)
  {
    (t.0, t.1, t.2 + k)
  }

  /** No packet before the one `recv` stops at completes a message: every shorter run ends without one. */
  lemma {:induction false} RecvFoldFirst(states: map<u16, ReconState>, incoming: seq<Packet>, decode: Decoder, k: nat)
    requires k < RecvFold(states, incoming, decode).2 || (k <= |incoming| && RecvFold(states, incoming, decode).1.None?)
    ensures RecvFold(states, incoming[..k], decode).1.None?
    decreases |incoming|
  {
    if k > 0 {
      var (next, d) := DeliverStep(states, incoming[0], decode);
      assert incoming[..k][0] == incoming[0];
      assert incoming[..k][1..] == incoming[1..][..k - 1];
      if d.Nothing? {
        RecvFoldFirst(next, incoming[1..], decode, k - 1);
      }
    }
  }

  /** A map that agrees with `m` except at `k`, where it is defined, is `m` updated at `k`. */
  lemma {:induction false} UpdatedAt(after: map<u16, ReconState>, m: map<u16, ReconState>, k: u16)
    requires after.Keys == m.Keys + {k}
    requires forall s | s in after && s != k :: after[s] == m[s]
    ensures after == m[k := after[k]]
  {
  }

  /** `EspNowNetworkInterface`: its send queue is `sent`. */
  class Interface {
    const myAddress: u16
    var messageSeq: byte
    var reconstructors: map<u16, Reconstructor>
    var sent: seq<Packet>
    /** The sender each reconstructor belongs to. */
    ghost var owner: map<Reconstructor, u16>

    /** The abstract state of each sender's reconstructor. */
    ghost function States(): map<u16, ReconState>
      reads this, set s | s in reconstructors :: reconstructors[s]
    {
      map s | s in reconstructors :: reconstructors[s].State()
    }

    /** Distinct senders never share a reconstructor object. */
    ghost predicate Valid()
      reads this
    {
      forall s | s in reconstructors :: reconstructors[s] in owner && owner[reconstructors[s]] == s
    }

    /** `EspNowNetworkEngine::interface()` */
    constructor (myAddress: u16)
      ensures Valid() && this.myAddress == myAddress && messageSeq == 0 && reconstructors == map[] && sent == []
    {
      this.myAddress := myAddress;
      messageSeq := 0;
      reconstructors := map[];
      sent := [];
      owner := map[];
    }

    /**
     * `send`: bump the sequence number (wrapping at 256) once for the whole
     * message, ask RaptorQ for the packets with `(len/64)*12/10` repair
     * packets and queue one `EspNowPacket` per encoded packet.
     */
    method Send(msg: Message, encode: Encoder)
      requires forall e | e in encode(msg.contents, RepairPackets(|msg.contents|)) :: |e| <= MAX_CONTENTS
      modifies this`messageSeq, this`sent
      ensures messageSeq == (old(messageSeq) as int + 1) % 0x100
      ensures sent == old(sent) + MessagePackets(msg.recipient, myAddress, messageSeq, msg.contents,
                                                 encode(msg.contents, RepairPackets(|msg.contents|)))
    {
      var totalLen := |msg.contents|;
      var seqNo: byte := (messageSeq as int + 1) % 0x100;
      messageSeq := seqNo;
      var repair := (totalLen / CHUNK_SIZE) * 12 / 10;
      var encoded := encode(msg.contents, repair);
      ghost var all := MessagePackets(msg.recipient, myAddress, messageSeq, msg.contents, encoded);
      var i := 0;
      while i < |encoded|
        invariant 0 <= i <= |encoded|
        invariant sent == old(sent) + all[..i]
        invariant messageSeq == seqNo
      {
        var packet := Packet(msg.recipient, myAddress, messageSeq, |encoded[i]| % 0x1_0000, totalLen % 0x1_0000, encoded[i]);
        assert packet == all[i];
        sent := sent + [packet];
        i := i + 1;
        assert all[..i] == all[..i - 1] + [packet];
      }
      assert all[..i] == all;
    }

    /** The sender's reconstructor, created from the packet and registered when there is none. */
    method ReconstructorFor(packet: Packet) returns (rc: Reconstructor)
      requires Valid()
      modifies this`reconstructors, this`owner
      ensures Valid()
      ensures reconstructors == old(reconstructors)[packet.sender := rc]
      ensures packet.sender in old(reconstructors) ==> rc == old(reconstructors[packet.sender]) && owner == old(owner)
      ensures packet.sender !in old(reconstructors) ==> fresh(rc) && owner == old(owner)[rc := packet.sender]
      ensures rc.State() == if packet.sender in old(States()) then old(States())[packet.sender] else Fresh(packet)
      ensures States() == old(States())[packet.sender := rc.State()]
      ensures forall s | s in reconstructors && s != packet.sender :: reconstructors[s] != rc
    {
      if packet.sender in reconstructors {
        rc := reconstructors[packet.sender];
      } else {
        rc := new Reconstructor(packet);
        reconstructors := reconstructors[packet.sender := rc];
        owner := owner[rc := packet.sender];
      }
    }

    /**
     * One iteration of `recv`: the sender's reconstructor is created from this
     * packet if there is none, then the packet is added to it.
     */
    method Deliver(packet: Packet, decode: Decoder) returns (r: DeliverResult)
      requires Valid()
      modifies this`reconstructors, this`owner, owner.Keys
      ensures Valid()
      ensures packet.sender in reconstructors
      ensures reconstructors == old(reconstructors)[packet.sender := reconstructors[packet.sender]]
      ensures packet.sender in old(reconstructors) ==>
        reconstructors[packet.sender] == old(reconstructors[packet.sender]) && owner.Keys == old(owner.Keys)
      ensures packet.sender !in old(reconstructors) ==>
        fresh(reconstructors[packet.sender]) && owner.Keys == old(owner.Keys) + {reconstructors[packet.sender]}
      ensures (States(), r) == DeliverStep(old(States()), packet, decode)
    {
      ghost var before := States();
      var rc := ReconstructorFor(packet);
      ghost var mid := States();
      ghost var st := rc.State();
      var out := rc.AddPacket(packet, decode);
      r := if out.Some? then Assembled(Message(packet.recipient, packet.sender, out.value)) else Nothing;
      ghost var after := States();
      forall s | s in after && s != packet.sender
        ensures after[s] == before[s]
      {
        assert after[s] == mid[s];
      }
      UpdatedAt(after, before, packet.sender);
    }

    /** `recv`: deliver packets until one completes a message. */
    method Recv(incoming: seq<Packet>, decode: Decoder) returns (m: Option<Message>, used: nat)
      requires Valid()
      modifies this`reconstructors, this`owner, owner.Keys
      ensures Valid() && used <= |incoming|
      ensures reconstructors.Keys == old(reconstructors.Keys) + Senders(incoming[..used])
      ensures (States(), m, used) == RecvFold(old(States()), incoming, decode)
    {
      used := 0;
      m := None;
      ghost var start := States();
      assert start.Keys == reconstructors.Keys;
      ghost var cur := start;
      ghost var goal := RecvFold(start, incoming, decode);
      assert incoming[used..] == incoming;
      while used < |incoming| && m.None?
        invariant Valid() && used <= |incoming|
        invariant forall rc | rc in owner.Keys :: rc in old(owner.Keys) || fresh(rc)
        invariant cur == States()
        invariant m.None? ==> goal == Later(RecvFold(cur, incoming[used..], decode), used)
        invariant m.Some? ==> goal == (cur, m, used)
        decreases |incoming| - used
      {
        ghost var step := DeliverStep(cur, incoming[used], decode);
        RecvFoldAdvance(start, cur, incoming, decode, used);
        var r := Deliver(incoming[used], decode);
        assert States() == step.0 && r == step.1;
        cur := step.0;
        if r.Assembled? {
          m := Some(r.message);
        }
        used := used + 1;
      }
      RecvFoldKeys(start, incoming, decode);
      assert States().Keys == reconstructors.Keys;
    }
  }
}
