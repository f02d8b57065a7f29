/**
 * What the three sync engines share.
 *
 * The `SyncMessage` envelope: a message type and an opaque byte string,
 * serialised with postcard and carried as the contents of a network
 * `Message`.  The chat application's `HelloMessage`.  Stand-ins for the
 * Aranya runtime objects the engines drive: commands, transactions and
 * the answers the requester, responder, storage, client and network give.
 * Those objects are opaque, so every answer is an input of the step that
 * asks for it.
 */
module SyncCommon {
  import opened Bytes
  import opened Wrappers
  import opened Postcard
  import opened EspNow

  // ---------------------------------------------------------------- envelope

  /** `SyncMessageType`; the demo and legacy engines have only the first two variants. */
  datatype SyncMessageType = Request | Response | Hello

  /** `SyncMessage { t, bytes }`. */
  datatype SyncMessage = SyncMessage(t: SyncMessageType, bytes: seq<byte>)

  /** The variant index postcard writes for a message type. */
  function TagOf(t: SyncMessageType): (n: nat)
    ensures n < 3
  {
    match t
    case Request => 0
    case Response => 1
    case Hello => 2
  }

  function TypeOf(n: nat): (t: Option<SyncMessageType>)
    ensures t.Some? <==> n < 3
    ensures t.Some? ==> TagOf(t.value) == n
  {
    if n == 0 then Some(Request) else if n == 1 then Some(Response) else if n == 2 then Some(Hello) else None
  }

  /** `postcard::to_allocvec(&sync_message)`: the variant index, then the boxed slice with its length. */
  function EncodeSync(sm: SyncMessage): seq<byte>
  {
    Varint(TagOf(sm.t)) + Varint(|sm.bytes|) + sm.bytes
  }

  /**
   * `postcard::from_bytes::<SyncMessage>` for an enum of `variants`
   * variants.  Bytes after the message are ignored.
   */
  function DecodeSync(s: seq<byte>, variants: nat): (r: Option<SyncMessage>)
    ensures r.Some? ==> TagOf(r.value.t) < variants
  {
    match DecVarint(s, U32_MAX)
    case None => None
    case Some(p) =>
      if p.0 >= variants || p.0 >= 3 then None
      else
        match DecVarint(p.1, U32_MAX)
        case None => None
        case Some(q) =>
          match DecRaw(q.1, q.0)
          case None => None
          case Some(b) => Some(SyncMessage(TypeOf(p.0).value, b.0))
  }

  lemma {:induction false} SyncRoundTrip(sm: SyncMessage, variants: nat, rest: seq<byte>)
    requires TagOf(sm.t) < variants && |sm.bytes| <= U32_MAX
    ensures DecodeSync(EncodeSync(sm) + rest, variants) == Some(sm)
  {
    var tail := Varint(|sm.bytes|) + (sm.bytes + rest);
    assert EncodeSync(sm) + rest == Varint(TagOf(sm.t)) + tail;
    VarintRoundTrip(TagOf(sm.t), U32_MAX, tail);
    VarintRoundTrip(|sm.bytes|, U32_MAX, sm.bytes + rest);
    RawRoundTrip(sm.bytes, rest);
  }

  /** `SyncMessage::into_message(from, to)`. */
  function IntoMessage(sm: SyncMessage, from: u16, to: u16): (m: Message)
    ensures m.sender == from && m.recipient == to
  {
    Message(to, from, EncodeSync(sm))
  }

  /** `SyncMessage::from_message`: the sender and the decoded envelope. */
  function FromMessage(m: Message, variants: nat): (r: Option<(u16, SyncMessage)>)
    ensures r.Some? ==> r.value.0 == m.sender
  {
    match DecodeSync(m.contents, variants)
    case None => None
    case Some(sm) => Some((m.sender, sm))
  }

  /** A message built by `into_message` comes back from `from_message` with its sender. */
  lemma {:induction false} MessageRoundTrip(sm: SyncMessage, from: u16, to: u16, variants: nat)
    requires TagOf(sm.t) < variants && |sm.bytes| <= U32_MAX
    ensures FromMessage(IntoMessage(sm, from, to), variants) == Some((from, sm))
  {
    SyncRoundTrip(sm, variants, []);
    assert EncodeSync(sm) + [] == EncodeSync(sm);
  }

  /** The message type a message's contents announce, read from its first varint. */
  function KindOf(m: Message): (r: Option<SyncMessageType>)
  {
    match DecVarint(m.contents, U32_MAX)
    case None => None
    case Some(p) => TypeOf(p.0)
  }

  /** The type announced is the type put in, whatever the payload. */
  lemma {:induction false} KindOfInto(sm: SyncMessage, from: u16, to: u16)
    ensures KindOf(IntoMessage(sm, from, to)) == Some(sm.t)
  {
    var tail := Varint(|sm.bytes|) + sm.bytes;
    assert EncodeSync(sm) == Varint(TagOf(sm.t)) + tail;
    VarintRoundTrip(TagOf(sm.t), U32_MAX, tail);
  }

  /** The decoded envelope has the type the contents announce. */
  lemma {:induction false} KindOfDecoded(m: Message, variants: nat)
    requires FromMessage(m, variants).Some?
    ensures KindOf(m) == Some(FromMessage(m, variants).value.1.t)
  {
  }

  // ---------------------------------------------------------------- hello

  /** Width of a command id. */
  const ID_LEN: nat := 32

  /** `aranya_runtime::Address { id, max_cut }`. */
  datatype Address = Address(id: seq<byte>, maxCut: nat)

  /** `HelloMessage { address, head, peer_count }`. */
  datatype HelloMessage = HelloMessage(address: u16, head: Address, peerCount: u16)

  predicate WellFormedHello(h: HelloMessage)
  {
    |h.head.id| == ID_LEN && h.head.maxCut <= U32_MAX
  }

  /** postcard of a Hello: the address varint, the raw id, max_cut and peer_count varints. */
  function EncodeHello(h: HelloMessage): seq<byte>
  {
    Varint(h.address) + h.head.id + Varint(h.head.maxCut) + Varint(h.peerCount)
  }

  function DecodeHello(s: seq<byte>): (r: Option<HelloMessage>)
    ensures r.Some? ==> WellFormedHello(r.value)
  {
    match DecVarint(s, U16_MAX)
    case None => None
    case Some(a) =>
      match DecRaw(a.1, ID_LEN)
      case None => None
      case Some(id) =>
        match DecVarint(id.1, U32_MAX)
        case None => None
        case Some(cut) =>
          match DecVarint(cut.1, U16_MAX)
          case None => None
          case Some(n) => Some(HelloMessage(a.0, Address(id.0, cut.0), n.0))
  }

  lemma {:induction false} HelloRoundTrip(h: HelloMessage, rest: seq<byte>)
    requires WellFormedHello(h)
    ensures DecodeHello(EncodeHello(h) + rest) == Some(h)
  {
    var t3 := Varint(h.peerCount) + rest;
    var t2 := Varint(h.head.maxCut) + t3;
    var t1 := h.head.id + t2;
    assert EncodeHello(h) + rest == Varint(h.address) + t1;
    VarintRoundTrip(h.address, U16_MAX, t1);
    RawRoundTrip(h.head.id, t2);
    VarintRoundTrip(h.head.maxCut, U32_MAX, t3);
    VarintRoundTrip(h.peerCount, U16_MAX, rest);
  }

  // ---------------------------------------------------------------- runtime stand-ins

  /** A received command: its address, when `cmd.address()` succeeds, and its bytes. */
  datatype Command = Command(address: Option<Address>, body: seq<byte>)

  /** A `Transaction`: the commands added to it and not yet committed. */
  datatype Trx = Trx(staged: seq<Command>)

  /** The error kinds the engines propagate with `?`. */
  datatype SyncFault =
    | SessionMismatch      // `SyncError::SessionMismatch`
    | MissingSyncResponse  // `SyncError::MissingSyncResponse`
    | Malformed            // a postcard decoding failed
    | RequesterFailed      // `SyncRequester::{poll, receive}` failed
    | ResponderFailed      // `SyncResponder::{receive, poll}` failed
    | StorageFailed        // the storage provider failed
    | AddFailed            // `client.add_commands` failed
    | CommitFailed         // `client.commit` failed
    | NetworkFailed        // sending or receiving failed

  /** What a call returns: `Ok(())`, an error, or a panic that stops the firmware. */
  datatype Status = Success | Failure(fault: SyncFault) | Panic

  /** `SyncType` as decoded from a Request's bytes: only `Poll` is handled. */
  datatype SyncType = Poll(request: seq<byte>) | OtherSyncType

  /** `peer_caches.entry(peer).or_default()`. */
  function OrDefault(caches: map<u16, seq<Address>>, peer: u16): (r: map<u16, seq<Address>>)
    ensures peer in r && r.Keys == caches.Keys + {peer}
    ensures forall p | p in caches :: r[p] == caches[p]
  {
    if peer in caches then caches else caches[peer := []]
  }

  /** What answering a request leaves behind: the peer caches, the sent log and the status. */
  datatype Responded = Responded(caches: map<u16, seq<Address>>, sent: seq<Message>, status: Status)

  /**
   * The `while responder.ready()` loop: each poll, made with the
   * requester's peer cache, is sent back as one Response; the first failed
   * poll or send ends the loop with that error.
   */
  function Respond(caches: map<u16, seq<Address>>, sent: seq<Message>, me: u16, from: u16,
                   responses: seq<Result<seq<byte>, SyncFault>>, netUp: bool): Responded
    decreases |responses|
  {
    if responses == [] then Responded(caches, sent, Success)
    else
      var c1 := OrDefault(caches, from);
      match responses[0]
      case Err(f) => Responded(c1, sent, Failure(f))
      case Ok(b) =>
        if !netUp then Responded(c1, sent, Failure(NetworkFailed))
        else Respond(c1, sent + [IntoMessage(SyncMessage(Response, b), me, from)], me, from, responses[1..], netUp)
  }

  /** The Responses for the polls up to the first failed one, in order. */
  function ResponsesFor(me: u16, from: u16, responses: seq<Result<seq<byte>, SyncFault>>): seq<Message>
    decreases |responses|
  {
    if responses == [] || responses[0].Err? then []
    else [IntoMessage(SyncMessage(Response, responses[0].value), me, from)] + ResponsesFor(me, from, responses[1..])
  }

  /**
   * Answering sends the requester one Response per poll, in poll order, up
   * to the first failed poll; it touches only the requester's peer cache,
   * and it succeeds exactly when every poll does.
   */
  lemma {:induction false} RespondSendsResponses(caches: map<u16, seq<Address>>, sent: seq<Message>, me: u16, from: u16,
                                                 responses: seq<Result<seq<byte>, SyncFault>>)
    ensures var r := Respond(caches, sent, me, from, responses, true);
      r.sent == sent + ResponsesFor(me, from, responses)
      && r.caches == (if responses == [] then caches else OrDefault(caches, from))
      && (r.status == Success <==> forall i | 0 <= i < |responses| :: responses[i].Ok?)
    decreases |responses|
  {
    if responses != [] && responses[0].Ok? {
      var c1 := OrDefault(caches, from);
      var m := IntoMessage(SyncMessage(Response, responses[0].value), me, from);
      RespondSendsResponses(c1, sent + [m], me, from, responses[1..]);
      assert sent + [m] + ResponsesFor(me, from, responses[1..]) == sent + ResponsesFor(me, from, responses);
      if forall i | 0 <= i < |responses[1..]| :: responses[1..][i].Ok? {
        forall i | 0 <= i < |responses|
          ensures responses[i].Ok?
        {
          if i > 0 {
            assert responses[i] == responses[1..][i - 1];
          }
        }
      }
      if forall i | 0 <= i < |responses| :: responses[i].Ok? {
        forall i | 0 <= i < |responses[1..]|
          ensures responses[1..][i].Ok?
        {
          assert responses[1..][i] == responses[i + 1];
        }
      }
    }
  }

  /** Answering only appends, and everything it appends is a Response. */
  lemma {:induction false} RespondOnlyResponses(caches: map<u16, seq<Address>>, sent: seq<Message>, me: u16, from: u16,
                                                responses: seq<Result<seq<byte>, SyncFault>>, netUp: bool)
    ensures var r := Respond(caches, sent, me, from, responses, netUp);
      |sent| <= |r.sent| && r.sent[..|sent|] == sent && r.status != Panic
      && forall i | |sent| <= i < |r.sent| :: KindOf(r.sent[i]) == Some(Response)
    decreases |responses|
  {
    if responses != [] && responses[0].Ok? && netUp {
      var c1 := OrDefault(caches, from);
      var sm := SyncMessage(Response, responses[0].value);
      var sent1 := sent + [IntoMessage(sm, me, from)];
      KindOfInto(sm, me, from);
      RespondOnlyResponses(c1, sent1, me, from, responses[1..], netUp);
      var r := Respond(c1, sent1, me, from, responses[1..], netUp);
      assert r.sent[..|sent|] == r.sent[..|sent1|][..|sent|];
    }
  }

  /** The answers the runtime gives while one received message is handled. */
  datatype Answers = Answers(
    syncType: Option<SyncType>,
    responderAccepts: bool,
    responses: seq<Result<seq<byte>, SyncFault>>,
    received: Result<Option<seq<Command>>, SyncFault>,
    addOk: bool,
    commitOk: bool,
    storage: Lookup,
    netUp: bool)

  /**
   * What the storage provider answers while addresses are looked up:
   * whether `get_storage` succeeds, the addresses with a local location,
   * and those whose `get_location` (or, once located, whose
   * `peer_cache.add_command`) fails.
   */
  datatype Lookup = Lookup(open: bool, located: set<Address>, failing: set<Address>)

  /** The answers `sync_peer` gets: the requester's poll, the commit, the send. */
  datatype PeerAnswers = PeerAnswers(poll: Result<seq<byte>, SyncFault>, commitOk: bool, netUp: bool)

  /** The commands of a transaction, empty when there is none. */
  function Staged(trx: Option<Trx>): (r: seq<Command>)
    ensures trx.Some? ==> r == trx.value.staged
    ensures trx.None? ==> r == []
  {
    if trx.Some? then trx.value.staged else []
  }

  /** What committing an optional transaction adds to the commit log. */
  function Commits(trx: Option<Trx>): (r: seq<seq<Command>>)
    ensures |r| == if trx.Some? then 1 else 0
    ensures trx.Some? ==> r == [trx.value.staged]
  {
    if trx.Some? then [trx.value.staged] else []
  }

  /**
   * The addresses `add_commands` feeds to the peer cache: those of the
   * commands that have one and whose address has a local location, in
   * command order.
   */
  function Known(cmds: seq<Command>, located: set<Address>): (r: seq<Address>)
    ensures |r| <= |cmds|
    decreases |cmds|
  {
    if cmds == [] then []
    else
      var last := cmds[|cmds| - 1];
      Known(cmds[..|cmds| - 1], located)
        + (if last.address.Some? && last.address.value in located then [last.address.value] else [])
  }

  /** Exactly the located command addresses reach the peer cache. */
  lemma {:induction false} KnownExactly(cmds: seq<Command>, located: set<Address>, a: Address)
    ensures a in Known(cmds, located) <==>
      a in located && exists i | 0 <= i < |cmds| :: cmds[i].address == Some(a)
    decreases |cmds|
  {
    if cmds != [] {
      var init := cmds[..|cmds| - 1];
      KnownExactly(init, located, a);
      if a in located && exists i | 0 <= i < |cmds| :: cmds[i].address == Some(a) {
        var i :| 0 <= i < |cmds| && cmds[i].address == Some(a);
        if i < |cmds| - 1 {
          assert init[i] == cmds[i];
        }
      }
      if exists i | 0 <= i < |init| :: init[i].address == Some(a) {
        var i :| 0 <= i < |init| && init[i].address == Some(a);
        assert cmds[i] == init[i];
      }
    }
  }

  /** A command whose address storage fails to look up or to cache. */
  predicate Faulty(c: Command, lk: Lookup)
  {
    c.address.Some? && c.address.value in lk.failing
  }

  /**
   * The walk over the command addresses that feeds the peer cache: each
   * located address is fed in command order, and the walk stops at the
   * first address whose lookup or cache insert fails.  The flag says
   * whether it went through.
   */
  function Feed(cmds: seq<Command>, lk: Lookup): (r: (seq<Address>, bool))
    ensures |r.0| <= |cmds|
    decreases |cmds|
  {
    if cmds == [] then ([], true)
    else
      var init := Feed(cmds[..|cmds| - 1], lk);
      var last := cmds[|cmds| - 1];
      if !init.1 || Faulty(last, lk) then (init.0, false)
      else if last.address.Some? && last.address.value in lk.located then (init.0 + [last.address.value], true)
      else (init.0, true)
  }

  /**
   * Without a failing lookup the walk feeds exactly `Known`; with one it
   * stops at the first failing command, having fed `Known` of the
   * commands before it.
   */
  lemma {:induction false} FeedStops(cmds: seq<Command>, lk: Lookup)
    ensures Feed(cmds, lk).1 <==> forall i | 0 <= i < |cmds| :: !Faulty(cmds[i], lk)
    ensures Feed(cmds, lk).1 ==> Feed(cmds, lk).0 == Known(cmds, lk.located)
    ensures !Feed(cmds, lk).1 ==> exists k | 0 <= k < |cmds| ::
      Faulty(cmds[k], lk) && (forall i | 0 <= i < k :: !Faulty(cmds[i], lk))
      && Feed(cmds, lk).0 == Known(cmds[..k], lk.located)
    decreases |cmds|
  {
    if cmds != [] {
      var n := |cmds| - 1;
      var init := cmds[..n];
      FeedStops(init, lk);
      assert forall i | 0 <= i < n :: init[i] == cmds[i];
      if !Feed(init, lk).1 {
        var k :| 0 <= k < n && Faulty(init[k], lk) && (forall i | 0 <= i < k :: !Faulty(init[i], lk))
          && Feed(init, lk).0 == Known(init[..k], lk.located);
        assert init[..k] == cmds[..k];
        assert Faulty(cmds[k], lk);
      } else if Faulty(cmds[n], lk) {
        assert init == cmds[..n];
      }
    }
  }

  /**
   * `add_commands` as a value: the transaction is created when there is
   * none and the commands go into it when `client.add_commands` succeeds.
   * Only then is storage opened and the peer cache fed; a storage error
   * leaves the commands staged and the cache fed up to the failing
   * address.
   */
  function AddCommandsSpec(cmds: seq<Command>, trx: Option<Trx>, cache: seq<Address>, addOk: bool, lk: Lookup)
    : (Trx, seq<Address>, Status)
  {
    if !addOk then (Trx(Staged(trx)), cache, Failure(AddFailed))
    else if !lk.open then (Trx(Staged(trx) + cmds), cache, Failure(StorageFailed))
    else
      var fed := Feed(cmds, lk);
      (Trx(Staged(trx) + cmds), cache + fed.0, if fed.1 then Success else Failure(StorageFailed))
  }

  /**
   * `add_commands`: `get_or_insert_with` a new transaction, add the
   * commands, open storage, then walk their addresses and feed the peer
   * cache with each one storage can locate, returning at the first error.
   */
  method AddCommands(cmds: seq<Command>, trx: Option<Trx>, cache: seq<Address>, addOk: bool, lk: Lookup)
    returns (trx': Trx, cache': seq<Address>, r: Status)
    ensures (trx', cache', r) == AddCommandsSpec(cmds, trx, cache, addOk, lk)
  {
    trx' := if trx.Some? then trx.value else Trx([]);
    if !addOk {
      return trx', cache, Failure(AddFailed);
    }
    trx' := Trx(trx'.staged + cmds);
    if !lk.open {
      return trx', cache, Failure(StorageFailed);
    }
    cache' := cache;
    for i := 0 to |cmds|
      invariant Feed(cmds[..i], lk).1 && cache' == cache + Feed(cmds[..i], lk).0
    {
      assert cmds[..i + 1][..i] == cmds[..i];
      var a := cmds[i].address;
      if a.Some? && a.value in lk.failing {
        FeedFailed(cmds, i + 1, lk);
        return trx', cache', Failure(StorageFailed);
      }
      if a.Some? && a.value in lk.located {
        cache' := cache' + [a.value];
      }
    }
    assert cmds[..|cmds|] == cmds;
    r := Success;
  }

  /** Once the walk has failed on a prefix, the rest of the commands add nothing. */
  lemma {:induction false} FeedFailed(cmds: seq<Command>, k: nat, lk: Lookup)
    requires k <= |cmds| && !Feed(cmds[..k], lk).1
    ensures Feed(cmds, lk) == Feed(cmds[..k], lk)
    decreases |cmds| - k
  {
    if k < |cmds| {
      assert cmds[..k + 1][..k] == cmds[..k];
      FeedFailed(cmds, k + 1, lk);
    } else {
      assert cmds[..k] == cmds;
    }
  }

  /** An existing transaction is reused: what it held stays at the front. */
  lemma {:induction false} AddCommandsReusesTrx(cmds: seq<Command>, t: Trx, cache: seq<Address>, addOk: bool, lk: Lookup)
    ensures AddCommandsSpec(cmds, Some(t), cache, addOk, lk).0.staged[..|t.staged|] == t.staged
    ensures addOk ==> AddCommandsSpec(cmds, Some(t), cache, addOk, lk).0.staged[|t.staged|..] == cmds
  {
  }

  /** A missing transaction is created even when adding then fails, and it holds nothing. */
  lemma {:induction false} AddCommandsCreatesTrx(cmds: seq<Command>, cache: seq<Address>, addOk: bool, lk: Lookup)
    ensures AddCommandsSpec(cmds, None, cache, addOk, lk).0.staged == (if addOk then cmds else [])
    ensures !addOk ==> AddCommandsSpec(cmds, None, cache, addOk, lk).1 == cache
  {
  }

  /**
   * After a successful `client.add_commands`, the commands stay staged
   * whatever storage answers; the call succeeds exactly when storage opens
   * and no command's lookup fails, and then the cache gains exactly
   * `Known`.  A storage error after the add leaves the cache fed with
   * `Known` of the commands before the first failing one.
   */
  lemma {:induction false} AddCommandsStorage(cmds: seq<Command>, trx: Option<Trx>, cache: seq<Address>, lk: Lookup)
    ensures var r := AddCommandsSpec(cmds, trx, cache, true, lk);
      r.0.staged == Staged(trx) + cmds
      && (r.2 == Success <==> lk.open && forall i | 0 <= i < |cmds| :: !Faulty(cmds[i], lk))
      && (r.2 == Success ==> r.1 == cache + Known(cmds, lk.located))
      && (r.2 != Success ==>
            r.2 == Failure(StorageFailed) && exists k | 0 <= k <= |cmds| :: r.1 == cache + Known(cmds[..k], lk.located))
  {
    FeedStops(cmds, lk);
    if !lk.open {
      assert Known(cmds[..0], lk.located) == [];
    }
  }
}
