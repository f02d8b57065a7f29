/**
 * The chat application's sync engine: one outgoing sync session at a
 * time, a bounded queue of peers that still need syncing, per-peer caches,
 * periodic Hello broadcasts announcing this device's head, and responses
 * to the peers' requests.
 *
 * Each operation is specified by a function from the engine's state (and
 * the answers of the opaque runtime objects) to the new state and the
 * call's status; the `Engine` class performs it in place and is proved to
 * agree with that function.  Times are milliseconds.
 */
module ChatSyncer {
  import opened Bytes
  import opened Wrappers
  import opened EspNow
  import opened SyncCommon

  const SYNC_STALL_TIMEOUT: int := 8000
  /** `parameter_store::MAX_PEERS`, the capacity of the sync queue. */
  const MAX_PEERS: nat := 16
  /** This engine's `SyncMessageType` has Hello. */
  const VARIANTS: nat := 3

  // ---------------------------------------------------------------- sync queue

  /**
   * The sync queue is a `heapless::FnvIndexSet<u16, MAX_PEERS>`: no
   * duplicates, at most MAX_PEERS entries, `first()` is entry 0, insertion
   * appends, and removal moves the last entry into the hole.
   */
  predicate QueueOk(q: seq<u16>)
  {
    |q| <= MAX_PEERS && forall i, j | 0 <= i < j < |q| :: q[i] != q[j]
  }

  /** `insert`: a present or overflowing address leaves the queue as it was. */
  function Insert(q: seq<u16>, x: u16): seq<u16>
  {
    if x in q || |q| >= MAX_PEERS then q else q + [x]
  }

  function IndexOf(q: seq<u16>, x: u16): (i: nat)
    requires x in q
    ensures i < |q| && q[i] == x
    ensures forall j | 0 <= j < i :: q[j] != x
  {
    if q[0] == x then 0 else 1 + IndexOf(q[1..], x)
  }

  /** `remove`, a swap-remove. */
  function Remove(q: seq<u16>, x: u16): seq<u16>
  {
    if x !in q then q
    else
      var i := IndexOf(q, x);
      if i == |q| - 1 then q[..i] else q[..i] + [q[|q| - 1]] + q[i + 1..|q| - 1]
  }

  lemma {:induction false} InsertMembers(q: seq<u16>, x: u16)
    requires QueueOk(q)
    ensures QueueOk(Insert(q, x))
    ensures forall y :: y in Insert(q, x) <==> y in q || (y == x && |q| < MAX_PEERS)
  {
  }

  /** The swap-remove, entry by entry: the last entry fills the removed one's place. */
  lemma {:induction false} RemoveEntries(q: seq<u16>, x: u16)
    requires x in q && IndexOf(q, x) < |q| - 1
    ensures var r := Remove(q, x); var i := IndexOf(q, x);
      |r| == |q| - 1 && r[i] == q[|q| - 1] && forall k | 0 <= k < |r| && k != i :: r[k] == q[k]
  {
  }

  lemma {:induction false} RemoveKeepsOthers(q: seq<u16>, x: u16, y: u16)
    requires x in q && IndexOf(q, x) < |q| - 1
    ensures y in Remove(q, x) <==> y in q && (y != x || exists k | 0 <= k < |q| && k != IndexOf(q, x) :: q[k] == x)
  {
    var i := IndexOf(q, x);
    var r := Remove(q, x);
    RemoveEntries(q, x);
    if y in q && (y != x || exists k | 0 <= k < |q| && k != i :: q[k] == x) {
      var k :| 0 <= k < |q| && q[k] == y && (y != x || k != i);
      if k == |q| - 1 {
        assert r[i] == y;
      } else {
        assert k != i && r[k] == y;
      }
    }
    if y in r {
      var k :| 0 <= k < |r| && r[k] == y;
      if k == i {
        assert q[|q| - 1] == y && |q| - 1 != i;
      } else {
        assert q[k] == y;
      }
    }
  }

  lemma {:induction false} RemoveDistinct(q: seq<u16>, x: u16)
    requires QueueOk(q) && x in q && IndexOf(q, x) < |q| - 1
    ensures QueueOk(Remove(q, x))
  {
    var i := IndexOf(q, x);
    var r := Remove(q, x);
    RemoveEntries(q, x);
    forall a, b | 0 <= a < b < |r|
      ensures r[a] != r[b]
    {
      var a' := if a == i then |q| - 1 else a;
      var b' := if b == i then |q| - 1 else b;
      assert r[a] == q[a'] && r[b] == q[b'] && a' != b';
    }
  }

  lemma {:induction false} RemoveMembers(q: seq<u16>, x: u16)
    requires QueueOk(q)
    ensures QueueOk(Remove(q, x))
    ensures forall y :: y in Remove(q, x) <==> y in q && y != x
  {
    if x in q {
      var i := IndexOf(q, x);
      if i < |q| - 1 {
        RemoveDistinct(q, x);
        forall y
          ensures y in Remove(q, x) <==> y in q && y != x
        {
          RemoveKeepsOthers(q, x, y);
        }
      } else {
        assert Remove(q, x) == q[..|q| - 1];
      }
    }
  }

  // ---------------------------------------------------------------- state

  datatype Session = Session(trx: Option<Trx>, lastSeen: int, peer: u16)

  datatype State = State(
    queue: seq<u16>,
    session: Option<Session>,
    caches: map<u16, seq<Address>>,
    helloBoost: nat,
    lastHello: int,
    sent: seq<Message>,
    committed: seq<seq<Command>>)

  datatype Step = Step(state: State, status: Status)

  predicate Valid(s: State)
  {
    QueueOk(s.queue) && s.helloBoost <= 3
  }

  /** `SyncEngine::new`. */
  function Init(): (s: State)
    ensures Valid(s)
  {
    State([], None, map[], 0, 0, [], [])
  }

  /** The answers `send_hello` gets: this device's head, or the storage error, and the send. */
  datatype HelloAnswers = HelloAnswers(head: Result<Address, SyncFault>, netUp: bool)

  // ---------------------------------------------------------------- hello

  /** `x >> n` */
  function Shr(x: nat, n: nat): nat
  {
    if n == 0 then x else Shr(x / 2, n - 1)
  }

  /** `hello_timeout`: `1000 >> hello_boost` milliseconds. */
  function HelloTimeout(boost: nat): nat
  {
    Shr(1000, boost)
  }

  /** Each level of boost halves the Hello period, from 1000 ms down to 125 ms. */
  lemma {:induction false} HelloTimeoutHalves(boost: nat)
    requires boost < 3
    ensures HelloTimeout(boost + 1) * 2 == HelloTimeout(boost)
    ensures HelloTimeout(0) == 1000 && HelloTimeout(3) == 125
  {
    assert Shr(1000, 3) == Shr(500, 2) == Shr(250, 1) == 125;
    assert Shr(1000, boost + 1) == Shr(500, boost);
  }

  predicate HelloDue(s: State, now: int)
  {
    now - s.lastHello > HelloTimeout(s.helloBoost)
  }

  /** The Hello `send_hello` broadcasts: this device's address, its head and a peer count of 0. */
  function HelloFor(me: u16, head: Address): Message
  {
    IntoMessage(SyncMessage(Hello, EncodeHello(HelloMessage(me, head, 0))), me, BROADCAST)
  }

  function SendHelloStep(s: State, me: u16, now: int, a: HelloAnswers): Step
  {
    match a.head
    case Err(f) => Step(s, Failure(f))
    case Ok(head) =>
      if !a.netUp then Step(s, Failure(NetworkFailed))
      else
        Step(s.(sent := s.sent + [HelloFor(me, head)],
                helloBoost := if s.helloBoost > 0 then s.helloBoost - 1 else 0,
                lastHello := now), Success)
  }

  /**
   * A successful `send_hello` broadcasts one Hello carrying this device's
   * address and head, lowers the boost by one without going below zero and
   * restarts the Hello period; a failed one changes nothing.
   */
  lemma {:induction false} SendHelloEffect(s: State, me: u16, now: int, a: HelloAnswers)
    requires a.head.Ok? ==> WellFormedHello(HelloMessage(me, a.head.value, 0))
    ensures var r := SendHelloStep(s, me, now, a);
      if a.head.Ok? && a.netUp then
        r.status == Success && |r.state.sent| == |s.sent| + 1 && r.state.sent[..|s.sent|] == s.sent
        && r.state.sent[|s.sent|].recipient == BROADCAST
        && (var d := FromMessage(r.state.sent[|s.sent|], VARIANTS);
            d.Some? && d.value.0 == me && d.value.1.t == Hello
            && DecodeHello(d.value.1.bytes) == Some(HelloMessage(me, a.head.value, 0)))
        && r.state.helloBoost == (if s.helloBoost == 0 then 0 else s.helloBoost - 1)
        && r.state.lastHello == now
        && r.state.(sent := s.sent, helloBoost := s.helloBoost, lastHello := s.lastHello) == s
      else
        r.status.Failure? && r.state == s
  {
    if a.head.Ok? && a.netUp {
      var h := HelloMessage(me, a.head.value, 0);
      var sm := SyncMessage(Hello, EncodeHello(h));
      HelloRoundTrip(h, []);
      assert EncodeHello(h) + [] == EncodeHello(h);
      SmallHello(h);
      MessageRoundTrip(sm, me, BROADCAST, VARIANTS);
      var r := SendHelloStep(s, me, now, a);
      assert r.state.sent[|s.sent|] == HelloFor(me, a.head.value);
    }
  }

  /** A well-formed Hello fits the envelope's length field. */
  lemma {:induction false} SmallHello(h: HelloMessage)
    requires WellFormedHello(h)
    ensures |EncodeHello(h)| <= U32_MAX
  {
    Postcard.SmallVarints(h.address);
    Postcard.SmallVarints(h.peerCount);
    Postcard.VarintLength(h.head.maxCut, 5);
    assert Postcard.Pow128(5) == 0x8_0000_0000 by {
      assert Postcard.Pow128(1) == 0x80;
      assert Postcard.Pow128(2) == 0x4000;
      assert Postcard.Pow128(3) == 0x20_0000;
      assert Postcard.Pow128(4) == 0x1000_0000;
    }
  }

  /**
   * A received Hello, keyed on the address inside it: a storage error while
   * its head is looked up is returned and changes nothing; otherwise a head
   * this device already holds takes that address out of the queue, and an
   * unknown head puts it in, unless the queue is full.
   */
  function HelloStep(s: State, bytes: seq<byte>, lk: Lookup): Step
  {
    match DecodeHello(bytes)
    case None => Step(s, Failure(Malformed))
    case Some(h) =>
      if !lk.open || h.head in lk.failing then Step(s, Failure(StorageFailed))
      else if h.head in lk.located then Step(s.(queue := Remove(s.queue, h.address)), Success)
      else Step(s.(queue := Insert(s.queue, h.address)), Success)
  }

  // ---------------------------------------------------------------- requesting

  function SyncPeerStep(s: State, me: u16, peer: u16, now: int, a: PeerAnswers): Step
  {
    match s.session
    case None =>
      var s1 := s.(session := Some(Session(None, now, peer)), caches := OrDefault(s.caches, peer));
      (match a.poll
       case Err(f) => Step(s1, Failure(f))
       case Ok(req) =>
         if !a.netUp then Step(s1, Failure(NetworkFailed))
         else Step(s1.(sent := s1.sent + [IntoMessage(SyncMessage(Request, req), me, peer)]), Success))
    case Some(ses) =>
      if now - ses.lastSeen <= SYNC_STALL_TIMEOUT then Step(s, Success)
      else if ses.trx.Some? && !a.commitOk then Step(s, Failure(CommitFailed))
      else Step(s.(committed := s.committed + Commits(ses.trx), session := None, queue := Remove(s.queue, peer)), Success)
  }

  /**
   * `sync_peer` without a session opens one for the peer, with no
   * transaction and `last_seen` now, whatever the poll and the send then
   * do; a successful call sends that peer exactly one Request carrying the
   * requester's bytes.
   */
  lemma {:induction false} SyncPeerOpens(s: State, me: u16, peer: u16, now: int, a: PeerAnswers)
    requires s.session.None?
    requires a.poll.Ok? ==> |a.poll.value| <= U32_MAX
    ensures var r := SyncPeerStep(s, me, peer, now, a);
      r.state.session == Some(Session(None, now, peer)) && peer in r.state.caches
      && r.state.queue == s.queue && r.state.committed == s.committed
      && r.state.sent[..|s.sent|] == s.sent
      && (r.status == Success <==> a.poll.Ok? && a.netUp)
      && (r.status == Success ==>
            |r.state.sent| == |s.sent| + 1 && r.state.sent[|s.sent|].recipient == peer
            && FromMessage(r.state.sent[|s.sent|], VARIANTS) == Some((me, SyncMessage(Request, a.poll.value))))
      && (r.status != Success ==> r.state.sent == s.sent)
  {
    if a.poll.Ok? && a.netUp {
      MessageRoundTrip(SyncMessage(Request, a.poll.value), me, peer, VARIANTS);
    }
  }

  /**
   * `sync_peer` with a session sends nothing and starts no session.  A
   * session quiet for at most 8 s is left alone; a stalled one is closed,
   * its transaction committed and the peer dequeued, unless the commit
   * fails, which leaves everything as it was.
   */
  lemma {:induction false} SyncPeerExisting(s: State, me: u16, peer: u16, now: int, a: PeerAnswers)
    requires s.session.Some?
    ensures var r := SyncPeerStep(s, me, peer, now, a);
      var ses := s.session.value;
      r.state.sent == s.sent && r.state.caches == s.caches
      && (now - ses.lastSeen <= SYNC_STALL_TIMEOUT ==> r == Step(s, Success))
      && (now - ses.lastSeen > SYNC_STALL_TIMEOUT && (ses.trx.None? || a.commitOk) ==>
            r.status == Success && r.state.session.None?
            && r.state.committed == s.committed + Commits(ses.trx)
            && r.state.queue == Remove(s.queue, peer))
      && (now - ses.lastSeen > SYNC_STALL_TIMEOUT && ses.trx.Some? && !a.commitOk ==>
            r == Step(s, Failure(CommitFailed)))
  {
  }

  // ---------------------------------------------------------------- responding

  /** `sync_respond`: the responder takes the request, then answers while `ready()` holds. */
  function SyncRespondStep(s: State, me: u16, from: u16, accepts: bool, responses: seq<Result<seq<byte>, SyncFault>>, netUp: bool): Step
  {
    if !accepts then Step(s, Failure(ResponderFailed))
    else
      var r := Respond(s.caches, s.sent, me, from, responses, netUp);
      Step(s.(caches := r.caches, sent := r.sent), r.status)
  }

  // ---------------------------------------------------------------- responses to our requests

  function ProcessResponseStep(s: State, from: u16, now: int, a: Answers): Step
  {
    if s.session.None? || s.session.value.peer != from then Step(s, Failure(SessionMismatch))
    else
      var ses := s.session.value.(lastSeen := now);
      var s1 := s.(session := Some(ses));
      match a.received
      case Err(f) => Step(s1, Failure(f))
      case Ok(None) =>
        var s2 := s1.(session := None);
        if ses.trx.Some? && !a.commitOk then Step(s2, Failure(CommitFailed))
        else Step(s2.(committed := s2.committed + Commits(ses.trx), queue := Remove(s2.queue, from)), Success)
      case Ok(Some(cmds)) =>
        if cmds == [] then Step(s1, Success)
        else
          var caches := OrDefault(s1.caches, from);
          var added := AddCommandsSpec(cmds, ses.trx, caches[from], a.addOk, a.storage);
          Step(s1.(session := Some(ses.(trx := Some(added.0))), caches := caches[from := added.1]), added.2)
  }

  /**
   * `process_response` from anyone but the session's peer is a
   * SessionMismatch that changes nothing.  From the peer it refreshes
   * `last_seen`; the session survives unless the requester reports the
   * sync finished, which is the only way it ends here.
   */
  lemma {:induction false} ProcessResponseSession(s: State, from: u16, now: int, a: Answers)
    ensures var r := ProcessResponseStep(s, from, now, a);
      (s.session.None? || s.session.value.peer != from ==> r == Step(s, Failure(SessionMismatch)))
      && (s.session.Some? && s.session.value.peer == from ==>
            (r.state.session.None? <==> a.received == Ok(None))
            && (r.state.session.Some? ==> r.state.session.value.lastSeen == now && r.state.session.value.peer == from))
  {
  }

  /**
   * When the requester reports the sync finished, the session is dropped
   * before its transaction is committed: a successful commit logs the
   * transaction and dequeues the peer, a failed one loses the session with
   * the queue untouched.
   */
  lemma {:induction false} ResponseFinishes(s: State, from: u16, now: int, a: Answers)
    requires s.session.Some? && s.session.value.peer == from && a.received == Ok(None)
    ensures var r := ProcessResponseStep(s, from, now, a);
      var trx := s.session.value.trx;
      r.state.session.None? && r.state.sent == s.sent && r.state.caches == s.caches
      && (trx.None? || a.commitOk ==>
            r.status == Success && r.state.committed == s.committed + Commits(trx)
            && r.state.queue == Remove(s.queue, from))
      && (trx.Some? && !a.commitOk ==>
            r.status == Failure(CommitFailed) && r.state.committed == s.committed && r.state.queue == s.queue)
  {
  }

  /**
   * A non-empty batch goes into the session's transaction, created on the
   * first batch and reused afterwards, and only located addresses reach
   * the sender's peer cache.  A storage error after the add leaves the
   * batch staged and the cache fed up to the failing address.
   */
  lemma {:induction false} ResponseAddsCommands(s: State, from: u16, now: int, a: Answers, cmds: seq<Command>)
    requires s.session.Some? && s.session.value.peer == from && a.received == Ok(Some(cmds)) && cmds != []
    ensures var r := ProcessResponseStep(s, from, now, a);
      var old_cache := if from in s.caches then s.caches[from] else [];
      r.state.session.Some? && r.state.session.value.trx.Some?
      && r.state.session.value.trx.value.staged[..|Staged(s.session.value.trx)|] == Staged(s.session.value.trx)
      && (r.status == Success <==> a.addOk && a.storage.open && forall i | 0 <= i < |cmds| :: !Faulty(cmds[i], a.storage))
      && (a.addOk ==> r.state.session.value.trx.value.staged == Staged(s.session.value.trx) + cmds)
      && from in r.state.caches
      && (r.status == Success ==> r.state.caches[from] == old_cache + Known(cmds, a.storage.located))
      && (!a.addOk ==> r.status == Failure(AddFailed) && r.state.caches[from] == old_cache)
      && (a.addOk && r.status != Success ==> r.status == Failure(StorageFailed))
  {
    AddCommandsStorage(cmds, s.session.value.trx, if from in s.caches then s.caches[from] else [], a.storage);
  }

  // ---------------------------------------------------------------- dispatch

  function HandleMessageStep(s: State, me: u16, msg: Message, now: int, a: Answers): Step
  {
    match FromMessage(msg, VARIANTS)
    case None => Step(s, Failure(Malformed))
    case Some(p) =>
      match p.1.t
      case Request =>
        (match a.syncType
         case None => Step(s, Failure(Malformed))
         case Some(Poll(_)) => SyncRespondStep(s, me, p.0, a.responderAccepts, a.responses, a.netUp)
         case Some(OtherSyncType) => Step(s, Panic))
      case Response => ProcessResponseStep(s, p.0, now, a)
      case Hello => HelloStep(s, p.1.bytes, a.storage)
  }

  /**
   * A Hello is handled on its payload alone: who sent it makes no
   * difference.  A storage error while the head is looked up is returned
   * with the queue untouched; otherwise a head this device already holds
   * dequeues the advertised address, and an unknown head queues it when
   * there is room.
   */
  lemma {:induction false} HelloKeysOnPayload(s: State, me: u16, msg: Message, sender: u16, now: int, a: Answers)
    requires Valid(s)
    requires KindOf(msg) == Some(Hello)
    ensures HandleMessageStep(s, me, msg, now, a) == HandleMessageStep(s, me, msg.(sender := sender), now, a)
    ensures var r := HandleMessageStep(s, me, msg, now, a);
      Valid(r.state) && r.state.(queue := s.queue) == s
      && (r.status == Success ==>
            var h := DecodeHello(FromMessage(msg, VARIANTS).value.1.bytes).value;
            (h.head in a.storage.located ==> h.address !in r.state.queue)
            && (h.head !in a.storage.located ==> (h.address in r.state.queue <==> h.address in s.queue || |s.queue| < MAX_PEERS)))
      && (r.status != Success ==> r.state == s)
      && (FromMessage(msg, VARIANTS).Some? && DecodeHello(FromMessage(msg, VARIANTS).value.1.bytes).Some? ==>
            (r.status == Success <==>
               a.storage.open && DecodeHello(FromMessage(msg, VARIANTS).value.1.bytes).value.head !in a.storage.failing))
  {
    var r := HandleMessageStep(s, me, msg, now, a);
    if FromMessage(msg, VARIANTS).Some? {
      KindOfDecoded(msg, VARIANTS);
      var h := DecodeHello(FromMessage(msg, VARIANTS).value.1.bytes);
      if h.Some? {
        RemoveMembers(s.queue, h.value.address);
        InsertMembers(s.queue, h.value.address);
      }
    }
  }

  /** `handle_messages`: every message already waiting, until the first error. */
  function HandleAll(s: State, me: u16, now: int, inbox: seq<Result<Message, SyncFault>>, answers: seq<Answers>): Step
    requires |answers| == |inbox|
    decreases |inbox|
  {
    if inbox == [] then Step(s, Success)
    else
      match inbox[0]
      case Err(f) => Step(s, Failure(f))
      case Ok(m) =>
        var r := HandleMessageStep(s, me, m, now, answers[0]);
        if r.status.Success? then HandleAll(r.state, me, now, inbox[1..], answers[1..]) else r
  }

  /** `sync_peer` on the first queued peer, which is dequeued if that fails. */
  function DriveFirst(s: State, me: u16, now: int, a: PeerAnswers): Step
  {
    if s.queue == [] then Step(s, Success)
    else
      var peer := s.queue[0];
      var r := SyncPeerStep(s, me, peer, now, a);
      if r.status.Failure? then Step(r.state.(queue := Remove(r.state.queue, peer)), Success)
      else Step(r.state, Success)
  }

  /** `process`: a Hello when one is due, the waiting messages, then the first queued peer. */
  function ProcessStep(s: State, me: u16, now: int, hello: HelloAnswers, inbox: seq<Result<Message, SyncFault>>,
                       answers: seq<Answers>, peer: PeerAnswers): Step
    requires |answers| == |inbox|
  {
    var s1 := if HelloDue(s, now) then SendHelloStep(s, me, now, hello).state else s;
    var h := HandleAll(s1, me, now, inbox, answers);
    if h.status.Panic? then h else DriveFirst(h.state, me, now, peer)
  }

  /**
   * `process` only ever syncs the first queued peer: every message that
   * step sends goes to it, and a failure takes it out of the queue.
   */
  lemma {:induction false} DriveFirstOnlyFirst(s: State, me: u16, now: int, a: PeerAnswers)
    requires Valid(s)
    ensures var r := DriveFirst(s, me, now, a);
      r.status == Success && Valid(r.state)
      && |s.sent| <= |r.state.sent| && r.state.sent[..|s.sent|] == s.sent
      && (forall i | |s.sent| <= i < |r.state.sent| :: r.state.sent[i].recipient == s.queue[0])
      && (s.queue != [] && SyncPeerStep(s, me, s.queue[0], now, a).status.Failure? ==> s.queue[0] !in r.state.queue)
  {
    if s.queue != [] {
      var p := SyncPeerStep(s, me, s.queue[0], now, a);
      RemoveMembers(s.queue, s.queue[0]);
      RemoveMembers(p.state.queue, s.queue[0]);
    }
  }

  // ---------------------------------------------------------------- invariants across steps

  /** `t` extends `s`'s sent log with messages none of which is a Hello. */
  predicate NoNewHello(s: State, t: State)
  {
    |s.sent| <= |t.sent| && t.sent[..|s.sent|] == s.sent
    && forall i | |s.sent| <= i < |t.sent| :: KindOf(t.sent[i]) != Some(Hello)
  }

  lemma {:induction false} NoNewHelloTrans(s: State, t: State, u: State)
    requires NoNewHello(s, t) && NoNewHello(t, u)
    ensures NoNewHello(s, u)
  {
    assert u.sent[..|s.sent|] == u.sent[..|t.sent|][..|s.sent|];
  }

  lemma {:induction false} HandleMessagePreserves(s: State, me: u16, msg: Message, now: int, a: Answers)
    requires Valid(s)
    ensures var r := HandleMessageStep(s, me, msg, now, a);
      Valid(r.state) && NoNewHello(s, r.state)
  {
    match FromMessage(msg, VARIANTS)
    case None =>
    case Some(p) =>
      match p.1.t
      case Request =>
        if a.syncType.Some? && a.syncType.value.Poll? && a.responderAccepts {
          RespondOnlyResponses(s.caches, s.sent, me, p.0, a.responses, a.netUp);
          var r := Respond(s.caches, s.sent, me, p.0, a.responses, a.netUp);
          forall i | |s.sent| <= i < |r.sent|
            ensures KindOf(r.sent[i]) != Some(Hello)
          {
          }
        }
      case Response => ResponsePreserves(s, p.0, now, a);
      case Hello => HelloPreserves(s, p.1.bytes, a.storage);
  }

  lemma {:induction false} ResponsePreserves(s: State, from: u16, now: int, a: Answers)
    requires Valid(s)
    ensures var r := ProcessResponseStep(s, from, now, a);
      Valid(r.state) && r.state.sent == s.sent
  {
    if s.session.Some? && s.session.value.peer == from && a.received == Ok(None) {
      RemoveMembers(s.queue, from);
    }
  }

  lemma {:induction false} HelloPreserves(s: State, bytes: seq<byte>, lk: Lookup)
    requires Valid(s)
    ensures var r := HelloStep(s, bytes, lk);
      Valid(r.state) && r.state.sent == s.sent
  {
    var h := DecodeHello(bytes);
    if h.Some? {
      RemoveMembers(s.queue, h.value.address);
      InsertMembers(s.queue, h.value.address);
    }
  }

  lemma {:induction false} HandleAllPreserves(s: State, me: u16, now: int, inbox: seq<Result<Message, SyncFault>>, answers: seq<Answers>)
    requires Valid(s) && |answers| == |inbox|
    ensures var r := HandleAll(s, me, now, inbox, answers);
      Valid(r.state) && NoNewHello(s, r.state)
    decreases |inbox|
  {
    if inbox != [] && inbox[0].Ok? {
      var r := HandleMessageStep(s, me, inbox[0].value, now, answers[0]);
      HandleMessagePreserves(s, me, inbox[0].value, now, answers[0]);
      if r.status.Success? {
        HandleAllPreserves(r.state, me, now, inbox[1..], answers[1..]);
        NoNewHelloTrans(s, r.state, HandleAll(r.state, me, now, inbox[1..], answers[1..]).state);
      }
    }
  }

  lemma {:induction false} DriveFirstNoHello(s: State, me: u16, now: int, a: PeerAnswers)
    requires Valid(s)
    ensures NoNewHello(s, DriveFirst(s, me, now, a).state)
  {
    if s.queue != [] && s.session.None? && a.poll.Ok? {
      KindOfInto(SyncMessage(Request, a.poll.value), me, s.queue[0]);
    }
  }

  /**
   * `process` keeps the engine's invariants: the queue stays a bounded set
   * and the boost stays within 0..3.  It broadcasts a Hello only when one
   * is due, `now - last_hello > hello_timeout`.
   */
  lemma {:induction false} ProcessPreserves(s: State, me: u16, now: int, hello: HelloAnswers, inbox: seq<Result<Message, SyncFault>>,
                         answers: seq<Answers>, peer: PeerAnswers)
    requires Valid(s) && |answers| == |inbox|
    ensures var r := ProcessStep(s, me, now, hello, inbox, answers, peer);
      Valid(r.state) && |s.sent| <= |r.state.sent| && r.state.sent[..|s.sent|] == s.sent
      && (!HelloDue(s, now) ==> NoNewHello(s, r.state))
  {
    var s1 := if HelloDue(s, now) then SendHelloStep(s, me, now, hello).state else s;
    var h := HandleAll(s1, me, now, inbox, answers);
    HandleAllPreserves(s1, me, now, inbox, answers);
    if !h.status.Panic? {
      DriveFirstOnlyFirst(h.state, me, now, peer);
      DriveFirstNoHello(h.state, me, now, peer);
      NoNewHelloTrans(s1, h.state, DriveFirst(h.state, me, now, peer).state);
    }
    var r := ProcessStep(s, me, now, hello, inbox, answers, peer);
    assert r.state.sent[..|s1.sent|] == s1.sent;
    assert r.state.sent[..|s.sent|] == r.state.sent[..|s1.sent|][..|s.sent|];
  }

  // ---------------------------------------------------------------- the engine

  /** `SyncEngine`: this device's address and the state `process` works on. */
  class Engine {
    const me: u16
    var queue: seq<u16>
    var session: Option<Session>
    var peerCaches: map<u16, seq<Address>>
    var helloBoost: nat
    var lastHello: int
    var sent: seq<Message>
    var committed: seq<seq<Command>>

    function Snapshot(): State
      reads this
    {
      State(queue, session, peerCaches, helloBoost, lastHello, sent, committed)
    }

    constructor(me: u16)
      ensures this.me == me && Snapshot() == Init()
    {
      this.me := me;
      queue := [];
      session := None;
      peerCaches := map[];
      helloBoost := 0;
      lastHello := 0;
      sent := [];
      committed := [];
    }

    /** `boost_hello`: Hellos every 125 ms from now on, the first one at once. */
    method BoostHello()
      modifies this
      ensures Snapshot() == old(Snapshot()).(helloBoost := 3, lastHello := 0)
    {
      helloBoost := 3;
      lastHello := 0;
    }

    method SendHello(now: int, a: HelloAnswers) returns (r: Status)
      modifies this
      ensures Step(Snapshot(), r) == SendHelloStep(old(Snapshot()), me, now, a)
    {
      if a.head.Err? {
        return Failure(a.head.error);
      }
      if !a.netUp {
        return Failure(NetworkFailed);
      }
      sent := sent + [HelloFor(me, a.head.value)];
      if helloBoost > 0 {
        helloBoost := helloBoost - 1;
      }
      lastHello := now;
      r := Success;
    }

    method SyncPeer(peer: u16, now: int, a: PeerAnswers) returns (r: Status)
      modifies this
      ensures Step(Snapshot(), r) == SyncPeerStep(old(Snapshot()), me, peer, now, a)
    {
      if session.Some? {
        var ses := session.value;
        if now - ses.lastSeen > SYNC_STALL_TIMEOUT {
          if ses.trx.Some? {
            if !a.commitOk {
              return Failure(CommitFailed);
            }
            committed := committed + [ses.trx.value.staged];
          }
          session := None;
          queue := Remove(queue, peer);
        }
        return Success;
      }
      session := Some(Session(None, now, peer));
      peerCaches := OrDefault(peerCaches, peer);
      if a.poll.Err? {
        return Failure(a.poll.error);
      }
      if !a.netUp {
        return Failure(NetworkFailed);
      }
      sent := sent + [IntoMessage(SyncMessage(Request, a.poll.value), me, peer)];
      r := Success;
    }

    method SyncRespond(from: u16, accepts: bool, responses: seq<Result<seq<byte>, SyncFault>>, netUp: bool) returns (r: Status)
      modifies this
      ensures Step(Snapshot(), r) == SyncRespondStep(old(Snapshot()), me, from, accepts, responses, netUp)
    {
      if !accepts {
        return Failure(ResponderFailed);
      }
      var i := 0;
      while i < |responses|
        invariant 0 <= i <= |responses|
        invariant Respond(old(peerCaches), old(sent), me, from, responses, netUp) == Respond(peerCaches, sent, me, from, responses[i..], netUp)
        invariant Snapshot().(caches := old(peerCaches), sent := old(sent)) == old(Snapshot())
      {
        assert responses[i..][1..] == responses[i + 1..];
        peerCaches := OrDefault(peerCaches, from);
        if responses[i].Err? {
          return Failure(responses[i].error);
        }
        if !netUp {
          return Failure(NetworkFailed);
        }
        sent := sent + [IntoMessage(SyncMessage(Response, responses[i].value), me, from)];
        i := i + 1;
      }
      r := Success;
    }

    method ProcessResponse(from: u16, now: int, a: Answers) returns (r: Status)
      modifies this
      ensures Step(Snapshot(), r) == ProcessResponseStep(old(Snapshot()), from, now, a)
    {
      if session.None? || session.value.peer != from {
        return Failure(SessionMismatch);
      }
      var ses := session.value.(lastSeen := now);
      session := Some(ses);
      if a.received.Err? {
        return Failure(a.received.error);
      }
      if a.received.value.None? {
        session := None;
        if ses.trx.Some? {
          if !a.commitOk {
            return Failure(CommitFailed);
          }
          committed := committed + [ses.trx.value.staged];
        }
        queue := Remove(queue, from);
        return Success;
      }
      var cmds := a.received.value.value;
      if cmds == [] {
        return Success;
      }
      peerCaches := OrDefault(peerCaches, from);
      var trx, cache;
      trx, cache, r := AddCommands(cmds, ses.trx, peerCaches[from], a.addOk, a.storage);
      session := Some(ses.(trx := Some(trx)));
      peerCaches := peerCaches[from := cache];
    }

    method HandleMessage(msg: Message, now: int, a: Answers) returns (r: Status)
      modifies this
      ensures Step(Snapshot(), r) == HandleMessageStep(old(Snapshot()), me, msg, now, a)
    {
      var d := FromMessage(msg, VARIANTS);
      if d.None? {
        return Failure(Malformed);
      }
      var from, sm := d.value.0, d.value.1;
      match sm.t
      case Request =>
        if a.syncType.None? {
          return Failure(Malformed);
        }
        if a.syncType.value.OtherSyncType? {
          return Panic;
        }
        r := SyncRespond(from, a.responderAccepts, a.responses, a.netUp);
      case Response =>
        r := ProcessResponse(from, now, a);
      case Hello =>
        var h := DecodeHello(sm.bytes);
        if h.None? {
          return Failure(Malformed);
        }
        if !a.storage.open || h.value.head in a.storage.failing {
          return Failure(StorageFailed);
        }
        if h.value.head in a.storage.located {
          queue := Remove(queue, h.value.address);
        } else {
          queue := Insert(queue, h.value.address);
        }
        r := Success;
    }

    /** `handle_messages`: the messages already waiting, until one fails. */
    method HandleMessages(inbox: seq<Result<Message, SyncFault>>, now: int, answers: seq<Answers>) returns (r: Status)
      requires |answers| == |inbox|
      modifies this
      ensures Step(Snapshot(), r) == HandleAll(old(Snapshot()), me, now, inbox, answers)
    {
      var i := 0;
      while i < |inbox|
        invariant 0 <= i <= |inbox|
        invariant HandleAll(old(Snapshot()), me, now, inbox, answers) == HandleAll(Snapshot(), me, now, inbox[i..], answers[i..])
      {
        assert inbox[i..][1..] == inbox[i + 1..] && answers[i..][1..] == answers[i + 1..];
        if inbox[i].Err? {
          return Failure(inbox[i].error);
        }
        r := HandleMessage(inbox[i].value, now, answers[i]);
        if !r.Success? {
          return;
        }
        i := i + 1;
      }
      r := Success;
    }

    method Process(now: int, hello: HelloAnswers, inbox: seq<Result<Message, SyncFault>>, answers: seq<Answers>, peer: PeerAnswers)
      returns (r: Status)
      requires |answers| == |inbox|
      modifies this
      ensures Step(Snapshot(), r) == ProcessStep(old(Snapshot()), me, now, hello, inbox, answers, peer)
    {
      if now - lastHello > HelloTimeout(helloBoost) {
        var _ := SendHello(now, hello);
      }
      r := HandleMessages(inbox, now, answers);
      if r.Panic? {
        return;
      }
      if queue != [] {
        var first := queue[0];
        var s := SyncPeer(first, now, peer);
        if s.Failure? {
          queue := Remove(queue, first);
        }
      }
      r := Success;
    }
  }
}
