/**
 * The demo board's sync engine: a fixed list of peers synced round after
 * round, at most one outgoing session per peer kept in a map keyed by the
 * peer's address, per-peer caches, and responses to the peers' requests.
 * There is no Hello.
 *
 * As for the chat engine, each operation is a function from the state and
 * the runtime's answers to the new state and status, and the `Engine`
 * class performs it in place.  Times are milliseconds.
 */
module DemoSyncer {
  import opened Bytes
  import opened Wrappers
  import opened EspNow
  import opened SyncCommon

  const SYNC_STALL_TIMEOUT: int := 8000
  /** `parameter_store::MAX_PEERS`, the capacity of the peer list. */
  const MAX_PEERS: nat := 16
  /** This engine's `SyncMessageType` has only Request and Response. */
  const VARIANTS: nat := 2

  datatype Session = Session(trx: Option<Trx>, lastSeen: int)

  datatype State = State(
    sessions: map<u16, Session>,
    caches: map<u16, seq<Address>>,
    sent: seq<Message>,
    committed: seq<seq<Command>>)

  datatype Step = Step(state: State, status: Status)

  /** One call of `sync_peer` inside `initiate`: the time it runs at and what the runtime answers. */
  datatype Attempt = Attempt(now: int, answers: PeerAnswers)

  function Init(): State
  {
    State(map[], map[], [], [])
  }

  // ---------------------------------------------------------------- requesting

  function SyncPeerStep(s: State, me: u16, peer: u16, now: int, a: PeerAnswers): Step
  {
    if peer !in s.sessions then
      var s1 := s.(sessions := s.sessions[peer := Session(None, now)], caches := OrDefault(s.caches, peer));
      match a.poll
      case Err(f) => Step(s1, Failure(f))
      case Ok(req) =>
        if !a.netUp then Step(s1, Failure(NetworkFailed))
        else Step(s1.(sent := s1.sent + [IntoMessage(SyncMessage(Request, req), me, peer)]), Success)
    else
      var ses := s.sessions[peer];
      if now - ses.lastSeen <= SYNC_STALL_TIMEOUT then Step(s, Success)
      else
        var s1 := s.(sessions := s.sessions - {peer});
        if ses.trx.Some? && !a.commitOk then Step(s1, Failure(CommitFailed))
        else Step(s1.(committed := s1.committed + Commits(ses.trx)), Success)
  }

  /**
   * `sync_peer` on a peer without a session inserts one, with no
   * transaction and `last_seen` now, and a successful call sends that peer
   * exactly one Request carrying the requester's bytes.
   */
  lemma {:induction false} SyncPeerOpens(s: State, me: u16, peer: u16, now: int, a: PeerAnswers)
    requires peer !in s.sessions
    requires a.poll.Ok? ==> |a.poll.value| <= U32_MAX
    ensures var r := SyncPeerStep(s, me, peer, now, a);
      r.state.sessions == s.sessions[peer := Session(None, now)] && peer in r.state.caches
      && r.state.committed == s.committed && r.state.sent[..|s.sent|] == s.sent
      && (r.status == Success <==> a.poll.Ok? && a.netUp)
      && (r.status == Success ==>
            |r.state.sent| == |s.sent| + 1 && r.state.sent[|s.sent|].recipient == peer
            && FromMessage(r.state.sent[|s.sent|], VARIANTS) == Some((me, SyncMessage(Request, a.poll.value))))
      && (r.status != Success ==> r.state.sent == s.sent)
  {
    if a.poll.Ok? && a.netUp {
      MessageRoundTrip(SyncMessage(Request, a.poll.value), me, peer, VARIANTS);
    }
  }

  /**
   * `sync_peer` on a peer with a session sends nothing.  A session quiet
   * for more than 8 s is removed before its transaction is committed, so it
   * is gone even when the commit fails; a younger one is left unchanged.
   */
  lemma {:induction false} SyncPeerExisting(s: State, me: u16, peer: u16, now: int, a: PeerAnswers)
    requires peer in s.sessions
    ensures var r := SyncPeerStep(s, me, peer, now, a);
      var ses := s.sessions[peer];
      r.state.sent == s.sent && r.state.caches == s.caches
      && (now - ses.lastSeen <= SYNC_STALL_TIMEOUT ==> r == Step(s, Success))
      && (now - ses.lastSeen > SYNC_STALL_TIMEOUT ==>
            r.state.sessions == s.sessions - {peer}
            && (r.status == Success <==> ses.trx.None? || a.commitOk)
            && r.state.committed == (if r.status == Success then s.committed + Commits(ses.trx) else s.committed))
  {
  }

  /** `sync_peer` on one peer leaves every other peer's session as it was. */
  lemma {:induction false} SyncPeerOnlyThatPeer(s: State, me: u16, peer: u16, now: int, a: PeerAnswers, other: u16)
    requires other != peer
    ensures var r := SyncPeerStep(s, me, peer, now, a);
      (other in r.state.sessions <==> other in s.sessions)
      && (other in s.sessions ==> r.state.sessions[other] == s.sessions[other])
  {
  }

  /** One round of `initiate`: `sync_peer` on every configured peer, in list order, errors ignored. */
  function InitiateRound(s: State, me: u16, peers: seq<u16>, attempts: seq<Attempt>): State
    requires |attempts| == |peers|
    decreases |peers|
  {
    if peers == [] then s
    else InitiateRound(SyncPeerStep(s, me, peers[0], attempts[0].now, attempts[0].answers).state, me, peers[1..], attempts[1..])
  }

  /**
   * After a round, every configured peer that had no session has one: a
   * session is inserted before the poll, so a failed poll or send does not
   * prevent it, and the other peers' calls do not touch it.
   */
  lemma {:induction false} InitiateOpensSessions(s: State, me: u16, peers: seq<u16>, attempts: seq<Attempt>, p: u16)
    requires |attempts| == |peers|
    requires forall i, j | 0 <= i < j < |peers| :: peers[i] != peers[j]
    requires p in peers && p !in s.sessions
    ensures p in InitiateRound(s, me, peers, attempts).sessions
    decreases |peers|
  {
    var s1 := SyncPeerStep(s, me, peers[0], attempts[0].now, attempts[0].answers).state;
    if peers[0] == p {
      assert p !in peers[1..];
      KeepsSession(s1, me, peers[1..], attempts[1..], p);
    } else {
      SyncPeerOnlyThatPeer(s, me, peers[0], attempts[0].now, attempts[0].answers, p);
      InitiateOpensSessions(s1, me, peers[1..], attempts[1..], p);
    }
  }

  /** A session of a peer outside the rest of the round survives it unchanged. */
  lemma {:induction false} KeepsSession(s: State, me: u16, peers: seq<u16>, attempts: seq<Attempt>, p: u16)
    requires |attempts| == |peers|
    requires p !in peers && p in s.sessions
    ensures var r := InitiateRound(s, me, peers, attempts);
      p in r.sessions && r.sessions[p] == s.sessions[p]
    decreases |peers|
  {
    if peers != [] {
      SyncPeerOnlyThatPeer(s, me, peers[0], attempts[0].now, attempts[0].answers, p);
      var s1 := SyncPeerStep(s, me, peers[0], attempts[0].now, attempts[0].answers).state;
      assert p !in peers[1..];
      KeepsSession(s1, me, peers[1..], attempts[1..], p);
    }
  }

  /** A round sends only Requests, each to a configured peer, after what was sent before. */
  lemma {:induction false} InitiateSendsRequests(s: State, me: u16, peers: seq<u16>, attempts: seq<Attempt>)
    requires |attempts| == |peers|
    ensures var r := InitiateRound(s, me, peers, attempts);
      |s.sent| <= |r.sent| && r.sent[..|s.sent|] == s.sent
      && forall i | |s.sent| <= i < |r.sent| :: KindOf(r.sent[i]) == Some(Request) && r.sent[i].recipient in peers
    decreases |peers|
  {
    if peers != [] {
      var a := attempts[0].answers;
      var s1 := SyncPeerStep(s, me, peers[0], attempts[0].now, a).state;
      if peers[0] !in s.sessions && a.poll.Ok? {
        KindOfInto(SyncMessage(Request, a.poll.value), me, peers[0]);
      }
      InitiateSendsRequests(s1, me, peers[1..], attempts[1..]);
      var r := InitiateRound(s1, me, peers[1..], attempts[1..]);
      assert r.sent[..|s.sent|] == r.sent[..|s1.sent|][..|s.sent|];
      forall i | |s.sent| <= i < |r.sent|
        ensures KindOf(r.sent[i]) == Some(Request) && r.sent[i].recipient in peers
      {
        if i >= |s1.sent| {
          assert r.sent[i].recipient in peers[1..];
        } else {
          assert r.sent[i] == s1.sent[i];
        }
      }
    }
  }

  // ---------------------------------------------------------------- responding

  function SyncRespondStep(s: State, me: u16, from: u16, accepts: bool, responses: seq<Result<seq<byte>, SyncFault>>, netUp: bool): Step
  {
    if !accepts then Step(s, Failure(ResponderFailed))
    else
      var r := Respond(s.caches, s.sent, me, from, responses, netUp);
      Step(s.(caches := r.caches, sent := r.sent), r.status)
  }

  /** Answering a request sends one Response per responder poll and changes no session. */
  lemma {:induction false} SyncRespondSends(s: State, me: u16, from: u16, responses: seq<Result<seq<byte>, SyncFault>>)
    ensures var r := SyncRespondStep(s, me, from, true, responses, true);
      r.state.sent == s.sent + ResponsesFor(me, from, responses)
      && r.state.sessions == s.sessions && r.state.committed == s.committed
      && (r.status == Success <==> forall i | 0 <= i < |responses| :: responses[i].Ok?)
  {
    RespondSendsResponses(s.caches, s.sent, me, from, responses);
  }

  // ---------------------------------------------------------------- responses to our requests

  function ProcessResponseStep(s: State, from: u16, now: int, a: Answers): Step
  {
    if from !in s.sessions then Step(s, Failure(SessionMismatch))
    else
      var ses := s.sessions[from].(lastSeen := now);
      var s1 := s.(sessions := s.sessions[from := ses]);
      match a.received
      case Err(f) => Step(s1, Failure(f))
      case Ok(None) =>
        var s2 := s1.(sessions := s1.sessions - {from});
        if ses.trx.Some? && !a.commitOk then Step(s2, Failure(CommitFailed))
        else Step(s2.(committed := s2.committed + Commits(ses.trx)), Success)
      case Ok(Some(cmds)) =>
        if cmds == [] then Step(s1, Success)
        else
          var caches := OrDefault(s1.caches, from);
          var added := AddCommandsSpec(cmds, ses.trx, caches[from], a.addOk, a.storage);
          Step(s1.(sessions := s1.sessions[from := ses.(trx := Some(added.0))], caches := caches[from := added.1]), added.2)
  }

  /**
   * A response from a peer without a session is a SessionMismatch that
   * changes nothing.  Otherwise that peer's `last_seen` is refreshed; when
   * the requester reports the sync finished, its session alone is removed
   * and its transaction committed.  No other peer's session changes.
   */
  lemma {:induction false} ProcessResponseSessions(s: State, from: u16, now: int, a: Answers, other: u16)
    requires other != from
    ensures var r := ProcessResponseStep(s, from, now, a);
      (from !in s.sessions ==> r == Step(s, Failure(SessionMismatch)))
      && (from in s.sessions ==>
            (from !in r.state.sessions <==> a.received == Ok(None))
            && (from in r.state.sessions ==> r.state.sessions[from].lastSeen == now)
            && (a.received == Ok(None) ==>
                  (r.status == Success <==> s.sessions[from].trx.None? || a.commitOk)
                  && r.state.committed == (if r.status == Success then s.committed + Commits(s.sessions[from].trx) else s.committed)))
      && (other in r.state.sessions <==> other in s.sessions)
      && (other in s.sessions ==> r.state.sessions[other] == s.sessions[other])
  {
  }

  /** `handle_message`: receive one message, then answer a Request or take in a Response. */
  function HandleMessageStep(s: State, me: u16, incoming: Result<Message, SyncFault>, now: int, a: Answers): Step
  {
    if incoming.Err? then Step(s, Failure(incoming.error))
    else
      match FromMessage(incoming.value, VARIANTS)
      case None => Step(s, Failure(Malformed))
      case Some(p) =>
        // only Request and Response decode with two variants
        if p.1.t.Request? then
          match a.syncType
          case None => Step(s, Failure(Malformed))
          case Some(Poll(_)) => SyncRespondStep(s, me, p.0, a.responderAccepts, a.responses, a.netUp)
          case Some(OtherSyncType) => Step(s, Panic)
        else ProcessResponseStep(s, p.0, now, a)
  }

  /** A Hello, which this engine does not know, is rejected as malformed and changes nothing. */
  lemma {:induction false} HelloRejected(s: State, me: u16, msg: Message, now: int, a: Answers)
    requires KindOf(msg) == Some(Hello)
    ensures HandleMessageStep(s, me, Ok(msg), now, a) == Step(s, Failure(Malformed))
  {
    if FromMessage(msg, VARIANTS).Some? {
      KindOfDecoded(msg, VARIANTS);
    }
  }

  // ---------------------------------------------------------------- the engine

  /** `SyncEngine`: this device's address, its configured peers and the sessions. */
  class Engine {
    const me: u16
    const peers: seq<u16>
    var sessions: map<u16, Session>
    var peerCaches: map<u16, seq<Address>>
    var sent: seq<Message>
    var committed: seq<seq<Command>>

    function Snapshot(): State
      reads this
    {
      State(sessions, peerCaches, sent, committed)
    }

    /** `SyncEngine::new`; the peer list is a `heapless::Vec` of MAX_PEERS. */
    constructor(me: u16, peers: seq<u16>)
      requires |peers| <= MAX_PEERS
      ensures this.me == me && this.peers == peers && Snapshot() == Init()
    {
      this.me := me;
      this.peers := peers;
      sessions := map[];
      peerCaches := map[];
      sent := [];
      committed := [];
    }

    method SyncPeer(peer: u16, now: int, a: PeerAnswers) returns (r: Status)
      modifies this
      ensures Step(Snapshot(), r) == SyncPeerStep(old(Snapshot()), me, peer, now, a)
    {
      if peer in sessions {
        var ses := sessions[peer];
        if now - ses.lastSeen > SYNC_STALL_TIMEOUT {
          sessions := sessions - {peer};
          if ses.trx.Some? {
            if !a.commitOk {
              return Failure(CommitFailed);
            }
            committed := committed + [ses.trx.value.staged];
          }
        }
        return Success;
      }
      sessions := sessions[peer := Session(None, now)];
      peerCaches := OrDefault(peerCaches, peer);
      if a.poll.Err? {
        return Failure(a.poll.error);
      }
      if !a.netUp {
        return Failure(NetworkFailed);
      }
      sent := sent + [IntoMessage(SyncMessage(Request, a.poll.value), me, peer)];
      r := Success;
    }

    /** One pass of `initiate`'s endless loop over the configured peers. */
    method Initiate(attempts: seq<Attempt>)
      requires |attempts| == |peers|
      modifies this
      ensures Snapshot() == InitiateRound(old(Snapshot()), me, peers, attempts)
    {
      for i := 0 to |peers|
        invariant InitiateRound(old(Snapshot()), me, peers, attempts) == InitiateRound(Snapshot(), me, peers[i..], attempts[i..])
      {
        assert peers[i..][1..] == peers[i + 1..] && attempts[i..][1..] == attempts[i + 1..];
        var _ := SyncPeer(peers[i], attempts[i].now, attempts[i].answers);
      }
    }

    method SyncRespond(from: u16, accepts: bool, responses: seq<Result<seq<byte>, SyncFault>>, netUp: bool) returns (r: Status)
      modifies this
      ensures Step(Snapshot(), r) == SyncRespondStep(old(Snapshot()), me, from, accepts, responses, netUp)
    {
      if !accepts {
        return Failure(ResponderFailed);
      }
      var i := 0;
      while i < |responses|
        invariant 0 <= i <= |responses|
        invariant Respond(old(peerCaches), old(sent), me, from, responses, netUp) == Respond(peerCaches, sent, me, from, responses[i..], netUp)
        invariant sessions == old(sessions) && committed == old(committed)
      {
        assert responses[i..][1..] == responses[i + 1..];
        peerCaches := OrDefault(peerCaches, from);
        if responses[i].Err? {
          return Failure(responses[i].error);
        }
        if !netUp {
          return Failure(NetworkFailed);
        }
        sent := sent + [IntoMessage(SyncMessage(Response, responses[i].value), me, from)];
        i := i + 1;
      }
      r := Success;
    }

    method ProcessResponse(from: u16, now: int, a: Answers) returns (r: Status)
      modifies this
      ensures Step(Snapshot(), r) == ProcessResponseStep(old(Snapshot()), from, now, a)
    {
      if from !in sessions {
        return Failure(SessionMismatch);
      }
      var ses := sessions[from].(lastSeen := now);
      sessions := sessions[from := ses];
      if a.received.Err? {
        return Failure(a.received.error);
      }
      if a.received.value.None? {
        sessions := sessions - {from};
        if ses.trx.Some? {
          if !a.commitOk {
            return Failure(CommitFailed);
          }
          committed := committed + [ses.trx.value.staged];
        }
        return Success;
      }
      var cmds := a.received.value.value;
      if cmds == [] {
        return Success;
      }
      peerCaches := OrDefault(peerCaches, from);
      var trx, cache;
      trx, cache, r := AddCommands(cmds, ses.trx, peerCaches[from], a.addOk, a.storage);
      sessions := sessions[from := ses.(trx := Some(trx))];
      peerCaches := peerCaches[from := cache];
    }

    /** `handle_message`; `serve` calls it forever and ignores its errors. */
    method HandleMessage(incoming: Result<Message, SyncFault>, now: int, a: Answers) returns (r: Status)
      modifies this
      ensures Step(Snapshot(), r) == HandleMessageStep(old(Snapshot()), me, incoming, now, a)
    {
      if incoming.Err? {
        return Failure(incoming.error);
      }
      var d := FromMessage(incoming.value, VARIANTS);
      if d.None? {
        return Failure(Malformed);
      }
      var from, sm := d.value.0, d.value.1;
      if sm.t.Request? {
        if a.syncType.None? {
          return Failure(Malformed);
        }
        if a.syncType.value.OtherSyncType? {
          return Panic;
        }
        r := SyncRespond(from, a.responderAccepts, a.responses, a.netUp);
      } else {
        r := ProcessResponse(from, now, a);
      }
    }
  }
}
