/**
 * The older sync engine of the base firmware: sessions keyed by peer that
 * remember only when they started, one peer cache shared by all peers, one
 * Response per Request, and a session that ends with the first response it
 * gets.  Nothing is committed here: received commands go straight to
 * `Imp::add_commands`, whose effect is logged.  Times are milliseconds.
 */
module LegacySyncer {
  import opened Bytes
  import opened Wrappers
  import opened EspNow
  import opened SyncCommon

  const SYNC_STALL_TIMEOUT: int := 5000
  const VARIANTS: nat := 2

  datatype State = State(
    sessions: map<u16, int>,    // peer -> `started_at`
    sent: seq<Message>,
    added: seq<seq<Command>>)   // batches handed to `Imp::add_commands`

  datatype Step = Step(state: State, status: Status)

  /** One call of `sync_peer` inside `initiate`: its time and the runtime's answers. */
  datatype Attempt = Attempt(now: int, answers: PeerAnswers)

  /** The answers the runtime gives while one received message is handled. */
  datatype LegacyAnswers = LegacyAnswers(
    syncType: Option<SyncType>,
    responderAccepts: bool,
    response: Result<seq<byte>, SyncFault>,
    received: Result<Option<seq<Command>>, SyncFault>,
    addOk: bool,
    netUp: bool)

  function Init(): State
  {
    State(map[], [], [])
  }

  function SyncPeerStep(s: State, me: u16, peer: u16, now: int, a: PeerAnswers): Step
  {
    if peer !in s.sessions then
      var s1 := s.(sessions := s.sessions[peer := now]);
      match a.poll
      case Err(f) => Step(s1, Failure(f))
      case Ok(req) =>
        if !a.netUp then Step(s1, Failure(NetworkFailed))
        else Step(s1.(sent := s1.sent + [IntoMessage(SyncMessage(Request, req), me, peer)]), Success)
    else if now - s.sessions[peer] > SYNC_STALL_TIMEOUT then Step(s.(sessions := s.sessions - {peer}), Success)
    else Step(s, Success)
  }

  /**
   * `sync_peer` without a session inserts one started now and, when the
   * poll and the send succeed, sends exactly one Request.  With a session
   * it sends nothing: a session older than 5 s is dropped with nothing
   * committed, a younger one is left alone.
   */
  lemma {:induction false} SyncPeerSessions(s: State, me: u16, peer: u16, now: int, a: PeerAnswers)
    requires a.poll.Ok? ==> |a.poll.value| <= U32_MAX
    ensures var r := SyncPeerStep(s, me, peer, now, a);
      r.state.added == s.added && r.state.sent[..|s.sent|] == s.sent
      && (peer !in s.sessions ==>
            r.state.sessions == s.sessions[peer := now]
            && (r.status == Success <==> a.poll.Ok? && a.netUp)
            && (r.status == Success ==>
                  |r.state.sent| == |s.sent| + 1
                  && FromMessage(r.state.sent[|s.sent|], VARIANTS) == Some((me, SyncMessage(Request, a.poll.value)))
                  && r.state.sent[|s.sent|].recipient == peer)
            && (r.status != Success ==> r.state.sent == s.sent))
      && (peer in s.sessions ==>
            r.status == Success && r.state.sent == s.sent
            && r.state.sessions == (if now - s.sessions[peer] > SYNC_STALL_TIMEOUT then s.sessions - {peer} else s.sessions))
  {
    if peer !in s.sessions && a.poll.Ok? && a.netUp {
      MessageRoundTrip(SyncMessage(Request, a.poll.value), me, peer, VARIANTS);
    }
  }

  /** One round of `initiate`: `sync_peer` on every configured peer, in order, errors ignored. */
  function InitiateRound(s: State, me: u16, peers: seq<u16>, attempts: seq<Attempt>): State
    requires |attempts| == |peers|
    decreases |peers|
  {
    if peers == [] then s
    else InitiateRound(SyncPeerStep(s, me, peers[0], attempts[0].now, attempts[0].answers).state, me, peers[1..], attempts[1..])
  }

  /** A round leaves the session of a peer outside the list as it was: sessions are per peer. */
  lemma {:induction false} InitiateKeepsOthers(s: State, me: u16, peers: seq<u16>, attempts: seq<Attempt>, p: u16)
    requires |attempts| == |peers|
    requires p !in peers && p in s.sessions
    ensures var r := InitiateRound(s, me, peers, attempts);
      p in r.sessions && r.sessions[p] == s.sessions[p]
    decreases |peers|
  {
    if peers != [] {
      var s1 := SyncPeerStep(s, me, peers[0], attempts[0].now, attempts[0].answers).state;
      assert p !in peers[1..];
      InitiateKeepsOthers(s1, me, peers[1..], attempts[1..], p);
    }
  }

  /** `sync_respond`: one responder poll, sent back as one Response, even an empty one. */
  function SyncRespondStep(s: State, me: u16, from: u16, accepts: bool, response: Result<seq<byte>, SyncFault>, netUp: bool): Step
  {
    if !accepts then Step(s, Failure(ResponderFailed))
    else
      match response
      case Err(f) => Step(s, Failure(f))
      case Ok(b) =>
        if !netUp then Step(s, Failure(NetworkFailed))
        else Step(s.(sent := s.sent + [IntoMessage(SyncMessage(Response, b), me, from)]), Success)
  }

  /** A Request gets exactly one Response back, to its sender, carrying the responder's bytes. */
  lemma {:induction false} OneResponsePerRequest(s: State, me: u16, from: u16, b: seq<byte>)
    requires |b| <= U32_MAX
    ensures var r := SyncRespondStep(s, me, from, true, Ok(b), true);
      r.status == Success && r.state.sessions == s.sessions && r.state.added == s.added
      && |r.state.sent| == |s.sent| + 1 && r.state.sent[..|s.sent|] == s.sent
      && r.state.sent[|s.sent|].recipient == from
      && FromMessage(r.state.sent[|s.sent|], VARIANTS) == Some((me, SyncMessage(Response, b)))
  {
    MessageRoundTrip(SyncMessage(Response, b), me, from, VARIANTS);
  }

  function ProcessResponseStep(s: State, from: u16, bytes: seq<byte>, a: LegacyAnswers): Step
  {
    if from !in s.sessions then Step(s, Failure(SessionMismatch))
    else
      var s1 := s.(sessions := s.sessions - {from});
      if bytes == [] then Step(s1, Success)
      else
        match a.received
        case Err(f) => Step(s1, Failure(f))
        case Ok(None) => Step(s1, Failure(MissingSyncResponse))
        case Ok(Some(cmds)) =>
          if cmds == [] then Step(s1, Success)
          else if !a.addOk then Step(s1, Failure(AddFailed))
          else Step(s1.(added := s1.added + [cmds]), Success)
  }

  /**
   * A response from a peer without a session is a SessionMismatch that
   * changes nothing.  Otherwise the session is removed first, whatever
   * follows: empty bytes are accepted without asking the requester, a
   * finished sync is reported as MissingSyncResponse, and only a non-empty
   * batch reaches `add_commands`.
   */
  lemma {:induction false} ProcessResponseEndsSession(s: State, from: u16, bytes: seq<byte>, a: LegacyAnswers)
    ensures var r := ProcessResponseStep(s, from, bytes, a);
      (from !in s.sessions ==> r == Step(s, Failure(SessionMismatch)))
      && (from in s.sessions ==>
            r.state.sessions == s.sessions - {from} && r.state.sent == s.sent
            && (bytes == [] ==> r == Step(s.(sessions := s.sessions - {from}), Success))
            && (bytes != [] && a.received == Ok(None) ==> r.status == Failure(MissingSyncResponse))
            && (r.state.added != s.added <==>
                  bytes != [] && a.addOk && a.received.Ok? && a.received.value.Some? && a.received.value.value != []))
  {
  }

  /** A second response to the same request finds no session. */
  lemma {:induction false} SecondResponseMismatch(s: State, from: u16, b1: seq<byte>, b2: seq<byte>, a1: LegacyAnswers, a2: LegacyAnswers)
    ensures var r1 := ProcessResponseStep(s, from, b1, a1);
      ProcessResponseStep(r1.state, from, b2, a2) == Step(r1.state, Failure(SessionMismatch))
  {
  }

  function HandleMessageStep(s: State, me: u16, incoming: Result<Message, SyncFault>, a: LegacyAnswers): Step
  {
    if incoming.Err? then Step(s, Failure(incoming.error))
    else
      match FromMessage(incoming.value, VARIANTS)
      case None => Step(s, Failure(Malformed))
      case Some(p) =>
        // only Request and Response decode with two variants
        if p.1.t.Request? then
          match a.syncType
          case None => Step(s, Failure(Malformed))
          case Some(Poll(_)) => SyncRespondStep(s, me, p.0, a.responderAccepts, a.response, a.netUp)
          case Some(OtherSyncType) => Step(s, Panic)
        else ProcessResponseStep(s, p.0, p.1.bytes, a)
  }

  /** `SyncEngine`: this device's address, the configured peers and the sessions. */
  class Engine {
    const me: u16
    const peers: seq<u16>
    var sessions: map<u16, int>
    var sent: seq<Message>
    var added: seq<seq<Command>>

    function Snapshot(): State
      reads this
    {
      State(sessions, sent, added)
    }

    constructor(me: u16, peers: seq<u16>)
      ensures this.me == me && this.peers == peers && Snapshot() == Init()
    {
      this.me := me;
      this.peers := peers;
      sessions := map[];
      sent := [];
      added := [];
    }

    method SyncPeer(peer: u16, now: int, a: PeerAnswers) returns (r: Status)
      modifies this
      ensures Step(Snapshot(), r) == SyncPeerStep(old(Snapshot()), me, peer, now, a)
    {
      if peer in sessions {
        if now - sessions[peer] > SYNC_STALL_TIMEOUT {
          sessions := sessions - {peer};
        }
        return Success;
      }
      sessions := sessions[peer := now];
      if a.poll.Err? {
        return Failure(a.poll.error);
      }
      if !a.netUp {
        return Failure(NetworkFailed);
      }
      sent := sent + [IntoMessage(SyncMessage(Request, a.poll.value), me, peer)];
      r := Success;
    }

    /** One pass of `initiate`'s endless loop over the configured peers. */
    method Initiate(attempts: seq<Attempt>)
      requires |attempts| == |peers|
      modifies this
      ensures Snapshot() == InitiateRound(old(Snapshot()), me, peers, attempts)
    {
      for i := 0 to |peers|
        invariant InitiateRound(old(Snapshot()), me, peers, attempts) == InitiateRound(Snapshot(), me, peers[i..], attempts[i..])
      {
        assert peers[i..][1..] == peers[i + 1..] && attempts[i..][1..] == attempts[i + 1..];
        var _ := SyncPeer(peers[i], attempts[i].now, attempts[i].answers);
      }
    }

    method SyncRespond(from: u16, accepts: bool, response: Result<seq<byte>, SyncFault>, netUp: bool) returns (r: Status)
      modifies this
      ensures Step(Snapshot(), r) == SyncRespondStep(old(Snapshot()), me, from, accepts, response, netUp)
    {
      if !accepts {
        return Failure(ResponderFailed);
      }
      if response.Err? {
        return Failure(response.error);
      }
      if !netUp {
        return Failure(NetworkFailed);
      }
      sent := sent + [IntoMessage(SyncMessage(Response, response.value), me, from)];
      r := Success;
    }

    method ProcessResponse(from: u16, bytes: seq<byte>, a: LegacyAnswers) returns (r: Status)
      modifies this
      ensures Step(Snapshot(), r) == ProcessResponseStep(old(Snapshot()), from, bytes, a)
    {
      if from !in sessions {
        return Failure(SessionMismatch);
      }
      sessions := sessions - {from};
      if bytes == [] {
        return Success;
      }
      if a.received.Err? {
        return Failure(a.received.error);
      }
      if a.received.value.None? {
        return Failure(MissingSyncResponse);
      }
      var cmds := a.received.value.value;
      if cmds != [] {
        if !a.addOk {
          return Failure(AddFailed);
        }
        added := added + [cmds];
      }
      r := Success;
    }

    /** `handle_message`; `serve` calls it forever and ignores its errors. */
    method HandleMessage(incoming: Result<Message, SyncFault>, a: LegacyAnswers) returns (r: Status)
      modifies this
      ensures Step(Snapshot(), r) == HandleMessageStep(old(Snapshot()), me, incoming, a)
    {
      if incoming.Err? {
        return Failure(incoming.error);
      }
      var d := FromMessage(incoming.value, VARIANTS);
      if d.None? {
        return Failure(Malformed);
      }
      var from, sm := d.value.0, d.value.1;
      if sm.t.Request? {
        if a.syncType.None? {
          return Failure(Malformed);
        }
        if a.syncType.value.OtherSyncType? {
          return Panic;
        }
        r := SyncRespond(from, a.responderAccepts, a.response, a.netUp);
      } else {
        r := ProcessResponse(from, sm.bytes, a);
      }
    }
  }
}
