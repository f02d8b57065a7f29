/**
 * The null envelope of the policy VM: sealing wraps a command's payload with
 * its parent, its author and a command id hashed from the three, under a
 * constant placeholder signature; opening hands the payload back.
 */
module Envelope {
  import opened Bytes
  import opened Wrappers

  type Id = s: seq<byte> | |s| == 32 witness seq(32, i => 0)

  /** SHA-256 (FIPS 180-4), supplied by the caller: a 32-byte digest of its input. */
  type Sha256 = seq<byte> -> Id

  datatype NullEnvelope = NullEnvelope(user: Id)

  /** The command context the VM calls with; only sealing has a head id. */
  datatype CommandContext = SealContext(headId: Id) | OtherContext

  datatype Envelope = Envelope(parentId: Id, authorId: Id, commandId: Id, payload: seq<byte>, signature: seq<byte>)

  datatype SealOutcome = Sealed(envelope: Envelope) | Panicked

  /** The placeholder signature, the bytes of "LOL". */
  const SIGNATURE: seq<byte> := [0x4C, 0x4F, 0x4C]

  /** `seal` */
  function Seal(e: NullEnvelope, ctx: CommandContext, payload: seq<byte>, sha256: Sha256): (r: SealOutcome)
    ensures ctx.OtherContext? <==> r.Panicked?
    ensures r.Sealed? ==> r.envelope.parentId == ctx.headId && r.envelope.authorId == e.user
    ensures r.Sealed? ==> r.envelope.commandId == sha256(ctx.headId + e.user + payload)
    ensures r.Sealed? ==> r.envelope.signature == SIGNATURE
  {
    match ctx
    case OtherContext => Panicked
    case SealContext(headId) =>
      var commandId := sha256(headId + e.user + payload);
      Sealed(Envelope(headId, e.user, commandId, payload, SIGNATURE))
  }

  /** `open` never fails. */
  function Open(e: NullEnvelope, ctx: CommandContext, input: Envelope): (r: Result<seq<byte>, ()>)
    ensures r == Ok(input.payload)
  {
    Ok(input.payload)
  }

  /** Round trip: opening a sealed envelope gives the payload back. */
  lemma {:induction false} OpenSeal(e: NullEnvelope, headId: Id, payload: seq<byte>, sha256: Sha256, ctx: CommandContext)
    ensures Open(e, ctx, Seal(e, SealContext(headId), payload, sha256).envelope) == Ok(payload)
  {
  }

  /** Two distinct inputs that `sha256` sends to the same digest. */
  predicate Collision(sha256: Sha256, x: seq<byte>, y: seq<byte>)
  {
    x != y && sha256(x) == sha256(y)
  }

  /**
   * The command id binds the envelope: two sealed envelopes with the same
   * command id have the same parent, author and payload, unless their
   * hashed inputs are a SHA-256 collision.
   */
  lemma {:induction false} CommandIdBinds(e1: NullEnvelope, e2: NullEnvelope, h1: Id, h2: Id, p1: seq<byte>, p2: seq<byte>, sha256: Sha256)
    ensures var r1 := Seal(e1, SealContext(h1), p1, sha256).envelope;
      var r2 := Seal(e2, SealContext(h2), p2, sha256).envelope;
      r1.commandId == r2.commandId ==>
        (r1.parentId == r2.parentId && r1.authorId == r2.authorId && r1.payload == r2.payload)
        || Collision(sha256, h1 + e1.user + p1, h2 + e2.user + p2)
  {
    if h1 + e1.user + p1 == h2 + e2.user + p2 {
      HashInputUnambiguous(h1, e1.user, p1, h2, e2.user, p2);
    }
  }

  /** Since parent and author have fixed length, the hashed input determines them and the payload. */
  lemma {:induction false} HashInputUnambiguous(h1: Id, u1: Id, p1: seq<byte>, h2: Id, u2: Id, p2: seq<byte>)
    requires h1 + u1 + p1 == h2 + u2 + p2
    ensures h1 == h2 && u1 == u2 && p1 == p2
  {
    var s := h1 + u1 + p1;
    assert h1 == s[..32] == h2;
    assert u1 == s[32..64] == u2;
    assert p1 == s[64..] == p2;
  }
}
