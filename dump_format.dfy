/**
 * The leading fields of a stored segment, as both storage dumpers read
 * them: `SegmentRepr { offset, prior, parents, policy, facts, .. }` in the
 * postcard stand-in.  A `Prior` is an enum (variant index as a varint,
 * then its payloads), a `Location` two varints, an `Address` the raw
 * 32-byte id and a varint max cut, the policy id 32 raw bytes.
 */
module DumpFormat {
  import opened Bytes
  import opened Wrappers
  import opened Postcard
  import FlashStore
  import SyncCommon

  type Location = FlashStore.Location
  type Address = SyncCommon.Address

  const POLICY_LEN: nat := 32

  /** `aranya_runtime::Prior<T>`: no parent, one, or two. */
  datatype Prior<T> = PriorNone | Single(p: T) | Merge(left: T, right: T)

  /** The parts of a prior, in order. */
  function Parts<T>(p: Prior<T>): (r: seq<T>)
    ensures |r| == Tag(p)
  {
    match p
    case PriorNone => []
    case Single(a) => [a]
    case Merge(a, b) => [a, b]
  }

  function Tag<T>(p: Prior<T>): (r: nat)
    ensures r <= 2
  {
    match p
    case PriorNone => 0
    case Single(_) => 1
    case Merge(_, _) => 2
  }

  /** `offset`, `prior`, `parents`, `policy` and `facts` of a `SegmentRepr`. */
  datatype SegmentHead = SegmentHead(offset: nat, prior: Prior<Location>, parents: Prior<Address>, policy: seq<byte>, facts: nat)

  predicate WellFormedLocation(l: Location)
  {
    l.segment <= U64_MAX && l.command <= U64_MAX
  }

  predicate WellFormedAddress(a: Address)
  {
    |a.id| == SyncCommon.ID_LEN && a.maxCut <= U64_MAX
  }

  /** What the firmware can serialise: `Usize32` fields within u32, host `usize` fields within u64, fixed-width ids. */
  predicate WellFormed(s: SegmentHead)
  {
    && s.offset <= U32_MAX && s.facts <= U32_MAX && |s.policy| == POLICY_LEN
    && (forall l | l in Parts(s.prior) :: WellFormedLocation(l))
    && (forall a | a in Parts(s.parents) :: WellFormedAddress(a))
  }

  function EncodeLocation(l: Location): seq<byte>
  {
    Varint(l.segment) + Varint(l.command)
  }

  function EncodeAddress(a: Address): seq<byte>
  {
    a.id + Varint(a.maxCut)
  }

  function EncodePriorLocation(p: Prior<Location>): seq<byte>
  {
    match p
    case PriorNone => Varint(0)
    case Single(a) => Varint(1) + EncodeLocation(a)
    case Merge(a, b) => Varint(2) + EncodeLocation(a) + EncodeLocation(b)
  }

  function EncodePriorAddress(p: Prior<Address>): seq<byte>
  {
    match p
    case PriorNone => Varint(0)
    case Single(a) => Varint(1) + EncodeAddress(a)
    case Merge(a, b) => Varint(2) + EncodeAddress(a) + EncodeAddress(b)
  }

  function EncodeSegmentHead(s: SegmentHead): seq<byte>
  {
    Varint(s.offset) + EncodePriorLocation(s.prior) + EncodePriorAddress(s.parents) + s.policy + Varint(s.facts)
  }

  function DecodeLocation(s: seq<byte>): (r: Option<(Location, seq<byte>)>)
    ensures r.Some? ==> WellFormedLocation(r.value.0) && |r.value.1| < |s|
  {
    match DecVarint(s, U64_MAX)
    case None => None
    case Some(a) =>
      match DecVarint(a.1, U64_MAX)
      case None => None
      case Some(b) => Some((FlashStore.Location(a.0, b.0), b.1))
  }

  function DecodeAddress(s: seq<byte>): (r: Option<(Address, seq<byte>)>)
    ensures r.Some? ==> WellFormedAddress(r.value.0)
  {
    match DecRaw(s, SyncCommon.ID_LEN)
    case None => None
    case Some(id) =>
      match DecVarint(id.1, U64_MAX)
      case None => None
      case Some(cut) => Some((SyncCommon.Address(id.0, cut.0), cut.1))
  }

  /** The variant index must name one of the three variants. */
  function DecodePriorLocation(s: seq<byte>): (r: Option<(Prior<Location>, seq<byte>)>)
    ensures r.Some? ==> forall l | l in Parts(r.value.0) :: WellFormedLocation(l)
  {
    match DecVarint(s, U32_MAX)
    case None => None
    case Some(t) =>
      if t.0 == 0 then Some((PriorNone, t.1))
      else if t.0 > 2 then None
      else
        match DecodeLocation(t.1)
        case None => None
        case Some(a) =>
          if t.0 == 1 then Some((Single(a.0), a.1))
          else
            match DecodeLocation(a.1)
            case None => None
            case Some(b) => Some((Merge(a.0, b.0), b.1))
  }

  function DecodePriorAddress(s: seq<byte>): (r: Option<(Prior<Address>, seq<byte>)>)
    ensures r.Some? ==> forall a | a in Parts(r.value.0) :: WellFormedAddress(a)
  {
    match DecVarint(s, U32_MAX)
    case None => None
    case Some(t) =>
      if t.0 == 0 then Some((PriorNone, t.1))
      else if t.0 > 2 then None
      else
        match DecodeAddress(t.1)
        case None => None
        case Some(a) =>
          if t.0 == 1 then Some((Single(a.0), a.1))
          else
            match DecodeAddress(a.1)
            case None => None
            case Some(b) => Some((Merge(a.0, b.0), b.1))
  }

  /** `postcard::from_bytes` reads a value from the front and ignores what follows it. */
  function DecodeSegmentHead(s: seq<byte>): (r: Option<SegmentHead>)
    ensures r.Some? ==> WellFormed(r.value)
  {
    match DecVarint(s, U32_MAX)
    case None => None
    case Some(o) =>
      match DecodePriorLocation(o.1)
      case None => None
      case Some(prior) =>
        match DecodePriorAddress(prior.1)
        case None => None
        case Some(parents) =>
          match DecRaw(parents.1, POLICY_LEN)
          case None => None
          case Some(policy) =>
            match DecVarint(policy.1, U32_MAX)
            case None => None
            case Some(facts) => Some(SegmentHead(o.0, prior.0, parents.0, policy.0, facts.0))
  }

  lemma {:induction false} LocationRoundTrip(l: Location, rest: seq<byte>)
    requires WellFormedLocation(l)
    ensures DecodeLocation(EncodeLocation(l) + rest) == Some((l, rest))
  {
    assert EncodeLocation(l) + rest == Varint(l.segment) + (Varint(l.command) + rest);
    VarintRoundTrip(l.segment, U64_MAX, Varint(l.command) + rest);
    VarintRoundTrip(l.command, U64_MAX, rest);
  }

  lemma {:induction false} AddressRoundTrip(a: Address, rest: seq<byte>)
    requires WellFormedAddress(a)
    ensures DecodeAddress(EncodeAddress(a) + rest) == Some((a, rest))
  {
    assert EncodeAddress(a) + rest == a.id + (Varint(a.maxCut) + rest);
    RawRoundTrip(a.id, Varint(a.maxCut) + rest);
    VarintRoundTrip(a.maxCut, U64_MAX, rest);
  }

  lemma {:induction false} PriorLocationRoundTrip(p: Prior<Location>, rest: seq<byte>)
    requires forall x | x in Parts(p) :: WellFormedLocation(x)
    ensures DecodePriorLocation(EncodePriorLocation(p) + rest) == Some((p, rest))
  {
    match p
    case PriorNone =>
      VarintRoundTrip(0, U32_MAX, rest);
    case Single(a) =>
      assert a in Parts(p);
      SingleLocationRoundTrip(a, rest);
    case Merge(a, b) =>
      assert a in Parts(p) && b in Parts(p);
      MergeLocationRoundTrip(a, b, rest);
  }

  lemma {:induction false} SingleLocationRoundTrip(a: Location, rest: seq<byte>)
    requires WellFormedLocation(a)
    ensures DecodePriorLocation(EncodePriorLocation(Single(a)) + rest) == Some((Single(a), rest))
  {
    var t := EncodeLocation(a) + rest;
    assert EncodePriorLocation(Single(a)) + rest == Varint(1) + t;
    VarintRoundTrip(1, U32_MAX, t);
    LocationRoundTrip(a, rest);
  }

  lemma {:induction false} MergeLocationRoundTrip(a: Location, b: Location, rest: seq<byte>)
    requires WellFormedLocation(a) && WellFormedLocation(b)
    ensures DecodePriorLocation(EncodePriorLocation(Merge(a, b)) + rest) == Some((Merge(a, b), rest))
  {
    var t := EncodeLocation(a) + (EncodeLocation(b) + rest);
    assert EncodePriorLocation(Merge(a, b)) + rest == Varint(2) + t;
    VarintRoundTrip(2, U32_MAX, t);
    LocationRoundTrip(a, EncodeLocation(b) + rest);
    LocationRoundTrip(b, rest);
  }

  lemma {:induction false} PriorAddressRoundTrip(p: Prior<Address>, rest: seq<byte>)
    requires forall x | x in Parts(p) :: WellFormedAddress(x)
    ensures DecodePriorAddress(EncodePriorAddress(p) + rest) == Some((p, rest))
  {
    match p
    case PriorNone =>
      VarintRoundTrip(0, U32_MAX, rest);
    case Single(a) =>
      assert a in Parts(p);
      SingleAddressRoundTrip(a, rest);
    case Merge(a, b) =>
      assert a in Parts(p) && b in Parts(p);
      MergeAddressRoundTrip(a, b, rest);
  }

  lemma {:induction false} SingleAddressRoundTrip(a: Address, rest: seq<byte>)
    requires WellFormedAddress(a)
    ensures DecodePriorAddress(EncodePriorAddress(Single(a)) + rest) == Some((Single(a), rest))
  {
    var t := EncodeAddress(a) + rest;
    assert EncodePriorAddress(Single(a)) + rest == Varint(1) + t;
    VarintRoundTrip(1, U32_MAX, t);
    AddressRoundTrip(a, rest);
  }

  lemma {:induction false} MergeAddressRoundTrip(a: Address, b: Address, rest: seq<byte>)
    requires WellFormedAddress(a) && WellFormedAddress(b)
    ensures DecodePriorAddress(EncodePriorAddress(Merge(a, b)) + rest) == Some((Merge(a, b), rest))
  {
    var t := EncodeAddress(a) + (EncodeAddress(b) + rest);
    assert EncodePriorAddress(Merge(a, b)) + rest == Varint(2) + t;
    VarintRoundTrip(2, U32_MAX, t);
    AddressRoundTrip(a, EncodeAddress(b) + rest);
    AddressRoundTrip(b, rest);
  }

  /** Each of the firmware's decoder steps over a serialised segment takes its field and leaves the rest. */
  lemma {:induction false} SegmentHeadSteps(s: SegmentHead, rest: seq<byte>) returns (r1: seq<byte>, r2: seq<byte>, r3: seq<byte>, r4: seq<byte>)
    requires WellFormed(s)
    ensures DecVarint(EncodeSegmentHead(s) + rest, U32_MAX) == Some((s.offset, r1))
    ensures DecodePriorLocation(r1) == Some((s.prior, r2))
    ensures DecodePriorAddress(r2) == Some((s.parents, r3))
    ensures DecRaw(r3, POLICY_LEN) == Some((s.policy, r4))
    ensures DecVarint(r4, U32_MAX) == Some((s.facts, rest))
  {
    r4 := Varint(s.facts) + rest;
    r3 := s.policy + r4;
    r2 := EncodePriorAddress(s.parents) + r3;
    r1 := EncodePriorLocation(s.prior) + r2;
    assert EncodeSegmentHead(s) + rest == Varint(s.offset) + r1;
    VarintRoundTrip(s.offset, U32_MAX, r1);
    PriorLocationRoundTrip(s.prior, r2);
    PriorAddressRoundTrip(s.parents, r3);
    RawRoundTrip(s.policy, r4);
    VarintRoundTrip(s.facts, U32_MAX, rest);
  }

  /** Round trip: the leading fields of a serialised segment read back, whatever follows them. */
  lemma {:induction false} SegmentHeadRoundTrip(s: SegmentHead, rest: seq<byte>)
    requires WellFormed(s)
    ensures DecodeSegmentHead(EncodeSegmentHead(s) + rest) == Some(s)
  {
    var r1, r2, r3, r4 := SegmentHeadSteps(s, rest);
  }

  /** A prior whose variant index is above 2 does not decode. */
  lemma {:induction false} BadPriorTag(t: nat, rest: seq<byte>)
    requires 2 < t <= U32_MAX
    ensures DecodePriorLocation(Varint(t) + rest).None?
    ensures DecodePriorAddress(Varint(t) + rest).None?
  {
    VarintRoundTrip(t, U32_MAX, rest);
  }
}
