/**
 * The host-side dumper of a flash partition image: it checks the header
 * magic and decodes the archived header, follows the head segment's
 * priors depth first collecting every segment into an ordered map keyed
 * by offset, and writes one DOT cluster per segment in ascending offset
 * order.
 *
 * Every `assert!`, `expect` and out-of-range slice of the source is a
 * panic; the model returns it as an `Err` naming what failed.  The
 * recursion of `get_graph` is bounded by `fuel`, standing for the stack:
 * a prior chain that loops recurses until the stack overflows.
 */
module StorageDumper {
  import opened Bytes
  import opened Wrappers
  import opened DumpFormat
  import FlashStore

  /** Why the dumper panics. */
  datatype Fault =
    | OutOfBounds       // a slice past the end of the image
    | BadHeaderMagic
    | BadHeader         // the archived header does not validate
    | BadSegmentMagic
    | BadSegment        // the segment does not deserialise
    | NoHead            // `head.head.unwrap()` on None
    | StackExhausted    // the walk recursed deeper than `fuel`

  /** `l.segment as u32` */
  function Trunc32(n: nat): (r: u32)
    ensures n <= U32_MAX ==> r == n
  {
    n % 0x1_0000_0000
  }

  /** `Dump::get_head`: the header magic at 0..4, then the archived header at 4..4+HEADER_SIZE. */
  function GetHead(buf: seq<byte>): (r: Result<FlashStore.Header, Fault>)
    ensures r.Ok? ==> |buf| >= FlashStore.MAGIC_LEN && buf[..FlashStore.MAGIC_LEN] == FlashStore.HEADER_MAGIC
    ensures |buf| >= FlashStore.MAGIC_LEN && buf[..FlashStore.MAGIC_LEN] != FlashStore.HEADER_MAGIC ==> r == Err(BadHeaderMagic)
  {
    var m := FlashStore.MAGIC_LEN;
    if |buf| < m then Err(OutOfBounds)
    else if buf[..m] != FlashStore.HEADER_MAGIC then Err(BadHeaderMagic)
    else if |buf| < m + FlashStore.HEADER_SIZE then Err(OutOfBounds)
    else
      match FlashStore.DecodeHeader(buf[m..m + FlashStore.HEADER_SIZE])
      case None => Err(BadHeader)
      case Some(h) => Ok(h)
  }

  /** The dumper reads back the header the flash store writes at the partition base. */
  lemma {:induction false} GetHeadReadsWritten(h: FlashStore.Header, rest: seq<byte>)
    ensures GetHead(FlashStore.HeaderBytes(h) + rest) == Ok(h)
  {
    var buf := FlashStore.HeaderBytes(h) + rest;
    assert buf[FlashStore.MAGIC_LEN..FlashStore.MAGIC_LEN + FlashStore.HEADER_SIZE] == FlashStore.EncodeHeader(h);
    FlashStore.DecodeEncodeHeader(h);
  }

  /** Where the record of the segment at `offset` starts. */
  function RecordStart(offset: u32): nat
  {
    FlashStore.DATA_OFFSET + offset
  }

  /**
   * `Dump::get_segment`: the segment magic at `DATA_OFFSET + offset`, the
   * archived size after it (any four bytes are a valid `u32`, and the
   * size is not used), then the segment deserialised from everything
   * after the size.
   */
  function GetSegment(buf: seq<byte>, offset: u32): (r: Result<SegmentHead, Fault>)
    ensures r.Ok? ==>
      && RecordStart(offset) + FlashStore.MAGIC_LEN + FlashStore.SEGMENT_HEADER_SIZE <= |buf|
      && buf[RecordStart(offset)..RecordStart(offset) + FlashStore.MAGIC_LEN] == FlashStore.SEGMENT_HEADER_MAGIC
  {
    var start := RecordStart(offset);
    var m := FlashStore.MAGIC_LEN;
    if |buf| < start + m then Err(OutOfBounds)
    else if buf[start..start + m] != FlashStore.SEGMENT_HEADER_MAGIC then Err(BadSegmentMagic)
    else if |buf| < start + m + FlashStore.SEGMENT_HEADER_SIZE then Err(OutOfBounds)
    else
      match DecodeSegmentHead(buf[start + m + FlashStore.SEGMENT_HEADER_SIZE..])
      case None => Err(BadSegment)
      case Some(s) => Ok(s)
  }

  /** A record at `start` puts the segment magic there and the item after its size. */
  lemma {:induction false} RecordSplits(buf: seq<byte>, start: nat, item: seq<byte>, after: seq<byte>)
    requires |item| <= U32_MAX && start <= |buf|
    requires buf[start..] == FlashStore.Record(item) + after
    ensures start + FlashStore.MAGIC_LEN + FlashStore.SEGMENT_HEADER_SIZE <= |buf|
    ensures buf[start..start + FlashStore.MAGIC_LEN] == FlashStore.SEGMENT_HEADER_MAGIC
    ensures buf[start + FlashStore.MAGIC_LEN + FlashStore.SEGMENT_HEADER_SIZE..] == item + after
  {
    var rec := FlashStore.Record(item);
    assert buf[start..start + FlashStore.MAGIC_LEN] == buf[start..][..FlashStore.MAGIC_LEN] == rec[..FlashStore.MAGIC_LEN];
    assert rec[..FlashStore.MAGIC_LEN] == FlashStore.SEGMENT_HEADER_MAGIC;
    var p := start + FlashStore.MAGIC_LEN + FlashStore.SEGMENT_HEADER_SIZE;
    assert buf[p..] == buf[start..][FlashStore.MAGIC_LEN + FlashStore.SEGMENT_HEADER_SIZE..];
  }

  /** The dumper reads back a segment record the flash store appended, whatever follows the segment's leading fields. */
  lemma {:induction false} GetSegmentReadsRecord(buf: seq<byte>, offset: u32, s: SegmentHead, tail: seq<byte>, after: seq<byte>)
    requires WellFormed(s) && |EncodeSegmentHead(s) + tail| <= U32_MAX
    requires RecordStart(offset) <= |buf|
    requires buf[RecordStart(offset)..] == FlashStore.Record(EncodeSegmentHead(s) + tail) + after
    ensures GetSegment(buf, offset) == Ok(s)
  {
    var item := EncodeSegmentHead(s) + tail;
    RecordSplits(buf, RecordStart(offset), item, after);
    var d := EncodeSegmentHead(s) + (tail + after);
    assert item + after == d;
    SegmentHeadRoundTrip(s, tail + after);
    GetSegmentDecodes(buf, offset, d, s);
  }

  /** Past a segment magic and a size, `get_segment` returns what the segment decoder makes of the rest. */
  lemma {:induction false} GetSegmentDecodes(buf: seq<byte>, offset: u32, d: seq<byte>, s: SegmentHead)
    requires RecordStart(offset) + FlashStore.MAGIC_LEN + FlashStore.SEGMENT_HEADER_SIZE <= |buf|
    requires buf[RecordStart(offset)..RecordStart(offset) + FlashStore.MAGIC_LEN] == FlashStore.SEGMENT_HEADER_MAGIC
    requires buf[RecordStart(offset) + FlashStore.MAGIC_LEN + FlashStore.SEGMENT_HEADER_SIZE..] == d
    requires DecodeSegmentHead(d) == Some(s)
    ensures GetSegment(buf, offset) == Ok(s)
  {
  }

  /**
   * The archived size is never consulted: two images that agree on the
   * segment magic and on everything after the size give the same segment.
   */
  lemma {:induction false} GetSegmentIgnoresSize(buf: seq<byte>, other: seq<byte>, offset: u32)
    requires |buf| == |other|
    requires RecordStart(offset) + FlashStore.MAGIC_LEN + FlashStore.SEGMENT_HEADER_SIZE <= |buf|
    requires buf[RecordStart(offset)..RecordStart(offset) + FlashStore.MAGIC_LEN] == other[RecordStart(offset)..RecordStart(offset) + FlashStore.MAGIC_LEN]
    requires buf[RecordStart(offset) + FlashStore.MAGIC_LEN + FlashStore.SEGMENT_HEADER_SIZE..] == other[RecordStart(offset) + FlashStore.MAGIC_LEN + FlashStore.SEGMENT_HEADER_SIZE..]
    ensures GetSegment(buf, offset) == GetSegment(other, offset)
  {
  }

  /** The segment offsets a prior points at, as `get_graph` converts them. */
  function Targets(p: Prior<Location>): (r: seq<u32>)
    ensures |r| == Tag(p)
  {
    match p
    case PriorNone => []
    case Single(l) => [Trunc32(l.segment)]
    case Merge(l1, l2) => [Trunc32(l1.segment), Trunc32(l2.segment)]
  }

  /** The segment `get_segment` returns at each offset of the image. */
  function Segments(buf: seq<byte>): (segs: u32 -> Result<SegmentHead, Fault>)
  {
    (o: u32) => GetSegment(buf, o)
  }

  /**
   * `get_graph(offset)` over the segments `segs`, with at most `fuel`
   * nested calls: the segment at `offset`, then the maps of its prior's
   * segments appended in order (`BTreeMap::append` keeps the appended value
   * on a shared key).
   */
  function Walk(segs: u32 -> Result<SegmentHead, Fault>, offset: u32, fuel: nat): (r: Result<map<u32, SegmentHead>, Fault>)
    ensures fuel == 0 ==> r == Err(StackExhausted)
    ensures r.Ok? ==> offset in r.value && segs(offset).Ok?
    ensures r.Ok? && segs(offset).value.prior.PriorNone? ==> r.value == map[offset := segs(offset).value]
    decreases fuel
  {
    if fuel == 0 then Err(StackExhausted)
    else
      match segs(offset)
      case Err(e) => Err(e)
      case Ok(seg) =>
        var m := map[offset := seg];
        match seg.prior
        case PriorNone => Ok(m)
        case Single(l) =>
          (match Walk(segs, Trunc32(l.segment), fuel - 1)
           case Err(e) => Err(e)
           case Ok(c) => Ok(m + c))
        case Merge(l1, l2) =>
          match Walk(segs, Trunc32(l1.segment), fuel - 1)
          case Err(e) => Err(e)
          case Ok(c1) =>
            match Walk(segs, Trunc32(l2.segment), fuel - 1)
            case Err(e) => Err(e)
            case Ok(c2) => Ok(m + c1 + c2)
  }

  /** `Dump::get_graph`, building the map by insertion and appends; `segs` is `Dump::get_segment` on the image. */
  method GetGraph(segs: u32 -> Result<SegmentHead, Fault>, offset: u32, fuel: nat) returns (r: Result<map<u32, SegmentHead>, Fault>)
    ensures r == Walk(segs, offset, fuel)
    decreases fuel
  {
    if fuel == 0 {
      return Err(StackExhausted);
    }
    var seg := segs(offset);
    if seg.Err? {
      return Err(seg.error);
    }
    var graph := map[offset := seg.value];
    match seg.value.prior {
      case PriorNone =>
      case Single(l) =>
        var children := GetGraph(segs, Trunc32(l.segment), fuel - 1);
        if children.Err? {
          return Err(children.error);
        }
        graph := graph + children.value;
      case Merge(l1, l2) =>
        var children := GetGraph(segs, Trunc32(l1.segment), fuel - 1);
        if children.Err? {
          return Err(children.error);
        }
        graph := graph + children.value;
        children := GetGraph(segs, Trunc32(l2.segment), fuel - 1);
        if children.Err? {
          return Err(children.error);
        }
        graph := graph + children.value;
    }
    return Ok(graph);
  }

  /** An edge of the segment graph: `b` is a prior of the segment at `a`. */
  ghost predicate Edge(segs: u32 -> Result<SegmentHead, Fault>, a: u32, b: u32)
  {
    segs(a).Ok? && b in Targets(segs(a).value.prior)
  }

  ghost predicate IsPath(segs: u32 -> Result<SegmentHead, Fault>, p: seq<u32>)
  {
    |p| > 0 && forall i | 0 <= i < |p| - 1 :: Edge(segs, p[i], p[i + 1])
  }

  ghost predicate Reaches(segs: u32 -> Result<SegmentHead, Fault>, a: u32, b: u32)
  {
    exists p :: IsPath(segs, p) && p[0] == a && p[|p| - 1] == b
  }

  /** The walk from the i-th prior's segment succeeded, and everything it collected is in the result. */
  lemma {:induction false} WalkChild(segs: u32 -> Result<SegmentHead, Fault>, offset: u32, fuel: nat, i: nat)
    requires Walk(segs, offset, fuel).Ok?
    requires i < |Targets(segs(offset).value.prior)|
    ensures fuel > 0
    ensures var t := Targets(segs(offset).value.prior)[i];
      Walk(segs, t, fuel - 1).Ok? && Walk(segs, t, fuel - 1).value.Keys <= Walk(segs, offset, fuel).value.Keys
  {
    var prior := segs(offset).value.prior;
    if i == 1 {
      assert prior.Merge?;
    }
  }

  /** A collected segment other than the start was collected by the walk from one of its priors, with the same value. */
  lemma {:induction false} WalkSplit(segs: u32 -> Result<SegmentHead, Fault>, offset: u32, fuel: nat, k: u32) returns (i: nat)
    requires Walk(segs, offset, fuel).Ok?
    requires k in Walk(segs, offset, fuel).value && k != offset
    ensures fuel > 0
    ensures var ts := Targets(segs(offset).value.prior);
      && i < |ts| && Walk(segs, ts[i], fuel - 1).Ok? && k in Walk(segs, ts[i], fuel - 1).value
  {
    var ts := Targets(segs(offset).value.prior);
    match segs(offset).value.prior
    case PriorNone =>
    case Single(l) =>
      i := 0;
    case Merge(l1, l2) =>
      i := if k in Walk(segs, ts[1], fuel - 1).value then 1 else 0;
  }

  /** Each collected offset maps to the segment at that offset. */
  lemma {:induction false} WalkValues(segs: u32 -> Result<SegmentHead, Fault>, offset: u32, fuel: nat, k: u32)
    requires Walk(segs, offset, fuel).Ok? && k in Walk(segs, offset, fuel).value
    ensures segs(k) == Ok(Walk(segs, offset, fuel).value[k])
    decreases fuel
  {
    match segs(offset).value.prior
    case PriorNone =>
    case Single(l) =>
      WalkChild(segs, offset, fuel, 0);
      var t := Trunc32(l.segment);
      if k in Walk(segs, t, fuel - 1).value {
        WalkValues(segs, t, fuel - 1, k);
      }
    case Merge(l1, l2) =>
      WalkChild(segs, offset, fuel, 0);
      WalkChild(segs, offset, fuel, 1);
      var t1, t2 := Trunc32(l1.segment), Trunc32(l2.segment);
      if k in Walk(segs, t2, fuel - 1).value {
        WalkValues(segs, t2, fuel - 1, k);
      } else if k in Walk(segs, t1, fuel - 1).value {
        WalkValues(segs, t1, fuel - 1, k);
      }
  }

  /** Every prior of a collected segment is collected too. */
  lemma {:induction false} WalkClosed(segs: u32 -> Result<SegmentHead, Fault>, offset: u32, fuel: nat, k: u32, t: u32)
    requires Walk(segs, offset, fuel).Ok? && k in Walk(segs, offset, fuel).value
    requires Edge(segs, k, t)
    ensures t in Walk(segs, offset, fuel).value
    decreases fuel
  {
    var ts := Targets(segs(offset).value.prior);
    if k == offset {
      var i :| 0 <= i < |ts| && ts[i] == t;
      WalkChild(segs, offset, fuel, i);
    } else {
      var i := WalkSplit(segs, offset, fuel, k);
      WalkChild(segs, offset, fuel, i);
      WalkClosed(segs, ts[i], fuel - 1, k, t);
    }
  }

  /** Every collected offset is reachable from the start along priors. */
  lemma {:induction false} WalkReachable(segs: u32 -> Result<SegmentHead, Fault>, offset: u32, fuel: nat, k: u32)
    requires Walk(segs, offset, fuel).Ok? && k in Walk(segs, offset, fuel).value
    ensures Reaches(segs, offset, k)
    decreases fuel
  {
    if k == offset {
      assert IsPath(segs, [offset]);
    } else {
      var ts := Targets(segs(offset).value.prior);
      var i := WalkSplit(segs, offset, fuel, k);
      WalkReachable(segs, ts[i], fuel - 1, k);
      var p :| IsPath(segs, p) && p[0] == ts[i] && p[|p| - 1] == k;
      var q := [offset] + p;
      assert Edge(segs, offset, ts[i]);
      assert forall j | 0 < j < |q| - 1 :: q[j] == p[j - 1] && q[j + 1] == p[j];
      assert IsPath(segs, q);
    }
  }

  /** Every offset reachable from the start along priors is collected. */
  lemma {:induction false} ReachableWalked(segs: u32 -> Result<SegmentHead, Fault>, offset: u32, fuel: nat, k: u32)
    requires Walk(segs, offset, fuel).Ok? && Reaches(segs, offset, k)
    ensures k in Walk(segs, offset, fuel).value
  {
    var g := Walk(segs, offset, fuel).value;
    var p :| IsPath(segs, p) && p[0] == offset && p[|p| - 1] == k;
    var i := 0;
    while i < |p| - 1
      invariant 0 <= i < |p| && p[i] in g
    {
      assert Edge(segs, p[i], p[i + 1]);
      WalkClosed(segs, offset, fuel, p[i], p[i + 1]);
      i := i + 1;
    }
  }

  predicate Ascending(xs: seq<u32>)
  {
    forall i, j | 0 <= i < j < |xs| :: xs[i] < xs[j]
  }

  /** A non-empty set of offsets has a least element. */
  lemma {:induction false} Least(s: set<u32>) returns (m: u32)
    requires s != {}
    ensures m in s && forall y | y in s :: m <= y
    decreases |s|
  {
    var x :| x in s;
    var rest := s - {x};
    if rest == {} {
      m := x;
    } else {
      var r := Least(rest);
      m := if x < r then x else r;
    }
    forall y | y in s
      ensures m <= y
    {
      if y != x {
        assert y in rest;
      }
    }
  }

  /** `make_dot`: one cluster per collected segment, labelled with its offset, in the map's ascending key order. */
  method MakeDot(graph: map<u32, SegmentHead>) returns (clusters: seq<u32>)
    ensures Ascending(clusters)
    ensures forall k :: k in clusters <==> k in graph
  {
    var remaining := graph.Keys;
    clusters := [];
    while remaining != {}
      invariant remaining <= graph.Keys
      invariant Ascending(clusters)
      invariant forall k :: k in clusters <==> k in graph && k !in remaining
      invariant forall i, k | 0 <= i < |clusters| && k in remaining :: clusters[i] < k
      decreases |remaining|
    {
      ghost var least := Least(remaining);
      var m :| m in remaining && forall y | y in remaining :: m <= y;
      clusters := clusters + [m];
      remaining := remaining - {m};
    }
  }

  /** `main`: the walk starts at the head's segment; a header without a head panics. */
  method DumpGraph(buf: seq<byte>, fuel: nat) returns (r: Result<seq<u32>, Fault>)
    ensures GetHead(buf).Err? ==> r == Err(GetHead(buf).error)
    ensures GetHead(buf).Ok? && GetHead(buf).value.head.None? ==> r == Err(NoHead)
    ensures GetHead(buf).Ok? && GetHead(buf).value.head.Some? ==>
      var g := Walk(Segments(buf), GetHead(buf).value.head.value.0, fuel);
      && (g.Err? ==> r == Err(g.error))
      && (g.Ok? ==> r.Ok? && Ascending(r.value) && forall k :: k in r.value <==> k in g.value)
  {
    var head := GetHead(buf);
    if head.Err? {
      return Err(head.error);
    }
    if head.value.head.None? {
      return Err(NoHead);
    }
    var graph := GetGraph(Segments(buf), head.value.head.value.0, fuel);
    if graph.Err? {
      return Err(graph.error);
    }
    var clusters := MakeDot(graph.value);
    return Ok(clusters);
  }
}
