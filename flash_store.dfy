/**
 * The flash-partition graph store of the ESP32-S3 demo: a header sector at
 * the partition base (magic, then the archived header: epoch, graph id,
 * head location, bytes stored), and after `DATA_OFFSET` an append-only log
 * of segment records, each a magic, a little-endian size and the
 * serialised segment.  Every header change bumps the epoch, is written,
 * and is read back to check it landed.
 *
 * The archived header is a stand-in for rkyv's layout: the fields in
 * declaration order, each naturally aligned, an `Option` as a tag byte
 * followed by its payload space.  Segments are kept as their serialised
 * bytes.
 */
module FlashStore {
  import opened Bytes
  import opened Wrappers
  import opened Flash

  const MAGIC_LEN: nat := 4
  const HEADER_MAGIC: seq<byte> := [0x1C, 0x53, 0x4F, 0x00]
  /** `size_of::<ArchivedEspStorageHeader>()` in the stand-in layout. */
  const HEADER_SIZE: nat := 56
  /** `FlashStorage::SECTOR_SIZE`. */
  const DATA_OFFSET: nat := 4096
  const SEGMENT_HEADER_SIZE: nat := 4
  const SEGMENT_HEADER_MAGIC: seq<byte> := [0x1E, 0x53, 0x4F, 0x00]

  type GraphId = s: seq<byte> | |s| == 32 witness Zeros(32)

  datatype Header = Header(epoch: u32, graphId: Option<GraphId>, head: Option<(u32, u32)>, storedBytes: u32)

  /** The header `new` writes over a bad one. */
  const EMPTY_HEADER: Header := Header(0, None, None, 0)

  /** The module's own errors, and the runtime's storage errors. */
  datatype StorageError = BadHeader | Write | Update
  datatype AranyaError = IoError | NoSuchStorage | StorageExists

  datatype Location = Location(segment: nat, command: nat)

  function Zeros(n: nat): (r: seq<byte>)
    ensures |r| == n && forall i | 0 <= i < n :: r[i] == 0
  {
    var zero: byte := 0;
    seq(n, _ => zero)
  }

  function Tag(present: bool): byte
  {
    if present then 1 else 0
  }

  /** An enum tag is valid only as 0 or 1. */
  function DecodeTag(b: byte): (r: Option<bool>)
    ensures r.Some? <==> b <= 1
    ensures r.Some? ==> Tag(r.value) == b
  {
    if b == 0 then Some(false) else if b == 1 then Some(true) else None
  }

  /** The archived header: epoch at 0, graph-id tag at 4 and id at 5..37, head tag at 40 and head at 44..52, size at 52. */
  function EncodeHeader(h: Header): (r: seq<byte>)
    ensures |r| == HEADER_SIZE
  {
    LE32(h.epoch)
    + [Tag(h.graphId.Some?)] + (if h.graphId.Some? then h.graphId.value else Zeros(32)) + Zeros(3)
    + [Tag(h.head.Some?)] + Zeros(3) + (if h.head.Some? then LE32(h.head.value.0) + LE32(h.head.value.1) else Zeros(8))
    + LE32(h.storedBytes)
  }

  /** Access and deserialise the archived header: None when a tag is invalid. */
  function DecodeHeader(s: seq<byte>): (r: Option<Header>)
    requires |s| == HEADER_SIZE
    ensures r.Some? <==> s[4] <= 1 && s[40] <= 1
  {
    var graphTag := DecodeTag(s[4]);
    var headTag := DecodeTag(s[40]);
    if graphTag.None? || headTag.None? then None
    else
      Some(Header(
        FromLE32(s[0..4]),
        if graphTag.value then Some(s[5..37]) else None,
        if headTag.value then Some((FromLE32(s[44..48]), FromLE32(s[48..52]))) else None,
        FromLE32(s[52..56])))
  }

  lemma {:induction false} DecodeEncodeHeader(h: Header)
    ensures DecodeHeader(EncodeHeader(h)) == Some(h)
  {
    var s := EncodeHeader(h);
    var g := if h.graphId.Some? then h.graphId.value else Zeros(32);
    var p := if h.head.Some? then LE32(h.head.value.0) + LE32(h.head.value.1) else Zeros(8);
    assert s == LE32(h.epoch) + [Tag(h.graphId.Some?)] + g + Zeros(3) + [Tag(h.head.Some?)] + Zeros(3) + p + LE32(h.storedBytes);
    assert s[0..4] == LE32(h.epoch);
    assert s[4] == Tag(h.graphId.Some?);
    assert s[5..37] == g;
    assert s[40] == Tag(h.head.Some?);
    assert s[44..52] == p;
    assert s[52..56] == LE32(h.storedBytes);
    LE32RoundTrip(h.epoch);
    LE32RoundTrip(h.storedBytes);
    if h.head.Some? {
      assert s[44..48] == p[0..4] == LE32(h.head.value.0);
      assert s[48..52] == p[4..8] == LE32(h.head.value.1);
      LE32RoundTrip(h.head.value.0);
      LE32RoundTrip(h.head.value.1);
    }
  }

  /** What `write_header` puts at the partition base. */
  function HeaderBytes(h: Header): (r: seq<byte>)
    ensures |r| == MAGIC_LEN + HEADER_SIZE && r[..MAGIC_LEN] == HEADER_MAGIC
  {
    HEADER_MAGIC + EncodeHeader(h)
  }

  /** `fetch_header`: the magic must be there and the archived header must decode. */
  function FetchHeader(cells: Cells, offset: nat): (r: Result<Header, StorageError>)
  {
    if Read(cells, offset, MAGIC_LEN) != HEADER_MAGIC then Err(BadHeader)
    else
      match DecodeHeader(Read(cells, offset + MAGIC_LEN, HEADER_SIZE))
      case None => Err(BadHeader)
      case Some(h) => Ok(h)
  }

  /** A header written with `write_header` is fetched back unchanged. */
  lemma {:induction false} FetchWrittenHeader(cells: Cells, offset: nat, h: Header)
    ensures FetchHeader(WriteAt(cells, offset, HeaderBytes(h)), offset) == Ok(h)
  {
    ReadWrittenPart(cells, offset, HeaderBytes(h), 0, MAGIC_LEN);
    ReadWrittenPart(cells, offset, HeaderBytes(h), MAGIC_LEN, MAGIC_LEN + HEADER_SIZE);
    assert HeaderBytes(h)[0..MAGIC_LEN] == HEADER_MAGIC;
    assert HeaderBytes(h)[MAGIC_LEN..MAGIC_LEN + HEADER_SIZE] == EncodeHeader(h);
    FetchHeaderAt(WriteAt(cells, offset, HeaderBytes(h)), offset, h);
  }

  /** Wherever the magic and an archived header are found, fetching there gives that header. */
  lemma {:induction false} FetchHeaderAt(c: Cells, offset: nat, h: Header)
    requires Read(c, offset, MAGIC_LEN) == HEADER_MAGIC && Read(c, offset + MAGIC_LEN, HEADER_SIZE) == EncodeHeader(h)
    ensures FetchHeader(c, offset) == Ok(h)
  {
    DecodeEncodeHeader(h);
  }

  /** A header is only fetched from the header sector, so writes past it do not disturb it. */
  lemma {:induction false} FetchHeaderOutside(cells: Cells, offset: nat, o: nat, data: seq<byte>)
    requires offset + MAGIC_LEN + HEADER_SIZE <= o
    ensures FetchHeader(WriteAt(cells, o, data), offset) == FetchHeader(cells, offset)
  {
    ReadOutside(cells, o, data, offset, MAGIC_LEN);
    ReadOutside(cells, o, data, offset + MAGIC_LEN, HEADER_SIZE);
  }

  /** After `nuke` zeroes the header sector, the magic check fails. */
  lemma {:induction false} NukedHeaderIsBad(cells: Cells, base: nat)
    ensures FetchHeader(WriteAt(cells, base, Zeros(DATA_OFFSET)), base) == Err(BadHeader)
  {
    var c := WriteAt(cells, base, Zeros(DATA_OFFSET));
    ReadAt(c, base, MAGIC_LEN, 0);
  }

  /** A segment record: magic, archived size, the serialised segment. */
  function Record(item: seq<byte>): (r: seq<byte>)
    requires |item| <= U32_MAX
    ensures |r| == MAGIC_LEN + SEGMENT_HEADER_SIZE + |item|
  {
    SEGMENT_HEADER_MAGIC + LE32(|item|) + item
  }

  /** `Reader::fetch`: the record at `base + DATA_OFFSET + offset` must start with the segment magic. */
  function FetchSegment(cells: Cells, base: nat, offset: nat): (r: Result<seq<byte>, AranyaError>)
    ensures offset > U32_MAX ==> r == Err(IoError)
    ensures offset <= U32_MAX ==> (r.Ok? <==> Read(cells, base + DATA_OFFSET + offset, MAGIC_LEN) == SEGMENT_HEADER_MAGIC)
    ensures r.Err? ==> r.error == IoError
    ensures r.Ok? ==>
      var pos := base + DATA_OFFSET + offset;
      r.value == Read(cells, pos + MAGIC_LEN + SEGMENT_HEADER_SIZE, FromLE32(Read(cells, pos + MAGIC_LEN, SEGMENT_HEADER_SIZE)))
  {
    if offset > U32_MAX then Err(IoError)
    else
      var pos := base + DATA_OFFSET + offset;
      if Read(cells, pos, MAGIC_LEN) != SEGMENT_HEADER_MAGIC then Err(IoError)
      else
        var size := FromLE32(Read(cells, pos + MAGIC_LEN, SEGMENT_HEADER_SIZE));
        Ok(Read(cells, pos + MAGIC_LEN + SEGMENT_HEADER_SIZE, size))
  }

  /** A record written at a data offset is fetched back as its segment. */
  lemma {:induction false} FetchWrittenRecord(cells: Cells, base: nat, offset: nat, item: seq<byte>)
    requires offset <= U32_MAX && |item| <= U32_MAX
    ensures FetchSegment(WriteAt(cells, base + DATA_OFFSET + offset, Record(item)), base, offset) == Ok(item)
  {
    ReadWritten(cells, base + DATA_OFFSET + offset, Record(item));
    FetchRecordAt(WriteAt(cells, base + DATA_OFFSET + offset, Record(item)), base, offset, item);
  }

  /** Wherever a record's bytes are found at a data offset, fetching there gives its segment. */
  lemma {:induction false} FetchRecordAt(c: Cells, base: nat, offset: nat, item: seq<byte>)
    requires offset <= U32_MAX && |item| <= U32_MAX
    requires Read(c, base + DATA_OFFSET + offset, |Record(item)|) == Record(item)
    ensures FetchSegment(c, base, offset) == Ok(item)
  {
    var pos := base + DATA_OFFSET + offset;
    ReadSplit(c, pos, MAGIC_LEN + SEGMENT_HEADER_SIZE, |item|);
    ReadSplit(c, pos, MAGIC_LEN, SEGMENT_HEADER_SIZE);
    var front := Read(c, pos, MAGIC_LEN + SEGMENT_HEADER_SIZE);
    var rest := Read(c, pos + MAGIC_LEN + SEGMENT_HEADER_SIZE, |item|);
    var record := Record(item);
    assert record[..MAGIC_LEN + SEGMENT_HEADER_SIZE] == front && record[MAGIC_LEN + SEGMENT_HEADER_SIZE..] == rest;
    assert front == SEGMENT_HEADER_MAGIC + LE32(|item|) && rest == item;
    assert Read(c, pos, MAGIC_LEN) == front[..MAGIC_LEN] == SEGMENT_HEADER_MAGIC;
    assert Read(c, pos + MAGIC_LEN, SEGMENT_HEADER_SIZE) == front[MAGIC_LEN..] == LE32(|item|);
    LE32RoundTrip(|item|);
  }

  /** A segment that fetches is stored as its record. */
  lemma {:induction false} FetchedIsRecord(c: Cells, base: nat, offset: nat)
    requires FetchSegment(c, base, offset).Ok?
    ensures |FetchSegment(c, base, offset).value| <= U32_MAX
    ensures var v := FetchSegment(c, base, offset).value;
      Read(c, base + DATA_OFFSET + offset, |Record(v)|) == Record(v)
  {
    var pos := base + DATA_OFFSET + offset;
    var v := FetchSegment(c, base, offset).value;
    FromLE32RoundTrip(Read(c, pos + MAGIC_LEN, SEGMENT_HEADER_SIZE));
    ReadSplit(c, pos, MAGIC_LEN + SEGMENT_HEADER_SIZE, |v|);
    ReadSplit(c, pos, MAGIC_LEN, SEGMENT_HEADER_SIZE);
  }

  /** A fetched segment stays fetchable across writes that do not overlap its record. */
  lemma {:induction false} FetchSegmentOutside(cells: Cells, base: nat, offset: nat, o: nat, data: seq<byte>)
    requires FetchSegment(cells, base, offset).Ok?
    requires base + DATA_OFFSET + offset + MAGIC_LEN + SEGMENT_HEADER_SIZE + |FetchSegment(cells, base, offset).value| <= o ||
             o + |data| <= base + DATA_OFFSET + offset
    ensures FetchSegment(WriteAt(cells, o, data), base, offset) == FetchSegment(cells, base, offset)
  {
    var v := FetchSegment(cells, base, offset).value;
    FetchedIsRecord(cells, base, offset);
    ReadOutside(cells, o, data, base + DATA_OFFSET + offset, |Record(v)|);
    FetchRecordAt(WriteAt(cells, o, data), base, offset, v);
  }

  /** The edits `update_header` is given: grow `stored_bytes`, set the head, set the graph id. */
  datatype HeaderUpdate = AddStored(n: nat) | SetHead(location: Location) | SetGraph(id: GraphId)

  /** The cached header with the epoch bumped (wrapping, as a release build does) and the edit applied; None when the edit fails. */
  function Updated(h: Header, u: HeaderUpdate): (r: Option<Header>)
    ensures r.Some? ==> r.value.epoch == (h.epoch + 1) % 0x1_0000_0000
    ensures u.SetHead? ==> (r.Some? <==> u.location.segment <= U32_MAX && u.location.command <= U32_MAX)
    ensures u.SetHead? && r.Some? ==> r.value == h.(epoch := r.value.epoch, head := Some((u.location.segment, u.location.command)))
    ensures u.AddStored? ==> (r.Some? <==> h.storedBytes + u.n <= U32_MAX)
    ensures u.AddStored? && r.Some? ==> r.value == h.(epoch := r.value.epoch, storedBytes := h.storedBytes + u.n)
    ensures u.SetGraph? ==> r == Some(h.(epoch := (h.epoch + 1) % 0x1_0000_0000, graphId := Some(u.id)))
  {
    var bumped := h.(epoch := (h.epoch + 1) % 0x1_0000_0000);
    match u
    case AddStored(n) => if h.storedBytes + n <= U32_MAX then Some(bumped.(storedBytes := h.storedBytes + n)) else None
    case SetHead(l) =>
      if l.segment <= U32_MAX && l.command <= U32_MAX then Some(bumped.(head := Some((l.segment, l.command)))) else None
    case SetGraph(id) => Some(bumped.(graphId := Some(id)))
  }

  /**
   * `update_header`: the medium after writing the updated header, the new
   * cache, and the result.  The cache becomes whatever was read back, even
   * when that differs from what was written.
   */
  function UpdateOutcome(cells: Cells, base: nat, cache: Header, u: HeaderUpdate, fault: Fault): (Cells, Header, Result<(), StorageError>)
  {
    var next := Updated(cache, u);
    if next.None? then (cells, cache, Err(Update))
    else
      var written := Written(cells, base, HeaderBytes(next.value), fault);
      if fault.Fails? then (written, cache, Err(Write))
      else
        var back := FetchHeader(written, base);
        if back.Err? then (written, cache, Err(back.error))
        else (written, back.value, if back.value == next.value then Ok(()) else Err(Write))
  }

  /** A header update that lands is confirmed by the read-back and becomes the cache. */
  lemma {:induction false} UpdateVerified(cells: Cells, base: nat, cache: Header, u: HeaderUpdate)
    requires Updated(cache, u).Some?
    ensures var (c, h, r) := UpdateOutcome(cells, base, cache, u, NoFault);
      r == Ok(()) && h == Updated(cache, u).value && FetchHeader(c, base) == Ok(h) && c == WriteAt(cells, base, HeaderBytes(h))
  {
    FetchWrittenHeader(cells, base, Updated(cache, u).value);
  }

  /** When other header bytes land, the update fails with `Write` unless they decode to the intended header; the cache still takes the read-back value. */
  lemma {:induction false} UpdateReadBackMismatch(cells: Cells, base: nat, cache: Header, u: HeaderUpdate, landed: seq<byte>)
    requires Updated(cache, u).Some?
    requires FetchHeader(WriteAt(cells, base, landed), base).Ok?
    requires FetchHeader(WriteAt(cells, base, landed), base).value != Updated(cache, u).value
    ensures var (c, h, r) := UpdateOutcome(cells, base, cache, u, Lands(landed));
      r == Err(Write) && h == FetchHeader(WriteAt(cells, base, landed), base).value
  {
  }

  /** Bytes a header update writes stay inside the header sector. */
  lemma {:induction false} UpdateOutsideData(cells: Cells, base: nat, cache: Header, u: HeaderUpdate, o: nat, n: nat)
    requires base + DATA_OFFSET <= o
    ensures Read(UpdateOutcome(cells, base, cache, u, NoFault).0, o, n) == Read(cells, o, n)
  {
    if Updated(cache, u).Some? {
      ReadOutside(cells, base, HeaderBytes(Updated(cache, u).value), o, n);
    }
  }

  /** `Reader`: fetches segments of the partition at `base`. */
  class Reader {
    const medium: Medium
    const base: nat

    constructor(medium: Medium, base: nat)
      ensures this.medium == medium && this.base == base
    {
      this.medium := medium;
      this.base := base;
    }

    function Fetch(offset: nat): (r: Result<seq<byte>, AranyaError>)
      reads medium
      ensures r == FetchSegment(medium.cells, base, offset)
    {
      FetchSegment(medium.cells, base, offset)
    }
  }

  /** `Writer`: the partition at `base` of `size` bytes, with its cached header. */
  class Writer {
    const medium: Medium
    const base: nat
    const size: nat
    var headerCache: Header

    predicate Valid()
      reads this
    {
      size <= U32_MAX
    }

    /** `new_with_header`. */
    constructor(medium: Medium, base: nat, size: nat, header: Header)
      requires size <= U32_MAX
      ensures this.medium == medium && this.base == base && this.size == size && headerCache == header
      ensures Valid()
    {
      this.medium := medium;
      this.base := base;
      this.size := size;
      headerCache := header;
    }

    /** `readonly`. */
    method ReadOnly() returns (r: Reader)
      ensures fresh(r) && r.medium == medium && r.base == base
    {
      r := new Reader(medium, base);
    }

    /** `head`: the cached head, or NoSuchStorage when none was committed. */
    function Head(): (r: Result<Location, AranyaError>)
      reads this
      ensures headerCache.head.None? <==> r == Err(NoSuchStorage)
      ensures headerCache.head.Some? ==> r == Ok(Location(headerCache.head.value.0, headerCache.head.value.1))
    {
      if headerCache.head.None? then Err(NoSuchStorage)
      else Ok(Location(headerCache.head.value.0, headerCache.head.value.1))
    }

    method UpdateHeader(u: HeaderUpdate, fault: Fault) returns (r: Result<(), StorageError>)
      requires Valid()
      modifies this, medium
      ensures Valid()
      ensures (medium.cells, headerCache, r) == UpdateOutcome(old(medium.cells), base, old(headerCache), u, fault)
    {
      var header := Updated(headerCache, u);
      if header.None? {
        return Err(Update);
      }
      var ok := medium.Write(base, HeaderBytes(header.value), fault);
      if !ok {
        return Err(Write);
      }
      var back := FetchHeader(medium.cells, base);
      if back.Err? {
        return Err(back.error);
      }
      headerCache := back.value;
      if headerCache != header.value {
        return Err(Write);
      }
      r := Ok(());
    }

    /**
     * `append`: the builder gets the old `stored_bytes` as the segment's
     * offset; the record is written there unless it would not fit, then
     * the header grows by the record's size.
     */
    method Append(builder: nat -> seq<byte>, dataFault: Fault, headerFault: Fault) returns (r: Result<seq<byte>, AranyaError>)
      requires Valid()
      modifies this, medium
      ensures Valid()
      ensures (medium.cells, headerCache, r) ==
        AppendOutcome(old(medium.cells), base, size, old(headerCache), builder(old(headerCache.storedBytes)), dataFault, headerFault)
    {
      var offset := headerCache.storedBytes;
      var item := builder(offset);
      var itemSize := MAGIC_LEN + SEGMENT_HEADER_SIZE + |item|;
      if headerCache.storedBytes + itemSize > size {
        return Err(IoError);
      }
      var diskBytes := SEGMENT_HEADER_MAGIC + LE32(|item|) + item;
      var ok := medium.Write(base + DATA_OFFSET + offset, diskBytes, dataFault);
      if !ok {
        return Err(IoError);
      }
      ghost var afterData := medium.cells;
      ghost var cache := headerCache;
      AppendWritesThenGrows(old(medium.cells), base, size, cache, item, dataFault, headerFault);
      var updated := UpdateHeader(AddStored(itemSize), headerFault);
      if updated.Err? {
        return Err(IoError);
      }
      r := Ok(item);
    }

    /** `commit`: record the head location; it fails when either index does not fit in a `u32`. */
    method Commit(head: Location, fault: Fault) returns (r: Result<(), AranyaError>)
      requires Valid()
      modifies this, medium
      ensures Valid()
      ensures var (c, h, u) := UpdateOutcome(old(medium.cells), base, old(headerCache), SetHead(head), fault);
        medium.cells == c && headerCache == h && r == (if u.Ok? then Ok(()) else Err(IoError))
    {
      var updated := UpdateHeader(SetHead(head), fault);
      if updated.Err? {
        return Err(IoError);
      }
      r := Ok(());
    }
  }

  /**
   * `append` of `item` on the partition at `base` of `size` bytes: the
   * medium, the header cache and the result.  A record that would not fit
   * and a failed data write leave both as they were; a failed header
   * update is reported as an I/O error.
   */
  function AppendOutcome(cells: Cells, base: nat, size: nat, cache: Header, item: seq<byte>, dataFault: Fault, headerFault: Fault):
    (Cells, Header, Result<seq<byte>, AranyaError>)
    requires size <= U32_MAX
  {
    var offset := cache.storedBytes;
    if offset + MAGIC_LEN + SEGMENT_HEADER_SIZE + |item| > size || dataFault.Fails? then (cells, cache, Err(IoError))
    else GrowHeader(Written(cells, base + DATA_OFFSET + offset, Record(item), dataFault), base, cache, item, headerFault)
  }

  /** The second half of `append`: the header grows by the record just written to `cells`. */
  function GrowHeader(cells: Cells, base: nat, cache: Header, item: seq<byte>, fault: Fault): (Cells, Header, Result<seq<byte>, AranyaError>)
  {
    var outcome := UpdateOutcome(cells, base, cache, AddStored(MAGIC_LEN + SEGMENT_HEADER_SIZE + |item|), fault);
    (outcome.0, outcome.1, if outcome.2.Ok? then Ok(item) else Err(IoError))
  }

  /** An append that fits and whose data write does not fail goes on to grow the header. */
  lemma {:induction false} AppendWritesThenGrows(cells: Cells, base: nat, size: nat, cache: Header, item: seq<byte>, dataFault: Fault, headerFault: Fault)
    requires size <= U32_MAX && cache.storedBytes + MAGIC_LEN + SEGMENT_HEADER_SIZE + |item| <= size && !dataFault.Fails?
    ensures AppendOutcome(cells, base, size, cache, item, dataFault, headerFault) ==
      GrowHeader(Written(cells, base + DATA_OFFSET + cache.storedBytes, Record(item), dataFault), base, cache, item, headerFault)
  {
  }

  /** Growing the header over a stored record keeps the record fetchable and the header readable. */
  lemma {:induction false} GrowHeaderKeepsRecord(c: Cells, base: nat, cache: Header, item: seq<byte>)
    requires cache.storedBytes + MAGIC_LEN + SEGMENT_HEADER_SIZE + |item| <= U32_MAX
    requires Read(c, base + DATA_OFFSET + cache.storedBytes, |Record(item)|) == Record(item)
    ensures var outcome := GrowHeader(c, base, cache, item, NoFault);
      outcome.2 == Ok(item) && outcome.1 == cache.(epoch := outcome.1.epoch, storedBytes := cache.storedBytes + |Record(item)|) &&
      FetchHeader(outcome.0, base) == Ok(outcome.1) && FetchSegment(outcome.0, base, cache.storedBytes) == Ok(item)
  {
    var u := AddStored(MAGIC_LEN + SEGMENT_HEADER_SIZE + |item|);
    UpdateVerified(c, base, cache, u);
    FetchRecordAt(c, base, cache.storedBytes, item);
    FetchSegmentOutside(c, base, cache.storedBytes, base, HeaderBytes(Updated(cache, u).value));
  }

  /** Growing the header leaves every fetchable segment as it was. */
  lemma {:induction false} GrowHeaderKeepsSegments(c: Cells, base: nat, cache: Header, item: seq<byte>, o: nat)
    requires FetchSegment(c, base, o).Ok?
    ensures FetchSegment(GrowHeader(c, base, cache, item, NoFault).0, base, o) == FetchSegment(c, base, o)
  {
    var u := AddStored(MAGIC_LEN + SEGMENT_HEADER_SIZE + |item|);
    if Updated(cache, u).Some? {
      FetchSegmentOutside(c, base, o, base, HeaderBytes(Updated(cache, u).value));
    }
  }

  /** A fault-free append that fits writes its record at the old `stored_bytes`, grows it by the record, and can be fetched back. */
  lemma {:induction false} AppendStoresRecord(cells: Cells, base: nat, size: nat, cache: Header, item: seq<byte>)
    requires size <= U32_MAX && cache.storedBytes + MAGIC_LEN + SEGMENT_HEADER_SIZE + |item| <= size
    ensures var outcome := AppendOutcome(cells, base, size, cache, item, NoFault, NoFault);
      outcome.2 == Ok(item) && outcome.1 == cache.(epoch := outcome.1.epoch, storedBytes := cache.storedBytes + |Record(item)|) &&
      FetchHeader(outcome.0, base) == Ok(outcome.1) && FetchSegment(outcome.0, base, cache.storedBytes) == Ok(item)
  {
    var pos := base + DATA_OFFSET + cache.storedBytes;
    AppendWritesThenGrows(cells, base, size, cache, item, NoFault, NoFault);
    ReadWritten(cells, pos, Record(item));
    GrowHeaderKeepsRecord(Written(cells, pos, Record(item), NoFault), base, cache, item);
  }

  /** A fault-free append leaves every segment stored before the old `stored_bytes` fetchable as before. */
  lemma {:induction false} AppendKeepsEarlier(cells: Cells, base: nat, size: nat, cache: Header, item: seq<byte>, o: nat)
    requires size <= U32_MAX
    requires FetchSegment(cells, base, o).Ok?
    requires o + MAGIC_LEN + SEGMENT_HEADER_SIZE + |FetchSegment(cells, base, o).value| <= cache.storedBytes
    ensures FetchSegment(AppendOutcome(cells, base, size, cache, item, NoFault, NoFault).0, base, o) == FetchSegment(cells, base, o)
  {
    var pos := base + DATA_OFFSET + cache.storedBytes;
    if cache.storedBytes + MAGIC_LEN + SEGMENT_HEADER_SIZE + |item| <= size {
      AppendWritesThenGrows(cells, base, size, cache, item, NoFault, NoFault);
      FetchSegmentOutside(cells, base, o, pos, Record(item));
      GrowHeaderKeepsSegments(Written(cells, pos, Record(item), NoFault), base, cache, item, o);
    }
  }

  /** `EspPartitionIoManager`: the partition at `base` of `size` bytes on the shared medium. */
  class PartitionManager {
    const medium: Medium
    const base: nat
    const size: nat

    predicate Valid()
      reads this
    {
      size <= U32_MAX
    }

    constructor Of(medium: Medium, base: nat, size: nat)
      requires size <= U32_MAX
      ensures this.medium == medium && this.base == base && this.size == size && Valid()
    {
      this.medium := medium;
      this.base := base;
      this.size := size;
    }

    /** `create`: fails if the header is unreadable or already names a graph; otherwise records `id`. */
    method Create(id: GraphId, fault: Fault) returns (r: Result<Writer, AranyaError>)
      requires Valid()
      modifies medium
      ensures var header := FetchHeader(old(medium.cells), base);
        if header.Err? then r == Err(NoSuchStorage) && medium.cells == old(medium.cells)
        else if header.value.graphId.Some? then r == Err(StorageExists) && medium.cells == old(medium.cells)
        else
          var (c, h, u) := UpdateOutcome(old(medium.cells), base, header.value, SetGraph(id), fault);
          medium.cells == c &&
          (u.Ok? ==> (r.Ok? && fresh(r.value) && r.value.Valid() && r.value.medium == medium && r.value.base == base &&
             r.value.size == size && r.value.headerCache == h)) &&
          (u.Err? ==> r == Err(IoError))
    {
      var header := FetchHeader(medium.cells, base);
      if header.Err? {
        return Err(NoSuchStorage);
      }
      if header.value.graphId.Some? {
        return Err(StorageExists);
      }
      var fetched := FetchHeader(medium.cells, base);
      var writer := new Writer(medium, base, size, fetched.value);
      var updated := writer.UpdateHeader(SetGraph(id), fault);
      if updated.Err? {
        return Err(IoError);
      }
      r := Ok(writer);
    }

    /** `open`: fails on an unreadable header or a different recorded id; a header with no id opens too. */
    method Open(id: GraphId) returns (r: Result<Option<Writer>, AranyaError>)
      requires Valid()
      ensures var header := FetchHeader(medium.cells, base);
        if header.Err? || (header.value.graphId.Some? && header.value.graphId.value != id) then r == Err(NoSuchStorage)
        else (r.Ok? && r.value.Some? && fresh(r.value.value) && r.value.value.Valid() && r.value.value.medium == medium &&
          r.value.value.base == base && r.value.value.headerCache == header.value)
    {
      var header := FetchHeader(medium.cells, base);
      if header.Err? {
        return Err(NoSuchStorage);
      }
      if header.value.graphId.Some? && header.value.graphId.value != id {
        return Err(NoSuchStorage);
      }
      var writer := new Writer(medium, base, size, header.value);
      r := Ok(Some(writer));
    }

    /** `list`: the recorded graph id, if any. */
    function List(): (r: Result<seq<GraphId>, AranyaError>)
      reads medium
      ensures FetchHeader(medium.cells, base).Err? <==> r == Err(NoSuchStorage)
      ensures r.Ok? ==> (forall g :: g in r.value <==> FetchHeader(medium.cells, base).value.graphId == Some(g)) && |r.value| <= 1
    {
      var header := FetchHeader(medium.cells, base);
      if header.Err? then Err(NoSuchStorage)
      else if header.value.graphId.None? then Ok([])
      else Ok([header.value.graphId.value])
    }
  }

  /**
   * `EspPartitionIoManager::new`: a header that fails the magic or decoding
   * check is replaced by the empty header; false when that write fails,
   * where the source panics.
   */
  method Initialize(medium: Medium, base: nat, fault: Fault) returns (alive: bool)
    modifies medium
    ensures FetchHeader(old(medium.cells), base).Ok? ==> alive && medium.cells == old(medium.cells)
    ensures FetchHeader(old(medium.cells), base).Err? ==>
      medium.cells == Written(old(medium.cells), base, HeaderBytes(EMPTY_HEADER), fault) && (alive <==> !fault.Fails?)
  {
    var header := FetchHeader(medium.cells, base);
    if header.Err? {
      alive := medium.Write(base, HeaderBytes(EMPTY_HEADER), fault);
    } else {
      alive := true;
    }
  }

  /** After a successful fault-free initialisation the header is readable. */
  lemma {:induction false} InitializedHeaderReadable(cells: Cells, base: nat)
    requires FetchHeader(cells, base).Err?
    ensures FetchHeader(WriteAt(cells, base, HeaderBytes(EMPTY_HEADER)), base) == Ok(EMPTY_HEADER)
  {
    FetchWrittenHeader(cells, base, EMPTY_HEADER);
  }

  /** `nuke`: zero the header sector. */
  method Nuke(medium: Medium, base: nat, fault: Fault) returns (r: Result<(), AranyaError>)
    modifies medium
    ensures medium.cells == Written(old(medium.cells), base, Zeros(DATA_OFFSET), fault)
    ensures r.Ok? <==> !fault.Fails?
    ensures r.Err? ==> r.error == IoError
  {
    var ok := medium.Write(base, Zeros(DATA_OFFSET), fault);
    r := if ok then Ok(()) else Err(IoError);
  }

  /** Creating a graph on a fresh partition and opening it again: the id is recorded, a different id is refused. */
  lemma {:induction false} CreateThenOpen(cells: Cells, base: nat, id: GraphId, other: GraphId)
    requires FetchHeader(cells, base).Ok? && FetchHeader(cells, base).value.graphId.None?
    requires other != id
    ensures var (c, h, u) := UpdateOutcome(cells, base, FetchHeader(cells, base).value, SetGraph(id), NoFault);
      u.Ok? && FetchHeader(c, base) == Ok(h) && h.graphId == Some(id)
  {
    UpdateVerified(cells, base, FetchHeader(cells, base).value, SetGraph(id));
  }
}
