/**
 * The first flash-partition graph store of the firmware (the one built
 * with the `storage-internal` feature).  It has the shape of the demo's
 * store, with a smaller header (no graph id) and different offsets:
 *
 *  - `write_header` writes the archived header alone, while
 *    `fetch_header` expects the header magic in front of it;
 *  - `append` writes the raw serialised item at `base + DATA_OFFSET +
 *    stored_bytes`, with no magic and no size;
 *  - `fetch` looks for a magic and a size at `base + offset`, and reads
 *    the data from `base + offset + 4`;
 *  - `commit` records the head's segment twice.
 *
 * This module models those offsets as the code computes them.  The lemmas
 * at the end show what they lead to.
 */
module OldFlashStore {
  import opened Bytes
  import opened Wrappers
  import opened Flash
  import FlashStore

  const MAGIC_LEN: nat := 4
  const HEADER_MAGIC: seq<byte> := [0x1C, 0x53, 0x4F, 0x00]
  /** `size_of::<ArchivedEspStorageHeader>()` for this header in the stand-in layout. */
  const HEADER_SIZE: nat := 20
  const DATA_OFFSET: nat := 4096
  const SEGMENT_HEADER_SIZE: nat := 4
  const SEGMENT_HEADER_MAGIC: seq<byte> := [0x1E, 0x53, 0x4F, 0x00]

  /** The epoch whose little-endian bytes happen to be the header magic. */
  const MAGIC_EPOCH: u32 := 0x004F_531C

  datatype Header = Header(epoch: u32, head: Option<(u32, u32)>, storedBytes: u32)

  const EMPTY_HEADER: Header := Header(0, None, 0)

  datatype StorageError = BadHeader | Write | Update
  datatype AranyaError = IoError | NoSuchStorage

  datatype Location = Location(segment: nat, command: nat)

  /** The archived header: epoch at 0, head tag at 4, head at 8..16, size at 16. */
  function EncodeHeader(h: Header): (r: seq<byte>)
    ensures |r| == HEADER_SIZE && r[..4] == LE32(h.epoch)
  {
    LE32(h.epoch) + [FlashStore.Tag(h.head.Some?)] + FlashStore.Zeros(3)
    + (if h.head.Some? then LE32(h.head.value.0) + LE32(h.head.value.1) else FlashStore.Zeros(8))
    + LE32(h.storedBytes)
  }

  /** Access and deserialise the archived header: None when the head tag is invalid. */
  function DecodeHeader(s: seq<byte>): (r: Option<Header>)
    requires |s| == HEADER_SIZE
    ensures r.Some? <==> s[4] <= 1
  {
    match FlashStore.DecodeTag(s[4])
    case None => None
    case Some(present) =>
      Some(Header(
        FromLE32(s[0..4]),
        if present then Some((FromLE32(s[8..12]), FromLE32(s[12..16]))) else None,
        FromLE32(s[16..20])))
  }

  lemma {:induction false} DecodeEncodeHeader(h: Header)
    ensures DecodeHeader(EncodeHeader(h)) == Some(h)
  {
    var s := EncodeHeader(h);
    var p := if h.head.Some? then LE32(h.head.value.0) + LE32(h.head.value.1) else FlashStore.Zeros(8);
    assert s == LE32(h.epoch) + [FlashStore.Tag(h.head.Some?)] + FlashStore.Zeros(3) + p + LE32(h.storedBytes);
    assert s[0..4] == LE32(h.epoch);
    assert s[8..16] == p;
    assert s[16..20] == LE32(h.storedBytes);
    LE32RoundTrip(h.epoch);
    LE32RoundTrip(h.storedBytes);
    if h.head.Some? {
      assert s[8..12] == p[0..4] == LE32(h.head.value.0);
      assert s[12..16] == p[4..8] == LE32(h.head.value.1);
      LE32RoundTrip(h.head.value.0);
      LE32RoundTrip(h.head.value.1);
    }
  }

  /** What `write_header` puts at the partition base: the archived header, with no magic. */
  function HeaderBytes(h: Header): (r: seq<byte>)
    ensures |r| == HEADER_SIZE
  {
    EncodeHeader(h)
  }

  /** `fetch_header`: the magic must be at `offset` and the archived header must decode after it. */
  function FetchHeader(cells: Cells, offset: nat): (r: Result<Header, StorageError>)
    ensures r.Err? ==> r.error == BadHeader
  {
    if Read(cells, offset, MAGIC_LEN) != HEADER_MAGIC then Err(BadHeader)
    else
      match DecodeHeader(Read(cells, offset + MAGIC_LEN, HEADER_SIZE))
      case None => Err(BadHeader)
      case Some(h) => Ok(h)
  }

  /** The only four bytes that pass the magic check are those of `MAGIC_EPOCH`. */
  lemma {:induction false} MagicIsOneEpoch(e: u32)
    requires LE32(e) == HEADER_MAGIC
    ensures e == MAGIC_EPOCH
  {
    LE32RoundTrip(e);
  }

  /** A header written by `write_header` is not found by `fetch_header`, unless its epoch spells the magic. */
  lemma {:induction false} WrittenHeaderIsBad(cells: Cells, base: nat, h: Header)
    requires h.epoch != MAGIC_EPOCH
    ensures FetchHeader(WriteAt(cells, base, HeaderBytes(h)), base) == Err(BadHeader)
  {
    var c := WriteAt(cells, base, HeaderBytes(h));
    ReadWrittenPart(cells, base, HeaderBytes(h), 0, MAGIC_LEN);
    assert Read(c, base, MAGIC_LEN) == LE32(h.epoch);
    if LE32(h.epoch) == HEADER_MAGIC {
      MagicIsOneEpoch(h.epoch);
    }
  }

  /** The edits `update_header` is given by `append` and `commit`. */
  datatype HeaderUpdate = AddStored(n: nat) | SetHead(location: Location)

  /**
   * The cached header with the epoch bumped (wrapping) and the edit
   * applied.  `commit` converts the head's segment twice, so the command
   * index is lost; a value that does not fit in a `u32` fails the edit.
   */
  function Updated(h: Header, u: HeaderUpdate): (r: Option<Header>)
    ensures r.Some? ==> r.value.epoch == (h.epoch + 1) % 0x1_0000_0000
    ensures u.SetHead? ==> (r.Some? <==> u.location.segment <= U32_MAX)
    ensures u.SetHead? && r.Some? ==>
      r.value == h.(epoch := r.value.epoch, head := Some((u.location.segment, u.location.segment)))
    ensures u.AddStored? ==> (r.Some? <==> h.storedBytes + u.n <= U32_MAX)
    ensures u.AddStored? && r.Some? ==> r.value == h.(epoch := r.value.epoch, storedBytes := h.storedBytes + u.n)
  {
    var bumped := h.(epoch := (h.epoch + 1) % 0x1_0000_0000);
    match u
    case AddStored(n) => if h.storedBytes + n <= U32_MAX then Some(bumped.(storedBytes := h.storedBytes + n)) else None
    case SetHead(l) => if l.segment <= U32_MAX then Some(bumped.(head := Some((l.segment, l.segment)))) else None
  }

  /**
   * `update_header`: the medium after writing the updated header, the new
   * cache, and the result.  A failed read-back returns before the cache is
   * touched; a read-back that differs still becomes the cache.
   */
  function UpdateOutcome(cells: Cells, base: nat, cache: Header, u: HeaderUpdate, fault: Fault): (Cells, Header, Result<(), StorageError>)
  {
    var next := Updated(cache, u);
    if next.None? then (cells, cache, Err(Update))
    else
      var written := Written(cells, base, HeaderBytes(next.value), fault);
      if fault.Fails? then (written, cache, Err(Write))
      else
        var back := FetchHeader(written, base);
        if back.Err? then (written, cache, Err(back.error))
        else (written, back.value, if back.value == next.value then Ok(()) else Err(Write))
  }

  /** Every fault-free header update fails its read-back, except when the new epoch spells the magic. */
  lemma {:induction false} UpdateNeverVerifies(cells: Cells, base: nat, cache: Header, u: HeaderUpdate)
    requires Updated(cache, u).Some? && Updated(cache, u).value.epoch != MAGIC_EPOCH
    ensures UpdateOutcome(cells, base, cache, u, NoFault) == (WriteAt(cells, base, HeaderBytes(Updated(cache, u).value)), cache, Err(BadHeader))
  {
    WrittenHeaderIsBad(cells, base, Updated(cache, u).value);
  }

  /** `Reader::fetch`: the buffer handed to the deserialiser, or IoError. */
  function FetchSegment(cells: Cells, base: nat, offset: nat): (r: Result<seq<byte>, AranyaError>)
    ensures r.Err? ==> r.error == IoError
    ensures offset <= U32_MAX ==> (r.Ok? <==> Read(cells, base + offset, MAGIC_LEN) == SEGMENT_HEADER_MAGIC)
    ensures r.Ok? ==>
      r.value == Read(cells, base + offset + SEGMENT_HEADER_SIZE, FromLE32(Read(cells, base + offset + MAGIC_LEN, SEGMENT_HEADER_SIZE)))
  {
    if offset > U32_MAX then Err(IoError)
    else if Read(cells, base + offset, MAGIC_LEN) != SEGMENT_HEADER_MAGIC then Err(IoError)
    else
      var size := FromLE32(Read(cells, base + offset + MAGIC_LEN, SEGMENT_HEADER_SIZE));
      Ok(Read(cells, base + offset + SEGMENT_HEADER_SIZE, size))
  }

  /** The data `fetch` reads starts at the size field, so its first four bytes are the size, not the segment. */
  lemma {:induction false} FetchStartsAtSize(cells: Cells, base: nat, offset: nat)
    requires FetchSegment(cells, base, offset).Ok?
    requires |FetchSegment(cells, base, offset).value| >= SEGMENT_HEADER_SIZE
    ensures FetchSegment(cells, base, offset).value[..SEGMENT_HEADER_SIZE] == Read(cells, base + offset + MAGIC_LEN, SEGMENT_HEADER_SIZE)
  {
    var v := FetchSegment(cells, base, offset).value;
    ReadSlice(cells, base + offset + SEGMENT_HEADER_SIZE, |v|, 0, SEGMENT_HEADER_SIZE);
  }

  /** `Reader`: fetches segments of the partition at `base`. */
  class Reader {
    const medium: Medium
    const base: nat

    constructor(medium: Medium, base: nat)
      ensures this.medium == medium && this.base == base
    {
      this.medium := medium;
      this.base := base;
    }

    function Fetch(offset: nat): (r: Result<seq<byte>, AranyaError>)
      reads medium
      ensures r == FetchSegment(medium.cells, base, offset)
    {
      FetchSegment(medium.cells, base, offset)
    }
  }

  /** `Writer`: the partition at `base` with its cached header; there is no size bound. */
  class Writer {
    const medium: Medium
    const base: nat
    var headerCache: Header

    constructor(medium: Medium, base: nat, header: Header)
      ensures this.medium == medium && this.base == base && headerCache == header
    {
      this.medium := medium;
      this.base := base;
      headerCache := header;
    }

    method ReadOnly() returns (r: Reader)
      ensures fresh(r) && r.medium == medium && r.base == base
    {
      r := new Reader(medium, base);
    }

    /** `head`: the cached head, or NoSuchStorage when none was committed. */
    function Head(): (r: Result<Location, AranyaError>)
      reads this
      ensures headerCache.head.None? <==> r == Err(NoSuchStorage)
      ensures headerCache.head.Some? ==> r == Ok(Location(headerCache.head.value.0, headerCache.head.value.1))
    {
      if headerCache.head.None? then Err(NoSuchStorage)
      else Ok(Location(headerCache.head.value.0, headerCache.head.value.1))
    }

    method UpdateHeader(u: HeaderUpdate, fault: Fault) returns (r: Result<(), StorageError>)
      modifies this, medium
      ensures (medium.cells, headerCache, r) == UpdateOutcome(old(medium.cells), base, old(headerCache), u, fault)
    {
      var header := Updated(headerCache, u);
      if header.None? {
        return Err(Update);
      }
      var ok := medium.Write(base, HeaderBytes(header.value), fault);
      if !ok {
        return Err(Write);
      }
      var back := FetchHeader(medium.cells, base);
      if back.Err? {
        return Err(back.error);
      }
      headerCache := back.value;
      if headerCache != header.value {
        return Err(Write);
      }
      r := Ok(());
    }

    /**
     * `append`: the builder gets the old `stored_bytes`; the serialised
     * item is written raw at `base + DATA_OFFSET + stored_bytes`, then the
     * header grows by the item's length.  There is no space check.
     */
    method Append(builder: nat -> seq<byte>, dataFault: Fault, headerFault: Fault) returns (r: Result<seq<byte>, AranyaError>)
      modifies this, medium
      ensures var item := builder(old(headerCache.storedBytes));
        var pos := base + DATA_OFFSET + old(headerCache.storedBytes);
        if dataFault.Fails? then r == Err(IoError) && medium.cells == old(medium.cells) && headerCache == old(headerCache)
        else
          var (c, h, u) := UpdateOutcome(Written(old(medium.cells), pos, item, dataFault), base, old(headerCache), AddStored(|item|), headerFault);
          medium.cells == c && headerCache == h && r == (if u.Ok? then Ok(item) else Err(IoError))
    {
      var offset := headerCache.storedBytes;
      var item := builder(offset);
      var ok := medium.Write(base + DATA_OFFSET + offset, item, dataFault);
      if !ok {
        return Err(IoError);
      }
      var updated := UpdateHeader(AddStored(|item|), headerFault);
      if updated.Err? {
        return Err(IoError);
      }
      r := Ok(item);
    }

    /** `commit`: record the head as `(segment, segment)`. */
    method Commit(head: Location, fault: Fault) returns (r: Result<(), AranyaError>)
      modifies this, medium
      ensures var (c, h, u) := UpdateOutcome(old(medium.cells), base, old(headerCache), SetHead(head), fault);
        medium.cells == c && headerCache == h && r == (if u.Ok? then Ok(()) else Err(IoError))
    {
      var updated := UpdateHeader(SetHead(head), fault);
      if updated.Err? {
        return Err(IoError);
      }
      r := Ok(());
    }
  }

  /** `EspPartitionIoManager`: the partition at `base` on the shared medium. */
  class PartitionManager {
    const medium: Medium
    const base: nat
    /** False when `new` panicked: the `expect` on a failed header write. */
    const alive: bool

    /**
     * `new`: a header that fails `fetch_header` (always with `BadHeader`)
     * is replaced by the empty header, written without magic; a failed
     * write is the `expect` panic, recorded as `alive` being false.
     */
    constructor (medium: Medium, base: nat, fault: Fault)
      modifies medium
      ensures this.medium == medium && this.base == base
      ensures FetchHeader(old(medium.cells), base).Ok? ==> alive && medium.cells == old(medium.cells)
      ensures FetchHeader(old(medium.cells), base).Err? ==>
        medium.cells == Written(old(medium.cells), base, HeaderBytes(EMPTY_HEADER), fault) && (alive <==> !fault.Fails?)
    {
      this.medium := medium;
      this.base := base;
      var header := FetchHeader(medium.cells, base);
      var ok := true;
      if header.Err? {
        ok := medium.Write(base, HeaderBytes(EMPTY_HEADER), fault);
      }
      this.alive := ok;
    }

    /** `create`: a writer over the current header, whatever the id; None where `Writer::new` panics on a bad header. */
    method Create() returns (r: Option<Writer>)
      ensures FetchHeader(medium.cells, base).Err? <==> r.None?
      ensures r.Some? ==> fresh(r.value) && r.value.medium == medium && r.value.base == base
      ensures r.Some? ==> r.value.headerCache == FetchHeader(medium.cells, base).value
    {
      var header := FetchHeader(medium.cells, base);
      if header.Err? {
        return None;
      }
      var w := new Writer(medium, base, header.value);
      r := Some(w);
    }

    /** `open`: there is never a graph to open. */
    function Open(): (r: Result<Option<Writer>, AranyaError>)
      ensures r == Ok(None)
    {
      Ok(None)
    }
  }

  /** Initialising a partition whose header is bad leaves it still bad, so `create` then panics. */
  lemma {:induction false} InitializedStillBad(cells: Cells, base: nat)
    requires FetchHeader(cells, base).Err?
    ensures FetchHeader(WriteAt(cells, base, HeaderBytes(EMPTY_HEADER)), base) == Err(BadHeader)
  {
    WrittenHeaderIsBad(cells, base, EMPTY_HEADER);
  }

  /** An item appended to a blank flash is not found by fetching its offset: `fetch` looks in the header sector. */
  lemma {:induction false} AppendedNotFetched(item: seq<byte>)
    ensures FetchSegment(WriteAt(Image(map[]), DATA_OFFSET, item), 0, 0) == Err(IoError)
  {
    var c := WriteAt(Image(map[]), DATA_OFFSET, item);
    ReadAt(c, 0, MAGIC_LEN, 0);
  }

  /** A commit keeps the segment and loses the command index. */
  lemma {:induction false} CommitDropsCommand(h: Header)
    ensures Updated(h, SetHead(Location(1, 2))).Some?
    ensures Updated(h, SetHead(Location(1, 2))).value.head == Some((1, 1))
  {
  }
}
