/**
 * The SD-card graph store built on the runtime's linear storage: one file
 * per graph, named by the first eight base58 characters of its id, holding
 * two copies of a root (at `ROOT_A` and `ROOT_B`) and, from `FREE_START`
 * on, the serialised segments.  Every value in the file is framed as a
 * big-endian `u32` length followed by its postcard bytes.  Each change of
 * the root bumps its generation, recomputes its checksum and writes it
 * twice, A first, so that one copy is whole whenever the other is torn;
 * `open` takes the copy with the higher generation and rewrites the other.
 *
 * The file is modelled with positional reads and writes, which is what
 * `dump` and `load` are written to expect; the two helpers underneath
 * them are modelled as written too (`ReadExactAsWritten`,
 * `WriteAllAsWritten`).  SipHash is a parameter.
 */
module LinearStore {
  import opened Bytes
  import opened Wrappers
  import opened Postcard
  import opened SdFile
  import Leb128

  const PAGE: nat := 4096
  const ROOT_A: nat := PAGE
  const ROOT_B: nat := PAGE * 2
  const FREE_START: nat := PAGE * 3

  /** `usize` on the ESP32, and the largest `i64`. */
  const USIZE_MAX: nat := U32_MAX
  const I64_MAX: nat := 0x7FFF_FFFF_FFFF_FFFF

  datatype StorageError = IoError

  datatype Location = Location(segment: nat, command: nat)

  /** The control record: generation, committed head, next free offset, checksum. */
  datatype Root = Root(generation: nat, head: Location, freeOffset: int, checksum: nat)

  /** The field ranges of the source's types: `u64`, `usize`, `i64`. */
  predicate Fits(r: Root)
  {
    r.generation <= U64_MAX && r.head.segment <= USIZE_MAX && r.head.command <= USIZE_MAX &&
    -(I64_MAX + 1) <= r.freeOffset <= I64_MAX && r.checksum <= U64_MAX
  }

  /** SipHash over the generation, the head's segment and command, and the free offset. */
  type Hasher = (nat, nat, nat, int) -> u64

  function Checksum(sip: Hasher, r: Root): u64
  {
    sip(r.generation, r.head.segment, r.head.command, r.freeOffset)
  }

  /** The root with `checksum` set to `calc_checksum()`. */
  function Stamped(sip: Hasher, r: Root): (s: Root)
    ensures s.checksum == Checksum(sip, s)
    ensures s.(checksum := r.checksum) == r
  {
    r.(checksum := Checksum(sip, r))
  }

  /** `Root::new`: generation 0, no head yet (both indices `usize::MAX`), nothing stored. */
  function NewRoot(): (r: Root)
    ensures Fits(r) && r.generation == 0 && r.freeOffset == FREE_START
    ensures r.head == Location(USIZE_MAX, USIZE_MAX)
  {
    Root(0, Location(USIZE_MAX, USIZE_MAX), FREE_START, 0)
  }

  function EncodeRoot(r: Root): seq<byte>
  {
    Varint(r.generation) + Varint(r.head.segment) + Varint(r.head.command) + Signed(r.freeOffset) + Varint(r.checksum)
  }

  function DecodeRoot(s: seq<byte>): (r: Option<Root>)
    ensures r.Some? ==> Fits(r.value)
  {
    match DecVarint(s, U64_MAX)
    case None => None
    case Some((g, s1)) =>
      match DecVarint(s1, USIZE_MAX)
      case None => None
      case Some((seg, s2)) =>
        match DecVarint(s2, USIZE_MAX)
        case None => None
        case Some((cmd, s3)) =>
          match DecSigned(s3)
          case None => None
          case Some((free, s4)) =>
            if !(-(I64_MAX + 1) <= free <= I64_MAX) then None
            else
              match DecVarint(s4, U64_MAX)
              case None => None
              case Some((sum, _)) => Some(Root(g, Location(seg, cmd), free, sum))
  }

  /** A root decodes from its encoding, whatever follows it. */
  lemma {:induction false} RootRoundTrip(r: Root, rest: seq<byte>)
    requires Fits(r)
    ensures DecodeRoot(EncodeRoot(r) + rest) == Some(r)
  {
    var e4 := Varint(r.checksum) + rest;
    var e3 := Signed(r.freeOffset) + e4;
    var e2 := Varint(r.head.command) + e3;
    var e1 := Varint(r.head.segment) + e2;
    assert EncodeRoot(r) + rest == Varint(r.generation) + e1;
    VarintRoundTrip(r.generation, U64_MAX, e1);
    VarintRoundTrip(r.head.segment, USIZE_MAX, e2);
    VarintRoundTrip(r.head.command, USIZE_MAX, e3);
    SignedRoundTrip(r.freeOffset, e4);
    VarintRoundTrip(r.checksum, U64_MAX, rest);
  }

  /** An encoded root takes at most 50 bytes, so its frame fits well inside a page. */
  lemma {:induction false} RootSize(r: Root)
    requires Fits(r)
    ensures |EncodeRoot(r)| <= 50
  {
    assert Pow128(10) == 0x40_0000_0000_0000_0000 by {
      assert Pow128(5) == 0x8_0000_0000;
    }
    VarintLength(r.generation, 10);
    VarintLength(r.head.segment, 10);
    VarintLength(r.head.command, 10);
    VarintLength(Leb128.ZigZag(r.freeOffset), 10);
    VarintLength(r.checksum, 10);
  }

  /** What `dump` writes for a value: its length, big-endian, then its bytes. */
  function Frame(bytes: seq<byte>): (r: seq<byte>)
    requires |bytes| <= U32_MAX
    ensures |r| == 4 + |bytes| && r[4..] == bytes
  {
    BE32(|bytes|) + bytes
  }

  /** `load`: a length, then that many bytes; IoError when the file ends first. */
  function Load(f: seq<byte>, offset: nat): (r: Result<seq<byte>, StorageError>)
    ensures r.Ok? ==> offset + 4 + |r.value| <= |f|
    ensures r.Ok? ==> |r.value| == FromBE32(f[offset..offset + 4]) && r.value == f[offset + 4..offset + 4 + |r.value|]
  {
    if offset + 4 > |f| then Err(IoError)
    else
      var len := FromBE32(f[offset..offset + 4]);
      if offset + 4 + len > |f| then Err(IoError) else Ok(f[offset + 4..offset + 4 + len])
  }

  /** `load` returns what `dump` wrote at the same offset. */
  lemma {:induction false} LoadDumped(f: seq<byte>, offset: nat, bytes: seq<byte>)
    requires |bytes| <= U32_MAX
    ensures Load(Put(f, offset, Frame(bytes)), offset) == Ok(bytes)
  {
    var g := Put(f, offset, Frame(bytes));
    PutThenSlice(f, offset, Frame(bytes), 0, 4);
    PutThenSlice(f, offset, Frame(bytes), 4, 4 + |bytes|);
    BE32RoundTrip(|bytes|);
    assert Frame(bytes)[0..4] == BE32(|bytes|);
    assert Frame(bytes)[4..4 + |bytes|] == bytes;
    assert g[offset..offset + 4] == BE32(|bytes|);
    assert g[offset + 4..offset + 4 + |bytes|] == bytes;
  }

  /** A `dump` elsewhere does not change what `load` finds. */
  lemma {:induction false} LoadOutside(f: seq<byte>, offset: nat, bytes: seq<byte>, o: nat)
    requires |bytes| <= U32_MAX
    requires Load(f, o).Ok?
    requires o + 4 + |Load(f, o).value| <= offset || offset + 4 + |bytes| <= o
    ensures Load(Put(f, offset, Frame(bytes)), o) == Load(f, o)
  {
    var n := |Load(f, o).value|;
    PutOutside(f, offset, Frame(bytes), o, 4);
    PutOutside(f, offset, Frame(bytes), o + 4, n);
  }

  /** A root as `dump` writes it. */
  function RootFrame(r: Root): (e: seq<byte>)
    requires Fits(r)
    ensures |e| <= 54
  {
    RootSize(r);
    Frame(EncodeRoot(r))
  }

  /** A whole root at both places, A first. */
  function WithRoots(f: seq<byte>, r: Root): seq<byte>
    requires Fits(r)
  {
    Put(Put(f, ROOT_A, RootFrame(r)), ROOT_B, RootFrame(r))
  }

  /** `load` of a root followed by `validate`, which accepts every root it is given. */
  function LoadRoot(f: seq<byte>, offset: nat): (r: Result<Root, StorageError>)
    ensures r.Ok? ==> Fits(r.value)
  {
    match Load(f, offset)
    case Err(e) => Err(e)
    case Ok(bytes) => if DecodeRoot(bytes).None? then Err(IoError) else Ok(DecodeRoot(bytes).value)
  }

  lemma {:induction false} LoadRootDumped(f: seq<byte>, offset: nat, r: Root)
    requires Fits(r)
    ensures |EncodeRoot(r)| <= 50
    ensures Load(Put(f, offset, RootFrame(r)), offset) == Ok(EncodeRoot(r))
    ensures LoadRoot(Put(f, offset, RootFrame(r)), offset) == Ok(r)
  {
    RootSize(r);
    LoadDumped(f, offset, EncodeRoot(r));
    RootRoundTrip(r, []);
    assert EncodeRoot(r) + [] == EncodeRoot(r);
  }

  /** `LoadOutside` for a root. */
  lemma {:induction false} LoadRootOutside(f: seq<byte>, offset: nat, r: Root, o: nat)
    requires Fits(r) && Load(f, o).Ok?
    requires o + 4 + |Load(f, o).value| <= offset || offset + 54 <= o
    ensures LoadRoot(Put(f, offset, RootFrame(r)), o) == LoadRoot(f, o)
  {
    RootSize(r);
    LoadOutside(f, offset, EncodeRoot(r), o);
  }

  /**
   * The choice `open` makes between the two copies: the one with the
   * higher generation, A on a tie; the other copy is to be rewritten
   * unless both are equally recent.  Neither loading is an error.
   */
  function Choose(a: Result<Root, StorageError>, b: Result<Root, StorageError>): (r: Result<(Root, Option<nat>), StorageError>)
    ensures r.Ok? <==> a.Ok? || b.Ok?
    ensures r.Ok? && r.value.1.None? <==> a.Ok? && b.Ok? && a.value.generation == b.value.generation
    ensures r.Ok? && r.value.1 == Some(ROOT_B) ==>
      a.Ok? && r.value.0 == a.value && (b.Ok? ==> a.value.generation > b.value.generation)
    ensures r.Ok? && r.value.1 == Some(ROOT_A) ==>
      b.Ok? && r.value.0 == b.value && (a.Ok? ==> b.value.generation > a.value.generation)
    ensures r.Ok? ==> r.value.1 == None || r.value.1 == Some(ROOT_A) || r.value.1 == Some(ROOT_B)
    ensures r.Ok? && r.value.1.None? ==> r.value.0 == a.value
  {
    match (a, b)
    case (Ok(ra), Ok(rb)) =>
      if ra.generation == rb.generation then Ok((ra, None))
      else if ra.generation > rb.generation then Ok((ra, Some(ROOT_B)))
      else Ok((rb, Some(ROOT_A)))
    case (Ok(ra), Err(_)) => Ok((ra, Some(ROOT_B)))
    case (Err(_), Ok(rb)) => Ok((rb, Some(ROOT_A)))
    case (Err(e), Err(_)) => Err(e)
  }

  /** The root `open` selects, and the copy it rewrites, as written. */
  function OpenRoot(f: seq<byte>): Result<(Root, Option<nat>), StorageError>
  {
    Choose(LoadRoot(f, ROOT_A), LoadRoot(f, ROOT_B))
  }

  /** `validate` as it is evidently meant to work: a root whose checksum does not match is an error. */
  function Validated(sip: Hasher, r: Result<Root, StorageError>): (v: Result<Root, StorageError>)
    ensures v.Ok? <==> r.Ok? && r.value.checksum == Checksum(sip, r.value)
    ensures v.Ok? ==> v == r
  {
    if r.Ok? && r.value.checksum != Checksum(sip, r.value) then Err(IoError) else r
  }

  /** The root `open` would select with a checking `validate`. */
  function OpenRootChecked(sip: Hasher, f: seq<byte>): Result<(Root, Option<nat>), StorageError>
  {
    Choose(Validated(sip, LoadRoot(f, ROOT_A)), Validated(sip, LoadRoot(f, ROOT_B)))
  }

  /** With a checking `validate`, `open` only ever trusts a root whose checksum matches. */
  lemma {:induction false} CheckedOpenIsSound(sip: Hasher, f: seq<byte>)
    requires OpenRootChecked(sip, f).Ok?
    ensures OpenRootChecked(sip, f).value.0.checksum == Checksum(sip, OpenRootChecked(sip, f).value.0)
  {
  }

  /**
   * As written, a copy of A with a newer generation is taken even though
   * its checksum is wrong, as after a write of A torn part-way.
   */
  lemma {:induction false} BadChecksumTrusted(sip: Hasher, f: seq<byte>, torn: Root, good: Root)
    requires Fits(torn) && Fits(good) && torn.generation > good.generation
    requires torn.checksum != Checksum(sip, torn)
    ensures OpenRoot(Put(Put(f, ROOT_B, RootFrame(good)), ROOT_A, RootFrame(torn))).Ok?
    ensures OpenRoot(Put(Put(f, ROOT_B, RootFrame(good)), ROOT_A, RootFrame(torn))).value.0 == torn
  {
    var g := Put(f, ROOT_B, RootFrame(good));
    LoadRootDumped(f, ROOT_B, good);
    LoadRootDumped(g, ROOT_A, torn);
    LoadRootOutside(g, ROOT_A, torn, ROOT_B);
  }

  /** With a checking `validate`, the same file opens on the whole copy at B. */
  lemma {:induction false} TornRootRejected(sip: Hasher, f: seq<byte>, torn: Root, good: Root)
    requires Fits(torn) && Fits(good) && torn.generation > good.generation
    requires torn.checksum != Checksum(sip, torn) && good.checksum == Checksum(sip, good)
    ensures OpenRootChecked(sip, Put(Put(f, ROOT_B, RootFrame(good)), ROOT_A, RootFrame(torn))) == Ok((good, Some(ROOT_A)))
  {
    var g := Put(f, ROOT_B, RootFrame(good));
    LoadRootDumped(f, ROOT_B, good);
    LoadRootDumped(g, ROOT_A, torn);
    LoadRootOutside(g, ROOT_A, torn, ROOT_B);
  }

  /** After both copies are written, `open` finds that root, and nothing to rewrite. */
  lemma {:induction false} OpenAfterWriteRoot(sip: Hasher, f: seq<byte>, r: Root)
    requires Fits(r)
    ensures OpenRoot(WithRoots(f, r)) == Ok((r, None))
    ensures r.checksum == Checksum(sip, r) ==> OpenRootChecked(sip, WithRoots(f, r)) == Ok((r, None))
  {
    var g := Put(f, ROOT_A, RootFrame(r));
    var h := Put(g, ROOT_B, RootFrame(r));
    LoadRootDumped(f, ROOT_A, r);
    LoadRootDumped(g, ROOT_B, r);
    LoadRootOutside(g, ROOT_B, r, ROOT_A);
    assert LoadRoot(h, ROOT_A) == Ok(r) && LoadRoot(h, ROOT_B) == Ok(r);
  }

  /**
   * A power loss between the two writes of `write_root` leaves the new
   * root at A; `open` takes it and rewrites B.
   */
  lemma {:induction false} OpenBetweenRootWrites(f: seq<byte>, r: Root)
    requires Fits(r) && LoadRoot(f, ROOT_B).Ok? && LoadRoot(f, ROOT_B).value.generation < r.generation
    requires ROOT_B + 4 + |Load(f, ROOT_B).value| <= |f|
    ensures OpenRoot(Put(f, ROOT_A, RootFrame(r))) == Ok((r, Some(ROOT_B)))
  {
    LoadRootDumped(f, ROOT_A, r);
    LoadRootOutside(f, ROOT_A, r, ROOT_B);
  }

  /** The file, shared by the writer and its readers. */
  class FileHandle {
    var data: seq<byte>

    constructor(data: seq<byte>)
      ensures this.data == data
    {
      this.data := data;
    }

    /**
     * `dump`: the length, then the bytes, from `offset`; the offset after
     * them.  The length must fit a `u32` and the end an `i64`.
     */
    method Dump(offset: nat, bytes: seq<byte>) returns (next: nat)
      requires |bytes| <= U32_MAX && offset + 4 + |bytes| <= I64_MAX
      modifies this
      ensures data == Put(old(data), offset, Frame(bytes)) && next == offset + 4 + |bytes|
      ensures Load(data, offset) == Ok(bytes)
    {
      data := Put(data, offset, BE32(|bytes|));
      data := Put(data, offset + 4, bytes);
      PutAdjacent(old(data), offset, BE32(|bytes|), bytes);
      LoadDumped(old(data), offset, bytes);
      next := offset + 4 + |bytes|;
    }
  }

  /** `Reader`: fetches a stored value by its offset. */
  class Reader {
    const file: FileHandle

    constructor(file: FileHandle)
      ensures this.file == file
    {
      this.file := file;
    }

    /** `fetch`: `load` at the offset; a `usize` offset always fits an `i64`. */
    function Fetch(offset: nat): (r: Result<seq<byte>, StorageError>)
      reads file
      ensures r == Load(file.data, offset)
    {
      Load(file.data, offset)
    }
  }

  /** `Writer`: the open file and the root last written to it. */
  class Writer {
    const file: FileHandle
    const sip: Hasher
    var root: Root

    constructor(file: FileHandle, sip: Hasher, root: Root)
      ensures this.file == file && this.sip == sip && this.root == root
    {
      this.file := file;
      this.sip := sip;
      this.root := root;
    }

    method ReadOnly() returns (r: Reader)
      ensures fresh(r) && r.file == file
    {
      r := new Reader(file);
    }

    /** `head`: always the root's head, even before anything was committed. */
    function Head(): (r: Result<Location, StorageError>)
      reads this
      ensures r.Ok? && r.value == root.head
    {
      Ok(root.head)
    }

    /**
     * `write_root`: the next generation, stamped with its checksum, at A
     * and then at B.  The generation must not overflow.
     */
    method WriteRoot()
      requires Fits(root) && root.generation < U64_MAX
      modifies this, file
      ensures root == Stamped(sip, old(root).(generation := old(root).generation + 1)) && Fits(root)
      ensures file.data == WithRoots(old(file.data), root)
    {
      root := root.(generation := root.generation + 1);
      ghost var stamped := Stamped(sip, root);
      RootSize(stamped);
      var offsets := [ROOT_A, ROOT_B];
      for i := 0 to 2
        invariant root == if i == 0 then old(root).(generation := old(root).generation + 1) else stamped
        invariant i == 0 ==> file.data == old(file.data)
        invariant i == 1 ==> file.data == Put(old(file.data), ROOT_A, RootFrame(stamped))
        invariant i == 2 ==> file.data == WithRoots(old(file.data), stamped)
      {
        root := root.(checksum := Checksum(sip, root));
        var _ := file.Dump(offsets[i], EncodeRoot(root));
      }
    }

    /**
     * `append`: the builder gets the free offset, the item is dumped
     * there, the free offset moves past it and the root is rewritten.
     */
    method Append(builder: nat -> seq<byte>) returns (item: seq<byte>)
      requires Fits(root) && root.generation < U64_MAX && 0 <= root.freeOffset <= USIZE_MAX
      requires |builder(root.freeOffset as nat)| <= U32_MAX
      requires root.freeOffset + 4 + |builder(root.freeOffset as nat)| <= I64_MAX
      modifies this, file
      ensures item == builder(old(root.freeOffset) as nat)
      ensures root == Stamped(sip, old(root).(generation := old(root).generation + 1,
                                              freeOffset := old(root.freeOffset) + 4 + |item|))
      ensures Fits(root)
      ensures file.data == WithRoots(Put(old(file.data), old(root.freeOffset) as nat, Frame(item)), root)
    {
      var offset := root.freeOffset as nat;
      item := builder(offset);
      var next := file.Dump(offset, item);
      root := root.(freeOffset := next);
      WriteRoot();
    }

    /** `commit`: the new head, in a rewritten root. */
    method Commit(head: Location)
      requires Fits(root) && root.generation < U64_MAX
      requires head.segment <= USIZE_MAX && head.command <= USIZE_MAX
      modifies this, file
      ensures root == Stamped(sip, old(root).(generation := old(root).generation + 1, head := head)) && Fits(root)
      ensures file.data == WithRoots(old(file.data), root)
    {
      root := root.(head := head);
      WriteRoot();
    }
  }

  /** An appended item is fetched back from the offset the builder was given. */
  lemma {:induction false} FetchAppended(f: seq<byte>, free: nat, item: seq<byte>, r: Root)
    requires Fits(r) && FREE_START <= free && |item| <= U32_MAX
    ensures Load(WithRoots(Put(f, free, Frame(item)), r), free) == Ok(item)
  {
    RootSize(r);
    var g := Put(f, free, Frame(item));
    var h := Put(g, ROOT_A, RootFrame(r));
    LoadDumped(f, free, item);
    LoadOutside(g, ROOT_A, EncodeRoot(r), free);
    LoadOutside(h, ROOT_B, EncodeRoot(r), free);
  }

  /** Items stored below the free offset are still fetched after an append. */
  lemma {:induction false} AppendKeepsEarlier(f: seq<byte>, free: nat, item: seq<byte>, r: Root, o: nat)
    requires Fits(r) && |item| <= U32_MAX
    requires FREE_START <= o && Load(f, o).Ok? && o + 4 + |Load(f, o).value| <= free
    ensures Load(WithRoots(Put(f, free, Frame(item)), r), o) == Load(f, o)
  {
    RootSize(r);
    var g := Put(f, free, Frame(item));
    var h := Put(g, ROOT_A, RootFrame(r));
    LoadOutside(f, free, item, o);
    LoadOutside(g, ROOT_A, EncodeRoot(r), o);
    LoadOutside(h, ROOT_B, EncodeRoot(r), o);
  }

  /** A fresh file holds no root until the first `write_root`, so it cannot be opened. */
  lemma {:induction false} CreatedFileNotOpenable()
    ensures OpenRoot([]).Err?
  {
  }

  /** `FileManager`: creates and opens the graph's file. */
  class FileManager {
    var id: Option<seq<char>>

    constructor()
      ensures id == None
    {
      id := None;
    }

    /** `create`: a writer with a new root over the opened file; nothing is written yet. */
    method Create(graph: seq<char>, file: FileHandle, sip: Hasher) returns (w: Writer)
      modifies this
      ensures id == Some(graph)
      ensures fresh(w) && w.file == file && w.sip == sip && w.root == NewRoot()
    {
      id := Some(graph);
      w := new Writer(file, sip, NewRoot());
    }

    /** `open`: the selected root, after rewriting the stale or unreadable copy. */
    method Open(graph: seq<char>, file: FileHandle, sip: Hasher) returns (r: Result<Writer, StorageError>)
      modifies this, file
      ensures id == Some(graph)
      ensures OpenRoot(old(file.data)).Err? <==> r.Err?
      ensures r.Ok? ==> fresh(r.value) && r.value.file == file && r.value.sip == sip
      ensures r.Ok? ==> r.value.root == OpenRoot(old(file.data)).value.0
      ensures r.Ok? && OpenRoot(old(file.data)).value.1.Some? ==>
        file.data == Put(old(file.data), OpenRoot(old(file.data)).value.1.value, RootFrame(r.value.root))
      ensures r.Ok? && OpenRoot(old(file.data)).value.1.None? ==> file.data == old(file.data)
    {
      id := Some(graph);
      var chosen := OpenRoot(file.data);
      if chosen.Err? {
        return Err(chosen.error);
      }
      var (root, overwrite) := chosen.value;
      if overwrite.Some? {
        RootSize(root);
        var _ := file.Dump(overwrite.value, EncodeRoot(root));
      }
      var w := new Writer(file, sip, root);
      r := Ok(w);
    }
  }

  /** `filename_8_3`: at most eight characters of the id's base58 form, then `.bin`. */
  function Filename83(name: seq<char>): (r: seq<char>)
    ensures 4 <= |r| <= 12 && r[|r| - 4..] == ".bin"
    ensures r[..|r| - 4] <= name
    ensures |name| <= 8 ==> r[..|r| - 4] == name
  {
    (if |name| > 8 then name[..8] else name) + ".bin"
  }

  /** Two graphs whose base58 ids share their first eight characters share a file. */
  lemma {:induction false} FilenameCollision(a: seq<char>, b: seq<char>)
    requires |a| >= 8 && |b| >= 8 && a[..8] == b[..8]
    ensures Filename83(a) == Filename83(b)
  {
  }

  /**
   * `read_exact` as written: the offset is only counted up, and the bytes
   * come from the file's cursor in as many reads as it takes; IoError
   * when the file ends first.
   */
  method ReadExactAsWritten(file: File, offset: int, n: nat) returns (r: Result<seq<byte>, StorageError>)
    requires file.Valid()
    modifies file
    ensures file.data == old(file.data)
    ensures old(file.pos) + n <= |file.data| ==> r == Ok(file.data[old(file.pos)..old(file.pos) + n])
    ensures old(file.pos) + n > |file.data| ==> r == Err(IoError)
  {
    var got: seq<byte> := [];
    var at := offset;
    while |got| < n
      invariant file.Valid() && file.data == old(file.data)
      invariant |got| <= n && file.pos == old(file.pos) + |got|
      invariant got == file.data[old(file.pos)..file.pos]
      decreases n - |got|
    {
      var chunk := file.Read(n - |got|);
      if |chunk| == 0 {
        break;
      }
      got := got + chunk;
      at := at + |chunk|;
    }
    if |got| < n {
      return Err(IoError);
    }
    r := Ok(got);
  }

  /**
   * A file whose only root is at A: the four bytes at the start of the
   * file, where a fresh cursor reads, are zeros, while the root's length
   * at A is not.
   */
  lemma {:induction false} CursorMissesRoot(r: Root)
    requires Fits(r)
    ensures var f := WithRoots([], r);
      |f| >= ROOT_A + 4 && f[0..4] == [0, 0, 0, 0] && f[ROOT_A..ROOT_A + 4] != f[0..4]
  {
    RootSize(r);
    var e := EncodeRoot(r);
    var g := Put([], ROOT_A, Frame(e));
    var f := Put(g, ROOT_B, Frame(e));
    assert |Varint(r.generation)| > 0;
    PutThenSlice([], ROOT_A, Frame(e), 0, 4);
    PutOutside(g, ROOT_B, Frame(e), ROOT_A, 4);
    PutOutside(g, ROOT_B, Frame(e), 0, 4);
    assert g[0..4] == [0, 0, 0, 0] by {
      forall i | 0 <= i < 4
        ensures g[i] == 0
      {
      }
    }
    BE32RoundTrip(|e|);
    assert FromBE32([0, 0, 0, 0]) == 0;
  }

  /**
   * `write_all` as written, run for `fuel` rounds: every round writes the
   * whole buffer at the cursor and never shrinks it, so for a non-empty
   * buffer the loop does not end.
   */
  method WriteAllAsWritten(file: File, offset: int, buf: seq<byte>, fuel: nat) returns (finished: bool)
    requires file.Valid()
    modifies file
    ensures finished <==> buf == []
    ensures file.Valid() && file.pos == old(file.pos) + (if buf == [] then 0 else fuel * |buf|)
    ensures buf != [] && fuel > 0 ==> file.data[old(file.pos)..old(file.pos) + |buf|] == buf
  {
    var at := offset;
    var rounds := 0;
    while buf != [] && rounds < fuel
      invariant file.Valid() && rounds <= fuel
      invariant buf == [] ==> rounds == 0 && file.data == old(file.data) && file.pos == old(file.pos)
      invariant file.pos == old(file.pos) + rounds * |buf|
      invariant rounds > 0 ==> old(file.pos) + |buf| <= file.pos
      invariant rounds > 0 ==> old(file.pos) + |buf| <= |file.data| && file.data[old(file.pos)..old(file.pos) + |buf|] == buf
      decreases fuel - rounds
    {
      ghost var before := file.data;
      ghost var start := file.pos;
      file.Write(buf);
      if rounds > 0 {
        PutOutside(before, start, buf, old(file.pos), |buf|);
      } else {
        PutThenSlice(before, start, buf, 0, |buf|);
      }
      at := at + |buf|;
      assert (rounds + 1) * |buf| == rounds * |buf| + |buf|;
      rounds := rounds + 1;
    }
    finished := buf == [];
  }
}
