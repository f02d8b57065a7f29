/**
 * The chat firmware's SD-card graph store: three files per graph on the
 * card's FAT volume.  The data file holds the serialised segments one
 * after another; the location file holds a postcard `Vec<usize>` of the
 * byte offset where each stored item ends; the head file holds the
 * committed head `Location`.  Every read goes through the file's cursor,
 * from wherever the last read or write left it.
 *
 * `GraphWriter` and `GraphReader` model the code as written, cursor and
 * all.  The functions after them (`Ends`, `Concat`, `FetchAt`) state
 * what the files are meant to hold, and the lemmas beside them prove that
 * reading from the start of the files would give back what was stored.
 */
module GraphStore {
  import opened Bytes
  import opened Wrappers
  import opened Postcard
  import opened SdFile

  /** `usize` on the ESP32. */
  const USIZE_MAX: nat := U32_MAX
  /** The buffer the read-to-end loops use. */
  const CHUNK: nat := 16

  datatype StorageError = IoError | NoSuchStorage | PerspectiveHeadMismatch

  /** A result, or a panic of the firmware. */
  datatype Outcome<T> = Done(value: T) | Failed(error: StorageError) | Panicked

  datatype Location = Location(segment: nat, command: nat)

  function EncodeLocation(l: Location): seq<byte>
  {
    Varint(l.segment) + Varint(l.command)
  }

  /** `from_bytes::<Location>`: trailing bytes are ignored. */
  function DecodeLocation(s: seq<byte>): (r: Option<Location>)
    ensures r.Some? ==> r.value.segment <= USIZE_MAX && r.value.command <= USIZE_MAX
  {
    match DecVarint(s, USIZE_MAX)
    case None => None
    case Some((seg, s1)) =>
      match DecVarint(s1, USIZE_MAX)
      case None => None
      case Some((cmd, _)) => Some(Location(seg, cmd))
  }

  lemma {:induction false} LocationRoundTrip(l: Location, rest: seq<byte>)
    requires l.segment <= USIZE_MAX && l.command <= USIZE_MAX
    ensures DecodeLocation(EncodeLocation(l) + rest) == Some(l)
  {
    assert EncodeLocation(l) + rest == Varint(l.segment) + (Varint(l.command) + rest);
    VarintRoundTrip(l.segment, USIZE_MAX, Varint(l.command) + rest);
    VarintRoundTrip(l.command, USIZE_MAX, rest);
  }

  /** The head as `head` and `commit` parse it: nothing read means `Location(0, 0)`. */
  function HeadFrom(bytes: seq<byte>): (r: Result<Location, StorageError>)
    ensures bytes == [] ==> r == Ok(Location(0, 0))
    ensures bytes != [] ==> (r.Ok? <==> DecodeLocation(bytes).Some?)
  {
    if bytes == [] then Ok(Location(0, 0))
    else match DecodeLocation(bytes)
      case None => Err(IoError)
      case Some(l) => Ok(l)
  }

  /** The location index as `append` and `fetch` parse it: nothing read means an empty index. */
  function ReadIndex(bytes: seq<byte>): (r: Option<seq<nat>>)
    ensures bytes == [] ==> r == Some([])
    ensures r.Some? ==> forall i | 0 <= i < |r.value| :: r.value[i] <= USIZE_MAX
  {
    if bytes == [] then Some([])
    else match DecVarintSeq(bytes, USIZE_MAX, USIZE_MAX)
      case None => None
      case Some((xs, _)) => Some(xs)
  }

  /** What the index becomes when an item of `n` bytes is appended: its end after the last end. */
  function NextLocations(locs: seq<nat>, n: nat): (r: seq<nat>)
    ensures |r| == |locs| + 1 && r[..|locs|] == locs
    ensures r[|locs|] == (if locs == [] then 0 else locs[|locs| - 1]) + n
  {
    locs + [(if locs == [] then 0 else locs[|locs| - 1]) + n]
  }

  predicate Increasing(xs: seq<nat>)
  {
    forall i, j | 0 <= i < j < |xs| :: xs[i] < xs[j]
  }

  /** Appending a non-empty item keeps the index strictly increasing, so it can be binary-searched. */
  lemma {:induction false} NextKeepsIncreasing(locs: seq<nat>, n: nat)
    requires Increasing(locs) && n > 0
    ensures Increasing(NextLocations(locs, n))
  {
    var r := NextLocations(locs, n);
    forall i, j | 0 <= i < j < |r|
      ensures r[i] < r[j]
    {
      if j == |locs| && i < |locs| - 1 {
        assert locs[i] < locs[|locs| - 1];
      }
    }
  }

  /** `binary_search` on a strictly increasing index: the position of `v`, or none. */
  function Search(xs: seq<nat>, v: nat): (r: Option<nat>)
    ensures r.Some? ==> r.value < |xs| && xs[r.value] == v
    ensures r.None? ==> forall i | 0 <= i < |xs| :: xs[i] != v
  {
    if xs == [] then None
    else if xs[0] == v then Some(0)
    else match Search(xs[1..], v)
      case None => None
      case Some(i) => Some(i + 1)
  }

  lemma {:induction false} SearchFinds(xs: seq<nat>, i: nat)
    requires Increasing(xs) && i < |xs|
    ensures Search(xs, xs[i]) == Some(i)
  {
    if i > 0 {
      assert xs[0] < xs[i];
      assert Increasing(xs[1..]) by {
        forall a, b | 0 <= a < b < |xs[1..]|
          ensures xs[1..][a] < xs[1..][b]
        {
          assert xs[1..][a] == xs[a + 1] && xs[1..][b] == xs[b + 1];
        }
      }
      SearchFinds(xs[1..], i - 1);
      assert xs[1..][i - 1] == xs[i];
    }
  }

  /**
   * The span `fetch` reads for `offset`: a non-zero offset must be an
   * end in the index and the span runs to the next end; offset 0 runs to
   * the first end.  A missing next end, or one before the offset, panics.
   */
  function Span(locs: seq<nat>, offset: nat): (r: Outcome<nat>)
    ensures r.Done? ==> r.value >= offset
    ensures r.Failed? ==> r.error == PerspectiveHeadMismatch && offset != 0
  {
    var ext := if offset != 0 then locs else [0] + locs;
    var index := if offset != 0 then Search(locs, offset) else Some(0);
    if index.None? then Failed(PerspectiveHeadMismatch)
    else if index.value + 1 >= |ext| then Panicked
    else if ext[index.value + 1] < offset then Panicked
    else Done(ext[index.value + 1])
  }

  /** `read` into a buffer of `n` bytes, at the cursor: a short read panics. */
  function ReadSpan(data: seq<byte>, pos: nat, n: nat): (r: Outcome<seq<byte>>)
    requires pos <= |data|
    ensures r.Done? <==> pos + n <= |data|
    ensures r.Done? ==> r.value == data[pos..pos + n]
    ensures !r.Failed?
  {
    if pos + n <= |data| then Done(data[pos..pos + n]) else Panicked
  }

  /** The read-to-end loop: 16-byte reads from the cursor until the end of the file. */
  method ReadToEnd(file: File) returns (bytes: seq<byte>)
    requires file.Valid()
    modifies file
    ensures file.Valid() && file.data == old(file.data) && file.pos == |file.data|
    ensures bytes == old(file.data)[old(file.pos)..]
  {
    bytes := [];
    while !file.Eof()
      invariant file.Valid() && file.data == old(file.data)
      invariant old(file.pos) <= file.pos && bytes == file.data[old(file.pos)..file.pos]
      decreases |file.data| - file.pos
    {
      var chunk := file.Read(CHUNK);
      bytes := bytes + chunk;
    }
  }

  /** `GraphReader`: the location and data files it shares with the writer. */
  class GraphReader {
    const location: File
    const data: File

    constructor(location: File, data: File)
      ensures this.location == location && this.data == data
    {
      this.location := location;
      this.data := data;
    }

    /**
     * `fetch`: the index is read from the location file's cursor to its
     * end, the span is looked up in it, and that many bytes are read from
     * the data file's cursor; the offset itself never moves the cursor.
     */
    method Fetch(offset: nat) returns (r: Outcome<seq<byte>>)
      requires location != data && location.Valid() && data.Valid()
      modifies location, data
      ensures location.Valid() && location.data == old(location.data) && location.pos == |location.data|
      ensures data.Valid() && data.data == old(data.data)
      ensures var index := ReadIndex(old(location.data)[old(location.pos)..]);
        if index.None? then r == Failed(IoError)
        else match Span(index.value, offset)
          case Failed(e) => r == Failed(e)
          case Panicked => r == Panicked
          case Done(end) => r == ReadSpan(data.data, old(data.pos), end - offset)
    {
      var bytes := ReadToEnd(location);
      var index := ReadIndex(bytes);
      if index.None? {
        return Failed(IoError);
      }
      var span := Span(index.value, offset);
      match span {
        case Failed(e) => return Failed(e);
        case Panicked => return Panicked;
        case Done(end) =>
          var chunk := data.Read(end - offset);
          if |chunk| != end - offset {
            return Panicked;
          }
          r := Done(chunk);
      }
    }
  }

  /** `GraphWriter`: the graph's three open files. */
  class GraphWriter {
    const location: File
    const data: File
    const head: File

    predicate Valid()
      reads this, location, data, head
    {
      location != data && location != head && data != head &&
      location.Valid() && data.Valid() && head.Valid()
    }

    constructor(location: File, data: File, head: File)
      ensures this.location == location && this.data == data && this.head == head
    {
      this.location := location;
      this.data := data;
      this.head := head;
    }

    method ReadOnly() returns (r: GraphReader)
      ensures fresh(r) && r.location == location && r.data == data
    {
      r := new GraphReader(location, data);
    }

    /** `head`: the head file from its cursor to its end. */
    method Head() returns (r: Result<Location, StorageError>)
      requires Valid()
      modifies head
      ensures Valid() && head.data == old(head.data) && head.pos == |head.data|
      ensures r == HeadFrom(old(head.data)[old(head.pos)..])
    {
      var bytes := ReadToEnd(head);
      r := HeadFrom(bytes);
    }

    /**
     * `append`: the builder gets the data file's length; the serialised
     * item (which must not be empty) is written at the data file's cursor;
     * the index read from the location file's cursor gets the item's end,
     * and is written back from the start of the file.
     */
    method Append(builder: nat -> seq<byte>) returns (r: Outcome<seq<byte>>)
      requires Valid()
      modifies location, data
      ensures Valid()
      ensures var item := builder(|old(data.data)|);
        if item == [] then r == Panicked && data.data == old(data.data) && location.data == old(location.data)
        else
          data.data == Put(old(data.data), old(data.pos), item) && data.pos == old(data.pos) + |item| &&
          var index := ReadIndex(old(location.data)[old(location.pos)..]);
          if index.None? then r == Failed(IoError) && location.data == old(location.data)
          else
            var next := NextLocations(index.value, |item|);
            r == Done(item) && location.data == Put(old(location.data), 0, VarintSeq(next)) &&
            location.pos == |VarintSeq(next)|
    {
      var item := builder(data.Length());
      if item == [] {
        return Panicked;
      }
      data.Write(item);
      var bytes := ReadToEnd(location);
      var index := ReadIndex(bytes);
      if index.None? {
        return Failed(IoError);
      }
      var next := NextLocations(index.value, |item|);
      location.Rewind();
      location.Write(VarintSeq(next));
      r := Done(item);
    }

    /**
     * `commit`: the old head is read from the head file's cursor (only to
     * be parsed), then the new head is written from the start of the file.
     */
    method Commit(h: Location) returns (r: Result<(), StorageError>)
      requires Valid()
      modifies head
      ensures Valid()
      ensures var old_head := old(head.data)[old(head.pos)..];
        if HeadFrom(old_head).Err? then r == Err(IoError) && head.data == old(head.data)
        else r == Ok(()) && head.data == Put(old(head.data), 0, EncodeLocation(h)) && head.pos == |EncodeLocation(h)|
    {
      var bytes := ReadToEnd(head);
      if HeadFrom(bytes).Err? {
        return Err(IoError);
      }
      head.Rewind();
      head.Write(EncodeLocation(h));
      r := Ok(());
    }
  }

  /** A fresh writer: three empty files, as `create` and `open` leave them. */
  method NewWriter() returns (w: GraphWriter)
    ensures fresh(w) && fresh(w.location) && fresh(w.data) && fresh(w.head) && w.Valid()
    ensures w.location.data == [] && w.data.data == [] && w.head.data == []
  {
    var l := new File([]);
    var d := new File([]);
    var h := new File([]);
    w := new GraphWriter(l, d, h);
  }

  /** As written: the head just committed is not what `head` returns, which reads from the end of the file. */
  method CommitThenHead(h: Location) returns (r: Result<Location, StorageError>)
    ensures r == Ok(Location(0, 0))
  {
    var w := NewWriter();
    var _ := w.Commit(h);
    r := w.Head();
  }

  /** As written: after two appends the index holds only the second item's length. */
  method AppendTwice(a: seq<byte>, b: seq<byte>) returns (index: Option<seq<nat>>)
    requires a != [] && b != [] && |b| <= USIZE_MAX
    ensures index == Some([|b|])
  {
    var w := NewWriter();
    var _ := w.Append(_ => a);
    var _ := w.Append(_ => b);
    VarintSeqRoundTrip([|b|], USIZE_MAX, USIZE_MAX, w.location.data[|VarintSeq([|b|])|..]);
    PutPrefix(w.location.data, VarintSeq([|b|]));
    index := ReadIndex(w.location.data);
  }

  /** As written: the first item appended cannot be fetched back; the index is read from its end. */
  method AppendThenFetch(a: seq<byte>) returns (r: Outcome<seq<byte>>)
    requires a != []
    ensures r == Panicked
  {
    var w := NewWriter();
    var _ := w.Append(_ => a);
    var reader := w.ReadOnly();
    r := reader.Fetch(0);
  }

  /** A write at the start of a file leaves the written bytes as its prefix. */
  lemma {:induction false} PutPrefix(after: seq<byte>, e: seq<byte>)
    requires exists f :: after == Put(f, 0, e)
    ensures |e| <= |after| && after == e + after[|e|..]
  {
    var f :| after == Put(f, 0, e);
    PutThenSlice(f, 0, e, 0, |e|);
  }

  /** Read from the start of the head file, a committed head comes back. */
  lemma {:induction false} CommittedHeadRead(f: seq<byte>, h: Location)
    requires h.segment <= USIZE_MAX && h.command <= USIZE_MAX
    ensures HeadFrom(Put(f, 0, EncodeLocation(h))) == Ok(h)
  {
    var after := Put(f, 0, EncodeLocation(h));
    PutPrefix(after, EncodeLocation(h));
    LocationRoundTrip(h, after[|EncodeLocation(h)|..]);
  }

  /** Read from the start of the location file, a written index comes back. */
  lemma {:induction false} WrittenIndexRead(f: seq<byte>, locs: seq<nat>)
    requires |locs| <= USIZE_MAX && forall i | 0 <= i < |locs| :: locs[i] <= USIZE_MAX
    ensures ReadIndex(Put(f, 0, VarintSeq(locs))) == Some(locs)
  {
    var after := Put(f, 0, VarintSeq(locs));
    PutPrefix(after, VarintSeq(locs));
    VarintSeqRoundTrip(locs, USIZE_MAX, USIZE_MAX, after[|VarintSeq(locs)|..]);
    assert |Varint(|locs|)| > 0;
  }

  /** The data file after storing `items` in order. */
  function Concat(items: seq<seq<byte>>): (r: seq<byte>)
  {
    if items == [] then [] else Concat(items[..|items| - 1]) + items[|items| - 1]
  }

  /** The index after storing `items` in order: where each one ends. */
  function Ends(items: seq<seq<byte>>): (r: seq<nat>)
    ensures |r| == |items|
  {
    seq(|items|, k requires 0 <= k < |items| => |Concat(items[..k + 1])|)
  }

  /** Where item `k` starts: the builder is given this offset, and `fetch` is given it back. */
  function Start(items: seq<seq<byte>>, k: nat): nat
    requires k <= |items|
  {
    |Concat(items[..k])|
  }

  /** `NextLocations` is how `Ends` grows. */
  lemma {:induction false} EndsGrow(items: seq<seq<byte>>, x: seq<byte>)
    ensures Ends(items + [x]) == NextLocations(Ends(items), |x|)
  {
    var l := Ends(items + [x]);
    var r := NextLocations(Ends(items), |x|);
    forall k | 0 <= k < |items|
      ensures l[k] == r[k]
    {
      assert (items + [x])[..k + 1] == items[..k + 1];
    }
    assert (items + [x])[..|items| + 1] == items + [x];
    assert (items + [x])[..|items|] == items;
    if items != [] {
      assert items[..|items|] == items;
    }
  }

  lemma {:induction false} ConcatPrefix(items: seq<seq<byte>>, j: nat)
    requires j <= |items|
    ensures |Concat(items[..j])| <= |Concat(items)|
    ensures Concat(items)[..|Concat(items[..j])|] == Concat(items[..j])
    decreases |items| - j
  {
    if j == |items| {
      assert items[..j] == items;
    } else {
      ConcatPrefix(items[..|items| - 1], j);
      assert items[..|items| - 1][..j] == items[..j];
    }
  }

  /** Each non-empty item moves the end forward. */
  lemma {:induction false} EndsIncreasing(items: seq<seq<byte>>)
    requires forall k | 0 <= k < |items| :: items[k] != []
    ensures Increasing(Ends(items))
    decreases |items|
  {
    if items != [] {
      var init := items[..|items| - 1];
      EndsIncreasing(init);
      EndsGrow(init, items[|items| - 1]);
      assert init + [items[|items| - 1]] == items;
      if init != [] {
        assert Ends(init)[|init| - 1] < Ends(items)[|init|];
      }
      NextKeepsIncreasing(Ends(init), |items[|items| - 1]|);
    }
  }

  /** `fetch` as evidently meant: the span is read from the data file at the offset. */
  function FetchAt(locs: seq<nat>, data: seq<byte>, offset: nat): (r: Outcome<seq<byte>>)
  {
    match Span(locs, offset)
    case Failed(e) => Failed(e)
    case Panicked => Panicked
    case Done(end) => if end <= |data| then Done(data[offset..end]) else Panicked
  }

  /** Item `k` lies between its start and its end in the data file. */
  lemma {:induction false} ItemSlice(items: seq<seq<byte>>, k: nat)
    requires k < |items|
    ensures Start(items, k) + |items[k]| == Ends(items)[k] <= |Concat(items)|
    ensures Concat(items)[Start(items, k)..Ends(items)[k]] == items[k]
  {
    ConcatPrefix(items, k + 1);
    assert items[..k + 1][..k] == items[..k];
    assert Concat(items[..k + 1]) == Concat(items[..k]) + items[k];
    var whole := Concat(items);
    assert whole[..Ends(items)[k]] == Concat(items[..k]) + items[k];
  }

  /** The index finds the span of item `k` from its start. */
  lemma {:induction false} SpanOfItem(items: seq<seq<byte>>, k: nat)
    requires forall i | 0 <= i < |items| :: items[i] != []
    requires k < |items|
    ensures Span(Ends(items), Start(items, k)) == Done(Ends(items)[k])
  {
    var ends := Ends(items);
    ItemSlice(items, k);
    if k > 0 {
      ItemSlice(items, k - 1);
      assert items[..k - 1 + 1] == items[..k];
      assert Start(items, k) == ends[k - 1];
      EndsIncreasing(items);
      SearchFinds(ends, k - 1);
    } else {
      assert items[..0] == [];
    }
  }

  /** Read from where they are meant to be read, the files give back every stored item at its offset. */
  lemma {:induction false} FetchStored(items: seq<seq<byte>>, k: nat)
    requires forall i | 0 <= i < |items| :: items[i] != []
    requires k < |items|
    ensures FetchAt(Ends(items), Concat(items), Start(items, k)) == Done(items[k])
  {
    SpanOfItem(items, k);
    ItemSlice(items, k);
  }

  /** `GraphManager`: the graph files on the card's root directory. */
  class GraphManager {
    var names: set<seq<char>>

    constructor(names: set<seq<char>>)
      ensures this.names == names
    {
      this.names := names;
    }

    /** `create`: the three files, created or emptied. */
    method Create(id: seq<char>) returns (w: GraphWriter)
      modifies this
      ensures names == old(names) + {GraphFile("d_", id), GraphFile("l_", id), GraphFile("h_", id)}
      ensures fresh(w) && w.Valid() && w.location.data == [] && w.data.data == [] && w.head.data == []
    {
      names := names + {GraphFile("d_", id), GraphFile("l_", id), GraphFile("h_", id)};
      w := NewWriter();
    }

    /** `open`: the three files must exist, and are emptied; the graph is always reported present. */
    method Open(id: seq<char>) returns (r: Result<Option<GraphWriter>, StorageError>)
      ensures r.Err? <==> !({GraphFile("d_", id), GraphFile("l_", id), GraphFile("h_", id)} <= names)
      ensures r.Err? ==> r.error == NoSuchStorage
      ensures r.Ok? ==> r.value.Some? && fresh(r.value.value) && r.value.value.Valid()
      ensures r.Ok? ==> r.value.value.location.data == [] && r.value.value.data.data == [] && r.value.value.head.data == []
    {
      if GraphFile("d_", id) !in names || GraphFile("l_", id) !in names || GraphFile("h_", id) !in names {
        return Err(NoSuchStorage);
      }
      var w := NewWriter();
      r := Ok(Some(w));
    }
  }

  /** The position of the last `.` in `s`. */
  function LastDot(s: seq<char>): (r: Option<nat>)
    ensures r.Some? ==> r.value < |s| && s[r.value] == '.' && '.' !in s[r.value + 1..]
    ensures r.None? ==> '.' !in s
  {
    if s == [] then None
    else if s[|s| - 1] == '.' then Some(|s| - 1)
    else
      var r := LastDot(s[..|s| - 1]);
      assert s == s[..|s| - 1] + [s[|s| - 1]];
      if r.Some? then assert s[r.value + 1..] == s[..|s| - 1][r.value + 1..] + [s[|s| - 1]]; r
      else r
  }

  /**
   * `truncate_filename`: the part after the last `.` is the extension and
   * the part before it the base, cut to `max` characters; a name without
   * a `.` is both its own base and its own extension.
   */
  function TruncateFilename(name: seq<char>, max: nat): seq<char>
  {
    var dot := LastDot(name);
    var ext := if dot.Some? then name[dot.value + 1..] else name;
    var base := if dot.Some? then name[..dot.value] else name;
    var cut := if |base| > max then base[..max] else base;
    if ext == [] then cut else cut + "." + ext
  }

  /** A name with one extension keeps it, and at most `max` characters of its base. */
  lemma {:induction false} TruncateKeepsExtension(base: seq<char>, ext: seq<char>, max: nat)
    requires ext != [] && '.' !in ext
    ensures TruncateFilename(base + "." + ext, max) == (if |base| > max then base[..max] else base) + "." + ext
  {
    var name := base + "." + ext;
    assert name[|base|] == '.';
    assert name[..|base|] == base && name[|base| + 1..] == ext;
  }

  /** A name without a `.` comes out twice, joined by one. */
  lemma {:induction false} TruncateNoDot(name: seq<char>, max: nat)
    requires name != [] && '.' !in name && |name| <= max
    ensures TruncateFilename(name, max) == name + "." + name
  {
  }

  /** The file named for a graph: the prefix, the id, `.b`, cut to an 8.3 name. */
  function GraphFile(prefix: seq<char>, id: seq<char>): (r: seq<char>)
  {
    TruncateFilename(prefix + id + ".b", 8)
  }

  /** The name of a graph's file keeps the prefix, six characters of the id, and `.b`. */
  lemma {:induction false} GraphFileName(prefix: seq<char>, id: seq<char>)
    requires |prefix| == 2 && |id| >= 6 && '.' !in id
    ensures GraphFile(prefix, id) == prefix + id[..6] + ".b"
  {
    assert prefix + id + ".b" == (prefix + id) + "." + "b";
    TruncateKeepsExtension(prefix + id, "b", 8);
    assert (prefix + id)[..8] == prefix + id[..6];
  }

  /** Graphs whose ids share their first six characters share their files. */
  lemma {:induction false} GraphFilesCollide(prefix: seq<char>, a: seq<char>, b: seq<char>)
    requires |prefix| == 2 && |a| >= 6 && |b| >= 6 && a[..6] == b[..6]
    requires '.' !in a && '.' !in b
    ensures GraphFile(prefix, a) == GraphFile(prefix, b)
  {
    GraphFileName(prefix, a);
    GraphFileName(prefix, b);
  }
}
