/**
 * A file on the SD card's FAT volume as the storage code sees it through
 * the volume manager: its bytes and a cursor.  `read` copies from the
 * cursor up to the end of the file, `write` overwrites and extends from
 * the cursor, and `seek_from_start(0)` rewinds.  Opening, closing and
 * flushing are left to the callers' models.
 */
module SdFile {
  import opened Bytes

  /**
   * `data` written at `offset`: the bytes it covers are replaced, the file
   * grows to hold them, and a gap before `offset` reads as zeros.
   */
  function Put(f: seq<byte>, offset: nat, data: seq<byte>): (r: seq<byte>)
    ensures |r| == if offset + |data| > |f| then offset + |data| else |f|
    ensures forall i | 0 <= i < |r| ::
      r[i] == if offset <= i < offset + |data| then data[i - offset] else if i < |f| then f[i] else 0
  {
    var zero: byte := 0;
    var g := if offset > |f| then f + seq(offset - |f|, _ => zero) else f;
    g[..offset] + data + (if offset + |data| < |g| then g[offset + |data|..] else [])
  }

  /** Two adjacent writes are one write of both. */
  lemma {:induction false} PutAdjacent(f: seq<byte>, offset: nat, a: seq<byte>, b: seq<byte>)
    ensures Put(Put(f, offset, a), offset + |a|, b) == Put(f, offset, a + b)
  {
    var l := Put(Put(f, offset, a), offset + |a|, b);
    var r := Put(f, offset, a + b);
    assert |l| == |r|;
    forall i | 0 <= i < |l|
      ensures l[i] == r[i]
    {
      if offset <= i < offset + |a| {
        assert l[i] == a[i - offset] == (a + b)[i - offset];
      }
    }
  }

  /** Writes to disjoint ranges may be done in either order. */
  lemma {:induction false} PutCommute(f: seq<byte>, o1: nat, a: seq<byte>, o2: nat, b: seq<byte>)
    requires o1 + |a| <= o2 || o2 + |b| <= o1
    ensures Put(Put(f, o1, a), o2, b) == Put(Put(f, o2, b), o1, a)
  {
    var l := Put(Put(f, o1, a), o2, b);
    var r := Put(Put(f, o2, b), o1, a);
    assert |l| == |r|;
    forall i | 0 <= i < |l|
      ensures l[i] == r[i]
    {
    }
  }

  /** A read of `n` bytes at `offset` after a write there returns what was written. */
  lemma {:induction false} PutThenSlice(f: seq<byte>, offset: nat, data: seq<byte>, i: nat, j: nat)
    requires i <= j <= |data|
    ensures offset + j <= |Put(f, offset, data)|
    ensures Put(f, offset, data)[offset + i..offset + j] == data[i..j]
  {
    var r := Put(f, offset, data);
    forall k | 0 <= k < j - i
      ensures r[offset + i..offset + j][k] == data[i..j][k]
    {
      assert r[offset + i..offset + j][k] == r[offset + i + k];
    }
  }

  /** Bytes outside a write keep their value. */
  lemma {:induction false} PutOutside(f: seq<byte>, offset: nat, data: seq<byte>, o: nat, n: nat)
    requires o + n <= |f|
    requires o + n <= offset || offset + |data| <= o
    ensures o + n <= |Put(f, offset, data)|
    ensures Put(f, offset, data)[o..o + n] == f[o..o + n]
  {
    var r := Put(f, offset, data);
    forall i | o <= i < o + n
      ensures r[i] == f[i]
    {
    }
    assert r[o..o + n] == f[o..o + n];
  }

  /** An open file: its bytes and the cursor the next read or write starts at. */
  class File {
    var data: seq<byte>
    var pos: nat

    predicate Valid()
      reads this
    {
      pos <= |data|
    }

    constructor(data: seq<byte>)
      ensures this.data == data && pos == 0 && Valid()
    {
      this.data := data;
      pos := 0;
    }

    /** `length()`. */
    function Length(): (r: nat)
      reads this
      ensures r == |data|
    {
      |data|
    }

    /** `is_eof()`: the cursor is at the end of the file. */
    predicate Eof()
      reads this
    {
      pos >= |data|
    }

    /** `read(buf)` with a buffer of `n` bytes: the bytes from the cursor, at most `n`, none at the end. */
    method Read(n: nat) returns (chunk: seq<byte>)
      requires Valid()
      modifies this
      ensures Valid() && data == old(data)
      ensures |chunk| == (if |data| - old(pos) < n then |data| - old(pos) else n)
      ensures pos == old(pos) + |chunk| && chunk == data[old(pos)..pos]
    {
      var k := if |data| - pos < n then |data| - pos else n;
      chunk := data[pos..pos + k];
      pos := pos + k;
    }

    /** `write(buf)`: the bytes go at the cursor, which moves past them. */
    method Write(buf: seq<byte>)
      requires Valid()
      modifies this
      ensures Valid()
      ensures data == Put(old(data), old(pos), buf) && pos == old(pos) + |buf|
    {
      data := Put(data, pos, buf);
      pos := pos + |buf|;
    }

    /** `seek_from_start(0)`. */
    method Rewind()
      modifies this
      ensures data == old(data) && pos == 0
    {
      pos := 0;
    }
  }
}
