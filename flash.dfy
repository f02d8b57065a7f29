/**
 * A flash chip as the storage backends see it through `embedded_storage`:
 * bytes addressed by offset, where a cell never written reads as erased
 * (0xFF), a `write` overwrites a range and a `read` copies one out.
 *
 * A write can fail, or report success while other bytes reach the flash;
 * which of these happens is an input (`Fault`), so that the read-back
 * checks of the stores have something to catch.
 */
module Flash {
  import opened Bytes

  /**
   * The contents of the flash: an initial image, with writes laid over it
   * in the order they happened (the last write to a byte wins).
   */
  datatype Cells = Image(bytes: map<nat, byte>) | Over(below: Cells, offset: nat, data: seq<byte>)

  const ERASED: byte := 0xFF

  /** The byte at address `a`. */
  function Cell(cells: Cells, a: nat): byte
  {
    match cells
    case Image(bytes) => if a in bytes then bytes[a] else ERASED
    case Over(below, offset, data) => if offset <= a < offset + |data| then data[a - offset] else Cell(below, a)
  }

  /** `read(offset, buf)` with a buffer of `n` bytes. */
  function Read(cells: Cells, offset: nat, n: nat): (r: seq<byte>)
    ensures |r| == n
  {
    if n == 0 then [] else Read(cells, offset, n - 1) + [Cell(cells, offset + n - 1)]
  }

  /** `write(offset, data)`: the range is overwritten and every other byte is kept. */
  function WriteAt(cells: Cells, offset: nat, data: seq<byte>): (r: Cells)
    ensures forall a: nat :: Cell(r, a) == if offset <= a < offset + |data| then data[a - offset] else Cell(cells, a)
  {
    Over(cells, offset, data)
  }

  /** The `i`th byte read is the byte at `offset + i`. */
  lemma {:induction false} ReadAt(cells: Cells, offset: nat, n: nat, i: nat)
    requires i < n
    ensures Read(cells, offset, n)[i] == Cell(cells, offset + i)
  {
    if i < n - 1 {
      ReadAt(cells, offset, n - 1, i);
    }
  }

  /** Reading back the range just written gives the written bytes. */
  lemma {:induction false} ReadWritten(cells: Cells, offset: nat, data: seq<byte>)
    ensures Read(WriteAt(cells, offset, data), offset, |data|) == data
  {
    forall i | 0 <= i < |data|
      ensures Read(WriteAt(cells, offset, data), offset, |data|)[i] == data[i]
    {
      ReadAt(WriteAt(cells, offset, data), offset, |data|, i);
    }
  }

  /** Reading back part of the range just written gives that part of the written bytes. */
  lemma {:induction false} ReadWrittenPart(cells: Cells, offset: nat, data: seq<byte>, i: nat, j: nat)
    requires i <= j <= |data|
    ensures Read(WriteAt(cells, offset, data), offset + i, j - i) == data[i..j]
  {
    forall k | 0 <= k < j - i
      ensures Read(WriteAt(cells, offset, data), offset + i, j - i)[k] == data[i..j][k]
    {
      ReadAt(WriteAt(cells, offset, data), offset + i, j - i, k);
    }
  }

  /** A write leaves every range it does not overlap as it was. */
  lemma {:induction false} ReadOutside(cells: Cells, offset: nat, data: seq<byte>, o: nat, n: nat)
    requires o + n <= offset || offset + |data| <= o
    ensures Read(WriteAt(cells, offset, data), o, n) == Read(cells, o, n)
  {
    forall i | 0 <= i < n
      ensures Read(WriteAt(cells, offset, data), o, n)[i] == Read(cells, o, n)[i]
    {
      ReadAt(WriteAt(cells, offset, data), o, n, i);
      ReadAt(cells, o, n, i);
    }
  }

  /** Part of a read is the read of that part. */
  lemma {:induction false} ReadSlice(cells: Cells, o: nat, n: nat, i: nat, j: nat)
    requires i <= j <= n
    ensures Read(cells, o, n)[i..j] == Read(cells, o + i, j - i)
  {
    forall k | 0 <= k < j - i
      ensures Read(cells, o, n)[i..j][k] == Read(cells, o + i, j - i)[k]
    {
      ReadAt(cells, o, n, i + k);
      ReadAt(cells, o + i, j - i, k);
    }
  }

  /** A read splits into two consecutive reads. */
  lemma {:induction false} ReadSplit(cells: Cells, o: nat, a: nat, b: nat)
    ensures Read(cells, o, a + b) == Read(cells, o, a) + Read(cells, o + a, b)
  {
    var whole, parts := Read(cells, o, a + b), Read(cells, o, a) + Read(cells, o + a, b);
    forall k | 0 <= k < a + b
      ensures whole[k] == parts[k]
    {
      ReadAt(cells, o, a + b, k);
      if k < a {
        ReadAt(cells, o, a, k);
      } else {
        ReadAt(cells, o + a, b, k - a);
      }
    }
  }

  /** What a write does: succeed, fail with nothing written, or report success with `landed` written instead. */
  datatype Fault = NoFault | Fails | Lands(landed: seq<byte>)

  function Written(cells: Cells, offset: nat, data: seq<byte>, fault: Fault): (r: Cells)
    ensures fault.NoFault? ==> r == WriteAt(cells, offset, data)
    ensures fault.Fails? ==> r == cells
    ensures fault.Lands? ==> r == WriteAt(cells, offset, fault.landed)
  {
    match fault
    case NoFault => WriteAt(cells, offset, data)
    case Fails => cells
    case Lands(landed) => WriteAt(cells, offset, landed)
  }

  /** The flash device shared by the readers and writers of one partition. */
  class Medium {
    var cells: Cells

    constructor(cells: Cells)
      ensures this.cells == cells
    {
      this.cells := cells;
    }

    /** `Storage::write`: reports success unless the write fails. */
    method Write(offset: nat, data: seq<byte>, fault: Fault) returns (ok: bool)
      modifies this
      ensures ok <==> !fault.Fails?
      ensures cells == Written(old(cells), offset, data, fault)
    {
      cells := Written(cells, offset, data, fault);
      ok := !fault.Fails?;
    }
  }
}
