/**
 * The small helpers of the two `util.rs` files: `SliceCursor`, the
 * read-side cursor over a byte slice (the two files hold the same code), and
 * the span stack of the demo's `SimpleSubscriber`.
 */
module Util {
  import opened Bytes

  /** A cursor over an immutable slice; reading past the end is a caller error (the source asserts). */
  class SliceCursor {
    const slice: seq<byte>
    var pos: nat

    ghost predicate Valid()
      reads this
    {
      pos <= |slice|
    }

    /** The bytes not yet read. */
    ghost function Rest(): seq<byte>
      reads this
      requires Valid()
    {
      slice[pos..]
    }

    constructor (slice: seq<byte>)
      ensures Valid() && this.slice == slice && pos == 0
      ensures Remaining() == |slice| && Rest() == slice
    {
      this.slice := slice;
      pos := 0;
    }

    /** `remaining()`: the number of bytes left to read. */
    function Remaining(): (r: nat)
      reads this
      requires Valid()
      ensures pos + r == |slice| && r == |Rest()|
    {
      |slice| - pos
    }

    /** `next(n)`: the next `n` bytes; the cursor moves past them. */
    method Next(n: nat) returns (r: seq<byte>)
      requires Valid() && pos + n <= |slice|
      modifies this
      ensures Valid() && pos == old(pos) + n
      ensures r == old(slice[pos..pos + n]) && old(Rest()) == r + Rest()
      ensures Remaining() == old(Remaining()) - n
    {
      r := slice[pos..pos + n];
      pos := pos + n;
    }

    /** `next_u8()`: the byte at the old position. */
    method NextU8() returns (b: byte)
      requires Valid() && pos + 1 <= |slice|
      modifies this
      ensures Valid() && pos == old(pos) + 1
      ensures b == slice[old(pos)] && Remaining() == old(Remaining()) - 1
    {
      var s := Next(1);
      b := s[0];
    }

    /** `next_u16_be()`: the next two bytes read big-endian. */
    method NextU16Be() returns (v: u16)
      requires Valid() && pos + 2 <= |slice|
      modifies this
      ensures Valid() && pos == old(pos) + 2
      ensures v == slice[old(pos)] as int * 0x100 + slice[old(pos) + 1]
      ensures v == FromBE16(slice[old(pos)..old(pos) + 2])
      ensures Remaining() == old(Remaining()) - 2
    {
      var s := Next(2);
      v := FromBE16(s);
    }
  }

  /** What `exit` finds on top of the span stack; the two failures are only logged. */
  datatype ExitOutcome = Matched | Mismatched(top: u64) | EmptyStack

  /** The span-stack part of `SimpleSubscriber`. */
  class SimpleSubscriber {
    var stack: seq<u64>

    constructor ()
      ensures stack == []
    {
      stack := [];
    }

    /** `enter`: push the span id. */
    method Enter(span: u64)
      modifies this
      ensures stack == old(stack) + [span]
    {
      stack := stack + [span];
    }

    /**
     * `exit`: pop the top. A different id or an empty stack is only reported;
     * the popped value is never pushed back.
     */
    method Exit(span: u64) returns (o: ExitOutcome)
      modifies this
      ensures old(stack) == [] ==> o == EmptyStack && stack == []
      ensures old(stack) != [] ==> stack == old(stack[..|stack| - 1])
      ensures old(stack) != [] ==> o == if old(stack[|stack| - 1]) == span then Matched else Mismatched(old(stack[|stack| - 1]))
    {
      if stack == [] {
        o := EmptyStack;
      } else {
        var top := stack[|stack| - 1];
        stack := stack[..|stack| - 1];
        o := if top == span then Matched else Mismatched(top);
      }
    }
  }

  /** Entering then exiting the same span restores the stack and reports a match. */
  method EnterExit(s: SimpleSubscriber, span: u64) returns (o: ExitOutcome)
    modifies s
    ensures o == Matched && s.stack == old(s.stack)
  {
    s.Enter(span);
    o := s.Exit(span);
    assert (old(s.stack) + [span])[..|old(s.stack)|] == old(s.stack);
  }
}
