/**
 * The Python storage-dump script of the ESP32-S3 demo: a byte cursor that
 * reads little-endian integers (aligning them to 4 in rkyv mode), LEB128
 * varints, options, priors and arrays; the storage header and the segment
 * records decoded with it; and the memoised depth-first walk from the head
 * segment over the segments' priors.
 *
 * Python's exceptions (an index past the end, a short `struct.unpack`, a
 * bad magic, an undefined method) end the script; the model returns None
 * where one is raised.  Slices truncate at the end of the bytes, as
 * Python's do, and `get_bytes` advances the cursor by the full count
 * anyway.
 */
module DumpScript {
  import opened Bytes
  import opened Wrappers
  import Leb128
  import Postcard
  import FlashStore
  import DumpFormat

  const DATA_OFFSET: nat := 4096
  const STORAGE_HEADER_MAGIC: seq<byte> := [0x1C, 0x53, 0x4F, 0x00]
  const SEGMENT_HEADER_MAGIC: seq<byte> := [0x1E, 0x53, 0x4F, 0x00]
  const ID_LEN: nat := 32

  /** The outcome of one read from position `pos`: the value, or None where Python raises, and the cursor position after it. */
  datatype Read<T> = Read(value: Option<T>, pos: nat)

  // ---------------------------------------------------------------- reads

  /** `align(to)`: the least multiple of `to` at or after `c`. */
  function AlignUp(c: nat, to: nat): (r: nat)
    requires to > 0
    ensures c <= r < c + to
    ensures to == 4 ==> r % 4 == 0
  {
    if c % to != 0 then c + (to - c % to) else c
  }

  /** An aligned position is left where it is. */
  lemma {:induction false} AlignUpIdempotent(c: nat)
    ensures AlignUp(AlignUp(c, 4), 4) == AlignUp(c, 4)
  {
  }

  /** Python's `b[c:c + n]`: cut short at the end of `b`. */
  function Slice(b: seq<byte>, c: nat, n: nat): (r: seq<byte>)
    ensures c + n <= |b| ==> r == b[c..c + n]
    ensures |r| <= n && (|r| == n <==> n == 0 || c + n <= |b|)
  {
    if c + n <= |b| then b[c..c + n]
    else if c <= |b| then b[c..]
    else []
  }

  /** `get_u8`: `b[c]` raises past the end. */
  function U8At(b: seq<byte>, c: nat): (r: Read<byte>)
  {
    if c < |b| then Read(Some(b[c]), c + 1) else Read(None, c)
  }

  /** `get_bytes(n)`: the slice, and the cursor moves by n whatever the slice's length. */
  function BytesAt(b: seq<byte>, c: nat, n: nat): (r: Read<seq<byte>>)
  {
    Read(Some(Slice(b, c, n)), c + n)
  }

  /** Where a fixed-width integer starts: aligned to 4 in rkyv mode. */
  function IntStart(c: nat, rkyv: bool): nat
  {
    if rkyv then AlignUp(c, 4) else c
  }

  /** `get_u16`: `struct.unpack('<H')` raises unless two bytes were there. */
  function U16At(b: seq<byte>, c: nat, rkyv: bool): (r: Read<u16>)
    ensures r.pos == IntStart(c, rkyv) + 2
    ensures r.value.Some? <==> IntStart(c, rkyv) + 2 <= |b|
  {
    var s := IntStart(c, rkyv);
    var x := Slice(b, s, 2);
    Read(if |x| == 2 then Some(FromLE16(x)) else None, s + 2)
  }

  /** `get_u32`: `struct.unpack('<I')` raises unless four bytes were there. */
  function U32At(b: seq<byte>, c: nat, rkyv: bool): (r: Read<u32>)
    ensures r.pos == IntStart(c, rkyv) + 4
    ensures r.value.Some? <==> IntStart(c, rkyv) + 4 <= |b|
  {
    var s := IntStart(c, rkyv);
    var x := Slice(b, s, 4);
    Read(if |x| == 4 then Some(FromLE32(x)) else None, s + 4)
  }

  /** A little-endian `u32` written at an aligned position reads back. */
  lemma {:induction false} U32AtReadsLE(pre: seq<byte>, x: u32, rest: seq<byte>, rkyv: bool)
    requires |pre| % 4 == 0
    ensures U32At(pre + LE32(x) + rest, |pre|, rkyv) == Read(Some(x), |pre| + 4)
  {
    var b := pre + LE32(x) + rest;
    assert Slice(b, |pre|, 4) == LE32(x);
    LE32RoundTrip(x);
  }

  /**
   * `get_leb`: the low seven bits of each byte, least significant group
   * first, up to and including the first byte below 0x80; `get_u8` raises
   * when the bytes end before it.
   */
  function LebAt(b: seq<byte>, c: nat): (r: Read<nat>)
    ensures r.pos >= c
    decreases |b| - c
  {
    if c >= |b| then Read(None, c)
    else if b[c] < 0x80 then Read(Some(b[c] as nat), c + 1)
    else
      var rest := LebAt(b, c + 1);
      Read(if rest.value.Some? then Some(b[c] - 0x80 + 0x80 * rest.value.value) else None, rest.pos)
  }

  /** `get_leb` is unsigned LEB128 (section 7.6 of the DWARF 4 standard): it agrees with the reference decoder on value and length. */
  lemma {:induction false} LebAtDecodes(b: seq<byte>, c: nat)
    requires c <= |b|
    ensures match Leb128.Decode(b[c..])
      case None => LebAt(b, c) == Read(None, |b|)
      case Some(p) => LebAt(b, c) == Read(Some(p.0), c + p.1)
    decreases |b| - c
  {
    if c < |b| && b[c] >= 0x80 {
      LebAtDecodes(b, c + 1);
      assert b[c..][1..] == b[c + 1..];
    }
  }

  /** Round trip: the script reads back the varint postcard writes, wherever it sits. */
  lemma {:induction false} LebAtReadsEncoding(pre: seq<byte>, x: nat, rest: seq<byte>)
    ensures LebAt(pre + Leb128.Encode(x) + rest, |pre|) == Read(Some(x), |pre| + |Leb128.Encode(x)|)
  {
    var b := pre + Leb128.Encode(x) + rest;
    assert b[|pre|..] == Leb128.Encode(x) + rest;
    Leb128.DecodeEncode(x, rest);
    LebAtDecodes(b, |pre|);
  }

  // ---------------------------------------------------------------- decoders

  /** The sub-decoders the script passes to `get_option`, `get_prior` and `get_array`. */
  datatype Decoder =
    | Loc          // `decode_location`: two varints
    | Addr         // `decode_address`: 32 bytes and a varint
    | Id           // `lambda c: c.get_bytes(32)`
    | U32Pair      // `lambda c: (c.get_u32(), c.get_u32())`
    | ByteArray    // `lambda c: c.get_byte_array()`
    | SkipEntry    // `lambda c: ((c.get_leb(), c.get_leb()), c.get_leb())`
    | CommandData  // `CommandData(c)`
    | UpdateEntry  // the update tuple, whose first read calls the undefined `get_string`

  /** What a sub-decoder returns. */
  datatype Value =
    | Pair(first: nat, second: nat)
    | Address(id: seq<byte>, maxCut: nat)
    | Bytes(data: seq<byte>)
    | Skip(segment: nat, command: nat, count: nat)
    | Command(id: seq<byte>, priority: nat, priorityValue: Option<nat>, policy: Option<seq<byte>>, data: seq<byte>)

  /** Nesting depth, for termination: only `CommandData` calls further sub-decoders. */
  function Rank(d: Decoder): nat
  {
    if d == CommandData then 2 else 1
  }

  /** `get_byte_array`: a varint length, then that many bytes. */
  function ByteArrayAt(b: seq<byte>, c: nat): (r: Read<seq<byte>>)
  {
    var l := LebAt(b, c);
    if l.value.None? then Read(None, l.pos) else BytesAt(b, l.pos, l.value.value)
  }

  /** The kind of value each sub-decoder returns. */
  predicate Shape(d: Decoder, v: Value)
  {
    match d
    case Loc => v.Pair?
    case Addr => v.Address?
    case Id => v.Bytes?
    case U32Pair => v.Pair? && v.first <= U32_MAX && v.second <= U32_MAX
    case ByteArray => v.Bytes?
    case SkipEntry => v.Skip?
    case CommandData => v.Command?
    case UpdateEntry => false
  }

  /** One value: a failure ends the read where the failing step left the cursor. */
  function DecodeAt(b: seq<byte>, c: nat, rkyv: bool, d: Decoder): (r: Read<Value>)
    ensures r.value.Some? ==> Shape(d, r.value.value)
    decreases Rank(d), 0, 0
  {
    match d
    case Loc =>
      var x := LebAt(b, c);
      if x.value.None? then Read(None, x.pos)
      else
        var y := LebAt(b, x.pos);
        if y.value.None? then Read(None, y.pos) else Read(Some(Pair(x.value.value, y.value.value)), y.pos)
    case Addr =>
      var id := BytesAt(b, c, ID_LEN);
      var n := LebAt(b, id.pos);
      if n.value.None? then Read(None, n.pos) else Read(Some(Address(id.value.value, n.value.value)), n.pos)
    case Id =>
      var id := BytesAt(b, c, ID_LEN);
      Read(Some(Bytes(id.value.value)), id.pos)
    case U32Pair =>
      var x := U32At(b, c, rkyv);
      if x.value.None? then Read(None, x.pos)
      else
        var y := U32At(b, x.pos, rkyv);
        if y.value.None? then Read(None, y.pos) else Read(Some(Pair(x.value.value, y.value.value)), y.pos)
    case ByteArray =>
      var a := ByteArrayAt(b, c);
      if a.value.None? then Read(None, a.pos) else Read(Some(Bytes(a.value.value)), a.pos)
    case SkipEntry =>
      var x := LebAt(b, c);
      if x.value.None? then Read(None, x.pos)
      else
        var y := LebAt(b, x.pos);
        if y.value.None? then Read(None, y.pos)
        else
          var z := LebAt(b, y.pos);
          if z.value.None? then Read(None, z.pos) else Read(Some(Skip(x.value.value, y.value.value, z.value.value)), z.pos)
    case CommandData => CommandAt(b, c, rkyv)
    case UpdateEntry => Read(None, c)
  }

  /**
   * `CommandData(c)`: id, priority, the priority value only for priority 1
   * (Basic), an optional policy, the data, and the updates, which decode
   * only when there are none.
   */
  function CommandAt(b: seq<byte>, c: nat, rkyv: bool): (r: Read<Value>)
    ensures r.value.Some? ==> r.value.value.Command?
    decreases 1, 3, 0
  {
    var id := BytesAt(b, c, ID_LEN);
    var priority := LebAt(b, id.pos);
    if priority.value.None? then Read(None, priority.pos)
    else
      var pv := if priority.value.value == 1 then LebAt(b, priority.pos) else Read(Some(0), priority.pos);
      if pv.value.None? then Read(None, pv.pos)
      else
        var policy := OptionAt(b, pv.pos, rkyv, ByteArray);
        if policy.value.None? then Read(None, policy.pos)
        else
          var data := ByteArrayAt(b, policy.pos);
          if data.value.None? then Read(None, data.pos)
          else
            var updates := ArrayAt(b, data.pos, rkyv, UpdateEntry);
            if updates.value.None? then Read(None, updates.pos)
            else
              Read(Some(Command(
                id.value.value,
                priority.value.value,
                if priority.value.value == 1 then Some(pv.value.value) else None,
                if policy.value.value.Some? then Some(policy.value.value.value.data) else None,
                data.value.value)), updates.pos)
  }

  /** `get_option`: a flag byte; the value is decoded only when the flag is non-zero. */
  function OptionAt(b: seq<byte>, c: nat, rkyv: bool, d: Decoder): (r: Read<Option<Value>>)
    ensures r.value.Some? && r.value.value.Some? ==> Shape(d, r.value.value.value)
    decreases Rank(d), 1, 0
  {
    var flag := U8At(b, c);
    if flag.value.None? then Read(None, flag.pos)
    else if flag.value.value == 0 then Read(Some(None), flag.pos)
    else
      var v := DecodeAt(b, flag.pos, rkyv, d);
      if v.value.None? then Read(None, v.pos) else Read(Some(Some(v.value.value)), v.pos)
  }

  /** `count` values in a row. */
  function ItemsAt(b: seq<byte>, c: nat, rkyv: bool, d: Decoder, count: nat): (r: Read<seq<Value>>)
    ensures r.value.Some? ==> |r.value.value| == count
    ensures r.value.Some? ==> forall v | v in r.value.value :: Shape(d, v)
    decreases Rank(d), 1, count
  {
    if count == 0 then Read(Some([]), c)
    else
      var x := DecodeAt(b, c, rkyv, d);
      if x.value.None? then Read(None, x.pos)
      else Prepend([x.value.value], ItemsAt(b, x.pos, rkyv, d, count - 1))
  }

  /** `xs` in front of what a later read returns. */
  function Prepend(xs: seq<Value>, r: Read<seq<Value>>): Read<seq<Value>>
  {
    Read(if r.value.Some? then Some(xs + r.value.value) else None, r.pos)
  }

  /** `get_array`: a varint count, then that many values. */
  function ArrayAt(b: seq<byte>, c: nat, rkyv: bool, d: Decoder): (r: Read<seq<Value>>)
    ensures r.value.Some? ==> forall v | v in r.value.value :: Shape(d, v)
    decreases Rank(d), 2, 0
  {
    var l := LebAt(b, c);
    if l.value.None? then Read(None, l.pos) else ItemsAt(b, l.pos, rkyv, d, l.value.value)
  }

  /** `Prior(c, ...)`: a varint tag, which must be at most 2, then that many values. */
  function PriorAt(b: seq<byte>, c: nat, rkyv: bool, d: Decoder): (r: Read<seq<Value>>)
    ensures r.value.Some? ==> |r.value.value| <= 2
    ensures r.value.Some? ==> forall v | v in r.value.value :: Shape(d, v)
    decreases Rank(d), 2, 0
  {
    var tag := LebAt(b, c);
    if tag.value.None? || tag.value.value > 2 then Read(None, tag.pos)
    else ItemsAt(b, tag.pos, rkyv, d, tag.value.value)
  }

  /** A prior whose tag is above 2 raises, whatever follows. */
  lemma {:induction false} PriorRejectsTag(pre: seq<byte>, tag: nat, rest: seq<byte>, rkyv: bool, d: Decoder)
    requires tag > 2
    ensures PriorAt(pre + Leb128.Encode(tag) + rest, |pre|, rkyv, d).value.None?
  {
    LebAtReadsEncoding(pre, tag, rest);
  }

  /** A prior whose tag is at most 2 holds exactly that many values. */
  lemma {:induction false} PriorCount(b: seq<byte>, c: nat, rkyv: bool, d: Decoder)
    requires PriorAt(b, c, rkyv, d).value.Some?
    ensures LebAt(b, c).value.Some? && LebAt(b, c).value.value <= 2
    ensures |PriorAt(b, c, rkyv, d).value.value| == LebAt(b, c).value.value
  {
  }

  // ---------------------------------------------------------------- cursor

  /** `Cursor`: bytes, a position that only moves forward, and the rkyv flag. */
  class Cursor {
    const b: seq<byte>
    var c: nat
    const rkyv: bool

    constructor(b: seq<byte>, rkyv: bool)
      ensures this.b == b && c == 0 && this.rkyv == rkyv
    {
      this.b := b;
      this.c := 0;
      this.rkyv := rkyv;
    }

    method Align(to: nat)
      requires to > 0
      modifies this
      ensures c == AlignUp(old(c), to)
    {
      if c % to != 0 {
        c := c + (to - c % to);
      }
    }

    method GetU8() returns (v: Option<byte>)
      modifies this
      ensures Read(v, c) == U8At(b, old(c))
    {
      if c >= |b| {
        return None;
      }
      v := Some(b[c]);
      c := c + 1;
    }

    method GetBool() returns (v: Option<bool>)
      modifies this
      ensures c == U8At(b, old(c)).pos
      ensures v.Some? <==> U8At(b, old(c)).value.Some?
      ensures v.Some? ==> (v.value <==> U8At(b, old(c)).value.value != 0)
    {
      var x := GetU8();
      v := if x.Some? then Some(x.value != 0) else None;
    }

    function PeekBytes(n: nat): (r: seq<byte>)
      reads this
      ensures r == Slice(b, c, n)
    {
      if c + n <= |b| then b[c..c + n]
      else if c <= |b| then b[c..]
      else []
    }

    method GetBytes(n: nat) returns (v: seq<byte>)
      modifies this
      ensures Read(Some(v), c) == BytesAt(b, old(c), n)
    {
      v := PeekBytes(n);
      c := c + n;
    }

    method GetU16() returns (v: Option<u16>)
      modifies this
      ensures Read(v, c) == U16At(b, old(c), rkyv)
    {
      if rkyv {
        Align(4);
      }
      var x := GetBytes(2);
      v := if |x| == 2 then Some(FromLE16(x)) else None;
    }

    method GetU32() returns (v: Option<u32>)
      modifies this
      ensures Read(v, c) == U32At(b, old(c), rkyv)
    {
      if rkyv {
        Align(4);
      }
      var x := GetBytes(4);
      v := if |x| == 4 then Some(FromLE32(x)) else None;
    }

    /** `get_leb`: collect the seven-bit groups, then fold them most significant first. */
    method GetLeb() returns (v: Option<nat>)
      modifies this
      ensures Read(v, c) == LebAt(b, old(c))
    {
      var x := GetU8();
      if x.None? {
        return None;
      }
      var byte := x.value;
      var groups: seq<nat> := [];
      ShiftNothing(LebAt(b, c - 1));
      while byte >= 0x80
        invariant old(c) < c <= |b| && byte == b[c - 1]
        invariant forall g | g in groups :: g < 0x80
        invariant LebAt(b, old(c)) == Shift(groups, LebAt(b, c - 1))
        decreases |b| - c
      {
        ShiftStep(groups, byte - 0x80, LebAt(b, c));
        groups := groups + [byte - 0x80];
        x := GetU8();
        if x.None? {
          return None;
        }
        byte := x.value;
      }
      groups := groups + [byte];
      var n := 0;
      for i := 0 to |groups|
        invariant n == Groups(groups[|groups| - i..])
      {
        assert groups[|groups| - i - 1..][1..] == groups[|groups| - i..];
        n := n * 0x80 + groups[|groups| - i - 1];
      }
      assert groups[0..] == groups;
      v := Some(n);
    }

    method GetByteArray() returns (v: Option<seq<byte>>)
      modifies this
      ensures Read(v, c) == ByteArrayAt(b, old(c))
    {
      var l := GetLeb();
      if l.None? {
        return None;
      }
      var x := GetBytes(l.value);
      v := Some(x);
    }

    /** A sub-decoder applied to this cursor. */
    method Decode(d: Decoder) returns (v: Option<Value>)
      modifies this
      ensures Read(v, c) == DecodeAt(b, old(c), rkyv, d)
      decreases Rank(d), 0, 0
    {
      match d {
        case Loc =>
          var x := GetLeb();
          if x.None? {
            return None;
          }
          var y := GetLeb();
          if y.None? {
            return None;
          }
          v := Some(Pair(x.value, y.value));
        case Addr =>
          var id := GetBytes(ID_LEN);
          var n := GetLeb();
          if n.None? {
            return None;
          }
          v := Some(Address(id, n.value));
        case Id =>
          var id := GetBytes(ID_LEN);
          v := Some(Bytes(id));
        case U32Pair =>
          var x := GetU32();
          if x.None? {
            return None;
          }
          var y := GetU32();
          if y.None? {
            return None;
          }
          v := Some(Pair(x.value, y.value));
        case ByteArray =>
          var a := GetByteArray();
          if a.None? {
            return None;
          }
          v := Some(Bytes(a.value));
        case SkipEntry =>
          var x := GetLeb();
          if x.None? {
            return None;
          }
          var y := GetLeb();
          if y.None? {
            return None;
          }
          var z := GetLeb();
          if z.None? {
            return None;
          }
          v := Some(Skip(x.value, y.value, z.value));
        case CommandData =>
          v := GetCommand();
        case UpdateEntry =>
          v := None;
      }
    }

    /** `CommandData(c)`. */
    method GetCommand() returns (v: Option<Value>)
      modifies this
      ensures Read(v, c) == CommandAt(b, old(c), rkyv)
      decreases 1, 3, 0
    {
      var id := GetBytes(ID_LEN);
      var priority := GetLeb();
      if priority.None? {
        return None;
      }
      var priorityValue: Option<nat> := None;
      if priority.value == 1 {
        var pv := GetLeb();
        if pv.None? {
          return None;
        }
        priorityValue := pv;
      }
      var policy := GetOption(ByteArray);
      if policy.None? {
        return None;
      }
      var data := GetByteArray();
      if data.None? {
        return None;
      }
      var updates := GetArray(UpdateEntry);
      if updates.None? {
        return None;
      }
      v := Some(Command(id, priority.value, priorityValue, if policy.value.Some? then Some(policy.value.value.data) else None, data.value));
    }

    method GetOption(d: Decoder) returns (v: Option<Option<Value>>)
      modifies this
      ensures Read(v, c) == OptionAt(b, old(c), rkyv, d)
      decreases Rank(d), 1, 0
    {
      var exists_ := GetBool();
      if exists_.None? {
        return None;
      }
      if !exists_.value {
        return Some(None);
      }
      var x := Decode(d);
      v := if x.Some? then Some(Some(x.value)) else None;
    }

    /** The loop of `get_array` and of `Prior`: `count` values appended one by one. */
    method GetItems(d: Decoder, count: nat) returns (v: Option<seq<Value>>)
      modifies this
      ensures Read(v, c) == ItemsAt(b, old(c), rkyv, d, count)
      decreases Rank(d), 1, count
    {
      var values: seq<Value> := [];
      var all := ItemsAt(b, c, rkyv, d, count);
      if all.value.Some? {
        assert [] + all.value.value == all.value.value;
      }
      for i := 0 to count
        invariant ItemsAt(b, old(c), rkyv, d, count) == Prepend(values, ItemsAt(b, c, rkyv, d, count - i))
      {
        var x := Decode(d);
        if x.None? {
          return None;
        }
        PrependTwice(values, x.value, ItemsAt(b, c, rkyv, d, count - i - 1));
        values := values + [x.value];
      }
      assert values + [] == values;
      v := Some(values);
    }

    method GetArray(d: Decoder) returns (v: Option<seq<Value>>)
      modifies this
      ensures Read(v, c) == ArrayAt(b, old(c), rkyv, d)
      decreases Rank(d), 2, 0
    {
      var l := GetLeb();
      if l.None? {
        return None;
      }
      v := GetItems(d, l.value);
    }

    /** `get_prior`, that is `Prior(c, d)`. */
    method GetPrior(d: Decoder) returns (v: Option<seq<Value>>)
      modifies this
      ensures Read(v, c) == PriorAt(b, old(c), rkyv, d)
      decreases Rank(d), 2, 0
    {
      var tag := GetLeb();
      if tag.None? || tag.value > 2 {
        return None;
      }
      v := GetItems(d, tag.value);
    }
  }

  /** The number whose seven-bit groups, least significant first, are `gs`. */
  function Groups(gs: seq<nat>): nat
  {
    if gs == [] then 0 else gs[0] + 0x80 * Groups(gs[1..])
  }

  /** A read that follows the groups `gs` already collected. */
  function Shift(gs: seq<nat>, r: Read<nat>): Read<nat>
  {
    Read(if r.value.Some? then Some(Groups(gs + [r.value.value])) else None, r.pos)
  }

  /** Collecting one more group `g` commutes with the recursive definition. */
  lemma {:induction false} ShiftStep(gs: seq<nat>, g: nat, r: Read<nat>)
    ensures Shift(gs, Read(if r.value.Some? then Some(g + 0x80 * r.value.value) else None, r.pos)) == Shift(gs + [g], r)
  {
    if r.value.Some? {
      GroupsSnoc(gs, g, r.value.value);
      assert (gs + [g]) + [r.value.value] == gs + [g, r.value.value];
    }
  }

  lemma {:induction false} GroupsSnoc(gs: seq<nat>, g: nat, v: nat)
    ensures Groups(gs + [g + 0x80 * v]) == Groups(gs + [g, v])
    decreases |gs|
  {
    if gs == [] {
      assert gs + [g + 0x80 * v] == [g + 0x80 * v] && gs + [g, v] == [g, v];
      assert [g + 0x80 * v][1..] == [];
      assert [g, v][1..] == [v];
      assert [v][1..] == [];
    } else {
      GroupsSnoc(gs[1..], g, v);
      assert (gs + [g + 0x80 * v])[1..] == gs[1..] + [g + 0x80 * v];
      assert (gs + [g, v])[1..] == gs[1..] + [g, v];
    }
  }

  lemma {:induction false} PrependTwice(xs: seq<Value>, x: Value, r: Read<seq<Value>>)
    ensures Prepend(xs, Prepend([x], r)) == Prepend(xs + [x], r)
  {
    if r.value.Some? {
      var v := r.value.value;
      assert Prepend([x], r) == Read(Some([x] + v), r.pos);
      assert xs + ([x] + v) == (xs + [x]) + v;
    }
  }

  lemma {:induction false} ShiftNothing(r: Read<nat>)
    ensures Shift([], r) == r
  {
    if r.value.Some? {
      var v := r.value.value;
      assert [] + [v] == [v];
      assert [v][1..] == [];
      assert Groups([v]) == v + 0x80 * Groups([]);
    }
  }

  // ---------------------------------------------------------------- header

  /** The attributes `Header(b)` sets. */
  datatype ScriptHeader = ScriptHeader(epoch: nat, graphId: Option<seq<byte>>, head: Option<(nat, nat)>, storedBytes: nat)

  /**
   * An option as `get_option` reads it (`skipAbsent` false), or as the
   * archive lays it out (`skipAbsent` true): an absent id or head still
   * occupies its payload's bytes, zeroed.
   */
  function HeaderOptionAt(b: seq<byte>, c: nat, d: Decoder, skipAbsent: bool): (r: Read<Option<Value>>)
    requires d == Id || d == U32Pair
    ensures r.value.Some? && r.value.value.Some? ==> Shape(d, r.value.value.value)
  {
    var flag := U8At(b, c);
    if skipAbsent && flag.value.Some? && flag.value.value == 0 then
      Read(Some(None), if d == Id then flag.pos + ID_LEN else AlignUp(flag.pos, 4) + 8)
    else OptionAt(b, c, true, d)
  }

  /** The header read with either option reader. */
  function HeaderWith(b: seq<byte>, skipAbsent: bool): (r: Option<ScriptHeader>)
    ensures r.Some? ==> Slice(b, 0, 4) == STORAGE_HEADER_MAGIC
  {
    var magic := BytesAt(b, 0, 4);
    if magic.value.value != STORAGE_HEADER_MAGIC then None
    else
      var epoch := U32At(b, magic.pos, true);
      if epoch.value.None? then None
      else
        var graph := HeaderOptionAt(b, epoch.pos, Id, skipAbsent);
        if graph.value.None? then None
        else
          var head := HeaderOptionAt(b, AlignUp(graph.pos, 4), U32Pair, skipAbsent);
          if head.value.None? then None
          else
            var stored := U32At(b, head.pos, true);
            if stored.value.None? then None
            else
              Some(ScriptHeader(
                epoch.value.value,
                if graph.value.value.Some? then Some(graph.value.value.value.data) else None,
                if head.value.value.Some? then Some((head.value.value.value.first, head.value.value.value.second)) else None,
                stored.value.value))
  }

  /** `Header(b)`: magic, epoch, optional graph id, align to 4, optional head, stored bytes. */
  function HeaderOf(b: seq<byte>): (r: Option<ScriptHeader>)
    ensures r.Some? ==> Slice(b, 0, 4) == STORAGE_HEADER_MAGIC
  {
    HeaderWith(b, false)
  }

  /** The header read with the archived option layout. */
  function FixedHeaderOf(b: seq<byte>): (r: Option<ScriptHeader>)
    ensures r.Some? ==> Slice(b, 0, 4) == STORAGE_HEADER_MAGIC
  {
    HeaderWith(b, true)
  }

  /** What the firmware's header holds, as the script's attributes. */
  function Expected(h: FlashStore.Header): ScriptHeader
  {
    ScriptHeader(
      h.epoch,
      if h.graphId.Some? then Some(h.graphId.value) else None,
      if h.head.Some? then Some((h.head.value.0 as nat, h.head.value.1 as nat)) else None,
      h.storedBytes)
  }

  method NewHeader(b: seq<byte>) returns (r: Option<ScriptHeader>)
    ensures r == HeaderOf(b)
  {
    var c := new Cursor(b, true);
    var magic := c.GetBytes(4);
    if magic != STORAGE_HEADER_MAGIC {
      return None;
    }
    var epoch := c.GetU32();
    if epoch.None? {
      return None;
    }
    var graph := c.GetOption(Id);
    if graph.None? {
      return None;
    }
    c.Align(4);
    var head := c.GetOption(U32Pair);
    if head.None? {
      return None;
    }
    var stored := c.GetU32();
    if stored.None? {
      return None;
    }
    r := Some(ScriptHeader(
      epoch.value,
      if graph.value.Some? then Some(graph.value.value.data) else None,
      if head.value.Some? then Some((head.value.value.first, head.value.value.second)) else None,
      stored.value));
  }

  /** Where the fields sit in the 56 archived bytes. */
  lemma {:induction false} EncodedHeaderFields(h: FlashStore.Header)
    ensures var s := FlashStore.EncodeHeader(h);
      && s[0..4] == LE32(h.epoch)
      && s[4] == FlashStore.Tag(h.graphId.Some?)
      && s[5..37] == (if h.graphId.Some? then h.graphId.value else FlashStore.Zeros(32))
      && s[40] == FlashStore.Tag(h.head.Some?)
      && s[44..52] == (if h.head.Some? then LE32(h.head.value.0) + LE32(h.head.value.1) else FlashStore.Zeros(8))
      && s[52..56] == LE32(h.storedBytes)
  {
    var s := FlashStore.EncodeHeader(h);
    var g := if h.graphId.Some? then h.graphId.value else FlashStore.Zeros(32);
    var p := if h.head.Some? then LE32(h.head.value.0) + LE32(h.head.value.1) else FlashStore.Zeros(8);
    assert s == LE32(h.epoch) + [FlashStore.Tag(h.graphId.Some?)] + g + FlashStore.Zeros(3)
      + [FlashStore.Tag(h.head.Some?)] + FlashStore.Zeros(3) + p + LE32(h.storedBytes);
  }

  /** Where the fields of a written header sit, counted from the partition base. */
  lemma {:induction false} HeaderLayout(h: FlashStore.Header, rest: seq<byte>)
    ensures var b := FlashStore.HeaderBytes(h) + rest;
      && |b| >= 60
      && Slice(b, 0, 4) == STORAGE_HEADER_MAGIC
      && Slice(b, 4, 4) == LE32(h.epoch)
      && b[8] == FlashStore.Tag(h.graphId.Some?)
      && Slice(b, 9, 32) == (if h.graphId.Some? then h.graphId.value else FlashStore.Zeros(32))
      && b[44] == FlashStore.Tag(h.head.Some?)
      && Slice(b, 48, 4) == (if h.head.Some? then LE32(h.head.value.0) else FlashStore.Zeros(4))
      && Slice(b, 52, 4) == (if h.head.Some? then LE32(h.head.value.1) else FlashStore.Zeros(4))
      && Slice(b, 56, 4) == LE32(h.storedBytes)
  {
    var s := FlashStore.EncodeHeader(h);
    var b := FlashStore.HeaderBytes(h) + rest;
    EncodedHeaderFields(h);
    assert b == STORAGE_HEADER_MAGIC + s + rest;
    assert b[4..8] == s[0..4];
    assert b[9..41] == s[5..37];
    assert b[48..52] == s[44..52][0..4];
    assert b[52..56] == s[44..52][4..8];
    assert b[56..60] == s[52..56];
  }

  /** Without a graph id the script reads the head flag and stored bytes from the absent id's zeroed slot. */
  lemma {:induction false} AbsentIdLayout(h: FlashStore.Header, rest: seq<byte>)
    requires h.graphId.None?
    ensures var b := FlashStore.HeaderBytes(h) + rest;
      b[12] == 0 && Slice(b, 16, 4) == FlashStore.Zeros(4)
  {
    var b := FlashStore.HeaderBytes(h) + rest;
    HeaderLayout(h, rest);
    assert b[12] == Slice(b, 9, 32)[3];
    assert b[16..20] == Slice(b, 9, 32)[7..11];
  }

  /** A little-endian `u32` at an aligned position. */
  lemma {:induction false} ReadU32(b: seq<byte>, c: nat, x: u32)
    requires c % 4 == 0 && Slice(b, c, 4) == LE32(x)
    ensures U32At(b, c, true) == Read(Some(x), c + 4)
  {
    LE32RoundTrip(x);
  }

  /** The graph-id option at 8, present or absent. */
  lemma {:induction false} ReadGraphId(b: seq<byte>, h: FlashStore.Header, skipAbsent: bool)
    requires |b| >= 60 && b[8] == FlashStore.Tag(h.graphId.Some?)
    requires Slice(b, 9, 32) == (if h.graphId.Some? then h.graphId.value else FlashStore.Zeros(32))
    ensures h.graphId.Some? ==> HeaderOptionAt(b, 8, Id, skipAbsent) == Read(Some(Some(Bytes(h.graphId.value))), 41)
    ensures h.graphId.None? ==> HeaderOptionAt(b, 8, Id, skipAbsent) == Read(Some(None), if skipAbsent then 41 else 9)
  {
  }

  /** The head option at 44, present or absent. */
  lemma {:induction false} ReadHead(b: seq<byte>, h: FlashStore.Header, skipAbsent: bool)
    requires |b| >= 60 && b[44] == FlashStore.Tag(h.head.Some?)
    requires Slice(b, 48, 4) == (if h.head.Some? then LE32(h.head.value.0) else FlashStore.Zeros(4))
    requires Slice(b, 52, 4) == (if h.head.Some? then LE32(h.head.value.1) else FlashStore.Zeros(4))
    ensures h.head.Some? ==> HeaderOptionAt(b, 44, U32Pair, skipAbsent) == Read(Some(Some(Pair(h.head.value.0, h.head.value.1))), 56)
    ensures h.head.None? ==> HeaderOptionAt(b, 44, U32Pair, skipAbsent) == Read(Some(None), if skipAbsent then 56 else 45)
  {
    if h.head.Some? {
      ReadU32(b, 48, h.head.value.0);
      ReadU32(b, 52, h.head.value.1);
    }
  }

  /** The header read once the magic, epoch and both options are known. */
  lemma {:induction false} HeaderFromParts(b: seq<byte>, skipAbsent: bool, epoch: u32, graph: Read<Option<Value>>, head: Read<Option<Value>>, stored: u32)
    requires Slice(b, 0, 4) == STORAGE_HEADER_MAGIC && U32At(b, 4, true) == Read(Some(epoch), 8)
    requires HeaderOptionAt(b, 8, Id, skipAbsent) == graph && graph.value.Some?
    requires HeaderOptionAt(b, AlignUp(graph.pos, 4), U32Pair, skipAbsent) == head && head.value.Some?
    requires U32At(b, head.pos, true).value == Some(stored)
    ensures graph.value.value.Some? ==> graph.value.value.value.Bytes?
    ensures head.value.value.Some? ==> head.value.value.value.Pair?
    ensures HeaderWith(b, skipAbsent) == Some(ScriptHeader(
      epoch,
      if graph.value.value.Some? then Some(graph.value.value.value.data) else None,
      if head.value.value.Some? then Some((head.value.value.value.first, head.value.value.value.second)) else None,
      stored))
  {
  }

  /** With both options present, the script reads back every field `write_header` wrote. */
  lemma {:induction false} HeaderReadsWritten(h: FlashStore.Header, rest: seq<byte>)
    requires h.graphId.Some? && h.head.Some?
    ensures HeaderOf(FlashStore.HeaderBytes(h) + rest) == Some(Expected(h))
  {
    var b := FlashStore.HeaderBytes(h) + rest;
    HeaderLayout(h, rest);
    ReadU32(b, 4, h.epoch);
    ReadGraphId(b, h, false);
    ReadHead(b, h, false);
    ReadU32(b, 56, h.storedBytes);
    HeaderFromParts(b, false, h.epoch, HeaderOptionAt(b, 8, Id, false), HeaderOptionAt(b, 44, U32Pair, false), h.storedBytes);
  }

  /**
   * With the graph id present but no head, `get_option` does not step over
   * the absent head's eight bytes, so `stored_bytes` is read from the
   * zeroed head slot.
   */
  lemma {:induction false} HeaderMisreadsStored(h: FlashStore.Header, rest: seq<byte>)
    requires h.graphId.Some? && h.head.None? && h.storedBytes != 0
    ensures HeaderOf(FlashStore.HeaderBytes(h) + rest) == Some(ScriptHeader(h.epoch, h.graphId, None, 0))
    ensures HeaderOf(FlashStore.HeaderBytes(h) + rest) != Some(Expected(h))
  {
    var b := FlashStore.HeaderBytes(h) + rest;
    HeaderLayout(h, rest);
    ReadU32(b, 4, h.epoch);
    ReadGraphId(b, h, false);
    ReadHead(b, h, false);
    assert LE32(0) == FlashStore.Zeros(4);
    ReadU32(b, 48, 0);
    HeaderFromParts(b, false, h.epoch, HeaderOptionAt(b, 8, Id, false), HeaderOptionAt(b, 44, U32Pair, false), 0);
  }

  /**
   * Without a graph id the script reads the head flag at 12 and the stored
   * bytes at 16, both inside the absent id's zeroed slot: a written head is
   * lost.
   */
  lemma {:induction false} HeaderMisreadsWithoutId(h: FlashStore.Header, rest: seq<byte>)
    requires h.graphId.None?
    ensures HeaderOf(FlashStore.HeaderBytes(h) + rest) == Some(ScriptHeader(h.epoch, None, None, 0))
  {
    var b := FlashStore.HeaderBytes(h) + rest;
    HeaderLayout(h, rest);
    AbsentIdLayout(h, rest);
    ReadU32(b, 4, h.epoch);
    ReadGraphId(b, h, false);
    assert LE32(0) == FlashStore.Zeros(4);
    ReadU32(b, 16, 0);
    HeaderFromParts(b, false, h.epoch, HeaderOptionAt(b, 8, Id, false), HeaderOptionAt(b, 12, U32Pair, false), 0);
  }

  /** A concrete case: a header written before the first commit, holding 100 stored bytes. */
  lemma {:induction false} HeaderMisreadExample()
    ensures var h := FlashStore.Header(1, Some(FlashStore.Zeros(32)), None, 100);
      HeaderOf(FlashStore.HeaderBytes(h)).Some? && HeaderOf(FlashStore.HeaderBytes(h)).value.storedBytes == 0
  {
    var h := FlashStore.Header(1, Some(FlashStore.Zeros(32)), None, 100);
    HeaderMisreadsStored(h, []);
    assert FlashStore.HeaderBytes(h) + [] == FlashStore.HeaderBytes(h);
  }

  /** Round trip: with the archived option layout every written header reads back. */
  lemma {:induction false} FixedHeaderReadsWritten(h: FlashStore.Header, rest: seq<byte>)
    ensures FixedHeaderOf(FlashStore.HeaderBytes(h) + rest) == Some(Expected(h))
  {
    var b := FlashStore.HeaderBytes(h) + rest;
    HeaderLayout(h, rest);
    ReadU32(b, 4, h.epoch);
    ReadGraphId(b, h, true);
    ReadHead(b, h, true);
    ReadU32(b, 56, h.storedBytes);
    HeaderFromParts(b, true, h.epoch, HeaderOptionAt(b, 8, Id, true), HeaderOptionAt(b, 44, U32Pair, true), h.storedBytes);
  }

  // ---------------------------------------------------------------- segments

  const POLICY_LEN: nat := 32

  /** `Segment.type`: from the number of parents. */
  datatype SegmentType = Init | Basic | Merge

  /** The attributes `decode_data` keeps; the commands, max cut and skip list are read and dropped. */
  datatype SegmentData = SegmentData(prior: seq<(nat, nat)>, parents: seq<(seq<byte>, nat)>, policy: seq<byte>, facts: nat)

  /** A `Segment` object's attributes. */
  datatype Segment = Segment(offset: nat, size: nat, data: seq<byte>, fields: SegmentData, kind: SegmentType)

  function Locations(vs: seq<Value>): (r: seq<(nat, nat)>)
    requires forall v | v in vs :: v.Pair?
    ensures |r| == |vs| && forall i | 0 <= i < |vs| :: r[i] == (vs[i].first, vs[i].second)
  {
    seq(|vs|, i requires 0 <= i < |vs| => (vs[i].first, vs[i].second))
  }

  function Addresses(vs: seq<Value>): (r: seq<(seq<byte>, nat)>)
    requires forall v | v in vs :: v.Address?
    ensures |r| == |vs| && forall i | 0 <= i < |vs| :: r[i] == (vs[i].id, vs[i].maxCut)
  {
    seq(|vs|, i requires 0 <= i < |vs| => (vs[i].id, vs[i].maxCut))
  }

  /** The segment's offset varint (read and dropped), prior, parents, policy and facts. */
  function LeadingAt(d: seq<byte>): (r: Read<SegmentData>)
    ensures r.value.Some? ==> |r.value.value.prior| <= 2 && |r.value.value.parents| <= 2
  {
    var offset := LebAt(d, 0);
    if offset.value.None? then Read(None, offset.pos)
    else
      var prior := PriorAt(d, offset.pos, false, Loc);
      if prior.value.None? then Read(None, prior.pos)
      else
        var parents := PriorAt(d, prior.pos, false, Addr);
        if parents.value.None? then Read(None, parents.pos)
        else
          var policy := BytesAt(d, parents.pos, POLICY_LEN);
          var facts := LebAt(d, policy.pos);
          if facts.value.None? then Read(None, facts.pos)
          else
            Read(Some(SegmentData(Locations(prior.value.value), Addresses(parents.value.value), policy.value.value, facts.value.value)), facts.pos)
  }

  /** `decode_data`: the leading fields, then the commands, the max cut and the skip list, each of which may raise. */
  function DataOf(d: seq<byte>): (r: Option<SegmentData>)
    ensures r.Some? ==> r == LeadingAt(d).value && |r.value.parents| <= 2
  {
    var lead := LeadingAt(d);
    if lead.value.None? then None
    else
      var commands := ArrayAt(d, lead.pos, false, CommandData);
      if commands.value.None? then None
      else
        var maxCut := LebAt(d, commands.pos);
        if maxCut.value.None? then None
        else
          var skip := ArrayAt(d, maxCut.pos, false, SkipEntry);
          if skip.value.None? then None else lead.value
  }

  function KindOf(parents: nat): (r: SegmentType)
    requires parents <= 2
  {
    if parents == 0 then Init else if parents == 1 then Basic else Merge
  }

  /** The type names the parent count: init, basic or merge for 0, 1 or 2. */
  lemma {:induction false} KindCounts(parents: nat)
    requires parents <= 2
    ensures KindOf(parents) == Init <==> parents == 0
    ensures KindOf(parents) == Basic <==> parents == 1
    ensures KindOf(parents) == Merge <==> parents == 2
  {
  }

  /** Where the record of the segment at `offset` starts. */
  function RecordAt(offset: nat): nat
  {
    offset + DATA_OFFSET
  }

  /**
   * `Segment(offset)`: the magic at `offset + 4096`, the little-endian size
   * after it (`struct.unpack_from` raises when four bytes are not there),
   * and the data after that, cut short at the end of the file.
   */
  function SegmentOf(b: seq<byte>, offset: nat): (r: Option<Segment>)
    ensures r.Some? ==> Slice(b, RecordAt(offset), 4) == SEGMENT_HEADER_MAGIC && RecordAt(offset) + 8 <= |b|
    ensures r.Some? ==> r.value.offset == offset
  {
    var at := RecordAt(offset);
    if Slice(b, at, 4) != SEGMENT_HEADER_MAGIC || at + 8 > |b| then None
    else
      var size := FromLE32(b[at + 4..at + 8]);
      SegmentFrom(offset, size, Slice(b, at + 8, size))
  }

  /** The segment whose record holds `size` and the payload `data`. */
  function SegmentFrom(offset: nat, size: nat, data: seq<byte>): (r: Option<Segment>)
    ensures r.Some? ==> r.value.offset == offset && r.value.size == size && r.value.data == data
    ensures r.Some? ==> |r.value.fields.parents| <= 2 && r.value.kind == KindOf(|r.value.fields.parents|)
  {
    var fields := DataOf(data);
    if fields.None? then None
    else Some(Segment(offset, size, data, fields.value, KindOf(|fields.value.parents|)))
  }

  /** Only offsets whose record header lies inside the file decode. */
  lemma {:induction false} SegmentInside(b: seq<byte>, offset: nat)
    requires SegmentOf(b, offset).Some?
    ensures offset < |b|
  {
  }

  /** A complete record decodes to exactly its payload, whatever follows it. */
  lemma {:induction false} SegmentReadsRecord(b: seq<byte>, offset: nat, item: seq<byte>)
    requires |item| <= U32_MAX
    requires RecordAt(offset) + 8 + |item| <= |b|
    requires b[RecordAt(offset)..RecordAt(offset) + 8 + |item|] == FlashStore.Record(item)
    ensures SegmentOf(b, offset) == SegmentFrom(offset, |item|, item)
  {
    var at := RecordAt(offset);
    var rec := b[at..at + 8 + |item|];
    RecordFields(rec, item);
    SubSlice(b, at, at + 8 + |item|, 0, 4);
    SubSlice(b, at, at + 8 + |item|, 4, 8);
    SubSlice(b, at, at + 8 + |item|, 8, 8 + |item|);
    assert rec[8..8 + |item|] == rec[8..];
    LE32RoundTrip(|item|);
    var size := FromLE32(b[at + 4..at + 8]);
    assert size == |item|;
    assert Slice(b, at + 8, size) == item;
  }

  lemma {:induction false} SubSlice(b: seq<byte>, i: nat, j: nat, k: nat, l: nat)
    requires i <= j <= |b| && k <= l <= j - i
    ensures b[i..j][k..l] == b[i + k..i + l]
  {
    assert forall x | 0 <= x < l - k :: b[i..j][k..l][x] == b[i + k + x];
  }

  lemma {:induction false} RecordFields(rec: seq<byte>, item: seq<byte>)
    requires |item| <= U32_MAX && rec == FlashStore.Record(item)
    ensures rec[0..4] == SEGMENT_HEADER_MAGIC && rec[4..8] == LE32(|item|) && rec[8..] == item
  {
    assert rec == SEGMENT_HEADER_MAGIC + LE32(|item|) + item;
  }

  /** `Cursor(self.data)` through `decode_data`. */
  method DecodeData(data: seq<byte>) returns (r: Option<SegmentData>)
    ensures r == DataOf(data)
  {
    var c := new Cursor(data, false);
    var offset := c.GetLeb();
    if offset.None? {
      return None;
    }
    var prior := c.GetPrior(Loc);
    if prior.None? {
      return None;
    }
    var parents := c.GetPrior(Addr);
    if parents.None? {
      return None;
    }
    var policy := c.GetBytes(POLICY_LEN);
    var facts := c.GetLeb();
    if facts.None? {
      return None;
    }
    var fields := SegmentData(Locations(prior.value), Addresses(parents.value), policy, facts.value);
    var commands := c.GetArray(CommandData);
    if commands.None? {
      return None;
    }
    var maxCut := c.GetLeb();
    if maxCut.None? {
      return None;
    }
    var skip := c.GetArray(SkipEntry);
    if skip.None? {
      return None;
    }
    r := Some(fields);
  }

  /** `Segment(offset)` over the file's bytes `b`. */
  method NewSegment(b: seq<byte>, offset: nat) returns (r: Option<Segment>)
    ensures r == SegmentOf(b, offset)
  {
    var at := offset + DATA_OFFSET;
    if Slice(b, at, 4) != SEGMENT_HEADER_MAGIC || at + 8 > |b| {
      return None;
    }
    var size := FromLE32(b[at + 4..at + 8]);
    var data := Slice(b, at + 8, size);
    var fields := DecodeData(data);
    if fields.None? {
      return None;
    }
    assert SegmentOf(b, offset) == SegmentFrom(offset, size, data);
    var parentCount := |fields.value.parents|;
    var kind := if parentCount == 0 then Init else if parentCount == 1 then Basic else Merge;
    r := Some(Segment(offset, size, data, fields.value, kind));
  }

  // ---------------------------------------------------------------- walk

  /** The offsets a segment's priors point at: `p[0]` for each `p` in `seg.prior`. */
  function PriorOffsets(s: Segment): (r: seq<nat>)
    ensures |r| == |s.fields.prior| && forall i | 0 <= i < |r| :: r[i] == s.fields.prior[i].0
  {
    seq(|s.fields.prior|, i requires 0 <= i < |s.fields.prior| => s.fields.prior[i].0)
  }

  /** Every offset's segment, as `Segment(offset)` would build it from the file `b`. */
  function SegmentsOf(b: seq<byte>): (r: nat -> Option<Segment>)
  {
    (o: nat) => SegmentOf(b, o)
  }

  ghost predicate Edge(segmentAt: nat -> Option<Segment>, a: nat, t: nat)
  {
    segmentAt(a).Some? && t in PriorOffsets(segmentAt(a).value)
  }

  ghost predicate IsPath(segmentAt: nat -> Option<Segment>, p: seq<nat>)
  {
    |p| > 0 && forall i | 0 <= i < |p| - 1 :: Edge(segmentAt, p[i], p[i + 1])
  }

  /** `t` is reached from `a` along priors. */
  ghost predicate Reaches(segmentAt: nat -> Option<Segment>, a: nat, t: nat)
  {
    exists p :: IsPath(segmentAt, p) && p[0] == a && p[|p| - 1] == t
  }

  lemma {:induction false} ReachesSelf(segmentAt: nat -> Option<Segment>, a: nat)
    ensures Reaches(segmentAt, a, a)
  {
    assert IsPath(segmentAt, [a]);
  }

  /** A prior's reach is the segment's reach. */
  lemma {:induction false} ReachesThrough(segmentAt: nat -> Option<Segment>, a: nat, t: nat, k: nat)
    requires Edge(segmentAt, a, t) && Reaches(segmentAt, t, k)
    ensures Reaches(segmentAt, a, k)
  {
    var p :| IsPath(segmentAt, p) && p[0] == t && p[|p| - 1] == k;
    var q := [a] + p;
    assert forall j | 0 < j < |q| - 1 :: q[j] == p[j - 1] && q[j + 1] == p[j];
    assert IsPath(segmentAt, q);
  }

  predicate Distinct(xs: seq<nat>)
  {
    forall i, j | 0 <= i < j < |xs| :: xs[i] != xs[j]
  }

  /** Each recorded entry is its offset's segment, and `order` lists each recorded offset once. */
  ghost predicate Recorded(segmentAt: nat -> Option<Segment>, segments: map<nat, Segment>, order: seq<nat>)
  {
    && (forall k | k in segments :: segmentAt(k) == Some(segments[k]))
    && Distinct(order)
    && (forall k :: k in order <==> k in segments)
  }

  /** Every recorded segment outside `open` has its priors recorded. */
  ghost predicate ClosedExcept(segments: map<nat, Segment>, open: set<nat>)
  {
    forall k | k in segments && k !in open :: forall t | t in PriorOffsets(segments[k]) :: t in segments
  }

  /** The offsets recorded since `initial` are all reached from `a`. */
  ghost predicate AddedReached(segmentAt: nat -> Option<Segment>, a: nat, initial: set<nat>, keys: set<nat>)
  {
    forall k | k in keys && k !in initial :: Reaches(segmentAt, a, k)
  }

  /** `order` continues `prefix`. */
  predicate Extends(order: seq<nat>, prefix: seq<nat>)
  {
    |prefix| <= |order| && order[..|prefix|] == prefix
  }

  /** The offsets below `limit` not yet in `keys`: what bounds the walk. */
  function Outside(limit: nat, keys: set<nat>): set<nat>
  {
    set o: nat | o < limit && o !in keys
  }

  /** Recording more offsets leaves fewer outside; strictly fewer when `o` below the limit is added. */
  lemma {:induction false} OutsideShrinks(limit: nat, a: set<nat>, b: set<nat>, o: nat)
    requires a <= b
    ensures Outside(limit, b) <= Outside(limit, a)
    ensures o < limit && o !in a && o in b ==> Outside(limit, b) < Outside(limit, a)
  {
    if o < limit && o !in a && o in b {
      assert o in Outside(limit, a) && o !in Outside(limit, b);
    }
  }

  /**
   * The script's global `segments` dict: its entries, and its keys in
   * insertion order (the order `segments.values()` yields them).
   * `segmentAt` is `Segment(offset)` over the file, and no offset at or
   * past `limit` decodes.
   */
  class Walker {
    const segmentAt: nat -> Option<Segment>
    const limit: nat
    var segments: map<nat, Segment>
    var order: seq<nat>

    ghost predicate Valid()
      reads this
    {
      && (forall o: nat | segmentAt(o).Some? :: o < limit)
      && Recorded(segmentAt, segments, order)
    }

    constructor(segmentAt: nat -> Option<Segment>, limit: nat)
      requires forall o: nat | segmentAt(o).Some? :: o < limit
      ensures this.segmentAt == segmentAt && this.limit == limit
      ensures segments == map[] && order == []
      ensures Valid() && ClosedExcept(segments, {})
    {
      this.segmentAt := segmentAt;
      this.limit := limit;
      segments := map[];
      order := [];
    }

    /**
     * `walk_segment_tree(offset)`: nothing if the offset is recorded;
     * otherwise decode it, record it, and walk each prior in turn.
     * `ok` is false where `Segment(offset)` raises, which ends the
     * script. `open` holds the offsets whose walks are still running.
     */
    method WalkSegmentTree(offset: nat, ghost open: set<nat>) returns (ok: bool)
      requires Valid() && ClosedExcept(segments, open)
      modifies this
      ensures Valid() && Extends(order, old(order)) && old(segments).Keys <= segments.Keys
      ensures AddedReached(segmentAt, offset, old(segments).Keys, segments.Keys)
      ensures ok ==> offset in segments && ClosedExcept(segments, open)
      decreases Outside(limit, segments.Keys)
    {
      if offset in segments {
        return true;
      }
      var seg := segmentAt(offset);
      if seg.None? {
        return false;
      }
      segments := segments[offset := seg.value];
      order := order + [offset];
      Visited(segmentAt, old(segments), old(order), offset, seg.value, open);
      ghost var start := Outside(limit, segments.Keys);
      OutsideShrinks(limit, old(segments).Keys, segments.Keys, offset);
      var prior := PriorOffsets(seg.value);
      for i := 0 to |prior|
        invariant Valid() && ClosedExcept(segments, open + {offset})
        invariant Extends(order, old(order)) && old(segments).Keys <= segments.Keys
        invariant Outside(limit, segments.Keys) <= start
        invariant AddedReached(segmentAt, offset, old(segments).Keys, segments.Keys)
        invariant offset in segments && segments[offset] == seg.value
        invariant forall j | 0 <= j < i :: prior[j] in segments
      {
        ghost var before := segments;
        ghost var orderBefore := order;
        ok := WalkSegmentTree(prior[i], open + {offset});
        PriorWalked(segmentAt, offset, prior, i, old(segments).Keys, old(order), before, orderBefore, segments, order);
        OutsideShrinks(limit, before.Keys, segments.Keys, offset);
        if !ok {
          return false;
        }
      }
      return true;
    }
  }

  /** Recording a newly decoded segment keeps the dict consistent and leaves only it open. */
  lemma {:induction false} Visited(segmentAt: nat -> Option<Segment>, segments: map<nat, Segment>, order: seq<nat>, offset: nat, seg: Segment, open: set<nat>)
    requires Recorded(segmentAt, segments, order) && ClosedExcept(segments, open)
    requires offset !in segments && segmentAt(offset) == Some(seg)
    ensures Recorded(segmentAt, segments[offset := seg], order + [offset])
    ensures ClosedExcept(segments[offset := seg], open + {offset})
    ensures Extends(order + [offset], order)
    ensures AddedReached(segmentAt, offset, segments.Keys, segments[offset := seg].Keys)
  {
    ReachesSelf(segmentAt, offset);
    assert (order + [offset])[..|order|] == order;
  }

  /** What one prior's walk leaves behind, given what the callee promises. */
  lemma {:induction false} PriorWalked(
    segmentAt: nat -> Option<Segment>, offset: nat, prior: seq<nat>, i: nat,
    initial: set<nat>, initialOrder: seq<nat>,
    before: map<nat, Segment>, orderBefore: seq<nat>,
    after: map<nat, Segment>, orderAfter: seq<nat>)
    requires i < |prior| && offset in before && segmentAt(offset).Some? && prior == PriorOffsets(segmentAt(offset).value)
    requires Recorded(segmentAt, before, orderBefore) && Recorded(segmentAt, after, orderAfter)
    requires Extends(orderBefore, initialOrder) && Extends(orderAfter, orderBefore)
    requires initial <= before.Keys <= after.Keys
    requires AddedReached(segmentAt, offset, initial, before.Keys)
    requires AddedReached(segmentAt, prior[i], before.Keys, after.Keys)
    requires forall j | 0 <= j < i :: prior[j] in before
    ensures Extends(orderAfter, initialOrder) && initial <= after.Keys
    ensures AddedReached(segmentAt, offset, initial, after.Keys)
    ensures offset in after
    ensures prior[i] in after ==> forall j | 0 <= j < i + 1 :: prior[j] in after
  {
    assert orderAfter[..|initialOrder|] == orderAfter[..|orderBefore|][..|initialOrder|];
    assert Edge(segmentAt, offset, prior[i]);
    forall k | k in after.Keys && k !in initial
      ensures Reaches(segmentAt, offset, k)
    {
      if k !in before.Keys {
        ReachesThrough(segmentAt, offset, prior[i], k);
      }
    }
    forall j | 0 <= j < i + 1 && prior[i] in after
      ensures prior[j] in after
    {
      if j < i {
        assert prior[j] in before.Keys;
      }
    }
  }

  /** A closed set of recorded segments holds everything reachable from its members. */
  lemma {:induction false} ClosedHoldsReachable(segmentAt: nat -> Option<Segment>, segments: map<nat, Segment>, a: nat, k: nat)
    requires forall s | s in segments :: segmentAt(s) == Some(segments[s])
    requires forall s | s in segments :: forall t | t in PriorOffsets(segments[s]) :: t in segments
    requires a in segments && Reaches(segmentAt, a, k)
    ensures k in segments
  {
    var p :| IsPath(segmentAt, p) && p[0] == a && p[|p| - 1] == k;
    var i := 0;
    while i < |p| - 1
      invariant 0 <= i < |p| && p[i] in segments
    {
      assert Edge(segmentAt, p[i], p[i + 1]);
      i := i + 1;
    }
  }

  /**
   * The script's top level: the header, the head segment (`h.head[0]`
   * raises a TypeError when there is no head), then the walk from it.
   * The result is the offsets in the order the dict holds them.
   */
  method Run(b: seq<byte>) returns (r: Option<seq<nat>>)
    ensures HeaderOf(b).None? || HeaderOf(b).value.head.None? ==> r.None?
    ensures r.Some? ==> HeaderOf(b).Some? && HeaderOf(b).value.head.Some?
    ensures r.Some? ==> var head := HeaderOf(b).value.head.value.0;
      && Distinct(r.value)
      && forall k :: k in r.value <==> Reaches(SegmentsOf(b), head, k)
  {
    var h := NewHeader(b);
    if h.None? || h.value.head.None? {
      return None;
    }
    var head := h.value.head.value.0;
    var headSeg := NewSegment(b, head);
    if headSeg.None? {
      return None;
    }
    forall o: nat | SegmentsOf(b)(o).Some?
      ensures o < |b|
    {
      SegmentInside(b, o);
    }
    var walker := new Walker(SegmentsOf(b), |b|);
    var ok := walker.WalkSegmentTree(head, {});
    if !ok {
      return None;
    }
    forall k
      ensures k in walker.order <==> Reaches(SegmentsOf(b), head, k)
    {
      if Reaches(SegmentsOf(b), head, k) {
        ClosedHoldsReachable(walker.segmentAt, walker.segments, head, k);
      }
    }
    r := Some(walker.order);
  }

  // ---------------------------------------------------------------- against the firmware's encoding

  /** The prior values the script builds for a stored prior. */
  function LocValues(p: DumpFormat.Prior<FlashStore.Location>): (r: seq<Value>)
    ensures |r| == DumpFormat.Tag(p) && forall v | v in r :: v.Pair?
  {
    match p
    case PriorNone => []
    case Single(x) => [Pair(x.segment, x.command)]
    case Merge(x, y) => [Pair(x.segment, x.command), Pair(y.segment, y.command)]
  }

  function AddrValues(p: DumpFormat.Prior<DumpFormat.Address>): (r: seq<Value>)
    ensures |r| == DumpFormat.Tag(p) && forall v | v in r :: v.Address?
  {
    match p
    case PriorNone => []
    case Single(x) => [Address(x.id, x.maxCut)]
    case Merge(x, y) => [Address(x.id, x.maxCut), Address(y.id, y.maxCut)]
  }

  /** The attributes the script should keep for a stored segment's leading fields. */
  function LeadOf(s: DumpFormat.SegmentHead): (r: SegmentData)
    ensures |r.parents| == DumpFormat.Tag(s.parents)
  {
    SegmentData(Locations(LocValues(s.prior)), Addresses(AddrValues(s.parents)), s.policy, s.facts)
  }

  // ------------------------------------------------ agreement with the firmware's decoders

  /** `s` is what `b` holds from position `c` on. */
  predicate At(b: seq<byte>, c: nat, s: seq<byte>)
  {
    c <= |b| && b[c..] == s
  }

  /**
   * Wherever the firmware's varint decoder accepts the bytes `s` from `c` on,
   * the script's `get_leb` reads the same number and stops where that
   * decoder's remainder begins.
   */
  lemma {:induction false} VarintAt(b: seq<byte>, c: nat, s: seq<byte>, max: nat, x: nat, rest: seq<byte>)
    requires At(b, c, s) && Postcard.DecVarint(s, max) == Some((x, rest))
    ensures |rest| < |s| && At(b, |b| - |rest|, rest)
    ensures LebAt(b, c) == Read(Some(x), |b| - |rest|)
  {
    LebAtDecodes(b, c);
    var p := Leb128.Decode(s).value;
    assert rest == s[p.1..] == b[c + p.1..];
  }

  /** `decode_location` reads what the firmware's location decoder accepts. */
  lemma {:induction false} LocationAt(b: seq<byte>, c: nat, s: seq<byte>, rkyv: bool, l: FlashStore.Location, rest: seq<byte>)
    requires At(b, c, s) && DumpFormat.DecodeLocation(s) == Some((l, rest))
    ensures |rest| < |s| && At(b, |b| - |rest|, rest)
    ensures DecodeAt(b, c, rkyv, Loc) == Read(Some(Pair(l.segment, l.command)), |b| - |rest|)
  {
    var a := Postcard.DecVarint(s, U64_MAX).value;
    VarintAt(b, c, s, U64_MAX, a.0, a.1);
    VarintAt(b, |b| - |a.1|, a.1, U64_MAX, l.command, rest);
  }

  /** `decode_address` reads what the firmware's address decoder accepts. */
  lemma {:induction false} AddressAt(b: seq<byte>, c: nat, s: seq<byte>, rkyv: bool, a: DumpFormat.Address, rest: seq<byte>)
    requires At(b, c, s) && DumpFormat.DecodeAddress(s) == Some((a, rest))
    ensures |rest| < |s| && At(b, |b| - |rest|, rest)
    ensures DecodeAt(b, c, rkyv, Addr) == Read(Some(Address(a.id, a.maxCut)), |b| - |rest|)
  {
    var id := Postcard.DecRaw(s, ID_LEN).value;
    assert Slice(b, c, ID_LEN) == s[..ID_LEN] == id.0;
    assert b[c + ID_LEN..] == s[ID_LEN..] == id.1;
    VarintAt(b, c + ID_LEN, id.1, U64_MAX, a.maxCut, rest);
  }

  /** One value, then nothing: a prior of one part. */
  lemma {:induction false} ItemsOne(b: seq<byte>, c: nat, rkyv: bool, d: Decoder, v: Value, next: nat)
    requires DecodeAt(b, c, rkyv, d) == Read(Some(v), next)
    ensures ItemsAt(b, c, rkyv, d, 1) == Read(Some([v]), next)
  {
    assert [v] + [] == [v];
  }

  /** Two values in a row: a prior of two parts. */
  lemma {:induction false} ItemsTwo(b: seq<byte>, c: nat, rkyv: bool, d: Decoder, v: Value, mid: nat, w: Value, next: nat)
    requires DecodeAt(b, c, rkyv, d) == Read(Some(v), mid)
    requires DecodeAt(b, mid, rkyv, d) == Read(Some(w), next)
    ensures ItemsAt(b, c, rkyv, d, 2) == Read(Some([v, w]), next)
  {
    ItemsOne(b, mid, rkyv, d, w, next);
    assert [v] + [w] == [v, w];
  }

  /** A prior is its tag, then that many values. */
  lemma {:induction false} PriorFromItems(b: seq<byte>, c: nat, rkyv: bool, d: Decoder, tag: nat, m: nat, items: seq<Value>, n: nat)
    requires tag <= 2 && LebAt(b, c) == Read(Some(tag), m)
    requires ItemsAt(b, m, rkyv, d, tag) == Read(Some(items), n)
    ensures PriorAt(b, c, rkyv, d) == Read(Some(items), n)
  {
  }

  /** A prior of one part, as the firmware's decoder took it apart. */
  lemma {:induction false} PriorLocationAtOne(b: seq<byte>, c: nat, s: seq<byte>, r0: seq<byte>, x: FlashStore.Location, rest: seq<byte>)
    requires At(b, c, s) && Postcard.DecVarint(s, U32_MAX) == Some((1, r0))
    requires DumpFormat.DecodeLocation(r0) == Some((x, rest))
    ensures |rest| < |s| && At(b, |b| - |rest|, rest)
    ensures PriorAt(b, c, false, Loc) == Read(Some([Pair(x.segment, x.command)]), |b| - |rest|)
  {
    VarintAt(b, c, s, U32_MAX, 1, r0);
    var m1 := |b| - |r0|;
    LocationAt(b, m1, r0, false, x, rest);
    ItemsOne(b, m1, false, Loc, Pair(x.segment, x.command), |b| - |rest|);
    PriorFromItems(b, c, false, Loc, 1, m1, [Pair(x.segment, x.command)], |b| - |rest|);
  }

  /** The two parts of a merge prior, as the firmware's decoder took them apart. */
  lemma {:induction false} LocationsAtTwo(b: seq<byte>, m: nat, r0: seq<byte>, x: FlashStore.Location, r1: seq<byte>, y: FlashStore.Location, rest: seq<byte>)
    requires At(b, m, r0)
    requires DumpFormat.DecodeLocation(r0) == Some((x, r1))
    requires DumpFormat.DecodeLocation(r1) == Some((y, rest))
    ensures |rest| < |r0| && At(b, |b| - |rest|, rest)
    ensures ItemsAt(b, m, false, Loc, 2) == Read(Some([Pair(x.segment, x.command), Pair(y.segment, y.command)]), |b| - |rest|)
  {
    var mid := |b| - |r1|;
    assert |r1| < |r0| && At(b, mid, r1) && DecodeAt(b, m, false, Loc) == Read(Some(Pair(x.segment, x.command)), mid) by {
      LocationAt(b, m, r0, false, x, r1);
    }
    LocationAt(b, mid, r1, false, y, rest);
    ItemsTwo(b, m, false, Loc, Pair(x.segment, x.command), mid, Pair(y.segment, y.command), |b| - |rest|);
  }

  /** A prior whose tag 2 has been read, followed by two locations. */
  lemma {:induction false} PriorOfTwoLocations(b: seq<byte>, c: nat, m: nat, r0: seq<byte>, x: FlashStore.Location, r1: seq<byte>, y: FlashStore.Location, rest: seq<byte>)
    requires LebAt(b, c) == Read(Some(2), m) && At(b, m, r0)
    requires DumpFormat.DecodeLocation(r0) == Some((x, r1))
    requires DumpFormat.DecodeLocation(r1) == Some((y, rest))
    ensures |rest| < |r0| && At(b, |b| - |rest|, rest)
    ensures PriorAt(b, c, false, Loc) == Read(Some([Pair(x.segment, x.command), Pair(y.segment, y.command)]), |b| - |rest|)
  {
    LocationsAtTwo(b, m, r0, x, r1, y, rest);
    PriorFromItems(b, c, false, Loc, 2, m, [Pair(x.segment, x.command), Pair(y.segment, y.command)], |b| - |rest|);
  }

  /** How the firmware's prior decoder took apart a prior without parts. */
  lemma {:induction false} PriorLocationNoneParts(s: seq<byte>, p: DumpFormat.Prior<FlashStore.Location>, rest: seq<byte>)
    requires DumpFormat.DecodePriorLocation(s) == Some((p, rest)) && p.PriorNone?
    ensures Postcard.DecVarint(s, U32_MAX) == Some((0, rest))
  {
  }

  /** How the firmware's prior decoder took apart a prior of one part. */
  lemma {:induction false} PriorLocationSingleParts(s: seq<byte>, p: DumpFormat.Prior<FlashStore.Location>, rest: seq<byte>) returns (r0: seq<byte>)
    requires DumpFormat.DecodePriorLocation(s) == Some((p, rest)) && p.Single?
    ensures Postcard.DecVarint(s, U32_MAX) == Some((1, r0))
    ensures DumpFormat.DecodeLocation(r0) == Some((p.p, rest))
  {
    r0 := Postcard.DecVarint(s, U32_MAX).value.1;
  }

  /** How the firmware's prior decoder took apart a prior of two parts. */
  lemma {:induction false} PriorLocationMergeParts(s: seq<byte>, p: DumpFormat.Prior<FlashStore.Location>, rest: seq<byte>) returns (r0: seq<byte>, r1: seq<byte>)
    requires DumpFormat.DecodePriorLocation(s) == Some((p, rest)) && p.Merge?
    ensures Postcard.DecVarint(s, U32_MAX) == Some((2, r0))
    ensures DumpFormat.DecodeLocation(r0) == Some((p.left, r1))
    ensures DumpFormat.DecodeLocation(r1) == Some((p.right, rest))
  {
    r0 := Postcard.DecVarint(s, U32_MAX).value.1;
    r1 := DumpFormat.DecodeLocation(r0).value.1;
  }

  /** `get_prior(decode_location)` reads what the firmware's prior decoder accepts. */
  lemma {:induction false} PriorLocationAt(b: seq<byte>, c: nat, s: seq<byte>, p: DumpFormat.Prior<FlashStore.Location>, rest: seq<byte>)
    requires At(b, c, s) && DumpFormat.DecodePriorLocation(s) == Some((p, rest))
    ensures |rest| < |s| && At(b, |b| - |rest|, rest)
    ensures PriorAt(b, c, false, Loc) == Read(Some(LocValues(p)), |b| - |rest|)
  {
    match p
    case PriorNone =>
      PriorLocationNoneParts(s, p, rest);
      PriorLocationAtNone(b, c, s, rest);
    case Single(x) =>
      var r0 := PriorLocationSingleParts(s, p, rest);
      PriorLocationAtOne(b, c, s, r0, x, rest);
    case Merge(x, y) =>
      var r0, r1 := PriorLocationMergeParts(s, p, rest);
      VarintAt(b, c, s, U32_MAX, 2, r0);
      PriorOfTwoLocations(b, c, |b| - |r0|, r0, x, r1, y, rest);
  }

  /** `PriorLocationAt` for a prior without parts. */
  lemma {:induction false} PriorLocationAtNone(b: seq<byte>, c: nat, s: seq<byte>, rest: seq<byte>)
    requires At(b, c, s) && Postcard.DecVarint(s, U32_MAX) == Some((0, rest))
    ensures |rest| < |s| && At(b, |b| - |rest|, rest)
    ensures PriorAt(b, c, false, Loc) == Read(Some([]), |b| - |rest|)
  {
    VarintAt(b, c, s, U32_MAX, 0, rest);
    PriorFromItems(b, c, false, Loc, 0, |b| - |rest|, [], |b| - |rest|);
  }

  /** A prior of one part, as the firmware's decoder took it apart. */
  lemma {:induction false} PriorAddressAtOne(b: seq<byte>, c: nat, s: seq<byte>, r0: seq<byte>, x: DumpFormat.Address, rest: seq<byte>)
    requires At(b, c, s) && Postcard.DecVarint(s, U32_MAX) == Some((1, r0))
    requires DumpFormat.DecodeAddress(r0) == Some((x, rest))
    ensures |rest| < |s| && At(b, |b| - |rest|, rest)
    ensures PriorAt(b, c, false, Addr) == Read(Some([Address(x.id, x.maxCut)]), |b| - |rest|)
  {
    VarintAt(b, c, s, U32_MAX, 1, r0);
    var m1 := |b| - |r0|;
    AddressAt(b, m1, r0, false, x, rest);
    ItemsOne(b, m1, false, Addr, Address(x.id, x.maxCut), |b| - |rest|);
    PriorFromItems(b, c, false, Addr, 1, m1, [Address(x.id, x.maxCut)], |b| - |rest|);
  }

  /** The two parts of a merge prior, as the firmware's decoder took them apart. */
  lemma {:induction false} AddressesAtTwo(b: seq<byte>, m: nat, r0: seq<byte>, x: DumpFormat.Address, r1: seq<byte>, y: DumpFormat.Address, rest: seq<byte>)
    requires At(b, m, r0)
    requires DumpFormat.DecodeAddress(r0) == Some((x, r1))
    requires DumpFormat.DecodeAddress(r1) == Some((y, rest))
    ensures |rest| < |r0| && At(b, |b| - |rest|, rest)
    ensures ItemsAt(b, m, false, Addr, 2) == Read(Some([Address(x.id, x.maxCut), Address(y.id, y.maxCut)]), |b| - |rest|)
  {
    var mid := |b| - |r1|;
    assert |r1| < |r0| && At(b, mid, r1) && DecodeAt(b, m, false, Addr) == Read(Some(Address(x.id, x.maxCut)), mid) by {
      AddressAt(b, m, r0, false, x, r1);
    }
    AddressAt(b, mid, r1, false, y, rest);
    ItemsTwo(b, m, false, Addr, Address(x.id, x.maxCut), mid, Address(y.id, y.maxCut), |b| - |rest|);
  }

  /** A prior of two parts, as the firmware's decoder took it apart. */
  lemma {:induction false} PriorAddressAtTwo(b: seq<byte>, c: nat, s: seq<byte>, r0: seq<byte>, x: DumpFormat.Address, r1: seq<byte>, y: DumpFormat.Address, rest: seq<byte>)
    requires At(b, c, s) && Postcard.DecVarint(s, U32_MAX) == Some((2, r0))
    requires DumpFormat.DecodeAddress(r0) == Some((x, r1))
    requires DumpFormat.DecodeAddress(r1) == Some((y, rest))
    ensures |rest| < |s| && At(b, |b| - |rest|, rest)
    ensures PriorAt(b, c, false, Addr) == Read(Some([Address(x.id, x.maxCut), Address(y.id, y.maxCut)]), |b| - |rest|)
  {
    VarintAt(b, c, s, U32_MAX, 2, r0);
    var m1 := |b| - |r0|;
    AddressesAtTwo(b, m1, r0, x, r1, y, rest);
    PriorFromItems(b, c, false, Addr, 2, m1, [Address(x.id, x.maxCut), Address(y.id, y.maxCut)], |b| - |rest|);
  }

  /** How the firmware's prior decoder took apart a prior without parts. */
  lemma {:induction false} PriorAddressNoneParts(s: seq<byte>, p: DumpFormat.Prior<DumpFormat.Address>, rest: seq<byte>)
    requires DumpFormat.DecodePriorAddress(s) == Some((p, rest)) && p.PriorNone?
    ensures Postcard.DecVarint(s, U32_MAX) == Some((0, rest))
  {
  }

  /** How the firmware's prior decoder took apart a prior of one part. */
  lemma {:induction false} PriorAddressSingleParts(s: seq<byte>, p: DumpFormat.Prior<DumpFormat.Address>, rest: seq<byte>) returns (r0: seq<byte>)
    requires DumpFormat.DecodePriorAddress(s) == Some((p, rest)) && p.Single?
    ensures Postcard.DecVarint(s, U32_MAX) == Some((1, r0))
    ensures DumpFormat.DecodeAddress(r0) == Some((p.p, rest))
  {
    r0 := Postcard.DecVarint(s, U32_MAX).value.1;
  }

  /** How the firmware's prior decoder took apart a prior of two parts. */
  lemma {:induction false} PriorAddressMergeParts(s: seq<byte>, p: DumpFormat.Prior<DumpFormat.Address>, rest: seq<byte>) returns (r0: seq<byte>, r1: seq<byte>)
    requires DumpFormat.DecodePriorAddress(s) == Some((p, rest)) && p.Merge?
    ensures Postcard.DecVarint(s, U32_MAX) == Some((2, r0))
    ensures DumpFormat.DecodeAddress(r0) == Some((p.left, r1))
    ensures DumpFormat.DecodeAddress(r1) == Some((p.right, rest))
  {
    r0 := Postcard.DecVarint(s, U32_MAX).value.1;
    r1 := DumpFormat.DecodeAddress(r0).value.1;
  }

  /** `get_prior(decode_address)` reads what the firmware's prior decoder accepts. */
  lemma {:induction false} PriorAddressAt(b: seq<byte>, c: nat, s: seq<byte>, p: DumpFormat.Prior<DumpFormat.Address>, rest: seq<byte>)
    requires At(b, c, s) && DumpFormat.DecodePriorAddress(s) == Some((p, rest))
    ensures |rest| < |s| && At(b, |b| - |rest|, rest)
    ensures PriorAt(b, c, false, Addr) == Read(Some(AddrValues(p)), |b| - |rest|)
  {
    match p
    case PriorNone =>
      PriorAddressNoneParts(s, p, rest);
      PriorAddressAtNone(b, c, s, rest);
    case Single(x) =>
      var r0 := PriorAddressSingleParts(s, p, rest);
      PriorAddressAtOne(b, c, s, r0, x, rest);
    case Merge(x, y) =>
      var r0, r1 := PriorAddressMergeParts(s, p, rest);
      PriorAddressAtTwo(b, c, s, r0, x, r1, y, rest);
  }

  /** `PriorAddressAt` for a prior without parts. */
  lemma {:induction false} PriorAddressAtNone(b: seq<byte>, c: nat, s: seq<byte>, rest: seq<byte>)
    requires At(b, c, s) && Postcard.DecVarint(s, U32_MAX) == Some((0, rest))
    ensures |rest| < |s| && At(b, |b| - |rest|, rest)
    ensures PriorAt(b, c, false, Addr) == Read(Some([]), |b| - |rest|)
  {
    VarintAt(b, c, s, U32_MAX, 0, rest);
    PriorFromItems(b, c, false, Addr, 0, |b| - |rest|, [], |b| - |rest|);
  }

  /** The leading fields once each read is known. */
  lemma {:induction false} LeadingFromReads(d: seq<byte>, offset: nat, c1: nat, prior: seq<Value>, c2: nat, parents: seq<Value>, c3: nat, policy: seq<byte>, c4: nat, facts: nat, c5: nat)
    requires LebAt(d, 0) == Read(Some(offset), c1)
    requires PriorAt(d, c1, false, Loc) == Read(Some(prior), c2)
    requires PriorAt(d, c2, false, Addr) == Read(Some(parents), c3)
    requires Slice(d, c3, POLICY_LEN) == policy && c4 == c3 + POLICY_LEN
    requires LebAt(d, c4) == Read(Some(facts), c5)
    ensures forall v | v in prior :: v.Pair?
    ensures forall v | v in parents :: v.Address?
    ensures LeadingAt(d) == Read(Some(SegmentData(Locations(prior), Addresses(parents), policy, facts)), c5)
  {
  }

  /** `LeadingFromReads`, with each position given by what the firmware's decoder left unread. */
  lemma {:induction false} LeadingPlaced(d: seq<byte>, s: DumpFormat.SegmentHead, r1: seq<byte>, r2: seq<byte>, r3: seq<byte>, tail: seq<byte>)
    requires |tail| < |r3| < |r2| < |r1| < |d|
    requires LebAt(d, 0) == Read(Some(s.offset), |d| - |r1|)
    requires PriorAt(d, |d| - |r1|, false, Loc) == Read(Some(LocValues(s.prior)), |d| - |r2|)
    requires PriorAt(d, |d| - |r2|, false, Addr) == Read(Some(AddrValues(s.parents)), |d| - |r3|)
    requires Slice(d, |d| - |r3|, POLICY_LEN) == s.policy
    requires LebAt(d, |d| - |r3| + POLICY_LEN) == Read(Some(s.facts), |d| - |tail|)
    ensures LeadingAt(d) == Read(Some(LeadOf(s)), |d| - |tail|)
  {
    LeadingFromReads(d, s.offset, |d| - |r1|, LocValues(s.prior), |d| - |r2|, AddrValues(s.parents), |d| - |r3|, s.policy, |d| - |r3| + POLICY_LEN, s.facts, |d| - |tail|);
  }

  /** The script's read of the offset, which starts the segment. */
  lemma {:induction false} LeadingOffset(d: seq<byte>, offset: nat, r1: seq<byte>)
    requires Postcard.DecVarint(d, U32_MAX) == Some((offset, r1))
    ensures |r1| < |d| && At(d, |d| - |r1|, r1)
    ensures LebAt(d, 0) == Read(Some(offset), |d| - |r1|)
  {
    assert d[0..] == d;
    VarintAt(d, 0, d, U32_MAX, offset, r1);
  }

  /** The script's reads of the offset and the prior locations, one firmware decoder step at a time. */
  lemma {:induction false} LeadingFront(d: seq<byte>, s: DumpFormat.SegmentHead, r1: seq<byte>, r2: seq<byte>)
    requires Postcard.DecVarint(d, U32_MAX) == Some((s.offset, r1))
    requires DumpFormat.DecodePriorLocation(r1) == Some((s.prior, r2))
    ensures |r2| < |r1| < |d| && At(d, |d| - |r2|, r2)
    ensures LebAt(d, 0) == Read(Some(s.offset), |d| - |r1|)
    ensures PriorAt(d, |d| - |r1|, false, Loc) == Read(Some(LocValues(s.prior)), |d| - |r2|)
  {
    var c1 := |d| - |r1|;
    assert |r1| < |d| && At(d, c1, r1) && LebAt(d, 0) == Read(Some(s.offset), c1) by {
      LeadingOffset(d, s.offset, r1);
    }
    assert |r2| < |r1| && At(d, |d| - |r2|, r2) && PriorAt(d, c1, false, Loc) == Read(Some(LocValues(s.prior)), |d| - |r2|) by {
      PriorLocationAt(d, c1, r1, s.prior, r2);
    }
  }

  /** The script's reads of the parent addresses, the policy id and the fact count. */
  lemma {:induction false} LeadingRest(d: seq<byte>, c: nat, r2: seq<byte>, parents: DumpFormat.Prior<DumpFormat.Address>, r3: seq<byte>, policy: seq<byte>, r4: seq<byte>, facts: nat, tail: seq<byte>)
    requires At(d, c, r2)
    requires DumpFormat.DecodePriorAddress(r2) == Some((parents, r3))
    requires Postcard.DecRaw(r3, POLICY_LEN) == Some((policy, r4))
    requires Postcard.DecVarint(r4, U32_MAX) == Some((facts, tail))
    ensures |tail| < |r3| < |r2|
    ensures PriorAt(d, c, false, Addr) == Read(Some(AddrValues(parents)), |d| - |r3|)
    ensures Slice(d, |d| - |r3|, POLICY_LEN) == policy
    ensures LebAt(d, |d| - |r3| + POLICY_LEN) == Read(Some(facts), |d| - |tail|)
  {
    PriorAddressAt(d, c, r2, parents, r3);
    var c3 := |d| - |r3|;
    assert Slice(d, c3, POLICY_LEN) == policy && LebAt(d, c3 + POLICY_LEN) == Read(Some(facts), |d| - |tail|) && |tail| < |r3| by {
      LeadingBack(d, c3, r3, policy, r4, facts, tail);
    }
  }

  /** The script's reads of the policy id and the fact count. */
  lemma {:induction false} LeadingBack(d: seq<byte>, c: nat, r3: seq<byte>, policy: seq<byte>, r4: seq<byte>, facts: nat, tail: seq<byte>)
    requires At(d, c, r3)
    requires Postcard.DecRaw(r3, POLICY_LEN) == Some((policy, r4))
    requires Postcard.DecVarint(r4, U32_MAX) == Some((facts, tail))
    ensures |tail| < |r4| && |r4| + POLICY_LEN == |d| - c
    ensures Slice(d, c, POLICY_LEN) == policy
    ensures LebAt(d, c + POLICY_LEN) == Read(Some(facts), |d| - |tail|)
  {
    assert Slice(d, c, POLICY_LEN) == r3[..POLICY_LEN] == policy;
    assert d[c + POLICY_LEN..] == r3[POLICY_LEN..] == r4;
    VarintAt(d, c + POLICY_LEN, r4, U32_MAX, facts, tail);
  }

  /** The script's reads, one firmware decoder step at a time. */
  lemma {:induction false} LeadingChain(d: seq<byte>, s: DumpFormat.SegmentHead, r1: seq<byte>, r2: seq<byte>, r3: seq<byte>, r4: seq<byte>, tail: seq<byte>)
    requires Postcard.DecVarint(d, U32_MAX) == Some((s.offset, r1))
    requires DumpFormat.DecodePriorLocation(r1) == Some((s.prior, r2))
    requires DumpFormat.DecodePriorAddress(r2) == Some((s.parents, r3))
    requires Postcard.DecRaw(r3, POLICY_LEN) == Some((s.policy, r4))
    requires Postcard.DecVarint(r4, U32_MAX) == Some((s.facts, tail))
    ensures |tail| <= |d|
    ensures LeadingAt(d) == Read(Some(LeadOf(s)), |d| - |tail|)
  {
    LeadingReads(d, s, r1, r2, r3, r4, tail);
    LeadingPlaced(d, s, r1, r2, r3, tail);
  }

  /** Each of the script's reads of the leading fields, one firmware decoder step at a time. */
  lemma {:induction false} LeadingReads(d: seq<byte>, s: DumpFormat.SegmentHead, r1: seq<byte>, r2: seq<byte>, r3: seq<byte>, r4: seq<byte>, tail: seq<byte>)
    requires Postcard.DecVarint(d, U32_MAX) == Some((s.offset, r1))
    requires DumpFormat.DecodePriorLocation(r1) == Some((s.prior, r2))
    requires DumpFormat.DecodePriorAddress(r2) == Some((s.parents, r3))
    requires Postcard.DecRaw(r3, POLICY_LEN) == Some((s.policy, r4))
    requires Postcard.DecVarint(r4, U32_MAX) == Some((s.facts, tail))
    ensures |tail| < |r3| < |r2| < |r1| < |d|
    ensures LebAt(d, 0) == Read(Some(s.offset), |d| - |r1|)
    ensures PriorAt(d, |d| - |r1|, false, Loc) == Read(Some(LocValues(s.prior)), |d| - |r2|)
    ensures PriorAt(d, |d| - |r2|, false, Addr) == Read(Some(AddrValues(s.parents)), |d| - |r3|)
    ensures Slice(d, |d| - |r3|, POLICY_LEN) == s.policy
    ensures LebAt(d, |d| - |r3| + POLICY_LEN) == Read(Some(s.facts), |d| - |tail|)
  {
    LeadingFront(d, s, r1, r2);
    LeadingRest(d, |d| - |r2|, r2, s.parents, r3, s.policy, r4, s.facts, tail);
  }

  /**
   * Whatever bytes the firmware's segment decoder accepts, the script reads
   * the same leading fields from them.
   */
  lemma {:induction false} LeadingAgrees(d: seq<byte>)
    requires DumpFormat.DecodeSegmentHead(d).Some?
    ensures LeadingAt(d).value == Some(LeadOf(DumpFormat.DecodeSegmentHead(d).value))
  {
    var o := Postcard.DecVarint(d, U32_MAX).value;
    var prior := DumpFormat.DecodePriorLocation(o.1).value;
    var parents := DumpFormat.DecodePriorAddress(prior.1).value;
    var policy := Postcard.DecRaw(parents.1, POLICY_LEN).value;
    var facts := Postcard.DecVarint(policy.1, U32_MAX).value;
    LeadingChain(d, DumpFormat.DecodeSegmentHead(d).value, o.1, prior.1, parents.1, policy.1, facts.1);
  }

  /** Round trip: the script reads the leading fields the firmware serialised, whatever follows them. */
  lemma {:induction false} LeadingReadsEncoding(s: DumpFormat.SegmentHead, tail: seq<byte>)
    requires DumpFormat.WellFormed(s)
    ensures LeadingAt(DumpFormat.EncodeSegmentHead(s) + tail) == Read(Some(LeadOf(s)), |DumpFormat.EncodeSegmentHead(s)|)
  {
    var r1, r2, r3, r4 := DumpFormat.SegmentHeadSteps(s, tail);
    var d := DumpFormat.EncodeSegmentHead(s) + tail;
    LeadingChain(d, s, r1, r2, r3, r4, tail);
  }

  /**
   * The script reads a complete record of a stored segment: whenever it
   * gets past the commands, max cut and skip list, it keeps exactly the
   * stored leading fields, the record's size and a type that names the
   * parent count.
   */
  lemma {:induction false} SegmentReadsStored(b: seq<byte>, offset: nat, s: DumpFormat.SegmentHead, tail: seq<byte>)
    requires DumpFormat.WellFormed(s)
    requires |DumpFormat.EncodeSegmentHead(s) + tail| <= U32_MAX
    requires RecordAt(offset) + 8 + |DumpFormat.EncodeSegmentHead(s) + tail| <= |b|
    requires b[RecordAt(offset)..RecordAt(offset) + 8 + |DumpFormat.EncodeSegmentHead(s) + tail|]
      == FlashStore.Record(DumpFormat.EncodeSegmentHead(s) + tail)
    ensures SegmentOf(b, offset).Some? ==>
      && SegmentOf(b, offset).value.fields == LeadOf(s)
      && SegmentOf(b, offset).value.size == |DumpFormat.EncodeSegmentHead(s) + tail|
      && SegmentOf(b, offset).value.kind == KindOf(DumpFormat.Tag(s.parents))
  {
    var item := DumpFormat.EncodeSegmentHead(s) + tail;
    SegmentReadsRecord(b, offset, item);
    LeadingReadsEncoding(s, tail);
  }
}
