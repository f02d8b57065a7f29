/**
 * The three-byte prefix of the TCP sync protocol: a big-endian 16-bit length
 * and a command byte whose high bit marks `Set` and whose low seven bits hold
 * the subject.
 */
module TcpFormat {
  import opened Bytes
  import opened Wrappers

  datatype Subject = GraphId | Sync
  datatype Command = Get(subject: Subject) | Set(subject: Subject)

  const PREFIX_LEN: nat := 3

  /** `subject as u8` */
  function SubjectCode(s: Subject): (b: byte)
    ensures b < 0x80
  {
    match s
    case GraphId => 0
    case Sync => 1
  }

  /** The command byte `write_prefix` stores. */
  function CommandByte(c: Command): (b: byte)
    ensures (b >= 0x80) <==> c.Set?
    ensures b % 0x80 == SubjectCode(c.subject)
  {
    match c
    case Get(s) => SubjectCode(s)
    case Set(s) => SubjectCode(s) + 0x80
  }

  /** `write_prefix`: writes bytes 0..3 of `buffer` and returns PREFIX_LEN. */
  method WritePrefix(buffer: array<byte>, length: u16, command: Command) returns (n: nat)
    requires buffer.Length >= PREFIX_LEN
    modifies buffer
    ensures n == PREFIX_LEN
    ensures buffer[..3] == BE16(length) + [CommandByte(command)]
    ensures buffer[3..] == old(buffer[3..])
  {
    buffer[0] := length / 0x100;
    buffer[1] := length % 0x100;
    buffer[2] := match command
      case Get(s) => SubjectCode(s)
      case Set(s) => SubjectCode(s) + 0x80;
    n := PREFIX_LEN;
  }

  /** `read_prefix`: the command and the length of what follows, if the prefix is well formed. */
  function ReadPrefix(buffer: seq<byte>): (r: Option<(Command, u16)>)
    ensures |buffer| < PREFIX_LEN ==> r.None?
    ensures |buffer| >= PREFIX_LEN ==> (r.None? <==> buffer[2] % 0x80 > 1)
    ensures r.Some? ==> r.value.1 == FromBE16(buffer[..2]) && r.value.0.Set? == (buffer[2] >= 0x80)
  {
    if |buffer| < PREFIX_LEN then None
    else
      var length: u16 := buffer[0] as int * 0x100 + buffer[1];
      var isSet := buffer[2] >= 0x80;
      var subjectNum := buffer[2] % 0x80;
      var subject := if subjectNum == 0 then Some(GraphId) else if subjectNum == 1 then Some(Sync) else None;
      if subject.None? then None
      else Some((if isSet then Set(subject.value) else Get(subject.value), length))
  }

  /** Round trip: reading back a written prefix gives the command and length, whatever else the buffer holds. */
  lemma {:induction false} PrefixRoundTrip(length: u16, command: Command, rest: seq<byte>)
    ensures ReadPrefix(BE16(length) + [CommandByte(command)] + rest) == Some((command, length))
  {
  }

  /** Every well-formed prefix is the encoding of what it decodes to. */
  lemma {:induction false} PrefixUnique(buffer: seq<byte>)
    requires ReadPrefix(buffer).Some?
    ensures var (c, l) := ReadPrefix(buffer).value; buffer[..3] == BE16(l) + [CommandByte(c)]
  {
  }
}
