/**
 * The USB serial console of the chat application: a byte-driven state
 * machine that frames commands as `SOH name STX data EOT`, dispatches them to
 * the application, and writes responses in the same framing in packets of at
 * most 64 bytes.
 */
module Serial {
  import opened Bytes
  import opened Wrappers
  import Text

  const MAX_SERIAL_PACKET_SIZE: nat := 64
  const SOH: byte := 0x01
  const STX: byte := 0x02
  const ETX: byte := 0x03
  const EOT: byte := 0x04
  const CR: byte := 0x0D
  const SUB: byte := 0x1A
  const ESC: byte := 0x1B
  const LF: byte := 0x0A
  /** Capacities of the command and data strings. */
  const COMMAND_CAPACITY: nat := 8
  const DATA_CAPACITY: nat := 80

  /**
   * Text is modelled one character per byte; `Latin1` maps it to the bytes
   * written (non-ASCII text would be UTF-8 encoded by the firmware).
   */
  function Latin1(s: string): (b: seq<byte>)
    ensures |b| == |s|
  {
    seq(|s|, i requires 0 <= i < |s| => (s[i] as int) % 0x100)
  }

  function AsText(b: seq<byte>): (s: string)
    ensures |s| == |b| && Latin1(s) == b
  {
    seq(|b|, i requires 0 <= i < |b| => b[i] as char)
  }

  /** A chat message as the application buffers it. */
  datatype ChatMessage = ChatMessage(ts: nat, id: seq<byte>, author: string, msg: string)

  datatype SerialCommand = SendMessage(text: string) | GetMessages(instant: u64) | Rainbow | SetAmbientColor(color: (byte, byte, byte))

  datatype SerialResponse = MessageData(messages: seq<ChatMessage>) | Sent

  datatype SerialCommandState = Idle | Command | Data

  /** `valid_text_char`: BEL, TAB through CR, and printable ASCII. */
  function ValidTextChar(c: byte): (ok: bool)
    ensures ok <==> c == 0x07 || 0x09 <= c <= 0x0D || 0x20 <= c <= 0x7E
  {
    c == 0x07 || (c >= 0x09 && c <= 0x0D) || (c >= 0x20 && c < 0x7F)
  }

  datatype Dispatch = Forward(command: SerialCommand) | Unknown | BadInstant

  /** `handle_serial_command`: what a complete command turns into. */
  function HandleSerialCommand(command: seq<byte>, data: seq<byte>): (d: Dispatch)
    ensures command == Latin1("sendmsg") ==> d == Forward(SendMessage(AsText(data)))
    ensures command == Latin1("getmsgs") ==>
      match Text.ParseUnsigned(AsText(data), U64_MAX)
      case None => d == BadInstant
      case Some(t) => d == Forward(GetMessages(t))
    ensures command != Latin1("sendmsg") && command != Latin1("getmsgs") ==> d == Unknown
  {
    CommandNamesDiffer();
    if command == Latin1("sendmsg") then Forward(SendMessage(AsText(data)))
    else if command == Latin1("getmsgs") then
      match Text.ParseUnsigned(AsText(data), U64_MAX)
      case None => BadInstant
      case Some(t) => Forward(GetMessages(t))
    else Unknown
  }

  lemma {:induction false} CommandNamesDiffer()
    ensures Latin1("sendmsg") != Latin1("getmsgs")
  {
    assert Latin1("getmsgs")[0] != Latin1("sendmsg")[0];
  }

  /** The frame `send_response` writes. */
  function ResponseFrame(name: seq<byte>, data: seq<byte>): (f: seq<byte>)
    ensures |f| == |name| + |data| + 3
    ensures f[0] == SOH && f[|name| + 1] == STX && f[|f| - 1] == EOT
    ensures f[1..|name| + 1] == name && f[|name| + 2..|f| - 1] == data
  {
    [SOH] + name + [STX] + data + [EOT]
  }

  /** `buf.chunks(n)`: consecutive pieces of n bytes, the last one possibly shorter. */
  function Chunks(buf: seq<byte>, n: nat): (r: seq<seq<byte>>)
    requires n > 0
    ensures forall i | 0 <= i < |r| :: 0 < |r[i]| <= n
    decreases |buf|
  {
    if |buf| == 0 then []
    else if |buf| <= n then [buf]
    else [buf[..n]] + Chunks(buf[n..], n)
  }

  function Flatten(pieces: seq<seq<byte>>): seq<byte>
  {
    if pieces == [] then [] else pieces[0] + Flatten(pieces[1..])
  }

  /** The chunks laid end to end are the buffer. */
  lemma {:induction false} ChunksFlatten(buf: seq<byte>, n: nat)
    requires n > 0
    ensures Flatten(Chunks(buf, n)) == buf
    decreases |buf|
  {
    if |buf| > n {
      ChunksFlatten(buf[n..], n);
      var r := Chunks(buf, n);
      assert r[1..] == Chunks(buf[n..], n);
      assert buf[..n] + buf[n..] == buf;
    } else if |buf| > 0 {
      assert Flatten([buf]) == buf + [];
    }
  }

  /** The text line the console prints for one buffered message. */
  function MessageLine(m: ChatMessage): seq<byte>
  {
    Latin1(m.author) + [0x20] + Latin1(Text.Show(m.ts)) + [0x20] + Latin1(m.msg) + [ETX]
  }

  function MessageLines(ms: seq<ChatMessage>): seq<byte>
  {
    if ms == [] then [] else MessageLines(ms[..|ms| - 1]) + MessageLine(ms[|ms| - 1])
  }

  /** Each response written in full comes out as one `SOH name STX data EOT` frame. */
  function ResponseBytes(r: SerialResponse): seq<byte>
  {
    match r
    case MessageData(ms) => ResponseFrame(Latin1("msgdata"), MessageLines(ms))
    case Sent => ResponseFrame(Latin1("sent"), [])
  }

  const BANNER: string := "Serial ready; press ^Z to download client\r\n"
  const CUT_LINE: string := "----- 8< CUT HERE 8< -----\r\n"

  /** The packets the SUB key produces: each line of the client in chunks, then CR LF, between cut lines. */
  function ClientDump(lines: seq<seq<byte>>): seq<seq<byte>>
  {
    if lines == [] then []
    else ClientDump(lines[..|lines| - 1]) + Chunks(lines[|lines| - 1], MAX_SERIAL_PACKET_SIZE) + [Latin1("\r\n")]
  }

  /**
   * One console connection. `written` logs the USB packets in order,
   * `forwarded` the commands sent to the application.
   */
  /** The console's state as `io_loop` changes it: the parser state and buffers, and what it has sent and forwarded. */
  datatype Console = Console(scs: SerialCommandState, command: seq<byte>, data: seq<byte>,
                             written: seq<seq<byte>>, forwarded: seq<SerialCommand>)

  /**
   * One input byte of `io_loop` on the console state: the new state, and
   * false where the firmware panics (a `getmsgs` whose data is not a u64).
   * SOH and ESC act in every state; a full command buffer drops printable
   * bytes; an over-long data buffer or a byte outside the text range is
   * answered with a lone ESC packet.
   */
  function Next(webSource: seq<byte>, st: Console, c: byte): (r: (Console, bool))
    ensures st.forwarded <= r.0.forwarded && |r.0.forwarded| <= |st.forwarded| + 1
    ensures |st.command| <= COMMAND_CAPACITY ==> |r.0.command| <= COMMAND_CAPACITY
    ensures |st.data| <= MAX_SERIAL_PACKET_SIZE + 1 ==> |r.0.data| <= MAX_SERIAL_PACKET_SIZE + 1
    ensures !r.1 ==> c == EOT && st.scs == Data && HandleSerialCommand(st.command, st.data) == BadInstant
  {
    if c == SOH then (st.(scs := Command, command := [], data := []), true)
    else if c == ESC then (st.(scs := Data), true)
    else match st.scs
      case Idle =>
        if c == CR then (st.(written := st.written + [Latin1(BANNER)]), true)
        else if c == SUB then
          (st.(written := st.written + [Latin1(CUT_LINE)] + ClientDump(Text.Split(webSource, LF)) + [Latin1(CUT_LINE)]), true)
        else (st, true)
      case Command =>
        if c == STX then (st.(scs := Data), true)
        else if 0x20 <= c < 0x7F && |st.command| <= COMMAND_CAPACITY then
          (if |st.command| < COMMAND_CAPACITY then st.(command := st.command + [c]) else st, true)
        else (st.(written := st.written + [[ESC]]), true)
      case Data =>
        if c == EOT then
          match HandleSerialCommand(st.command, st.data)
          case Forward(sc) => (st.(scs := Idle, forwarded := st.forwarded + [sc]), true)
          case Unknown => (st.(scs := Idle), true)
          case BadInstant => (st.(scs := Idle), false)
        else if ValidTextChar(c) && |st.data| <= MAX_SERIAL_PACKET_SIZE then (st.(data := st.data + [c]), true)
        else (st.(written := st.written + [[ESC]]), true)
  }

  /**
   * The bytes of one packet fed to `Next` in order, stopping after the
   * first byte that panics; the flag is false exactly when one did.
   */
  function Run(webSource: seq<byte>, st: Console, buf: seq<byte>): (r: (Console, bool))
    ensures st.forwarded <= r.0.forwarded && |r.0.forwarded| <= |st.forwarded| + |buf|
    ensures |st.command| <= COMMAND_CAPACITY && |st.data| <= MAX_SERIAL_PACKET_SIZE + 1 ==>
      |r.0.command| <= COMMAND_CAPACITY && |r.0.data| <= MAX_SERIAL_PACKET_SIZE + 1
    decreases |buf|
  {
    if buf == [] then (st, true)
    else
      var (next, ok) := Next(webSource, st, buf[0]);
      if !ok then (next, false) else Run(webSource, next, buf[1..])
  }

  /** One more byte of a packet: `Run` on the suffix from `i` is `Next` on its first byte, then the rest unless it panicked. */
  lemma {:induction false} RunStep(webSource: seq<byte>, st: Console, buf: seq<byte>, i: nat)
    requires i < |buf|
    ensures var (next, ok) := Next(webSource, st, buf[i]);
      Run(webSource, st, buf[i..]) == if !ok then (next, false) else Run(webSource, next, buf[i + 1..])
  {
    assert buf[i..][0] == buf[i];
    assert buf[i..][1..] == buf[i + 1..];
  }

  /** A packet that does not panic: its run is the run of any prefix continued with the rest. */
  lemma {:induction false} RunAppend(webSource: seq<byte>, st: Console, a: seq<byte>, b: seq<byte>)
    requires Run(webSource, st, a).1
    ensures Run(webSource, st, a + b) == Run(webSource, Run(webSource, st, a).0, b)
    decreases |a|
  {
    if a == [] {
      assert a + b == b;
    } else {
      var (next, ok) := Next(webSource, st, a[0]);
      assert (a + b)[0] == a[0];
      assert (a + b)[1..] == a[1..] + b;
      RunAppend(webSource, next, a[1..], b);
    }
  }

  class SerialCommandEngine {
    const webSource: seq<byte>
    var scs: SerialCommandState
    var command: seq<byte>
    var data: seq<byte>
    var written: seq<seq<byte>>
    var forwarded: seq<SerialCommand>

    predicate Valid()
      reads this
    {
      |command| <= COMMAND_CAPACITY && |data| <= MAX_SERIAL_PACKET_SIZE + 1
    }

    function State(): Console
      reads this
    {
      Console(scs, command, data, written, forwarded)
    }

    constructor(webSource: seq<byte>)
      ensures Valid() && this.webSource == webSource
      ensures scs == Idle && command == [] && data == [] && written == [] && forwarded == []
    {
      this.webSource := webSource;
      scs := Idle;
      command := [];
      data := [];
      written := [];
      forwarded := [];
    }

    /** `send_buffer`: one packet per chunk of at most 64 bytes. */
    method SendBuffer(buf: seq<byte>)
      modifies this`written
      ensures written == old(written) + Chunks(buf, MAX_SERIAL_PACKET_SIZE)
    {
      var rest := buf;
      while |rest| > 0
        invariant old(written) + Chunks(buf, MAX_SERIAL_PACKET_SIZE) == written + Chunks(rest, MAX_SERIAL_PACKET_SIZE)
        decreases |rest|
      {
        var n := if |rest| < MAX_SERIAL_PACKET_SIZE then |rest| else MAX_SERIAL_PACKET_SIZE;
        assert Chunks(rest, MAX_SERIAL_PACKET_SIZE) == [rest[..n]] + Chunks(rest[n..], MAX_SERIAL_PACKET_SIZE) by {
          if |rest| <= MAX_SERIAL_PACKET_SIZE {
            assert rest[..n] == rest && rest[n..] == [];
          }
        }
        written := written + [rest[..n]];
        rest := rest[n..];
      }
    }

    /** `send_response`. */
    method SendResponse(name: seq<byte>, payload: seq<byte>)
      modifies this`written
      ensures written == old(written) + Chunks(ResponseFrame(name, payload), MAX_SERIAL_PACKET_SIZE)
    {
      var buf: seq<byte> := [SOH];
      buf := buf + name;
      buf := buf + [STX];
      buf := buf + payload;
      buf := buf + [EOT];
      SendBuffer(buf);
    }

    /** A response from the application, formatted and written. */
    method Respond(r: SerialResponse)
      modifies this`written
      ensures written == old(written) + Chunks(ResponseBytes(r), MAX_SERIAL_PACKET_SIZE)
    {
      match r {
        case MessageData(ms) =>
          var msgbuf: seq<byte> := [];
          var i := 0;
          while i < |ms|
            invariant 0 <= i <= |ms|
            invariant msgbuf == MessageLines(ms[..i])
          {
            assert ms[..i + 1][..i] == ms[..i];
            msgbuf := msgbuf + MessageLine(ms[i]);
            i := i + 1;
          }
          assert ms[..|ms|] == ms;
          SendResponse(Latin1("msgdata"), msgbuf);
        case Sent =>
          SendResponse(Latin1("sent"), []);
      }
    }

    /** The Idle-state SUB key: the client page between two cut lines. */
    method DumpClient()
      modifies this`written
      ensures written == old(written) + [Latin1(CUT_LINE)] + ClientDump(Text.Split(webSource, LF)) + [Latin1(CUT_LINE)]
    {
      written := written + [Latin1(CUT_LINE)];
      var lines := Text.Split(webSource, LF);
      var i := 0;
      while i < |lines|
        invariant 0 <= i <= |lines|
        invariant written == old(written) + [Latin1(CUT_LINE)] + ClientDump(lines[..i])
      {
        assert lines[..i + 1][..i] == lines[..i];
        SendBuffer(lines[i]);
        written := written + [Latin1("\r\n")];
        i := i + 1;
      }
      assert lines[..|lines|] == lines;
      written := written + [Latin1(CUT_LINE)];
    }

    /**
     * One input byte of `io_loop`. Returns false where the firmware panics
     * (a `getmsgs` whose data is not a u64).
     */
    method Step(c: byte) returns (alive: bool)
      requires Valid()
      modifies this
      ensures Valid()
      ensures (State(), alive) == Next(webSource, old(State()), c)
      ensures c == SOH ==> scs == Command && command == [] && data == [] && unchanged(this`written, this`forwarded) && alive
      ensures c == ESC ==> scs == Data && command == old(command) && data == old(data) && unchanged(this`written, this`forwarded) && alive
      ensures c != SOH && c != ESC && old(scs) == Idle ==>
        scs == Idle && command == old(command) && data == old(data) && forwarded == old(forwarded) && alive &&
        written == old(written) + (if c == CR then [Latin1(BANNER)]
                                   else if c == SUB then [Latin1(CUT_LINE)] + ClientDump(Text.Split(webSource, LF)) + [Latin1(CUT_LINE)]
                                   else [])
      ensures c != SOH && c != ESC && old(scs) == Command ==>
        data == old(data) && forwarded == old(forwarded) && alive &&
        (c == STX ==> scs == Data && command == old(command) && written == old(written)) &&
        (c != STX && 0x20 <= c <= 0x7E ==> (scs == Command && written == old(written) &&
          command == (if |old(command)| < COMMAND_CAPACITY then old(command) + [c] else old(command)))) &&
        (c != STX && !(0x20 <= c <= 0x7E) ==> scs == Command && command == old(command) && written == old(written) + [[ESC]])
      ensures c != SOH && c != ESC && old(scs) == Data ==>
        command == old(command) &&
        (c == EOT ==> (scs == Idle && data == old(data) && written == old(written) &&
          match HandleSerialCommand(old(command), old(data))
          case Forward(sc) => forwarded == old(forwarded) + [sc] && alive
          case Unknown => forwarded == old(forwarded) && alive
          case BadInstant => forwarded == old(forwarded) && !alive)) &&
        (c != EOT && ValidTextChar(c) && |old(data)| <= MAX_SERIAL_PACKET_SIZE ==>
          scs == Data && data == old(data) + [c] && written == old(written) && forwarded == old(forwarded) && alive) &&
        (c != EOT && !(ValidTextChar(c) && |old(data)| <= MAX_SERIAL_PACKET_SIZE) ==>
          scs == Data && data == old(data) && written == old(written) + [[ESC]] && forwarded == old(forwarded) && alive)
    {
      alive := true;
      if c == SOH {
        command := [];
        data := [];
        scs := Command;
        return;
      }
      if c == ESC {
        scs := Data;
        return;
      }
      match scs {
        case Idle =>
          if c == CR {
            written := written + [Latin1(BANNER)];
          } else if c == SUB {
            DumpClient();
          }
        case Command =>
          if c == STX {
            scs := Data;
          } else if 0x20 <= c < 0x7F && |command| <= COMMAND_CAPACITY {
            // a push onto the full string fails and is ignored
            if |command| < COMMAND_CAPACITY {
              command := command + [c];
            }
          } else {
            written := written + [[ESC]];
          }
        case Data =>
          if c == EOT {
            match HandleSerialCommand(command, data) {
              case Forward(sc) => forwarded := forwarded + [sc];
              case Unknown =>
              case BadInstant => alive := false;
            }
            scs := Idle;
          } else if ValidTextChar(c) && |data| <= MAX_SERIAL_PACKET_SIZE {
            data := data + [c];
          } else {
            written := written + [[ESC]];
          }
      }
    }

    /** The bytes of one received packet, in order, stopping at a panic. */
    method ReadPacket(buf: seq<byte>) returns (alive: bool)
      requires Valid()
      modifies this
      ensures Valid()
      ensures (State(), alive) == Run(webSource, old(State()), buf)
    {
      alive := true;
      var i := 0;
      ghost var start := State();
      assert buf[i..] == buf;
      while i < |buf| && alive
        invariant 0 <= i <= |buf| && Valid()
        invariant alive ==> Run(webSource, start, buf) == Run(webSource, State(), buf[i..])
        invariant !alive ==> Run(webSource, start, buf) == (State(), false)
      {
        RunStep(webSource, State(), buf, i);
        alive := Step(buf[i]);
        i := i + 1;
      }
    }
  }

  /** A command the console assembles from bytes reaches the application. */
  lemma {:induction false} SendMessageReachesApplication(text: seq<byte>)
    ensures HandleSerialCommand(Latin1("sendmsg"), text) == Forward(SendMessage(AsText(text)))
  {
  }

  /** `getmsgs` with the decimal text of an instant forwards that instant. */
  lemma {:induction false} GetMessagesRoundTrip(instant: u64)
    ensures HandleSerialCommand(Latin1("getmsgs"), Latin1(Text.Show(instant))) == Forward(GetMessages(instant))
  {
    var s := Text.Show(instant);
    assert AsText(Latin1(s)) == s by {
      forall i | 0 <= i < |s| ensures AsText(Latin1(s))[i] == s[i] {
        assert '0' <= s[i] <= '9';
      }
    }
    Text.ParseShow(instant, U64_MAX);
  }
}
