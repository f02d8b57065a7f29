/**
 * The chat application's event handling: effects from the Aranya daemon,
 * commands from the serial console and button presses, over a bounded
 * buffer of chat messages with unread and mention indicators.
 */
module Application {
  import opened Bytes
  import opened Wrappers
  import opened Serial

  /** What the application signals to the LED task. */
  datatype NeopixelMessage = MessageState(unseenCount: nat, mentioned: bool) | RainbowSignal | Ambient(color: (int, int, int))

  /** Actions handed to the daemon. */
  datatype Action = SendMessageAction(author: string, msg: string) | SendRainbowAction(author: string)

  /** The fields an effect carries, when the policy's conversion succeeds. */
  datatype EffectFields = MessageFields(author: string, msg: string) | AmbientFields(color: (int, int, int)) | OtherFields

  datatype Effect = Effect(name: string, recalled: bool, command: seq<byte>, fields: EffectFields)

  /** `haystack.contains(needle)`. */
  predicate Contains(haystack: string, needle: string)
  {
    exists i | 0 <= i <= |haystack| - |needle| :: OccursAt(haystack, needle, i)
  }

  predicate OccursAt(haystack: string, needle: string, i: nat)
  {
    i + |needle| <= |haystack| && haystack[i..i + |needle|] == needle
  }

  /** `chars().take(8)`. */
  function Truncated(id: string): (t: string)
    ensures |t| <= 8 && t <= id
    ensures |id| >= 8 ==> |t| == 8
  {
    if |id| <= 8 then id else id[..8]
  }

  predicate HasId(buffer: seq<ChatMessage>, id: seq<byte>)
  {
    exists k | 0 <= k < |buffer| :: buffer[k].id == id
  }

  predicate UniqueIds(buffer: seq<ChatMessage>)
  {
    forall j, k | 0 <= j < k < |buffer| :: buffer[j].id != buffer[k].id
  }

  /** The buffer after a MessageReceived: drop the oldest when full, then enqueue unless the id is already buffered. */
  function Received(buffer: seq<ChatMessage>, capacity: nat, m: ChatMessage): seq<ChatMessage>
    requires 0 < capacity && |buffer| <= capacity
  {
    var b := if |buffer| == capacity then buffer[1..] else buffer;
    if HasId(b, m.id) then b else b + [m]
  }

  /** The buffer stays within capacity, keeps its ids distinct, and ends with the message unless its id was already there. */
  lemma {:induction false} ReceivedKeepsInvariant(buffer: seq<ChatMessage>, capacity: nat, m: ChatMessage)
    requires 0 < capacity && |buffer| <= capacity && UniqueIds(buffer)
    ensures var r := Received(buffer, capacity, m);
      |r| <= capacity && UniqueIds(r) && HasId(r, m.id)
    ensures var b := if |buffer| == capacity then buffer[1..] else buffer;
      var r := Received(buffer, capacity, m);
      !HasId(b, m.id) ==> |r| > 0 && r[|r| - 1] == m
  {
    var b := if |buffer| == capacity then buffer[1..] else buffer;
    var r := Received(buffer, capacity, m);
    if !HasId(b, m.id) {
      assert r[|r| - 1] == m;
    }
  }

  /** Messages are only ever dropped from the front: the old buffer less at most its first entry is a prefix of the new. */
  lemma {:induction false} ReceivedIsQueue(buffer: seq<ChatMessage>, capacity: nat, m: ChatMessage)
    requires 0 < capacity && |buffer| <= capacity
    ensures var r := Received(buffer, capacity, m);
      (|buffer| < capacity ==> buffer <= r) && (|buffer| == capacity ==> buffer[1..] <= r)
  {
  }

  /** `GetMessages`: the buffered messages newer than `instant`, in buffer order. */
  function Newer(buffer: seq<ChatMessage>, instant: nat): (r: seq<ChatMessage>)
    ensures |r| <= |buffer|
    ensures forall i | 0 <= i < |r| :: r[i].ts > instant
  {
    if buffer == [] then []
    else
      var rest := Newer(buffer[..|buffer| - 1], instant);
      if buffer[|buffer| - 1].ts > instant then rest + [buffer[|buffer| - 1]] else rest
  }

  /** `Newer` keeps exactly the messages with a later timestamp. */
  lemma {:induction false} NewerExactly(buffer: seq<ChatMessage>, instant: nat)
    ensures forall m :: m in Newer(buffer, instant) <==> m in buffer && m.ts > instant
    decreases |buffer|
  {
    if buffer != [] {
      var init := buffer[..|buffer| - 1];
      NewerExactly(init, instant);
      assert buffer == init + [buffer[|buffer| - 1]];
    }
  }

  class Application {
    const deviceId: string
    /** The number of messages `chat_buffer` can hold. */
    const capacity: nat
    var chatBuffer: seq<ChatMessage>
    var unseenCount: nat
    var mentioned: bool
    var signals: seq<NeopixelMessage>
    var actions: seq<Action>
    var responses: seq<SerialResponse>

    predicate Valid()
      reads this
    {
      0 < capacity && |chatBuffer| <= capacity && UniqueIds(chatBuffer)
    }

    constructor(deviceId: string, capacity: nat)
      requires 0 < capacity
      ensures Valid() && this.deviceId == deviceId && this.capacity == capacity
      ensures chatBuffer == [] && unseenCount == 0 && !mentioned
      ensures signals == [] && actions == [] && responses == []
    {
      this.deviceId := deviceId;
      this.capacity := capacity;
      chatBuffer := [];
      unseenCount := 0;
      mentioned := false;
      signals := [];
      actions := [];
      responses := [];
    }

    /** The LED indicator after a change of the counters. */
    method UpdateNeopixel()
      modifies this`signals
      ensures signals == old(signals) + [MessageState(unseenCount, mentioned)]
    {
      signals := signals + [MessageState(unseenCount, mentioned)];
    }

    /**
     * An effect from the daemon; `now` is the time the message is stamped
     * with. Returns false where the firmware panics (a MessageReceived or
     * AmbientColorChanged effect whose fields do not convert).
     */
    method HandleEffect(e: Effect, now: nat) returns (alive: bool)
      requires Valid()
      modifies this`chatBuffer, this`unseenCount, this`mentioned, this`signals
      ensures Valid()
      ensures e.recalled ==> alive && unchanged(this)
      ensures !e.recalled && e.name == "MessageReceived" && e.fields.MessageFields? ==>
        var m := ChatMessage(now, e.command, e.fields.author, e.fields.msg);
        var own := e.fields.author == deviceId;
        var mention := Contains(e.fields.msg, Truncated(deviceId));
        alive &&
        chatBuffer == Received(old(chatBuffer), capacity, m) &&
        (own ==> unseenCount == old(unseenCount) && mentioned == old(mentioned) && signals == old(signals)) &&
        (!own && mention ==> (unseenCount == old(unseenCount) && mentioned &&
          signals == old(signals) + [MessageState(unseenCount, true)])) &&
        (!own && !mention ==> (unseenCount == old(unseenCount) + 1 && mentioned == old(mentioned) &&
          signals == old(signals) + [MessageState(unseenCount, mentioned)]))
      ensures !e.recalled && e.name == "MessageReceived" && !e.fields.MessageFields? ==> !alive
      ensures !e.recalled && e.name == "RainbowEffect" ==>
        alive && signals == old(signals) + [RainbowSignal] && unchanged(this`chatBuffer, this`unseenCount, this`mentioned)
      ensures !e.recalled && e.name == "AmbientColorChanged" ==>
        unchanged(this`chatBuffer, this`unseenCount, this`mentioned) &&
        (e.fields.AmbientFields? ==> alive && signals == old(signals) + [Ambient(e.fields.color)]) &&
        (!e.fields.AmbientFields? ==> !alive)
      ensures !e.recalled && e.name !in {"MessageReceived", "RainbowEffect", "AmbientColorChanged"} ==>
        alive && unchanged(this)
    {
      alive := true;
      if e.recalled {
        return;
      }
      if e.name == "MessageReceived" {
        if !e.fields.MessageFields? {
          return false;
        }
        var m := ChatMessage(now, e.command, e.fields.author, e.fields.msg);
        ReceivedKeepsInvariant(chatBuffer, capacity, m);
        if |chatBuffer| == capacity {
          chatBuffer := chatBuffer[1..];
        }
        if m.author != deviceId {
          if Contains(m.msg, Truncated(deviceId)) {
            mentioned := true;
          } else {
            unseenCount := unseenCount + 1;
          }
          UpdateNeopixel();
        }
        if !HasId(chatBuffer, e.command) {
          chatBuffer := chatBuffer + [m];
        }
      } else if e.name == "RainbowEffect" {
        signals := signals + [RainbowSignal];
      } else if e.name == "AmbientColorChanged" {
        if !e.fields.AmbientFields? {
          return false;
        }
        signals := signals + [Ambient(e.fields.color)];
      }
    }

    /** `GetMessages`, written as the filtering loop it is. */
    method MessagesAfter(instant: nat) returns (msgs: seq<ChatMessage>)
      ensures msgs == Newer(chatBuffer, instant)
      ensures forall m :: m in msgs <==> m in chatBuffer && m.ts > instant
    {
      msgs := [];
      var i := 0;
      while i < |chatBuffer|
        invariant 0 <= i <= |chatBuffer|
        invariant msgs == Newer(chatBuffer[..i], instant)
      {
        assert chatBuffer[..i + 1][..i] == chatBuffer[..i];
        if chatBuffer[i].ts > instant {
          msgs := msgs + [chatBuffer[i]];
        }
        i := i + 1;
      }
      assert chatBuffer[..i] == chatBuffer;
      NewerExactly(chatBuffer, instant);
    }

    /** A command from the serial console. */
    method HandleSerial(c: SerialCommand)
      modifies this`actions, this`responses
      ensures c.SendMessage? ==> actions == old(actions) + [SendMessageAction(deviceId, c.text)] && responses == old(responses) + [Sent]
      ensures c.GetMessages? ==> actions == old(actions) && responses == old(responses) + [MessageData(Newer(chatBuffer, c.instant))]
      ensures c.Rainbow? ==> actions == old(actions) + [SendRainbowAction(deviceId)] && responses == old(responses) + [Sent]
      ensures c.SetAmbientColor? ==> actions == old(actions) && responses == old(responses) + [Sent]
    {
      match c {
        case SendMessage(text) =>
          actions := actions + [SendMessageAction(deviceId, text)];
          responses := responses + [Sent];
        case GetMessages(instant) =>
          var msgs := MessagesAfter(instant);
          responses := responses + [MessageData(msgs)];
        case Rainbow =>
          actions := actions + [SendRainbowAction(deviceId)];
          responses := responses + [Sent];
        case SetAmbientColor(_) =>
          responses := responses + [Sent];
      }
    }

    /** A button press clears the indicators. */
    method HandleButton()
      modifies this`unseenCount, this`mentioned, this`signals
      ensures unseenCount == 0 && !mentioned
      ensures signals == old(signals) + [MessageState(0, false)]
    {
      unseenCount := 0;
      mentioned := false;
      UpdateNeopixel();
    }
  }
}
