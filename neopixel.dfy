/**
 * The WS2812 ("neopixel") driver: a colour becomes 24 RMT pulse codes, green
 * then red then blue, most significant bit first, followed by an empty code
 * that ends the train; a power pin switches the LED on and off.
 */
module Neopixel {
  import opened Bytes

  /** RMT clock and the pulse widths in clock ticks (0.40/0.85 us for a 0 bit, 0.80/0.45 us for a 1 bit). */
  const RMT_CLOCK_MHZ: nat := 80
  const RMT_CLOCK_DIVIDER: nat := 1
  const T0H: nat := ((RMT_CLOCK_MHZ / RMT_CLOCK_DIVIDER) * 400) / 1000
  const T0L: nat := ((RMT_CLOCK_MHZ / RMT_CLOCK_DIVIDER) * 850) / 1000
  const T1H: nat := ((RMT_CLOCK_MHZ / RMT_CLOCK_DIVIDER) * 800) / 1000
  const T1L: nat := ((RMT_CLOCK_MHZ / RMT_CLOCK_DIVIDER) * 450) / 1000
  const SIGNAL_CAPACITY: nat := 25

  lemma {:induction false} PulseWidths()
    ensures T0H == 32 && T0L == 68 && T1H == 64 && T1L == 36
  {
  }

  /** An RMT code: a high phase then a low phase, or the all-zero end marker. */
  datatype PulseCode = Pulse(level1: bool, length1: nat, level2: bool, length2: nat) | End

  const ZERO_PULSE: PulseCode := Pulse(true, T0H, false, T0L)
  const ONE_PULSE: PulseCode := Pulse(true, T1H, false, T1L)

  /** `1 << i` */
  function Mask(i: nat): (m: bv8)
    requires i < 8
  {
    match i
    case 0 => 0x01 case 1 => 0x02 case 2 => 0x04 case 3 => 0x08
    case 4 => 0x10 case 5 => 0x20 case 6 => 0x40 case _ => 0x80
  }

  /** Bit `i` of `c`: `(1 << i) & c != 0`. */
  predicate Bit(c: byte, i: nat)
    requires i < 8
  {
    Mask(i) & (c as bv8) != 0
  }

  /** The eight pulses of one colour byte, bit 7 first. */
  function BytePulses(c: byte): (p: seq<PulseCode>)
    ensures |p| == 8
    ensures forall k | 0 <= k < 8 :: p[k] == if Bit(c, 7 - k) then ONE_PULSE else ZERO_PULSE
  {
    seq(8, k requires 0 <= k < 8 => if Bit(c, 7 - k) then ONE_PULSE else ZERO_PULSE)
  }

  /** The pulse train for a colour. */
  function Signal(r: byte, g: byte, b: byte): (s: seq<PulseCode>)
    ensures |s| == SIGNAL_CAPACITY && s[24] == End
    ensures s[..8] == BytePulses(g) && s[8..16] == BytePulses(r) && s[16..24] == BytePulses(b)
  {
    BytePulses(g) + BytePulses(r) + BytePulses(b) + [End]
  }

  /** What the LED reads back from eight pulses: long high phases are ones. */
  function DecodeByte(p: seq<PulseCode>): bv8
    requires |p| == 8
  {
    PulseBit(p, 0) | PulseBit(p, 1) | PulseBit(p, 2) | PulseBit(p, 3)
      | PulseBit(p, 4) | PulseBit(p, 5) | PulseBit(p, 6) | PulseBit(p, 7)
  }

  function PulseBit(p: seq<PulseCode>, k: nat): bv8
    requires |p| == 8 && k < 8
  {
    if p[k] == ONE_PULSE then Mask(7 - k) else 0
  }

  lemma {:induction false} ByteRoundTrip(c: byte)
    ensures DecodeByte(BytePulses(c)) == c as bv8
  {
    var x := c as bv8;
    var p := BytePulses(c);
    assert ZERO_PULSE != ONE_PULSE;
    SingleBit(p, c, 0);
    SingleBit(p, c, 1);
    SingleBit(p, c, 2);
    SingleBit(p, c, 3);
    SingleBit(p, c, 4);
    SingleBit(p, c, 5);
    SingleBit(p, c, 6);
    SingleBit(p, c, 7);
    MasksCover(x);
  }

  lemma {:induction false} SingleBit(p: seq<PulseCode>, c: byte, k: nat)
    requires k < 8 && p == BytePulses(c)
    ensures PulseBit(p, k) == Mask(7 - k) & (c as bv8)
  {
    assert ZERO_PULSE != ONE_PULSE;
    var m := Mask(7 - k);
    assert m == 0x01 || m == 0x02 || m == 0x04 || m == 0x08 || m == 0x10 || m == 0x20 || m == 0x40 || m == 0x80;
  }

  lemma {:induction false} MasksCover(x: bv8)
    ensures (0x80 & x) | (0x40 & x) | (0x20 & x) | (0x10 & x) | (0x08 & x) | (0x04 & x) | (0x02 & x) | (0x01 & x) == x
  {
  }

  /** The LED recovers the colour from the train: green, red and blue in that order. */
  lemma {:induction false} SignalRoundTrip(r: byte, g: byte, b: byte)
    ensures var s := Signal(r, g, b);
      DecodeByte(s[..8]) == g as bv8 && DecodeByte(s[8..16]) == r as bv8 && DecodeByte(s[16..24]) == b as bv8
  {
    ByteRoundTrip(g);
    ByteRoundTrip(r);
    ByteRoundTrip(b);
  }

  /** The pulses of several colour bytes, one after another. */
  function Trains(cs: seq<byte>): (s: seq<PulseCode>)
    ensures |s| == 8 * |cs|
  {
    if cs == [] then [] else Trains(cs[..|cs| - 1]) + BytePulses(cs[|cs| - 1])
  }

  lemma {:induction false} TrainsOfColor(g: byte, r: byte, b: byte)
    ensures Trains([g, r, b]) + [End] == Signal(r, g, b)
  {
    assert [g, r, b][..2] == [g, r] && [g, r][..1] == [g] && [g][..0] == [];
    assert Trains([g]) == BytePulses(g);
    assert Trains([g, r]) == BytePulses(g) + BytePulses(r);
    assert Trains([g, r, b]) == BytePulses(g) + BytePulses(r) + BytePulses(b);
  }

  datatype NeopixelError = Rmt | InUse
  datatype ColorOutcome = Shown | Failed(error: NeopixelError) | Panicked

  /**
   * The driver. `channel` says whether the RMT channel is present, `power`
   * is the level on the power pin and `transmitted` logs each pulse train sent.
   */
  class Neopixel {
    const powerActiveLow: bool
    var channel: bool
    var power: bool
    var transmitted: seq<seq<PulseCode>>

    /** The library driver; the power pin's level until the first `set_power` is the hardware's. */
    constructor(powerActiveLow: bool, initialPower: bool)
      ensures this.powerActiveLow == powerActiveLow && channel && power == initialPower && transmitted == []
    {
      this.powerActiveLow := powerActiveLow;
      channel := true;
      power := initialPower;
      transmitted := [];
    }

    /** The board driver: an active-high power pin configured as an output driven high. */
    constructor Board()
      ensures !powerActiveLow && channel && power && transmitted == []
    {
      powerActiveLow := false;
      channel := true;
      power := true;
      transmitted := [];
    }

    /** The pulse train, pushed one code at a time into a 25-slot buffer that never overflows. */
    static method BuildSignal(r: byte, g: byte, b: byte) returns (signal: seq<PulseCode>)
      ensures signal == Signal(r, g, b)
    {
      signal := [];
      var colors := [g, r, b];
      var ci := 0;
      while ci < 3
        invariant 0 <= ci <= 3
        invariant signal == Trains(colors[..ci])
      {
        signal := PushByte(signal, colors[ci]);
        assert colors[..ci + 1][..ci] == colors[..ci];
        ci := ci + 1;
      }
      assert colors[..3] == colors;
      TrainsOfColor(g, r, b);
      assert |signal| < SIGNAL_CAPACITY;
      signal := signal + [End];
    }

    /** The inner loop of the pulse train: the bits of `c`, most significant first. */
    static method PushByte(signal: seq<PulseCode>, c: byte) returns (pushed: seq<PulseCode>)
      ensures pushed == signal + BytePulses(c)
    {
      pushed := signal;
      var i := 8;
      while i > 0
        invariant 0 <= i <= 8
        invariant pushed == signal + BytePulses(c)[..8 - i]
      {
        i := i - 1;
        var bit := Mask(i) & (c as bv8) != 0;
        assert BytePulses(c)[..8 - i] == BytePulses(c)[..8 - (i + 1)] + [if bit then ONE_PULSE else ZERO_PULSE];
        pushed := pushed + [if bit then ONE_PULSE else ZERO_PULSE];
      }
    }

    /**
     * `set_color`: `transmitOk` and `waitOk` are the RMT's answers. A failed
     * transmit consumes the channel, so every later call is InUse.
     */
    method SetColor(r: byte, g: byte, b: byte, transmitOk: bool, waitOk: bool) returns (o: ColorOutcome)
      modifies this`channel, this`transmitted
      ensures !old(channel) ==> o == Failed(InUse) && !channel && transmitted == old(transmitted)
      ensures old(channel) && !transmitOk ==> o == Failed(Rmt) && !channel && transmitted == old(transmitted)
      ensures old(channel) && transmitOk ==> transmitted == old(transmitted) + [Signal(r, g, b)]
      ensures old(channel) && transmitOk && waitOk ==> o == Shown && channel
      ensures old(channel) && transmitOk && !waitOk ==> o == Panicked
    {
      var signal := BuildSignal(r, g, b);
      if !channel {
        return Failed(InUse);
      }
      channel := false;
      if !transmitOk {
        return Failed(Rmt);
      }
      transmitted := transmitted + [signal];
      if !waitOk {
        return Panicked;
      }
      channel := true;
      o := Shown;
    }

    /** `set_power`: the pin level is `on`, inverted for an active-low supply. */
    method SetPower(on: bool)
      modifies this`power
      ensures power == (on != powerActiveLow)
    {
      power := on != powerActiveLow;
    }

    /** Dropping the driver drives the power pin low. */
    method Drop()
      modifies this`power
      ensures !power
    {
      power := false;
    }
  }
}
