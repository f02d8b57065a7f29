/**
 * The board's LED effect sink: an Aranya effect named "LedColorChanged"
 * becomes the colour signalled to the LED task. The board's driver is
 * `Neopixel.Neopixel.Board`.
 */
module BoardNeopixel {
  import opened Bytes
  import opened Wrappers
  import ParamStore

  /** An effect from the policy VM; `color` holds the r, g, b fields when the effect's fields convert. */
  datatype VmEffect = VmEffect(name: string, recalled: bool, color: Option<(int, int, int)>)

  /** `x as u8` for an `i64` field: the low eight bits of the two's-complement value. */
  function TruncateU8(x: int): (r: byte)
    ensures 0 <= x <= U8_MAX ==> r == x
    ensures (r - x) % 0x100 == 0
  {
    x % 0x100
  }

  /** The colour an effect signals, if any. */
  function SignalledColor(e: VmEffect): (c: Option<ParamStore.RgbU8>)
    ensures c.Some? <==> !e.recalled && e.name == "LedColorChanged" && e.color.Some?
    ensures c.Some? ==> c.value == ParamStore.RgbU8(TruncateU8(e.color.value.0), TruncateU8(e.color.value.1), TruncateU8(e.color.value.2))
  {
    if e.recalled || e.name != "LedColorChanged" then None
    else match e.color
      case None => None
      case Some(rgb) => Some(ParamStore.RgbU8(TruncateU8(rgb.0), TruncateU8(rgb.1), TruncateU8(rgb.2)))
  }

  /** The sink; `signal` is the latest value of the LED signal (each `signal` call replaces it). */
  class NeopixelSink {
    var signal: Option<ParamStore.RgbU8>

    constructor()
      ensures signal == None
    {
      signal := None;
    }

    method Begin()
      modifies this
      ensures signal == old(signal)
    {
    }

    /** `consume`: ignores recalled effects, other names and fields that do not convert. */
    method Consume(e: VmEffect)
      modifies this
      ensures signal == (if SignalledColor(e).Some? then SignalledColor(e) else old(signal))
    {
      if e.recalled || e.name != "LedColorChanged" {
        return;
      }
      match e.color {
        case None =>
          return;
        case Some(rgb) =>
          signal := Some(ParamStore.RgbU8(TruncateU8(rgb.0), TruncateU8(rgb.1), TruncateU8(rgb.2)));
      }
    }

    method Rollback()
      modifies this
      ensures signal == old(signal)
    {
    }

    method Commit()
      modifies this
      ensures signal == old(signal)
    {
    }
  }
}
