/**
 * The FAT timestamp source of the SD-card store: a timestamp fixed at
 * synchronisation plus the microseconds a hardware timer has counted since,
 * split into years of 365 days, months of 30 days, days, hours, minutes and
 * seconds, each added to its field on its own, without carries.
 */
module Esp32Time {
  import opened Bytes

  datatype Timestamp = Timestamp(yearSince1970: byte, zeroIndexedMonth: byte, zeroIndexedDay: byte,
                                 hours: byte, minutes: byte, seconds: byte)

  const TICKS_PER_SECOND: nat := 1_000_000
  const SECONDS_PER_MINUTE: nat := 60
  const SECONDS_PER_HOUR: nat := 60 * 60
  const SECONDS_PER_DAY: nat := 24 * 60 * 60
  const SECONDS_PER_MONTH: nat := 30 * 24 * 60 * 60
  const SECONDS_PER_YEAR: nat := 365 * 24 * 60 * 60

  /** `x as u8` */
  function AsU8(x: nat): (r: byte)
    ensures x <= U8_MAX ==> r == x
  {
    x % 0x100
  }

  /** `a.saturating_add(b)` on u8 */
  function SaturatingAdd(a: byte, b: byte): (r: byte)
    ensures a + b <= U8_MAX ==> r == a + b
    ensures a + b > U8_MAX ==> r == U8_MAX
  {
    if a + b > U8_MAX then U8_MAX else a + b
  }

  /** Elapsed seconds split into the units `get_timestamp` adds, each below the next unit. */
  datatype Elapsed = Elapsed(years: nat, months: nat, days: nat, hours: nat, minutes: nat, seconds: nat)

  function Split(elapsedSeconds: nat): (e: Elapsed)
    ensures e.months <= 12 && e.days < 30 && e.hours < 24 && e.minutes < 60 && e.seconds < 60
    ensures e.years * SECONDS_PER_YEAR + e.months * SECONDS_PER_MONTH + e.days * SECONDS_PER_DAY
      + e.hours * SECONDS_PER_HOUR + e.minutes * SECONDS_PER_MINUTE + e.seconds == elapsedSeconds
  {
    var r1 := elapsedSeconds % SECONDS_PER_YEAR;
    var r2 := r1 % SECONDS_PER_MONTH;
    var r3 := r2 % SECONDS_PER_DAY;
    var r4 := r3 % SECONDS_PER_HOUR;
    Elapsed(elapsedSeconds / SECONDS_PER_YEAR, r1 / SECONDS_PER_MONTH, r2 / SECONDS_PER_DAY,
            r3 / SECONDS_PER_HOUR, r4 / SECONDS_PER_MINUTE, r4 % SECONDS_PER_MINUTE)
  }

  /** `get_timestamp` for a timer reading of `ticks` microseconds since the last restart. */
  function TimestampAfter(start: Timestamp, ticks: u64): (t: Timestamp)
    ensures t.zeroIndexedMonth < 12 && t.zeroIndexedDay < 30 && t.hours < 24 && t.minutes < 60 && t.seconds < 60
    ensures t.yearSince1970 >= start.yearSince1970
  {
    var e := Split(ticks / TICKS_PER_SECOND);
    Timestamp(
      SaturatingAdd(start.yearSince1970, AsU8(e.years)),
      AsU8(start.zeroIndexedMonth + e.months) % 12,
      AsU8(start.zeroIndexedDay + e.days) % 30,
      AsU8(start.hours + e.hours) % 24,
      AsU8(start.minutes + e.minutes) % 60,
      AsU8(start.seconds + e.seconds) % 60)
  }

  /** No carry: one second after second 59 reads second 0 with the minute unchanged. */
  lemma {:induction false} NoCarry(start: Timestamp)
    requires start.seconds == 59 && start.minutes < 60
    ensures TimestampAfter(start, TICKS_PER_SECOND).seconds == 0
    ensures TimestampAfter(start, TICKS_PER_SECOND).minutes == start.minutes
  {
    assert Split(1) == Elapsed(0, 0, 0, 0, 0, 1);
  }

  /** Whole years are added saturating at 255, after the count is cut to 8 bits. */
  lemma {:induction false} YearArithmetic(start: Timestamp, ticks: u64)
    ensures var years := (ticks / TICKS_PER_SECOND) / SECONDS_PER_YEAR;
      TimestampAfter(start, ticks).yearSince1970 == SaturatingAdd(start.yearSince1970, years % 0x100)
  {
  }

  /** Reading the timer right after synchronising gives the synchronised time back, for any valid timestamp. */
  lemma {:induction false} ZeroElapsed(start: Timestamp, ticks: u64)
    requires start.zeroIndexedMonth < 12 && start.zeroIndexedDay < 30 && start.hours < 24
    requires start.minutes < 60 && start.seconds < 60
    requires ticks < TICKS_PER_SECOND
    ensures TimestampAfter(start, ticks) == start
  {
    assert ticks / TICKS_PER_SECOND == 0;
    assert Split(0) == Elapsed(0, 0, 0, 0, 0, 0);
  }

  /** A timestamp source whose timer restarts at every synchronisation. */
  class Esp32TimeSource {
    var startTime: Timestamp

    constructor(startTime: Timestamp)
      ensures this.startTime == startTime
    {
      this.startTime := startTime;
    }

    /** `synchronize`: a new start time; since the timer restarts, later readings count from here. */
    method Synchronize(currentTime: Timestamp)
      modifies this
      ensures startTime == currentTime
    {
      startTime := currentTime;
    }

    /** `get_timestamp`, with the timer reading as input. */
    function GetTimestamp(ticks: u64): (t: Timestamp)
      reads this
      ensures t.zeroIndexedMonth < 12 && t.zeroIndexedDay < 30 && t.hours < 24 && t.minutes < 60 && t.seconds < 60
      ensures t.yearSince1970 >= startTime.yearSince1970
    {
      TimestampAfter(startTime, ticks)
    }
  }
}
