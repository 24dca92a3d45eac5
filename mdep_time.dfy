/** The Windows clock of mdep.c: a FILETIME (100-nanosecond ticks since 1601-01-01, split in
    two 32-bit halves) becomes microseconds since the Unix epoch, and clock_gettime splits
    that count into seconds and nanoseconds. */
module MdepTime {
  import opened Base

  /** Microseconds between 1601-01-01 and 1970-01-01. */
  const EPOCH_DIFF_US: nat := 11644473600000000

  /** C's `%` has the sign of the dividend and is smaller than the divisor in magnitude,
      and quotient and remainder rebuild the dividend. */
  lemma CDivRem(a: int, b: int)
    requires b > 0
    ensures b * CDiv(a, b) + CRem(a, b) == a
    ensures a >= 0 ==> 0 <= CRem(a, b) < b
    ensures a < 0 ==> -b < CRem(a, b) <= 0
  {
  }

  /** file_time_to_unix_time: `(__int64)high << 32`, or'ed with `low`, divided by 10 and
      shifted to the Unix epoch, all in 64-bit signed arithmetic. */
  function FileTimeToUnixTime(high: nat, low: nat): (t: int)
    requires IsU32(high) && IsU32(low)
    ensures IsI64(t)
  {
    var res := I64(high * TWO_32) + low;   // the low 32 bits of the shifted value are zero
    I64(CDiv(res, 10) - EPOCH_DIFF_US)
  }

  /** For every FILETIME whose high half keeps the sign bit clear (every date before the year
      30828) the result is the plain tick count in microseconds, shifted to the Unix epoch. */
  lemma FileTimeExact(high: nat, low: nat)
    requires IsU32(high) && IsU32(low) && high < 0x8000_0000
    ensures FileTimeToUnixTime(high, low) == (high * TWO_32 + low) / 10 - EPOCH_DIFF_US
  {
    assert 0 <= high * TWO_32 < TWO_63;
  }

  /** The Unix epoch itself maps to zero. */
  lemma UnixEpochIsZero()
    ensures FileTimeToUnixTime(0x19D_B1DE, 0xD53E_8000) == 0
  {
    FileTimeExact(0x19D_B1DE, 0xD53E_8000);
  }

  /** Later FILETIMEs never give earlier Unix times. */
  lemma FileTimeMonotone(h1: nat, l1: nat, h2: nat, l2: nat)
    requires IsU32(h1) && IsU32(l1) && IsU32(h2) && IsU32(l2)
    requires h1 < 0x8000_0000 && h2 < 0x8000_0000
    requires h1 * TWO_32 + l1 <= h2 * TWO_32 + l2
    ensures FileTimeToUnixTime(h1, l1) <= FileTimeToUnixTime(h2, l2)
  {
    FileTimeExact(h1, l1);
    FileTimeExact(h2, l2);
  }

  datatype Timespec = Timespec(sec: int, nsec: int)

  /** The split in clock_gettime: whole seconds cast to `long` (32 bits on Windows), and the remaining
      microseconds cast to `long` and then scaled to nanoseconds. */
  function SplitMicros(tim: int): (ts: Timespec)
    requires IsI64(tim)
  {
    Timespec(I32(CDiv(tim, 1000000)), I32(CRem(tim, 1000000)) * 1000)
  }

  /** Up to early 2038 nothing is lost by the casts: seconds and nanoseconds rebuild the
      microsecond count, and the nanoseconds stay below one second. */
  lemma SplitMicrosExact(tim: int)
    requires 0 <= tim < 0x8000_0000 * 1000000
    ensures SplitMicros(tim).sec * 1000000 + SplitMicros(tim).nsec / 1000 == tim
    ensures 0 <= SplitMicros(tim).nsec < 1000000000
    ensures SplitMicros(tim).nsec % 1000 == 0
  {
    CDivRem(tim, 1000000);
    assert IsI32(CDiv(tim, 1000000));
    assert IsI32(CRem(tim, 1000000));
  }

  /** clock_gettime(CLOCK_REALTIME, tp): EINVAL for a missing `tp`, otherwise the current
      FILETIME (an input here: the system clock) split into a timespec. */
  function ClockGettime(tpGiven: bool, high: nat, low: nat): (r: Result<Timespec>)
    requires IsU32(high) && IsU32(low)
    ensures !tpGiven <==> r.Fail?
    ensures r.Ok? ==> r.value == SplitMicros(FileTimeToUnixTime(high, low))
  {
    if !tpGiven then Fail(ErrInvalidArgument)
    else Ok(SplitMicros(FileTimeToUnixTime(high, low)))
  }
}
