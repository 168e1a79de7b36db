/**
 include/priskv-utils.h:229-239 and server/kv.c:302-309: adding milliseconds to a
 timeval, the elapsed time between two, and when a key counts as expired. C longs wrap at
 64 bits and its division truncates toward zero; both are written out.
 */
module Clock {

  datatype Time = Time(sec: int, usec: int)

  const NEVER: Time := Time(-1, -1)
  const MAX_TIMEOUT: nat := 0xffff_ffff_ffff_ffff

  function Long(x: int): int {
    (x + 0x8000_0000_0000_0000) % 0x1_0000_0000_0000_0000 - 0x8000_0000_0000_0000
  }

  /** C division: toward zero. */
  function Trunc(a: int, b: int): int
    requires b > 0
  {
    if a >= 0 then a / b else -((-a) / b)
  }

  function ElapsedMs(start: Time, end: Time): int {
    Long(Long(Long(end.sec - start.sec) * 1000) + Trunc(Long(end.usec - start.usec), 1000))
  }

  function AddMs(t: Time, ms: nat): Time {
    var usec := Long(t.usec + (ms % 1000) * 1000);
    Time(Long(t.sec + ms / 1000 + Trunc(usec, 1000000)), usec - 1000000 * Trunc(usec, 1000000))
  }

  predicate Expired(expire: Time, now: Time) {
    if expire.sec < 0 || expire.usec < 0 then false else ElapsedMs(expire, now) > 0
  }

  /** What gettimeofday returns for the next thirty million years. */
  predicate IsReading(t: Time) {
    0 <= t.sec < 0x4_0000_0000_0000 && 0 <= t.usec < 1000000
  }

  function Micros(t: Time): int { t.sec * 1000000 + t.usec }

  /** The expiry time is exact and normalised, for every 64-bit timeout. */
  lemma {:induction false} AddMsExact(t: Time, ms: nat)
    requires IsReading(t) && ms <= MAX_TIMEOUT
    ensures Micros(AddMs(t, ms)) == Micros(t) + 1000 * ms
    ensures IsExpiry(AddMs(t, ms))
  {
    var q, r := ms / 1000, ms % 1000;
    var usec := t.usec + r * 1000;
    LongFits(usec);
    var carry := if usec < 1000000 then 0 else 1;
    assert Trunc(usec, 1000000) == carry;
    LongFits(t.sec + q + carry);
    assert AddMs(t, ms) == Time(t.sec + q + carry, usec - 1000000 * carry);
  }

  /** A reading plus any 64-bit number of milliseconds. */
  predicate IsExpiry(e: Time) { 0 <= e.sec < 0x60_0000_0000_0000 && 0 <= e.usec < 1000000 }

  lemma {:induction false} LongFits(x: int)
    requires -0x8000_0000_0000_0000 <= x < 0x8000_0000_0000_0000
    ensures Long(x) == x
  {
  }

  // ---------------------------------------------------------------- when a key counts as expired

  /** The difference that the code computes, before it wraps. */
  function Diff(e: Time, now: Time): int { (now.sec - e.sec) * 1000 + Trunc(now.usec - e.usec, 1000) }

  /** So far ahead that the difference wraps to a positive number. */
  predicate TooFar(e: Time, now: Time) {
    -0x1_0000_0000_0000_0000 < Diff(e, now) < -0x8000_0000_0000_0000
  }

  lemma {:induction false} ElapsedWraps(e: Time, now: Time)
    requires IsReading(now) && IsExpiry(e)
    ensures ElapsedMs(e, now) == Long(Diff(e, now))
  {
    var ds, du := now.sec - e.sec, now.usec - e.usec;
    LongFits(ds);
    LongFits(du);
    LongAdd(ds * 1000, Trunc(du, 1000));
  }

  lemma {:induction false} LongAdd(x: int, y: int)
    ensures Long(Long(x) + y) == Long(x + y)
  {
  }

  lemma {:induction false} DiffBounds(e: Time, now: Time)
    requires IsReading(now) && IsExpiry(e)
    ensures -0x1_8000_0000_0000_0000 < Diff(e, now) < 0x8000_0000_0000_0000
    ensures Diff(e, now) > 0 <==>
            Micros(now) - Micros(e) >= 1000 || (Micros(now) > Micros(e) && now.sec != e.sec)
    ensures Micros(now) - Micros(e) - 1000 < 1000 * Diff(e, now)
  {
    var du := now.usec - e.usec;
    assert -1000 < Trunc(du, 1000) < 1000;
    assert du - 1000 < 1000 * Trunc(du, 1000);
  }

  /** Expired: more than the expiry's millisecond has passed, or the expiry is too far ahead. */
  lemma {:induction false} ExpiredAt(e: Time, now: Time)
    requires IsReading(now) && IsExpiry(e)
    ensures Expired(e, now) <==>
            || Micros(now) - Micros(e) >= 1000 || (Micros(now) > Micros(e) && now.sec != e.sec)
            || TooFar(e, now)
  {
    ElapsedWraps(e, now);
    DiffBounds(e, now);
    LongSign(Diff(e, now));
  }

  lemma {:induction false} LongSign(x: int)
    requires -0x1_8000_0000_0000_0000 < x < 0x8000_0000_0000_0000
    ensures Long(x) > 0 <==> x > 0 || -0x1_0000_0000_0000_0000 < x < -0x8000_0000_0000_0000
  {
  }

  /** A key set at t for ms, for every 64-bit timeout and all readings: expired from ms + 1 on; in
      the millisecond before, only once the clock's second has moved past the expiry's; and at or
      before ms exactly when the expiry is too far ahead. */
  lemma {:induction false} ExpiryBound(t: Time, ms: nat, now: Time)
    requires IsReading(t) && IsReading(now) && ms <= MAX_TIMEOUT
    ensures var late, e := Micros(now) - (Micros(t) + 1000 * ms), AddMs(t, ms);
            Expired(e, now) <==> late >= 1000 || (late > 0 && now.sec != e.sec) || TooFar(e, now)
  {
    AddMsExact(t, ms);
    ExpiredAt(AddMs(t, ms), now);
  }

  /** From its setting on, a timeout of at most 2^63 ms never expires early. */
  lemma {:induction false} NeverEarly(t: Time, ms: nat, now: Time)
    requires IsReading(t) && IsReading(now) && ms <= 0x8000_0000_0000_0000 && Micros(t) <= Micros(now)
    ensures Expired(AddMs(t, ms), now) ==> Micros(now) > Micros(t) + 1000 * ms
  {
    AddMsExact(t, ms);
    ExpiryBound(t, ms, now);
    DiffBounds(AddMs(t, ms), now);
  }

  /** A key is expired the moment it is set exactly when its timeout is over 2^63 ms. */
  lemma {:induction false} ExpiredAtOnce(t: Time, ms: nat)
    requires IsReading(t) && ms < MAX_TIMEOUT
    ensures Expired(AddMs(t, ms), t) <==> ms > 0x8000_0000_0000_0000
  {
    var e := AddMs(t, ms);
    AddMsExact(t, ms);
    ExpiredAt(e, t);
    DiffExact(e, t, ms);
  }

  lemma {:induction false} DiffExact(e: Time, t: Time, ms: nat)
    requires Micros(e) == Micros(t) + 1000 * ms
    ensures Diff(e, t) + ms == 0
  {
    var k := (t.sec - e.sec) * 1000 + ms;
    assert t.usec - e.usec == -1000 * k;
    TruncExact(-k);
  }

  lemma {:induction false} TruncExact(k: int)
    ensures Trunc(1000 * k, 1000) == k
  {
  }

  /** Set in November 2023 for 0xC000_0000_0000_0000 ms: expired at once. */
  lemma {:induction false} FarTimeout()
    ensures var t := Time(1700000000, 0); Expired(AddMs(t, 0xC000_0000_0000_0000), t)
  {
    ExpiredAtOnce(Time(1700000000, 0), 0xC000_0000_0000_0000);
  }
}
