/** Relative timeouts in 32-bit arithmetic: an absolute time is turned into microseconds
    modulo 2^32 and the difference is taken as a signed word.  Overflow of the C `int` is
    taken as two's complement. */
module Time {
  import opened Kernel

  const HALF := 0x8000_0000

  type Int32 = x: int | -0x8000_0000 <= x < 0x8000_0000

  datatype Timespec = Timespec(tv_sec: Int32, tv_nsec: Int32)

  /** The value a 32-bit signed word takes. */
  function Signed(x: int): Int32 { (x + HALF) % RANGE - HALF }

  /** ... and a 32-bit unsigned one. */
  function Unsigned(x: int): nat { x % RANGE }

  /** C's division, which rounds towards zero. */
  function Quotient(x: int, d: nat): int
    requires d > 0
  {
    if x >= 0 then x / d else -((-x) / d)
  }

  /** timespec2usec, every operation in its C type. */
  function Usec(t: Timespec): nat {
    var seconds := Signed(Signed(t.tv_sec * 1000) * 1000);
    var rest := Quotient(Signed(t.tv_nsec + 500), 1000);
    Unsigned(Signed(seconds + rest))
  }

  /** getDeltaTime, given the time it reads from the system. */
  function DeltaTime(abstime: Timespec, now: Timespec): nat {
    var a, n := Usec(abstime), Usec(now);
    var delta := Signed(a - n);
    if delta < 0 then 0 else delta
  }

  // ----- The times themselves -----

  /** A time in microseconds, rounded as the code rounds, without any bound. */
  function Micros(t: Timespec): int { t.tv_sec * 1_000_000 + Quotient(t.tv_nsec + 500, 1000) }

  /** It is the nearest microsecond, halves rounded up. */
  lemma MicrosIsNearest(t: Timespec)
    requires t.tv_nsec >= 0
    ensures -500 < 1000 * Micros(t) - (t.tv_sec * 1_000_000_000 + t.tv_nsec) <= 500
  {
  }

  /** The rounding does not itself overflow; any tv_nsec below 10^9 is far from it. */
  predicate Rounds(t: Timespec) { t.tv_nsec + 500 < HALF }

  lemma SignedIs(x: int) returns (k: int)
    ensures Signed(x) == x - k * RANGE
  {
    k := (x + HALF) / RANGE;
  }

  lemma UnsignedIs(x: int) returns (k: int)
    ensures Unsigned(x) == x - k * RANGE
  {
    k := x / RANGE;
  }

  /** Words that differ by a multiple of 2^32 are the same. */
  lemma SignedOf(x: int, y: int, k: int)
    requires x == y - k * RANGE && -HALF <= x < HALF
    ensures Signed(y) == x
  {
    var j := SignedIs(y);
    assert (j - k) * RANGE == x - Signed(y);
    SmallMultiple(j - k);
  }

  lemma SmallMultiple(k: int)
    requires -RANGE < k * RANGE < RANGE
    ensures k == 0
  {
  }

  /** The wrapped microseconds are the true ones modulo 2^32. */
  lemma {:induction false} UsecIsCongruent(t: Timespec) returns (k: int)
    requires Rounds(t)
    ensures Usec(t) == Micros(t) - k * RANGE
  {
    var k1 := SignedIs(t.tv_sec * 1000);
    var k2 := SignedIs(Signed(t.tv_sec * 1000) * 1000);
    SignedOf(t.tv_nsec + 500, t.tv_nsec + 500, 0);
    var sum := Signed(Signed(t.tv_sec * 1000) * 1000) + Quotient(t.tv_nsec + 500, 1000);
    var k3 := SignedIs(sum);
    var k4 := UnsignedIs(Signed(sum));
    k := 1000 * k1 + k2 + k3 + k4;
  }

  /** The difference the code computes is the true one, modulo 2^32. */
  lemma DeltaIsCongruent(abstime: Timespec, now: Timespec) returns (k: int)
    requires Rounds(abstime) && Rounds(now)
    ensures Usec(abstime) - Usec(now) == Micros(abstime) - Micros(now) - k * RANGE
  {
    var a := UsecIsCongruent(abstime);
    var n := UsecIsCongruent(now);
    k := a - n;
  }

  lemma SameSigned(x: int, y: int, k: int)
    requires x == y - k * RANGE
    ensures Signed(x) == Signed(y)
  {
    var j := SignedIs(x);
    SignedOf(Signed(x), y, k + j);
  }

  function TimeLeft(abstime: Timespec, now: Timespec): nat {
    var d := Micros(abstime) - Micros(now);
    if d < 0 then 0 else d
  }

  /** The timeout is exact, though both times wrap, whenever the difference fits a word. */
  lemma {:induction false} DeltaTimeIsExact(abstime: Timespec, now: Timespec)
    requires Rounds(abstime) && Rounds(now)
    requires -HALF <= Micros(abstime) - Micros(now) < HALF
    ensures DeltaTime(abstime, now) == TimeLeft(abstime, now)
  {
    DeltaTimeExactIff(abstime, now);
  }

  /** And exactly then, or when a time more than half an hour past happens to wrap to
      something not positive: a time 2^31 microseconds or more away is never waited for. */
  lemma {:induction false} DeltaTimeExactIff(abstime: Timespec, now: Timespec)
    requires Rounds(abstime) && Rounds(now)
    ensures var d := Micros(abstime) - Micros(now);
      DeltaTime(abstime, now) == TimeLeft(abstime, now) <==>
      -HALF <= d < HALF || (d < -HALF && (d % RANGE == 0 || d % RANGE >= HALF))
  {
    var d := Micros(abstime) - Micros(now);
    var k := DeltaIsCongruent(abstime, now);
    SameSigned(Usec(abstime) - Usec(now), d, k);
    SignedByRemainder(d);
    if -HALF <= d < HALF {
      SignedOf(d, d, 0);
    }
  }

  lemma SignedByRemainder(d: int)
    ensures Signed(d) == if d % RANGE < HALF then d % RANGE else d % RANGE - RANGE
  {
    var k := d / RANGE;
    SignedOf(if d % RANGE < HALF then d % RANGE else d % RANGE - RANGE, d, if d % RANGE < HALF then k else k + 1);
  }
}
