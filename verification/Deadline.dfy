/**
  Times, deadlines and their ranking, from gps/utils/LocTimer.cpp. The 32-bit `int` that
  LocTimerDelegate::ranks stores its differences in is modelled with its wrap-around.
 */
module Deadline {
  const NS_PER_SEC := 1000000000
  const INT32_LIMIT := 0x8000_0000
  const UINT32_LIMIT := 0x1_0000_0000

  datatype TimeSpec = TimeSpec(sec: int, nsec: int)

  predicate Normal(t: TimeSpec) {
    0 <= t.nsec < NS_PER_SEC
  }

  function ToNs(t: TimeSpec): int {
    t.sec * NS_PER_SEC + t.nsec
  }

  /** The conversion of an integer to a 32-bit two's complement `int`. */
  function ToInt32(n: int): (r: int)
    ensures -INT32_LIMIT <= r < INT32_LIMIT
    ensures -INT32_LIMIT <= n < INT32_LIMIT ==> r == n
    ensures (n - r) % UINT32_LIMIT == 0
  {
    (n + INT32_LIMIT) % UINT32_LIMIT - INT32_LIMIT
  }

  /** The normalised time of a number of nanoseconds since boot. */
  function OfNs(ns: nat): TimeSpec {
    TimeSpec(ns / NS_PER_SEC, ns % NS_PER_SEC)
  }

  /** LocTimer::start: the clock reading plus the timeout, in the normalised form. Neither the
      32-bit unsigned product nor the sum of nanoseconds, at least 32 bits wide, overflows. */
  method FutureTime(now: TimeSpec, timeOutInMs: nat) returns (futureTime: TimeSpec)
    requires Normal(now) && 0 <= now.sec && timeOutInMs < UINT32_LIMIT
    ensures Normal(futureTime)
    ensures futureTime == OfNs(ToNs(now) + timeOutInMs * 1000000)
  {
    var sec := now.sec + timeOutInMs / 1000;
    var nsec := now.nsec + (timeOutInMs % 1000) * 1000000;
    assert (timeOutInMs % 1000) * 1000000 < UINT32_LIMIT && nsec < INT32_LIMIT;
    ghost var total := sec * NS_PER_SEC + nsec;
    assert total == ToNs(now) + timeOutInMs * 1000000;
    if nsec >= 1000000000 {
      sec := sec + nsec / 1000000000;
      nsec := nsec % 1000000000;
    }
    futureTime := TimeSpec(sec, nsec);
    assert ToNs(futureTime) == total;
  }

  /** `ms` milliseconds after `now`, field by field and with the carry into the seconds. */
  function Later(now: TimeSpec, ms: nat): TimeSpec {
    var nsec := now.nsec + ms % 1000 * 1000000;
    TimeSpec(now.sec + ms / 1000 + nsec / NS_PER_SEC, nsec % NS_PER_SEC)
  }

  lemma LaterIsExact(ns: nat, ms: nat)
    ensures Later(OfNs(ns), ms) == OfNs(ns + ms * 1000000)
  {
    var now := OfNs(ns);
    var nsec := now.nsec + ms % 1000 * 1000000;
    var sec := now.sec + ms / 1000 + nsec / NS_PER_SEC;
    assert ms == ms / 1000 * 1000 + ms % 1000;
    assert ns + ms * 1000000 == sec * NS_PER_SEC + nsec % NS_PER_SEC;
  }

  // ---------- Ranking ----------

  /** LocTimerDelegate::ranks of a timer due at `a` against one due at `b`. */
  function Ranks(a: TimeSpec, b: TimeSpec): int {
    var rank := ToInt32(b.sec - a.sec);
    if rank == 0 then ToInt32(b.nsec - a.nsec) else rank
  }

  function Sign(n: int): int {
    if n < 0 then -1 else if n == 0 then 0 else 1
  }

  lemma SecondsDecide(a: TimeSpec, b: TimeSpec)
    requires Normal(a) && Normal(b)
    ensures a.sec < b.sec ==> ToNs(a) < ToNs(b)
    ensures a.sec == b.sec ==> Sign(ToNs(b) - ToNs(a)) == Sign(b.nsec - a.nsec)
  {
  }

  /** Over all normalised times that far apart in seconds, the rank has the sign of the exact
      comparison if and only if the truncated difference of the seconds has the sign of the exact
      one. That holds for every gap in [-2^31, 2^31), and first fails at 2^31. */
  lemma RankIsExact(gap: int)
    ensures (forall a, b :: Normal(a) && Normal(b) && b.sec - a.sec == gap ==> Sign(Ranks(a, b)) == Sign(ToNs(b) - ToNs(a)))
            <==> Sign(ToInt32(gap)) == Sign(gap)
    ensures -INT32_LIMIT <= gap < INT32_LIMIT ==> Sign(ToInt32(gap)) == Sign(gap)
    ensures gap == INT32_LIMIT ==> Sign(ToInt32(gap)) != Sign(gap)
  {
    if Sign(ToInt32(gap)) == Sign(gap) {
      forall a, b | Normal(a) && Normal(b) && b.sec - a.sec == gap
        ensures Sign(Ranks(a, b)) == Sign(ToNs(b) - ToNs(a))
      {
        SecondsDecide(a, b);
        SecondsDecide(b, a);
      }
    } else {
      var a, b := TimeSpec(0, 0), TimeSpec(gap, 0);
      SecondsDecide(a, b);
      SecondsDecide(b, a);
      assert Ranks(a, b) == ToInt32(gap);
      assert Normal(a) && Normal(b) && b.sec - a.sec == gap;
    }
  }

  /** Times that are all less than 2^31 seconds after boot, about 68 years, are ranked exactly: the
      earlier deadline outranks the later one. */
  lemma RankOfDeadlines(a: nat, b: nat)
    requires a < INT32_LIMIT * NS_PER_SEC && b < INT32_LIMIT * NS_PER_SEC
    ensures Ranks(OfNs(a), OfNs(b)) > 0 <==> a < b
  {
    RankIsExact(OfNs(b).sec - OfNs(a).sec);
    assert ToNs(OfNs(a)) == a && ToNs(OfNs(b)) == b;
  }
}
