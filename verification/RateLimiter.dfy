/**
 The fixed-window rate limiter: one cached entry per client and path, holding the
 start of the current window and the calls counted in it. Times are milliseconds.
 The cache may drop an entry at any time; that is an `Evict` step.
 */
module RateLimiter {
  import opened Text

  datatype Entry = Entry(start: int, count: int)

  datatype Step = Call(now: int) | Evict

  /** The entry after a call, and whether the call is refused. */
  function CallEntry(e: Option<Entry>, now: int, period: int): Entry {
    match e
    case None => Entry(now, 1)
    case Some(w) => if now - w.start < period then Entry(w.start, w.count + 1) else Entry(now, 1)
  }

  predicate Limited(e: Option<Entry>, now: int, period: int, maxCalls: int) {
    e.Some? && now - e.value.start < period && e.value.count + 1 > maxCalls
  }

  class Limiter {
    var cache: map<nat, Entry>

    constructor ()
      ensures cache == map[]
    {
      cache := map[];
    }

    ghost function Cached(h: nat): Option<Entry>
      reads this
    {
      if h in cache then Some(cache[h]) else None
    }

    method IsRateLimited(h: nat, now: int, period: int, maxCalls: int) returns (limited: bool)
      modifies this
      ensures limited == Limited(old(Cached(h)), now, period, maxCalls)
      ensures cache == old(cache)[h := CallEntry(old(Cached(h)), now, period)]
    {
      if h !in cache {
        cache := cache[h := Entry(now, 1)];
        return false;
      }
      var e := cache[h];
      if now - e.start < period {
        e := e.(count := e.count + 1);
        cache := cache[h := e];
        if e.count > maxCalls {
          return true;
        }
        return false;
      }
      e := Entry(now, 1);
      cache := cache[h := e];
      return false;
    }
  }

  // ---------------------------------------------------------------- runs of one key

  function After(e: Option<Entry>, s: Step, period: int): Option<Entry> {
    match s
    case Call(now) => Some(CallEntry(e, now, period))
    case Evict => None
  }

  function StateAfter(e: Option<Entry>, steps: seq<Step>, period: int): Option<Entry>
    decreases |steps|
  {
    if steps == [] then e else StateAfter(After(e, steps[0], period), steps[1..], period)
  }

  /** Calls let through while the steps run from state `e`. */
  function Admitted(e: Option<Entry>, steps: seq<Step>, period: int, maxCalls: int): nat
    decreases |steps|
  {
    if steps == [] then 0
    else
      (match steps[0]
       case Call(now) => if Limited(e, now, period, maxCalls) then 0 else 1
       case Evict => 0)
      + Admitted(After(e, steps[0], period), steps[1..], period, maxCalls)
  }

  function Evictions(steps: seq<Step>): nat {
    if steps == [] then 0 else (if steps[0].Evict? then 1 else 0) + Evictions(steps[1..])
  }

  /** Call times never go back, from `t` on, and stay within `hi`. */
  predicate Between(steps: seq<Step>, t: int, hi: int) {
    steps == [] ||
    match steps[0]
    case Call(now) => t <= now <= hi && Between(steps[1..], now, hi)
    case Evict => Between(steps[1..], t, hi)
  }

  /** A window always admits the call that opens it. */
  function Quota(maxCalls: int): int {
    if maxCalls < 1 then 1 else maxCalls
  }

  function Left(quota: int, count: int): int {
    if count < quota then quota - count else 0
  }

  /** How many windows of length `period` can still open between `start` and `hi`, if fewer than two fit. */
  function Reopen(start: int, hi: int, period: int): int {
    if hi - start >= period then 1 else 0
  }

  lemma Distribute(q: int, a: int, b: int)
    ensures q * (a + b) == q * a + q * b
  {
  }

  lemma MulMono(q: int, a: int, b: int)
    requires 0 <= q && a <= b
    ensures q * a <= q * b
  {
  }

  /** From an open window: what is left of it, plus one quota per window that can still open, plus one per eviction. */
  lemma {:induction false} CapacityOpen(w: Entry, steps: seq<Step>, t: int, hi: int, period: int, maxCalls: int)
    requires period > 0 && w.count >= 1 && w.start <= t && hi - t <= period && hi - w.start < 2 * period
    requires Between(steps, t, hi)
    ensures var q := Quota(maxCalls);
            Admitted(Some(w), steps, period, maxCalls)
            <= Left(q, w.count) + q * (Reopen(w.start, hi, period) + Evictions(steps))
    decreases |steps|
  {
    var q := Quota(maxCalls);
    var k := Reopen(w.start, hi, period);
    if steps == [] {
      MulMono(q, 0, k);
    } else {
      var rest := steps[1..];
      var ev := Evictions(rest);
      match steps[0]
      case Call(now) =>
        if now - w.start < period {
          CapacityOpen(Entry(w.start, w.count + 1), rest, now, hi, period, maxCalls);
        } else {
          CapacityOpen(Entry(now, 1), rest, now, hi, period, maxCalls);
          assert Reopen(now, hi, period) == 0 && k == 1;
          Distribute(q, 1, ev);
        }
      case Evict =>
        CapacityEmpty(rest, t, hi, period, maxCalls);
        MulMono(q, 1 + Reopen(t, hi, period) + ev, k + 1 + ev);
    }
  }

  /** From no entry: one window opens with the next call. */
  lemma {:induction false} CapacityEmpty(steps: seq<Step>, t: int, hi: int, period: int, maxCalls: int)
    requires period > 0 && hi - t <= period && Between(steps, t, hi)
    ensures Admitted(None, steps, period, maxCalls)
            <= Quota(maxCalls) * (1 + Reopen(t, hi, period) + Evictions(steps))
    decreases |steps|
  {
    var q := Quota(maxCalls);
    var k := Reopen(t, hi, period);
    if steps == [] {
      MulMono(q, 0, 1 + k);
    } else {
      var rest := steps[1..];
      var ev := Evictions(rest);
      match steps[0]
      case Call(now) =>
        CapacityOpen(Entry(now, 1), rest, now, hi, period, maxCalls);
        MulMono(q, Reopen(now, hi, period) + ev, k + ev);
        Distribute(q, 1, k + ev);
      case Evict =>
        CapacityEmpty(rest, t, hi, period, maxCalls);
        MulMono(q, 1 + k + ev, 1 + k + Evictions(steps));
    }
  }

  /** Every state a forward run reaches has a window that began at or before now. */
  lemma {:induction false} ReachedState(e: Option<Entry>, steps: seq<Step>, t: int, hi: int, period: int)
    requires Between(steps, t, hi) && (e.Some? ==> e.value.start <= t && e.value.count >= 1) && t <= hi
    ensures var f := StateAfter(e, steps, period);
            f.Some? ==> f.value.start <= hi && f.value.count >= 1
    decreases |steps|
  {
    if steps != [] {
      var t' := if steps[0].Call? then steps[0].now else t;
      ReachedState(After(e, steps[0], period), steps[1..], t', hi, period);
    }
  }

  /** An interval up to one period long, from any state: at most two quotas, plus one per eviction inside it. */
  lemma {:induction false} IntervalBound(e: Option<Entry>, steps: seq<Step>, lo: int, hi: int, period: int, maxCalls: int)
    requires period > 0 && hi - lo <= period && Between(steps, lo, hi)
    requires e.Some? ==> e.value.start <= lo && e.value.count >= 1
    ensures var q := Quota(maxCalls);
            && Admitted(e, steps, period, maxCalls) <= q * (2 + Evictions(steps))
            && (hi - lo < period ==> Admitted(e, steps, period, maxCalls) <= q * (2 + Evictions(steps)) - 1)
  {
    var q := Quota(maxCalls);
    var ev := Evictions(steps);
    if e.Some? && hi - e.value.start < 2 * period {
      CapacityOpen(e.value, steps, lo, hi, period, maxCalls);
      MulMono(q, Reopen(e.value.start, hi, period) + ev, 1 + ev);
      Distribute(q, 1, 1 + ev);
    } else {
      StaleIsEmpty(e, steps, lo, hi, period, maxCalls);
      CapacityEmpty(steps, lo, hi, period, maxCalls);
      MulMono(q, 1 + Reopen(lo, hi, period) + ev, 2 + ev);
      Distribute(q, 1, 1 + ev);
    }
  }

  /** A window that ended before the interval counts for nothing. */
  lemma {:induction false} StaleIsEmpty(e: Option<Entry>, steps: seq<Step>, lo: int, hi: int, period: int, maxCalls: int)
    requires Between(steps, lo, hi) && (e.Some? ==> lo - e.value.start >= period)
    ensures Admitted(e, steps, period, maxCalls) == Admitted(None, steps, period, maxCalls)
  {
  }

  /**
   The rate bound: in a run from an empty cache with a forward clock, take any stretch
   whose calls lie within one period. It admits at most twice the quota, plus one quota for
   each time the entry was dropped inside the stretch.
   */
  lemma RateBound(before: seq<Step>, stretch: seq<Step>, t: int, lo: int, hi: int, period: int, maxCalls: int)
    requires period > 0 && t <= lo && hi - lo <= period
    requires Between(before, t, lo) && Between(stretch, lo, hi)
    ensures var e := StateAfter(None, before, period);
            var n := Admitted(e, stretch, period, maxCalls);
            && n <= Quota(maxCalls) * (2 + Evictions(stretch))
            && (hi - lo < period ==> n < Quota(maxCalls) * (2 + Evictions(stretch)))
  {
    ReachedState(None, before, t, lo, period);
    IntervalBound(StateAfter(None, before, period), stretch, lo, hi, period, maxCalls);
  }

  // ---------------------------------------------------------------- within one window, and tightness

  predicate CallsBefore(steps: seq<Step>, end: int) {
    forall i :: 0 <= i < |steps| ==> steps[i].Call? && steps[i].now < end
  }

  /** A window admits exactly its first quota of calls: none fewer, none more. */
  lemma {:induction false} WindowAdmitsQuota(w: Entry, steps: seq<Step>, period: int, maxCalls: int)
    requires w.count >= 1 && CallsBefore(steps, w.start + period)
    ensures var left := Left(Quota(maxCalls), w.count);
            Admitted(Some(w), steps, period, maxCalls) == if |steps| <= left then |steps| else left
    decreases |steps|
  {
    if steps != [] {
      WindowAdmitsQuota(Entry(w.start, w.count + 1), steps[1..], period, maxCalls);
    }
  }

  function Repeat(now: int, n: nat): seq<Step> {
    seq(n, _ => Call(now))
  }

  lemma {:induction false} AdmittedConcat(e: Option<Entry>, a: seq<Step>, b: seq<Step>, period: int, maxCalls: int)
    ensures Admitted(e, a + b, period, maxCalls)
            == Admitted(e, a, period, maxCalls) + Admitted(StateAfter(e, a, period), b, period, maxCalls)
    decreases |a|
  {
    if a == [] {
      assert a + b == b;
    } else {
      AdmittedConcat(After(e, a[0], period), a[1..], b, period, maxCalls);
      assert (a + b)[1..] == a[1..] + b;
    }
  }

  lemma {:induction false} BurstState(w: Entry, now: int, n: nat, period: int)
    requires now - w.start < period
    ensures StateAfter(Some(w), Repeat(now, n), period) == Some(Entry(w.start, w.count + n))
    decreases n
  {
    if n > 0 {
      assert Repeat(now, n)[1..] == Repeat(now, n - 1);
      BurstState(Entry(w.start, w.count + 1), now, n - 1, period);
    }
  }

  /** A burst of a full quota that opens a window is admitted whole. */
  lemma OpeningBurst(e: Option<Entry>, now: int, period: int, maxCalls: int)
    requires period > 0 && (e.Some? ==> now - e.value.start >= period)
    ensures var burst := Repeat(now, Quota(maxCalls));
            && Admitted(e, burst, period, maxCalls) == Quota(maxCalls)
            && StateAfter(e, burst, period) == Some(Entry(now, Quota(maxCalls)))
  {
    var q := Quota(maxCalls);
    var burst := Repeat(now, q);
    assert burst[1..] == Repeat(now, q - 1);
    WindowAdmitsQuota(Entry(now, 1), Repeat(now, q - 1), period, maxCalls);
    BurstState(Entry(now, 1), now, q - 1, period);
  }

  /** The bound is reached: a quota at an instant and another exactly one period later. */
  lemma RateBoundIsTight(t: int, period: int, maxCalls: int)
    requires period > 0
    ensures var q := Quota(maxCalls);
            Admitted(None, Repeat(t, q) + Repeat(t + period, q), period, maxCalls) == 2 * q
  {
    var q := Quota(maxCalls);
    OpeningBurst(None, t, period, maxCalls);
    OpeningBurst(Some(Entry(t, q)), t + period, period, maxCalls);
    AdmittedConcat(None, Repeat(t, q), Repeat(t + period, q), period, maxCalls);
  }

  /** A period that is not positive limits nothing, so the bound needs `period > 0`. */
  lemma {:induction false} NoPeriodNoLimit(e: Option<Entry>, t: int, n: nat, period: int, maxCalls: int)
    requires period <= 0 && (e.Some? ==> e.value.start <= t)
    ensures Admitted(e, Repeat(t, n), period, maxCalls) == n
    decreases n
  {
    if n > 0 {
      assert Repeat(t, n)[1..] == Repeat(t, n - 1);
      NoPeriodNoLimit(Some(Entry(t, 1)), t, n - 1, period, maxCalls);
    }
  }
}
