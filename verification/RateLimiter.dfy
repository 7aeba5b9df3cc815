// The fixed-window request counter kept in Redis. Instants and durations are in milliseconds.
module RateLimiter {
  import opened Wrappers
  import opened Basics

  // A live counter key: how often it was incremented, and the last instant at which it still exists.
  datatype Window = Window(count: nat, deadline: nat)

  datatype Verdict = Verdict(allowed: bool, retryAfter: nat)

  const SECOND := 1000

  /** EXPIRE takes whole seconds. */
  function Span(window: nat): nat {
    window / SECOND * SECOND
  }

  predicate Live(slot: Option<Window>, now: nat) {
    slot.Some? && now <= slot.value.deadline
  }

  /** The key after INCR and, on the first increment, EXPIRE; an EXPIRE of zero seconds deletes the key. */
  function Hit(slot: Option<Window>, window: nat, now: nat): Option<Window> {
    var count := CountAfterHit(slot, now);
    if count > 1 then Some(Window(count, slot.value.deadline))
    else if Span(window) == 0 then None
    else Some(Window(1, now + Span(window)))
  }

  function CountAfterHit(slot: Option<Window>, now: nat): (count: nat)
    ensures count >= 1 && (count > 1 ==> Live(slot, now))
  {
    if Live(slot, now) then slot.value.count + 1 else 1
  }

  /** TTL: the remaining seconds, rounded to the nearest; -2 when there is no key. */
  function TtlSeconds(slot: Option<Window>, now: nat): int {
    if Live(slot, now) then (slot.value.deadline - now + SECOND / 2) / SECOND else -2
  }

  function Judge(slot: Option<Window>, limit: nat, window: nat, now: nat): Verdict {
    var retry := TtlSeconds(Hit(slot, window, now), now) * SECOND;
    Verdict(CountAfterHit(slot, now) <= limit, if retry < SECOND then window else retry)
  }

  function Lookup(entries: map<string, Window>, key: string): Option<Window> {
    if key in entries then Some(entries[key]) else None
  }

  class Limiter {
    var entries: map<string, Window>

    constructor ()
      ensures entries == map[]
    {
      entries := map[];
    }

    /** One request: only the counter of its own key moves. */
    method Allow(key: string, limit: nat, window: nat, now: nat) returns (verdict: Verdict)
      modifies this
      ensures verdict == Judge(Lookup(old(entries), key), limit, window, now)
      ensures Lookup(entries, key) == Hit(Lookup(old(entries), key), window, now)
      ensures forall other | other != key :: Lookup(entries, other) == Lookup(old(entries), other)
    {
      if key in entries && entries[key].deadline < now {
        entries := entries - {key};
      }
      var current := 1;
      if key in entries {
        current := entries[key].count + 1;
        entries := entries[key := entries[key].(count := current)];
      } else {
        entries := entries[key := Window(1, now)];
      }
      if current == 1 {
        if window / SECOND <= 0 {
          entries := entries - {key};
        } else {
          entries := entries[key := Window(1, now + window / SECOND * SECOND)];
        }
      }
      var ttl := TtlSeconds(Lookup(entries, key), now);
      var retry := ttl * SECOND;
      if retry < SECOND {
        retry := window;
      }
      verdict := Verdict(current <= limit, retry);
    }
  }

  // ---------- timed runs on one key ----------

  ghost predicate Ordered(times: seq<nat>) {
    forall i, j | 0 <= i <= j < |times| :: times[i] <= times[j]
  }

  /** The key after the first n requests, counters never being incremented between them. */
  function SlotAfter(times: seq<nat>, window: nat, n: nat): (slot: Option<Window>)
    requires n <= |times|
    ensures slot.Some? ==> slot.value.count >= 1
  {
    if n == 0 then None else Hit(SlotAfter(times, window, n - 1), window, times[n - 1])
  }

  predicate Admitted(times: seq<nat>, limit: nat, window: nat, i: nat)
    requires i < |times|
  {
    Judge(SlotAfter(times, window, i), limit, window, times[i]).allowed
  }

  /** The request that opened the window request i falls in: the reference the counter is compared with. */
  function WindowStart(times: seq<nat>, window: nat, i: nat): (start: nat)
    requires i < |times|
    ensures start <= i
  {
    if i == 0 then 0
    else
      var start := WindowStart(times, window, i - 1);
      if times[i] <= times[start] + Span(window) then start else i
  }

  /** The counter is a function of the request that opened the window alone: denied requests count, but never
      extend it, and a request is admitted exactly when fewer than limit requests of its window came before it. */
  lemma {:induction false} CounterFollowsWindows(times: seq<nat>, limit: nat, window: nat, i: nat)
    requires i < |times| && window >= SECOND
    ensures var start := WindowStart(times, window, i);
            && SlotAfter(times, window, i + 1) == Some(Window(i - start + 1, times[start] + Span(window)))
            && (Admitted(times, limit, window, i) <==> i - start < limit)
  {
    if i > 0 {
      CounterFollowsWindows(times, limit, window, i - 1);
    }
  }

  function CountAdmitted(times: seq<nat>, limit: nat, window: nat, low: nat, high: nat, n: nat): nat
    requires n <= |times|
  {
    if n == 0 then 0
    else
      CountAdmitted(times, limit, window, low, high, n - 1)
      + (if low <= times[n - 1] <= high && Admitted(times, limit, window, n - 1) then 1 else 0)
  }

  /** Later requests than the interval are not counted. */
  lemma CountStays(times: seq<nat>, limit: nat, window: nat, low: nat, high: nat, n: nat)
    requires 0 < n <= |times| && high < times[n - 1]
    ensures CountAdmitted(times, limit, window, low, high, n) == CountAdmitted(times, limit, window, low, high, n - 1)
  {
  }

  /** What a closed interval has admitted when request n - 1 is its latest: at most limit of the running window, and at
      most limit of the one before it if the running window opened past the start of the interval. */
  ghost predicate CountFits(times: seq<nat>, limit: nat, window: nat, low: nat, high: nat, n: nat)
    requires 0 < n <= |times|
  {
    var start := WindowStart(times, window, n - 1);
    CountAdmitted(times, limit, window, low, high, n) <= Min(limit, n - start) + (if times[start] <= low then 0 else limit)
  }

  /** A closed interval that is at most one millisecond longer than a counter lives meets at most two windows. */
  lemma {:induction false} CountByWindow(times: seq<nat>, limit: nat, window: nat, low: nat, high: nat, n: nat)
    requires Ordered(times) && 0 < n <= |times| && window >= SECOND && high <= low + Span(window) + 1
    ensures CountAdmitted(times, limit, window, low, high, n) <= 2 * limit
    ensures times[n - 1] < low ==> CountAdmitted(times, limit, window, low, high, n) == 0
    ensures times[n - 1] <= high ==> CountFits(times, limit, window, low, high, n)
  {
    hide Admitted, SlotAfter;
    CounterFollowsWindows(times, limit, window, n - 1);
    if n == 1 {
      assert CountAdmitted(times, limit, window, low, high, 0) == 0;
    } else {
      CountByWindow(times, limit, window, low, high, n - 1);
      if high < times[n - 1] {
        CountStays(times, limit, window, low, high, n);
      }
    }
  }

  /** With a limit of one only the requests that open windows are admitted, and those lie further apart. */
  lemma {:induction false} CountSingles(times: seq<nat>, window: nat, low: nat, high: nat, n: nat)
    requires Ordered(times) && 0 < n <= |times| && window >= SECOND && high <= low + 2 * Span(window) + 1
    ensures CountAdmitted(times, 1, window, low, high, n) <= 2
    ensures var opening := times[WindowStart(times, window, n - 1)];
            times[n - 1] <= high ==>
              && (opening < low ==> CountAdmitted(times, 1, window, low, high, n) == 0)
              && (opening <= low + Span(window) ==> CountAdmitted(times, 1, window, low, high, n) <= 1)
  {
    hide Admitted, SlotAfter;
    CounterFollowsWindows(times, 1, window, n - 1);
    if n == 1 {
      assert CountAdmitted(times, 1, window, low, high, 0) == 0;
    } else {
      CountSingles(times, window, low, high, n - 1);
      if high < times[n - 1] {
        CountStays(times, 1, window, low, high, n);
      }
    }
  }

  lemma {:induction false} NothingAtLimitZero(times: seq<nat>, window: nat, low: nat, high: nat, n: nat)
    requires n <= |times|
    ensures CountAdmitted(times, 0, window, low, high, n) == 0
  {
    if n > 0 {
      NothingAtLimitZero(times, window, low, high, n - 1);
    }
  }

  /** Any closed interval admits at most twice the limit if it is at most a millisecond longer than a counter lives; with
      a limit of one it may be nearly twice as long, and with a limit of zero it is arbitrary. */
  lemma AtMostTwiceTheLimit(times: seq<nat>, limit: nat, window: nat, low: nat, high: nat)
    requires Ordered(times)
    requires limit == 0
             || (window >= SECOND && high <= low + Span(window) + 1)
             || (window >= SECOND && limit == 1 && high <= low + 2 * Span(window) + 1)
    ensures CountAdmitted(times, limit, window, low, high, |times|) <= 2 * limit
  {
    if limit == 0 {
      NothingAtLimitZero(times, window, low, high, |times|);
    } else if times != [] {
      if high <= low + Span(window) + 1 {
        CountByWindow(times, limit, window, low, high, |times|);
      } else {
        CountSingles(times, window, low, high, |times|);
      }
    }
  }

  // ---------- when the bound holds over the window itself ----------

  /** The closed interval of one window's length from low admits at most twice the limit. */
  predicate BoundedFrom(times: seq<nat>, limit: nat, window: nat, low: nat) {
    CountAdmitted(times, limit, window, low, low + window, |times|) <= 2 * limit
  }

  /** Whenever the requests come, every such interval is bounded. */
  ghost predicate TwiceTheLimitBounds(limit: nat, window: nat) {
    forall times, low: nat | Ordered(times) :: BoundedFrom(times, limit, window, low)
  }

  /** Nothing or one request is let through, or the truncation to whole seconds takes at most a millisecond. */
  predicate WindowSuits(limit: nat, window: nat) {
    limit == 0 || (window >= SECOND && (limit == 1 || window % SECOND <= 1))
  }

  /** One request opens a window; the others of the limit come at its last instant; a full limit comes right after it,
      and another right after the window that this one opened. */
  function Burst(limit: nat, window: nat): (times: seq<nat>)
    requires limit >= 1
    ensures |times| == 3 * limit && Ordered(times)
  {
    var span := Span(window);
    seq(3 * limit, i => if i == 0 then 0 else if i < limit then span else if i < 2 * limit then span + 1 else 2 * span + 2)
  }

  lemma {:induction false} BurstWindows(limit: nat, window: nat, i: nat)
    requires limit >= 1 && window >= SECOND && i < 3 * limit
    ensures WindowStart(Burst(limit, window), window, i) == if i < limit then 0 else if i < 2 * limit then limit else 2 * limit
    ensures Admitted(Burst(limit, window), limit, window, i)
  {
    if i > 0 {
      BurstWindows(limit, window, i - 1);
    }
    CounterFollowsWindows(Burst(limit, window), limit, window, i);
  }

  /** All of the burst but its first request falls between the end of its first window and the start of its third. */
  lemma {:induction false} BurstCount(limit: nat, window: nat, high: nat, n: nat)
    requires limit >= 1 && window >= SECOND && high >= 2 * Span(window) + 2 && n <= 3 * limit
    ensures CountAdmitted(Burst(limit, window), limit, window, Span(window), high, n) == if n == 0 then 0 else n - 1
  {
    hide Admitted, SlotAfter;
    if n > 0 {
      BurstCount(limit, window, high, n - 1);
      BurstWindows(limit, window, n - 1);
    }
  }

  /** Under a second every request is admitted. */
  lemma {:induction false} ShortWindowsAdmitAll(times: seq<nat>, limit: nat, window: nat, n: nat)
    requires n <= |times| && window < SECOND && limit >= 1 && forall i | 0 <= i < |times| :: times[i] == 0
    ensures CountAdmitted(times, limit, window, 0, window, n) == n
  {
    if n > 0 {
      ShortWindowsAdmitAll(times, limit, window, n - 1);
      ShortWindowsNeverLimit(times, limit, window, n - 1);
    }
  }

  /** At most twice the limit within one window's length: this holds exactly for the limits and windows that suit. */
  lemma TwiceTheLimitBoundsIff(limit: nat, window: nat)
    ensures TwiceTheLimitBounds(limit, window) <==> WindowSuits(limit, window)
  {
    if WindowSuits(limit, window) {
      forall times, low: nat | Ordered(times) ensures BoundedFrom(times, limit, window, low) {
        AtMostTwiceTheLimit(times, limit, window, low, low + window);
      }
    } else if window < SECOND {
      var times := seq(2 * limit + 1, i => 0);
      ShortWindowsAdmitAll(times, limit, window, |times|);
      assert Ordered(times) && !BoundedFrom(times, limit, window, 0);
    } else {
      var times := Burst(limit, window);
      BurstCount(limit, window, Span(window) + window, |times|);
      assert Ordered(times) && !BoundedFrom(times, limit, window, Span(window));
    }
  }

  /** So a window of 1.5 seconds with a limit of 2 admits 5 requests within 1.5 seconds. */
  lemma PartSecondsAdmitMore()
    ensures CountAdmitted([0, 1000, 1001, 1001, 2002, 2002], 2, 1500, 1000, 2500, 6) == 5
  {
    assert Burst(2, 1500) == [0, 1000, 1001, 1001, 2002, 2002];
    BurstCount(2, 1500, 2500, 6);
  }

  function CountRange(times: seq<nat>, limit: nat, window: nat, from: nat, to: nat): nat
    requires from <= to <= |times|
  {
    if from == to then 0
    else CountRange(times, limit, window, from, to - 1) + (if Admitted(times, limit, window, to - 1) then 1 else 0)
  }

  /** Of the requests from the start of a window up to any later one in it, exactly the first limit are admitted. */
  lemma {:induction false} WindowAdmitsExactly(times: seq<nat>, limit: nat, window: nat, start: nat, to: nat)
    requires start < to <= |times| && window >= SECOND
    requires WindowStart(times, window, to - 1) == start
    ensures CountRange(times, limit, window, start, to) == Min(to - start, limit)
  {
    hide Admitted, SlotAfter;
    CounterFollowsWindows(times, limit, window, to - 1);
    if to - 1 > start {
      WindowAdmitsExactly(times, limit, window, start, to - 1);
    }
  }

  /** The wait told to a caller is at least a second and at most the window. */
  lemma RetryIsWithinWindow(times: seq<nat>, limit: nat, window: nat, i: nat)
    requires i < |times| && Ordered(times) && window >= SECOND
    ensures SECOND <= Judge(SlotAfter(times, window, i), limit, window, times[i]).retryAfter <= window
  {
    CounterFollowsWindows(times, limit, window, i);
    var start := WindowStart(times, window, i);
    assert times[start] <= times[i];
    assert (times[start] + Span(window) - times[i] + SECOND / 2) / SECOND <= window / SECOND;
  }

  /** The wait is the time until the counter ends, to the nearest second, the full window if that is none. */
  lemma RetryIsTheRemainingTime(times: seq<nat>, limit: nat, window: nat, i: nat)
    requires i < |times| && Ordered(times) && window >= SECOND
    ensures var rest := times[WindowStart(times, window, i)] + window / 1000 * 1000 - times[i];
            var retry := Judge(SlotAfter(times, window, i), limit, window, times[i]).retryAfter;
            && rest >= 0
            && (rest < 500 ==> retry == window)
            && (rest >= 500 ==> retry % 1000 == 0 && rest - 500 < retry <= rest + 500)
  {
    CounterFollowsWindows(times, limit, window, i);
    assert times[WindowStart(times, window, i)] <= times[i];
  }

  /** The script limits anything only because its callers pass whole seconds: under a second, EXPIRE deletes the
      key at once, and every request is the first of its window. */
  lemma {:induction false} ShortWindowsNeverLimit(times: seq<nat>, limit: nat, window: nat, i: nat)
    requires i < |times| && window < SECOND
    ensures Admitted(times, limit, window, i) <==> limit >= 1
    ensures SlotAfter(times, window, i + 1).None?
  {
    if i > 0 {
      ShortWindowsNeverLimit(times, limit, window, i - 1);
    }
  }
}
