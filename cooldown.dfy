/**
 * The per-actor rate limiter (src/structures/cooldown.ts).
 *
 * The limiter keeps a map from a composite key "<id>-<type>" to a mutable
 * record {count, lastUsage}. Records are objects: the program stores the very
 * same record under a second, bare-id key, so both keys see later increments.
 */
module Cooldown {
  import opened Wrappers
  import Strings

  /** Age, in milliseconds, the sweep compares against (one hour). */
  const SweepHorizon: int := 1000 * 60 * 60

  /** The key `${id}-${type}`. */
  function KeyOf(id: string, kind: int): (key: string)
    ensures |key| > |id| + 1 && key[..|id|] == id && key[|id|] == '-'
    ensures key[|id| + 1..] == Strings.IntToString(kind)
  {
    id + "-" + Strings.IntToString(kind)
  }

  /** One actor's keys for two kinds differ whenever the kinds do. */
  lemma KeyOfInjective(id: string, kind1: int, kind2: int)
    requires KeyOf(id, kind1) == KeyOf(id, kind2)
    ensures kind1 == kind2
  {
    var key := KeyOf(id, kind1);
    assert Strings.IntToString(kind1) == key[|id| + 1..] == Strings.IntToString(kind2);
    Strings.IntToStringInjective(kind1, kind2);
  }

  /** The composite key of an actor is never the actor's bare id. */
  lemma KeyIsNotBareId(id: string, kind: int)
    ensures KeyOf(id, kind) != id
  {
    assert |KeyOf(id, kind)| > |id|;
  }

  /** The value of a record, detached from the object that holds it. */
  datatype Entry = Entry(count: int, lastUsage: int)

  /** The opaque result of the platform's relative-time formatter, applied to a Unix time in seconds. */
  datatype RelativeTime = RelativeTime(unixSeconds: int)

  /** `LimitResult`: the flag, and when limited the formatted retry time and the retry instant. */
  datatype LimitResult = LimitResult(hasLimit: bool, time: Option<RelativeTime>, delete: Option<int>)

  const NotLimited: LimitResult := LimitResult(false, None, None)

  /** The limited answer for a record whose window started at `lastUsage`. */
  function Limited(lastUsage: int, window: int): (r: LimitResult)
    ensures r.hasLimit && r.delete == Some(lastUsage + window)
    ensures r.time == Some(RelativeTime((lastUsage + window) / 1000))
  {
    // `Math.floor(x / 1000)`: Dafny's division by a positive divisor rounds down.
    LimitResult(true, Some(RelativeTime((lastUsage + window) / 1000)), Some(lastUsage + window))
  }

  /**
   * What one `checkLimit` call does to the record under its composite key,
   * and what it answers: the reference definition the class method follows.
   */
  function Step(e: Option<Entry>, max: int, window: int, now: int): (r: (Entry, LimitResult))
  {
    match e
    case None => (Entry(1, now), NotLimited)
    case Some(u) =>
      var counted := Entry(u.count + 1, u.lastUsage);
      if now - u.lastUsage < window && counted.count >= max then (counted, Limited(u.lastUsage, window))
      else (counted, NotLimited)
  }

  /** For one key: the first call seeds {1, now}; every later call adds one and keeps `lastUsage`. */
  lemma StepCounts(e: Option<Entry>, max: int, window: int, now: int)
    ensures e.None? ==> Step(e, max, window, now) == (Entry(1, now), NotLimited)
    ensures e.Some? ==> Step(e, max, window, now).0 == Entry(e.value.count + 1, e.value.lastUsage)
  {
  }

  /** A call is limited iff the record exists, is inside its window and has reached `max`; then the retry instant is `lastUsage + window`. */
  lemma StepLimitedIff(e: Option<Entry>, max: int, window: int, now: int)
    ensures var r := Step(e, max, window, now).1;
      && (r.hasLimit <==> e.Some? && now - e.value.lastUsage < window && e.value.count + 1 >= max)
      && (r.hasLimit ==> r.delete == Some(e.value.lastUsage + window))
      && (!r.hasLimit ==> r == NotLimited)
  {
  }

  /** A sequence of calls on one key at the instants `times`: the final record and every answer. */
  function Run(e: Option<Entry>, times: seq<int>, max: int, window: int): (r: (Option<Entry>, seq<LimitResult>))
    ensures |r.1| == |times|
    decreases |times|
  {
    if times == [] then (e, [])
    else
      var first := Step(e, max, window, times[0]);
      var rest := Run(Some(first.0), times[1..], max, window);
      (rest.0, [first.1] + rest.1)
  }

  /** Calls all inside the window of a record {c, t0}: the n-th later call is limited iff c + n + 1 >= max. */
  lemma {:induction false} RunWithinWindow(c: int, t0: int, times: seq<int>, max: int, window: int)
    requires forall i :: 0 <= i < |times| ==> times[i] - t0 < window
    ensures Run(Some(Entry(c, t0)), times, max, window).0 == Some(Entry(c + |times|, t0))
    ensures forall n :: 0 <= n < |times| ==>
              (Run(Some(Entry(c, t0)), times, max, window).1[n].hasLimit <==> c + n + 1 >= max)
    ensures forall n :: 0 <= n < |times| && Run(Some(Entry(c, t0)), times, max, window).1[n].hasLimit ==>
              Run(Some(Entry(c, t0)), times, max, window).1[n].delete == Some(t0 + window)
    decreases |times|
  {
    if times != [] {
      RunWithinWindow(c + 1, t0, times[1..], max, window);
      var rest := Run(Some(Entry(c + 1, t0)), times[1..], max, window);
      assert Run(Some(Entry(c, t0)), times, max, window).1 == [Step(Some(Entry(c, t0)), max, window, times[0]).1] + rest.1;
    }
  }

  /**
   * For a fresh key and calls inside the window of the first: the n-th call
   * (counting from 1) is limited exactly when n >= 2 and n >= max, and a
   * limited call's retry instant lies after the call.
   */
  lemma FreshKeyCalls(times: seq<int>, max: int, window: int)
    requires |times| > 0
    requires forall i :: 0 <= i < |times| ==> times[i] - times[0] < window
    ensures Run(None, times, max, window).0 == Some(Entry(|times|, times[0]))
    ensures forall n :: 0 <= n < |times| ==>
              (Run(None, times, max, window).1[n].hasLimit <==> n >= 1 && n + 1 >= max)
    ensures forall n :: 0 <= n < |times| && Run(None, times, max, window).1[n].hasLimit ==>
              Run(None, times, max, window).1[n].delete.Some? && Run(None, times, max, window).1[n].delete.value > times[n]
  {
    var t0 := times[0];
    var tail := times[1..];
    assert forall i :: 0 <= i < |tail| ==> tail[i] - t0 < window by {
      forall i | 0 <= i < |tail| ensures tail[i] - t0 < window { assert tail[i] == times[i + 1]; }
    }
    RunWithinWindow(1, t0, tail, max, window);
    var rest := Run(Some(Entry(1, t0)), tail, max, window);
    var all := Run(None, times, max, window);
    assert all.1 == [NotLimited] + rest.1;
    forall n | 1 <= n < |times|
      ensures all.1[n] == rest.1[n - 1] && times[n] == tail[n - 1]
    {
    }
  }

  /** Once a record's window has passed, no call on it is limited again, however its count grows. */
  lemma {:induction false} RunAfterExpiry(c: int, t0: int, times: seq<int>, max: int, window: int)
    requires forall i :: 0 <= i < |times| ==> times[i] - t0 >= window
    ensures Run(Some(Entry(c, t0)), times, max, window).0 == Some(Entry(c + |times|, t0))
    ensures forall n :: 0 <= n < |times| ==> !Run(Some(Entry(c, t0)), times, max, window).1[n].hasLimit
    decreases |times|
  {
    if times != [] {
      RunAfterExpiry(c + 1, t0, times[1..], max, window);
      var rest := Run(Some(Entry(c + 1, t0)), times[1..], max, window);
      assert Run(Some(Entry(c, t0)), times, max, window).1 == [NotLimited] + rest.1;
    }
  }

  /** With non-decreasing call instants, a first call past the window means every later call is not limited. */
  lemma ExpiredStaysUnlimited(c: int, t0: int, times: seq<int>, max: int, window: int)
    requires |times| > 0 && times[0] - t0 >= window
    requires forall i, j :: 0 <= i <= j < |times| ==> times[i] <= times[j]
    ensures forall n :: 0 <= n < |times| ==> !Run(Some(Entry(c, t0)), times, max, window).1[n].hasLimit
  {
    assert forall i :: 0 <= i < |times| ==> times[0] <= times[i];
    RunAfterExpiry(c, t0, times, max, window);
  }

  /** The predicate the sweep passes to `Collection.sweep`: true means the record is removed. */
  predicate SweptAsWritten(lastUsage: int, now: int) {
    SweepHorizon >= now - lastUsage
  }

  /** The evidently intended predicate: remove records last used more than an hour ago. */
  predicate SweptStale(lastUsage: int, now: int) {
    now - lastUsage > SweepHorizon
  }

  /** As written, the sweep removes a record used this very instant and keeps one idle for two hours. */
  lemma SweepAsWrittenDropsFresh(now: int)
    ensures SweptAsWritten(now, now)
    ensures !SweptAsWritten(now - 2 * SweepHorizon, now)
  {
  }

  /** The corrected predicate removes exactly the records idle longer than the horizon, and never a record used within it. */
  lemma SweptStaleExact(lastUsage: int, now: int)
    ensures SweptStale(lastUsage, now) <==> lastUsage < now - SweepHorizon
    ensures 0 <= now - lastUsage <= SweepHorizon ==> !SweptStale(lastUsage, now)
  {
  }

  /** One mutable `UserLimit` record. */
  class UserLimit {
    var count: int
    var lastUsage: int

    constructor (count: int, lastUsage: int)
      ensures this.count == count && this.lastUsage == lastUsage
    {
      this.count := count;
      this.lastUsage := lastUsage;
    }
  }

  /** The `Cooldown` class: the `limits` collection and its two operations. */
  class Limiter {
    var limits: map<string, UserLimit>

    constructor ()
      ensures limits == map[]
    {
      limits := map[];
    }

    /** The value currently stored under `key`, if any. */
    ghost function Lookup(key: string): Option<Entry>
      reads this, limits.Values
    {
      if key in limits then Some(Entry(limits[key].count, limits[key].lastUsage)) else None
    }

    /**
     * `checkLimit(id, type, count, minutes)` at instant `now`.
     * The record under the composite key evolves as `Step` says; the map
     * changes only at the composite key (first call) or at the bare `id`
     * (later unlimited calls: removed when past the window, otherwise bound
     * to the same record object); no other record changes.
     */
    method CheckLimit(id: string, kind: int, max: int, window: int, now: int) returns (r: LimitResult)
      modifies this, limits.Values
      ensures KeyOf(id, kind) in limits
      ensures Lookup(KeyOf(id, kind)) == Some(Step(old(Lookup(KeyOf(id, kind))), max, window, now).0)
      ensures r == Step(old(Lookup(KeyOf(id, kind))), max, window, now).1
      ensures KeyOf(id, kind) !in old(limits) ==>
                fresh(limits[KeyOf(id, kind)]) && limits == old(limits)[KeyOf(id, kind) := limits[KeyOf(id, kind)]]
      ensures KeyOf(id, kind) in old(limits) ==>
                && limits[KeyOf(id, kind)] == old(limits)[KeyOf(id, kind)]
                && (r.hasLimit ==> limits == old(limits))
                && (!r.hasLimit && now - old(limits[KeyOf(id, kind)].lastUsage) > window ==> limits == old(limits) - {id})
                && (!r.hasLimit && now - old(limits[KeyOf(id, kind)].lastUsage) <= window ==>
                      limits == old(limits)[id := old(limits)[KeyOf(id, kind)]])
      ensures forall k :: k != KeyOf(id, kind) && k != id ==>
                (k in limits <==> k in old(limits)) && (k in old(limits) ==> limits[k] == old(limits)[k])
      ensures forall u :: u in old(limits.Values) && (KeyOf(id, kind) !in old(limits) || u != old(limits)[KeyOf(id, kind)]) ==>
                u.count == old(u.count) && u.lastUsage == old(u.lastUsage)
    {
      var key := KeyOf(id, kind);
      KeyIsNotBareId(id, kind);
      if key !in limits {
        var seeded := new UserLimit(1, now);
        limits := limits[key := seeded];
        return NotLimited;
      }
      var userLimits := limits[key];
      userLimits.count := userLimits.count + 1;
      var diff := now - userLimits.lastUsage;
      if diff < window && userLimits.count >= max {
        return Limited(userLimits.lastUsage, window);
      }
      if diff > window {
        limits := limits - {id};
      } else {
        limits := limits[id := userLimits];
      }
      return NotLimited;
    }

    /** The body of the timer that runs every 30 seconds, as written: removes every record with `now - lastUsage <= SweepHorizon`. */
    method Sweep(now: int)
      modifies this
      ensures forall k :: k in limits <==> k in old(limits) && !SweptAsWritten(old(limits)[k].lastUsage, now)
      ensures forall k :: k in limits ==> limits[k] == old(limits)[k]
    {
      limits := map k | k in limits && !SweptAsWritten(limits[k].lastUsage, now) :: limits[k];
    }

    /** The sweep as evidently intended: removes exactly the records idle for more than `SweepHorizon`. */
    method SweepStale(now: int)
      modifies this
      ensures forall k :: k in limits <==> k in old(limits) && !SweptStale(old(limits)[k].lastUsage, now)
      ensures forall k :: k in limits ==> limits[k] == old(limits)[k]
    {
      limits := map k | k in limits && !SweptStale(limits[k].lastUsage, now) :: limits[k];
    }
  }
}
