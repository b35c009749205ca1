/**
 * The Violation Detector: the process-wide log of violation timestamps
 * (`temperatureViolations`) and what the handler does to it for each accepted
 * reading. A violation's timestamp is appended, the log is cut down to the
 * entries at most 5000 ms older than the reading's own timestamp (entries later
 * than it stay), and an alert is raised while more than 3 entries remain.
 */
module ViolationWindow {
  import opened Telemetry

  /** The alert fires when the log holds more than this many entries. */
  const ViolationThreshold: int := 3
  /** Width of the sliding window, in milliseconds. */
  const ViolationTimeWindow: int := 5000

  /** The filter's test: `now - e <= 5000`. Entries later than `now` pass. */
  predicate WithinWindow(now: int, e: int)
  {
    now - e <= ViolationTimeWindow
  }

  /** The log kept by the filter, in its original order; written from the end so that a left-to-right loop follows it. */
  function Prune(log: seq<int>, now: int): seq<int>
  {
    if log == [] then []
    else Prune(log[..|log| - 1], now) + (if WithinWindow(now, log[|log| - 1]) then [log[|log| - 1]] else [])
  }

  /** The log after the conditional `push` of the reading's timestamp. */
  function Record(log: seq<int>, r: Reading): seq<int>
  {
    if IsViolation(r.temperature) then log + [r.timestamp] else log
  }

  /** The log after one accepted reading: append, then prune against the reading's timestamp. */
  function Step(log: seq<int>, r: Reading): seq<int>
  {
    Prune(Record(log, r), r.timestamp)
  }

  /** The alert condition on the pruned log. */
  predicate Alerting(log: seq<int>)
  {
    |log| > ViolationThreshold
  }

  /** `a` is an order-preserving subsequence of `b` (matched greedily from the end). */
  ghost predicate IsSubsequence(a: seq<int>, b: seq<int>)
    decreases |b|
  {
    if a == [] then true
    else if b == [] then false
    else if a[|a| - 1] == b[|b| - 1] then IsSubsequence(a[..|a| - 1], b[..|b| - 1])
    else IsSubsequence(a, b[..|b| - 1])
  }

  /** Every entry the filter keeps is within the window of `now`. */
  lemma {:induction false} PruneSound(log: seq<int>, now: int)
    ensures forall e :: e in Prune(log, now) ==> WithinWindow(now, e)
  {
    if log != [] {
      PruneSound(log[..|log| - 1], now);
    }
  }

  /** The filter keeps every occurrence of an entry within the window and none of any other entry. */
  lemma {:induction false} PruneCounts(log: seq<int>, now: int)
    ensures forall e :: multiset(Prune(log, now))[e] == if WithinWindow(now, e) then multiset(log)[e] else 0
  {
    if log != [] {
      var init, last := log[..|log| - 1], log[|log| - 1];
      PruneCounts(init, now);
      assert log == init + [last];
    }
  }

  /** The filter keeps the surviving entries in their original order. */
  lemma {:induction false} PruneSubsequence(log: seq<int>, now: int)
    ensures IsSubsequence(Prune(log, now), log)
  {
    if log != [] {
      var init, last := log[..|log| - 1], log[|log| - 1];
      var kept := Prune(init, now);
      PruneSubsequence(init, now);
      if WithinWindow(now, last) {
        assert Prune(log, now) == kept + [last];
        assert (kept + [last])[..|kept|] == kept;
      } else {
        assert Prune(log, now) == kept;
        PruneSound(init, now);
        assert kept != [] ==> kept[|kept| - 1] in kept;
      }
    }
  }

  /** A log already within the window is left as it is; in particular pruning twice is pruning once. */
  lemma {:induction false} PruneIdentity(log: seq<int>, now: int)
    requires forall e :: e in log ==> WithinWindow(now, e)
    ensures Prune(log, now) == log
  {
    if log != [] {
      var init := log[..|log| - 1];
      assert forall e :: e in init ==> e in log;
      PruneIdentity(init, now);
      assert log == init + [log[|log| - 1]];
    }
  }

  lemma PruneIdempotent(log: seq<int>, now: int)
    ensures Prune(Prune(log, now), now) == Prune(log, now)
  {
    PruneSound(log, now);
    PruneIdentity(Prune(log, now), now);
  }

  /** Pruning distributes over an appended entry. */
  lemma {:induction false} PruneSnoc(log: seq<int>, e: int, now: int)
    ensures Prune(log + [e], now) == Prune(log, now) + (if WithinWindow(now, e) then [e] else [])
  {
  }

  /** A violating reading's own timestamp survives its pruning and ends the log. */
  lemma ViolationRetained(log: seq<int>, r: Reading)
    requires IsViolation(r.temperature)
    ensures Step(log, r) == Prune(log, r.timestamp) + [r.timestamp]
  {
  }

  /** An in-range reading appends nothing; it only prunes. */
  lemma InRangeOnlyPrunes(log: seq<int>, r: Reading)
    requires InSafeRange(r.temperature)
    ensures Step(log, r) == Prune(log, r.timestamp)
  {
  }

  /**
   * Violations at 0, 1000, 2000 and 3000 ms raise the alert at 3000 with four
   * entries; a further violation at 6000 drops the entry at 0 (6000 - 0 > 5000)
   * but keeps the one at 1000 (6000 - 1000 == 5000), so four remain.
   */
  lemma SlidingWindowScenario()
    ensures var hot := Milli(90000);
      var l0 := Step([], Reading(hot, 0));
      var l1 := Step(l0, Reading(hot, 1000));
      var l2 := Step(l1, Reading(hot, 2000));
      var l3 := Step(l2, Reading(hot, 3000));
      var l4 := Step(l3, Reading(hot, 6000));
      !Alerting(l2) && l3 == [0, 1000, 2000, 3000] && Alerting(l3) &&
      l4 == [1000, 2000, 3000, 6000] && Alerting(l4)
  {
    var hot := Milli(90000);
    ViolationRetained([], Reading(hot, 0));
    ViolationRetained([0], Reading(hot, 1000));
    PruneIdentity([0], 1000);
    ViolationRetained([0, 1000], Reading(hot, 2000));
    PruneIdentity([0, 1000], 2000);
    ViolationRetained([0, 1000, 2000], Reading(hot, 3000));
    PruneIdentity([0, 1000, 2000], 3000);
    ViolationRetained([0, 1000, 2000, 3000], Reading(hot, 6000));
    PruneSnoc([0, 1000, 2000], 3000, 6000);
    PruneSnoc([0, 1000], 2000, 6000);
    PruneSnoc([0], 1000, 6000);
    PruneSnoc([], 0, 6000);
  }

  /** The owner of the violation log: the module-level `temperatureViolations` array. */
  class Detector {
    var violations: seq<int>

    constructor ()
      ensures violations == []
    {
      violations := [];
    }

    /**
     * Append, filter and alert for one accepted reading: the log becomes `Step`
     * of the old log, every remaining entry is within the window of the reading,
     * and the result is whether the alert fires.
     */
    method Process(r: Reading) returns (alert: bool)
      modifies this
      ensures violations == Step(old(violations), r)
      ensures forall e :: e in violations ==> WithinWindow(r.timestamp, e)
      ensures alert == Alerting(violations)
    {
      if IsViolation(r.temperature) {
        violations := violations + [r.timestamp];
      }
      var kept: seq<int> := [];
      var i := 0;
      while i < |violations|
        invariant 0 <= i <= |violations|
        invariant kept == Prune(violations[..i], r.timestamp)
      {
        assert violations[..i + 1][..i] == violations[..i];
        if WithinWindow(r.timestamp, violations[i]) {
          kept := kept + [violations[i]];
        }
        i := i + 1;
      }
      assert violations[..|violations|] == violations;
      PruneSound(violations, r.timestamp);
      violations := kept;
      alert := |violations| > ViolationThreshold;
    }
  }
}
