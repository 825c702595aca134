/**
 * The sliding-window rate limiter of app.py:43-60.  Each decorated endpoint
 * owns one log of admission times.  A call first drops every time that is 60
 * seconds old or older, is refused (HTTP 429) when the remaining log has
 * reached the threshold, and otherwise records its own time and goes on to
 * the endpoint.  Times are whole seconds supplied by the caller.
 */
module RateLimit {

  /** Length of the sliding window, in seconds. */
  const WindowSeconds: int := 60

  /** Threshold the release listing is decorated with (app.py:84). */
  const ReleasesPerMinute: nat := 30

  /** The comprehension's filter: `now - req_time < 60`. */
  predicate InWindow(now: int, t: int) {
    now - t < WindowSeconds
  }

  /** The log with every time outside the window dropped, order kept: the
      list comprehension of app.py:52. */
  function Prune(log: seq<int>, now: int): (kept: seq<int>)
    ensures |kept| <= |log|
    ensures forall i :: 0 <= i < |kept| ==> InWindow(now, kept[i])
  {
    if log == [] then []
    else
      var last := log[|log| - 1];
      Prune(log[..|log| - 1], now) + (if InWindow(now, last) then [last] else [])
  }

  /** Pruning drops exactly the times outside the window: each time keeps its
      multiplicity when inside the window and vanishes otherwise. */
  lemma {:induction false} PruneExact(log: seq<int>, now: int)
    ensures forall t :: multiset(Prune(log, now))[t] == if InWindow(now, t) then multiset(log)[t] else 0
  {
    if log != [] {
      var last := log[|log| - 1];
      PruneExact(log[..|log| - 1], now);
      assert log == log[..|log| - 1] + [last];
    }
  }

  /** Whether a call at `now` is admitted. */
  predicate Admits(log: seq<int>, now: int, maxRequests: nat): (admitted: bool)
    ensures |log| < maxRequests ==> admitted
    ensures maxRequests == 0 ==> !admitted
  {
    |Prune(log, now)| < maxRequests
  }

  /** The log after a call at `now`: pruned, and extended by `now` if admitted. */
  function NextLog(log: seq<int>, now: int, maxRequests: nat): (next: seq<int>)
    ensures |next| <= |log| + 1
    ensures |log| <= maxRequests ==> |next| <= maxRequests
    ensures forall i :: 0 <= i < |next| ==> InWindow(now, next[i])
  {
    var kept := Prune(log, now);
    if |kept| < maxRequests then kept + [now] else kept
  }

  /** The admission log of one decorated endpoint (`requests_log`). */
  class Limiter {
    const maxRequests: nat
    var log: seq<int>

    /** The window never holds more than the threshold. */
    ghost predicate Valid()
      reads this
    {
      |log| <= maxRequests
    }

    constructor (maxRequests: nat)
      ensures Valid()
      ensures this.maxRequests == maxRequests && log == []
    {
      this.maxRequests := maxRequests;
      log := [];
    }

    /** One call through the decorator: prune in place, then refuse or record. */
    method Admit(now: int) returns (admitted: bool)
      requires Valid()
      modifies this
      ensures Valid()
      ensures admitted == Admits(old(log), now, maxRequests)
      ensures log == NextLog(old(log), now, maxRequests)
    {
      var kept: seq<int> := [];
      var i := 0;
      while i < |log|
        invariant 0 <= i <= |log|
        invariant kept == Prune(log[..i], now)
      {
        assert log[..i + 1][..i] == log[..i];
        if now - log[i] < WindowSeconds {
          kept := kept + [log[i]];
        }
        i := i + 1;
      }
      assert log[..i] == log;
      log := kept;
      if |log| >= maxRequests {
        return false;
      }
      log := log + [now];
      return true;
    }
  }

  // ---------------------------------------------------------------------------
  // Properties of one admission step

  /** After a call, every time in the log is inside the window, and the log
      holds exactly the old times still inside it, plus `now` if admitted. */
  lemma NextLogWindow(log: seq<int>, now: int, maxRequests: nat)
    ensures forall t :: t in NextLog(log, now, maxRequests) ==> InWindow(now, t)
    ensures forall t :: t in NextLog(log, now, maxRequests) <==>
              (t in log && InWindow(now, t)) || (Admits(log, now, maxRequests) && t == now)
  {
    var kept := Prune(log, now);
    PruneExact(log, now);
    forall t | t in log && InWindow(now, t)
      ensures t in kept
    {
      assert multiset(log)[t] > 0;
    }
  }

  /** A refused call records nothing; an admitted one grows the pruned log by
      exactly one.  Either way the log stays within the threshold. */
  lemma NextLogLength(log: seq<int>, now: int, maxRequests: nat)
    requires |log| <= maxRequests
    ensures !Admits(log, now, maxRequests) ==> NextLog(log, now, maxRequests) == Prune(log, now)
    ensures Admits(log, now, maxRequests) ==> |NextLog(log, now, maxRequests)| == |Prune(log, now)| + 1
    ensures |NextLog(log, now, maxRequests)| <= maxRequests
  {
  }

  /** When every recorded time is still inside the window, nothing is pruned. */
  lemma {:induction false} PruneKeepsAll(log: seq<int>, now: int)
    requires forall j :: 0 <= j < |log| ==> InWindow(now, log[j])
    ensures Prune(log, now) == log
  {
    if log != [] {
      var init := log[..|log| - 1];
      PruneKeepsAll(init, now);
      assert InWindow(now, log[|log| - 1]);
      assert log == init + [log[|log| - 1]];
    }
  }

  /** With `max` calls already recorded inside the window, the next call is
      refused and the log is left as it was. */
  lemma FullWindowRefuses(log: seq<int>, now: int, maxRequests: nat)
    requires |log| >= maxRequests
    requires forall j :: 0 <= j < |log| ==> InWindow(now, log[j])
    ensures !Admits(log, now, maxRequests)
    ensures NextLog(log, now, maxRequests) == log
  {
    PruneKeepsAll(log, now);
  }

  /** A time that has left the window makes room: once the oldest recorded
      call is 60 seconds old, a call is admitted again. */
  lemma {:induction false} PruneDropsExpired(log: seq<int>, now: int, j: nat)
    requires j < |log| && !InWindow(now, log[j])
    ensures |Prune(log, now)| < |log|
  {
    var init := log[..|log| - 1];
    if j < |log| - 1 {
      PruneDropsExpired(init, now, j);
    }
  }

  lemma AdmitsOnceOldestExpires(log: seq<int>, now: int, maxRequests: nat)
    requires |log| <= maxRequests && log != []
    requires !InWindow(now, log[0])
    ensures Admits(log, now, maxRequests)
  {
    PruneDropsExpired(log, now, 0);
  }

  /** Nondecreasing: the order in which admissions happen with a clock that does not run back. */
  predicate Sorted(log: seq<int>) {
    forall j, k :: 0 <= j < k < |log| ==> log[j] <= log[k]
  }

  /** Appending a time no earlier than any recorded one keeps the log sorted. */
  lemma SortedSnoc(log: seq<int>, x: int)
    requires Sorted(log)
    requires forall t :: t in log ==> t <= x
    ensures Sorted(log + [x])
  {
    forall j, k | 0 <= j < k < |log + [x]| ensures (log + [x])[j] <= (log + [x])[k] {
      if k == |log| {
        assert (log + [x])[j] == log[j] && log[j] in log;
      }
    }
  }

  lemma {:induction false} PruneSorted(log: seq<int>, now: int)
    requires Sorted(log)
    ensures Sorted(Prune(log, now))
  {
    if log != [] {
      var init := log[..|log| - 1];
      var last := log[|log| - 1];
      assert Sorted(init);
      PruneSorted(init, now);
      if InWindow(now, last) {
        PruneExact(init, now);
        forall t | t in Prune(init, now) ensures t <= last {
          assert multiset(Prune(init, now))[t] > 0;
          var j :| 0 <= j < |init| && init[j] == t;
        }
        SortedSnoc(Prune(init, now), last);
      }
    }
  }

  /** With a clock that does not run back, the log stays in admission order. */
  lemma NextLogSorted(log: seq<int>, now: int, maxRequests: nat)
    requires Sorted(log)
    requires forall j :: 0 <= j < |log| ==> log[j] <= now
    ensures Sorted(NextLog(log, now, maxRequests))
  {
    PruneSorted(log, now);
    if Admits(log, now, maxRequests) {
      PruneExact(log, now);
      forall t | t in Prune(log, now) ensures t <= now {
        assert multiset(Prune(log, now))[t] > 0;
        var j :| 0 <= j < |log| && log[j] == t;
      }
      SortedSnoc(Prune(log, now), now);
    }
  }
}
