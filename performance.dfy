/** The performance summary of a driver's route history, as pure functions: the fold that
    `getDriverPerformance` runs, with the formatted text replaced by its integer fields. */
module Performance {
  import opened Int32
  import opened CaseFold
  import opened Model
  import opened Wrappers

  /** "No routes assigned" or the three counts of the report. */
  datatype Summary = NoData | Report(total: nat, completed: nat, totalTime: int32)

  /** A route counts as completed when its status is "Completed" in any letter case. */
  predicate IsCompleted(r: Route)
  {
    EqualsIgnoreCase("Completed", r.status)
  }

  /** The number of completed routes in a history. */
  function CompletedCount(h: seq<Route>): (n: nat)
    ensures n <= |h|
  {
    if h == [] then 0
    else CompletedCount(h[..|h| - 1]) + (if IsCompleted(h[|h| - 1]) then 1 else 0)
  }

  /** The exact (unbounded) sum of the estimated times of a history. */
  function TimeSum(h: seq<Route>): int
  {
    if h == [] then 0 else TimeSum(h[..|h| - 1]) + h[|h| - 1].estimatedTime as int
  }

  /** The sum as Java's `int` accumulator computes it, wrapping at every addition. */
  function IntTimeSum(h: seq<Route>): int32
  {
    if h == [] then 0 else Wrap(IntTimeSum(h[..|h| - 1]) as int + h[|h| - 1].estimatedTime as int)
  }

  /** The accumulator ends at the exact sum reduced to 32 bits; in particular it is the exact
      sum whenever that fits in an int. */
  lemma {:induction false} IntTimeSumIsWrappedSum(h: seq<Route>)
    ensures IntTimeSum(h) == Wrap(TimeSum(h))
    ensures Min <= TimeSum(h) <= Max ==> IntTimeSum(h) as int == TimeSum(h)
  {
    if h != [] {
      var h' := h[..|h| - 1];
      IntTimeSumIsWrappedSum(h');
      WrapAdd(TimeSum(h'), h[|h| - 1].estimatedTime as int);
    }
  }

  /** What the summary of a history (or of a missing one) is. */
  function Summarize(h: Option<seq<Route>>): (r: Summary)
    ensures r.NoData? <==> (h.None? || h.value == [])
    ensures r.Report? ==> r.completed <= r.total
  {
    if h.None? || h.value == [] then NoData
    else Report(|h.value|, CompletedCount(h.value), IntTimeSum(h.value))
  }

  /** Counting distributes over concatenation. */
  lemma {:induction false} CompletedCountAppend(a: seq<Route>, b: seq<Route>)
    ensures CompletedCount(a + b) == CompletedCount(a) + CompletedCount(b)
    decreases |b|
  {
    if b != [] {
      var b' := b[..|b| - 1];
      assert (a + b)[..|a + b| - 1] == a + b';
      CompletedCountAppend(a, b');
    } else {
      assert a + b == a;
    }
  }

  /** Summing distributes over concatenation. */
  lemma {:induction false} TimeSumAppend(a: seq<Route>, b: seq<Route>)
    ensures TimeSum(a + b) == TimeSum(a) + TimeSum(b)
    decreases |b|
  {
    if b != [] {
      var b' := b[..|b| - 1];
      assert (a + b)[..|a + b| - 1] == a + b';
      TimeSumAppend(a, b');
    } else {
      assert a + b == a;
    }
  }

  /** Every route is completed exactly when the count is the whole length. */
  lemma {:induction false} AllCompletedIff(h: seq<Route>)
    ensures CompletedCount(h) == |h| <==> forall i :: 0 <= i < |h| ==> IsCompleted(h[i])
  {
    if h != [] {
      var h' := h[..|h| - 1];
      AllCompletedIff(h');
      assert forall i :: 0 <= i < |h'| ==> h'[i] == h[i];
    }
  }

  /** No route is completed exactly when the count is zero. */
  lemma {:induction false} NoneCompletedIff(h: seq<Route>)
    ensures CompletedCount(h) == 0 <==> forall i :: 0 <= i < |h| ==> !IsCompleted(h[i])
  {
    if h != [] {
      var h' := h[..|h| - 1];
      NoneCompletedIff(h');
      assert forall i :: 0 <= i < |h'| ==> h'[i] == h[i];
    }
  }

  /** Appending a route to a history moves its summary by exactly that route: one more in
      total, one more completed if the route is, and its time added with 32-bit wrap-around. */
  lemma SummarizeAfterAppend(h: seq<Route>, r: Route)
    ensures Summarize(Some(h + [r])) == Report(
      |h| + 1,
      CompletedCount(h) + (if IsCompleted(r) then 1 else 0),
      Wrap(IntTimeSum(h) as int + r.estimatedTime as int))
  {
    LastStep(h, r);
  }

  /** One step of each fold, on a history that ends in `r`. */
  lemma LastStep(h: seq<Route>, r: Route)
    ensures CompletedCount(h + [r]) == CompletedCount(h) + (if IsCompleted(r) then 1 else 0)
    ensures TimeSum(h + [r]) == TimeSum(h) + r.estimatedTime as int
    ensures IntTimeSum(h + [r]) == Wrap(IntTimeSum(h) as int + r.estimatedTime as int)
  {
    var h' := h + [r];
    assert h'[..|h'| - 1] == h;
  }

  /** A completed route of 30 minutes and a pending one of 20 give 2 routes, 1 completed,
      50 minutes. */
  lemma SummaryScenario()
    ensures Summarize(Some([Route("Completed", 30), Route("Pending", 20)])) == Report(2, 1, 50)
  {
    var h := [Route("Completed", 30), Route("Pending", 20)];
    assert h[..1] == [Route("Completed", 30)];
    assert IsCompleted(Route("Completed", 30)) by {
      Reflexive("Completed");
    }
    assert !IsCompleted(Route("Pending", 20)) by {
      CompletedExamples();
    }
    assert [Route("Completed", 30)][..0] == [];
  }
}
