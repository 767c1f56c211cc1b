/**
 What a pass counts and lists, test by test.
 */
module PassLedger {
  import opened TestNumbering
  import opened Dependencies
  import opened Schedule
  import opened PassEvents

  /** The tests that ran without failing, in order. */
  function PassedTests(log: Log): seq<TestRef> {
    if log == [] then []
    else
      var last := log[|log| - 1];
      PassedTests(log[..|log| - 1])
      + (if IsPass(last) then [last.test] else [])
  }

  /**
   The failures that are counted without a failed test being listed: a failed
   save, and a failed restore that turns the result of a test that did not fail
   into a failure.
   */
  function Unlisted(log: Log): nat {
    if log == [] then 0
    else
      var n := |log| - 1;
      Unlisted(log[..n])
      + (if log[n] == Saved(false)
            || (log[n] == Restored(false) && n > 0 && log[n - 1].Visited? && !IsFailure(log[n - 1]))
         then 1 else 0)
  }

  lemma PassedAppend(log: Log, e: Event)
    ensures PassedTests(log + [e]) == PassedTests(log)
      + (if IsPass(e) then [e.test] else [])
  {
    assert (log + [e])[..|log|] == log;
  }

  /** The tests that failed, in order. */
  function FailedTests(log: Log): seq<TestRef> {
    if log == [] then []
    else
      var n := |log| - 1;
      FailedTests(log[..n]) + (if IsFailure(log[n]) then [log[n].test] else [])
  }

  predicate Returned(e: Event, r: RunResult) {
    e.Visited? && e.verdict == Ran(r)
  }

  /**
   How many tests returned r and did not have it turned into a failure by a
   restore that failed right behind them.
   */
  function Standing(log: Log, r: RunResult): int {
    if log == [] then 0
    else
      var n := |log| - 1;
      Standing(log[..n], r)
      + (if Returned(log[n], r) then 1 else 0)
      - (if log[n] == Restored(false) && n > 0 && Returned(log[n - 1], r) then 1 else 0)
  }

  /** How a further event changes these. */
  lemma LedgerAppend(log: Log, e: Event)
    ensures FailedTests(log + [e]) == FailedTests(log) + (if IsFailure(e) then [e.test] else [])
    ensures Unlisted(log + [e]) == Unlisted(log)
      + (if e == Saved(false)
            || (e == Restored(false) && log != [] && log[|log| - 1].Visited? && !IsFailure(log[|log| - 1]))
         then 1 else 0)
    ensures forall r ::
      (Standing(log + [e], r) == Standing(log, r)
        + (if Returned(e, r) then 1 else 0)
        - (if e == Restored(false) && log != [] && Returned(log[|log| - 1], r) then 1 else 0))
  {
    assert (log + [e])[..|log|] == log;
  }

  // ------------------------------------------------- the lists and the counts

  /**
   What the five counters of the summary hold.  Passed and informative count
   the results that stand, failed the failed list and the failures that hooks
   add, skipped the skipped list; the failed list is that of the log.
   */
  ghost predicate Balanced(c: Counts, log: Log, failed: seq<TestRef>, skipped: seq<TestRef>) {
    && c[0] == Standing(log, TR_SUCCESS)
    && c[1] == |failed| + Unlisted(log)
    && c[2] == |skipped|
    && c[3] == Standing(log, TR_INFORMATIVE)
    && failed == FailedTests(log)
  }

  ghost predicate InBalance(c: Counts, p: Progress) {
    Balanced(c, p.log, p.failed, p.skipped)
  }

  lemma VisitBalances(deps: seq<TestRef>, i: nat, p: Progress, v: Verdict, c: Counts)
    requires i < |deps| && InBalance(c, p)
    ensures InBalance(Tally(c, v.Result(), NumSkipped(deps, i, v)), Visit(deps, i, p, v))
  {
    hide BlockEnd;
    LedgerAppend(p.log, Visited(deps[i], v));
    var done := Visit(deps, i, p, v);
    assert |done.skipped| == |p.skipped| + NumSkipped(deps, i, v);
  }

  /** A restore that fails turns the result of the visit in front of it into a failure. */
  lemma RestoreBalances(deps: seq<TestRef>, i: nat, p: Progress, v: Verdict, c: Counts, ok: bool)
    requires i < |deps| && InBalance(c, p)
    ensures var done := Visit(deps, i, p, v);
      InBalance(Tally(c, if ok then v.Result() else TR_FAIL, NumSkipped(deps, i, v)),
                done.(log := done.log + [Restored(ok)]))
  {
    hide BlockEnd, Standing, Unlisted, FailedTests;
    VisitBalances(deps, i, p, v, c);
    var done := Visit(deps, i, p, v);
    assert done.log[|done.log| - 1] == Visited(deps[i], v);
    LedgerAppend(done.log, Restored(ok));
  }

  lemma AttemptBalances(env: Setup, deps: seq<TestRef>, i: nat, p: Progress, c: Counts)
    requires i < |deps| && InBalance(c, p)
    ensures var s := Attempt(env, deps, i, p);
      InBalance(Tally(c, s.result, s.numSkipped), s.after)
  {
    hide BlockEnd, Judge, Visit, NumSkipped, Tally, Balanced;
    var v := Judge(env, p.log, deps[i]);
    var done := Visit(deps, i, p, v);
    VisitBalances(deps, i, p, v, c);
    RestoreBalances(deps, i, p, v, c, env.dut.restoreState(done.log));
  }

  lemma SaveBalances(env: Setup, p: Progress, c: Counts)
    requires InBalance(c, p)
    ensures !SaveFails(env, p) ==> InBalance(c, MaybeSave(env, p))
    ensures SaveFails(env, p) ==> InBalance(Tally(c, TR_FAIL, 0), MaybeSave(env, p).(tstIdx := -1))
  {
    LedgerAppend(p.log, Saved(env.dut.saveState(p.log)));
  }

  /**
   In every pass, whatever the device and the hooks do, the counters agree with
   the log and the lists; N/F counts the passes that come to their end.
   */
  lemma {:induction false} PassBalances(env: Setup, g: nat, shape: Shape, deps: seq<TestRef>, p: Progress, c: Counts)
    requires -1 <= p.tstIdx && Balanced(c, p.log, p.failed, p.skipped)
    ensures var end := RunPass(env, g, shape, deps, p, c);
      && Balanced(end.counts, end.after.log, end.after.failed, end.after.skipped)
      && end.counts[4] == c[4] + (if end.stopped then 0 else 1)
    decreases Remaining(deps, p)
  {
    hide Attempt, Balanced, MaybeSave;
    var s := Step(env, g, shape, deps, p);
    var c' := Tally(c, s.result, s.numSkipped);
    if Runnable(g, shape, deps, p) {
      SaveBalances(env, p, c);
      if !SaveFails(env, p) {
        AttemptBalances(env, deps, p.tstIdx, MaybeSave(env, p), c);
      }
      if s.result != TR_FAIL || env.ignore {
        PassBalances(env, g, shape, deps, s.after, c');
      }
    } else {
      NotFoundKeepsBalance(c, p);
    }
  }

  lemma NotFoundKeepsBalance(c: Counts, p: Progress)
    requires InBalance(c, p)
    ensures InBalance(Tally(c, TR_NOTFOUND, 0), p.(tstIdx := -1))
  {
  }

  // ------------------------------------------------------------ conservation

  /** Every test reported so far, under whichever heading. */
  ghost function Reported(p: Progress): multiset<TestRef> {
    multiset(p.failed) + multiset(p.skipped) + multiset(PassedTests(p.log))
  }

  lemma VisitCounts(deps: seq<TestRef>, i: nat, v: Verdict, c: Counts)
    requires i < |deps|
    ensures Total(Tally(c, v.Result(), NumSkipped(deps, i, v))) == Total(c) + (Next(deps, i, v) - i)
  {
  }

  lemma VisitReports(deps: seq<TestRef>, i: nat, p: Progress, v: Verdict)
    requires i < |deps|
    ensures var done := Visit(deps, i, p, v);
      && Reached(deps, done) == Next(deps, i, v)
      && Reported(done) == Reported(p) + multiset(deps[i..Next(deps, i, v)])
  {
    hide Next, PassedTests;
    var n := Next(deps, i, v);
    var t, rest := deps[i], deps[i + 1..n];
    PassedAppend(p.log, Visited(t, v));
    assert deps[i..n] == [t] + rest;
    OneMore(p.failed, p.skipped, PassedTests(p.log), t, rest);
  }

  /** A test and the rest of its jump, added to the lists in any of the three ways. */
  lemma OneMore(a: seq<TestRef>, b: seq<TestRef>, c: seq<TestRef>, t: TestRef, rest: seq<TestRef>)
    ensures var before := multiset(a) + multiset(b) + multiset(c) + multiset([t] + rest);
      && multiset(a + [t]) + multiset(b + [] + rest) + multiset(c + []) == before
      && multiset(a) + multiset(b + [t] + rest) + multiset(c + []) == before
      && multiset(a) + multiset(b + [] + rest) + multiset(c + [t]) == before
  {
  }

  /** The entry behind the block that the visit of entry i takes care of. */
  function BlockBehind(env: Setup, deps: seq<TestRef>, i: nat, ready: Progress): (n: nat)
    requires i < |deps|
    ensures i < n <= |deps|
  {
    Next(deps, i, Judge(env, ready.log, deps[i]))
  }

  /** A visit ends as it was judged, unless restoring the state fails. */
  lemma AttemptOutcome(env: Setup, deps: seq<TestRef>, i: nat, p: Progress)
    requires i < |deps|
    ensures var s := Attempt(env, deps, i, p);
      var v := Judge(env, p.log, deps[i]);
      var done := Visit(deps, i, p, v);
      && s.numSkipped == NumSkipped(deps, i, v)
      && s.after.(log := done.log, tstIdx := done.tstIdx) == done
      && (s.after.log == done.log || exists ok :: s.after.log == done.log + [Restored(ok)])
      && (RestoreHolds(env, deps, i, p) ==> s.result == v.Result() && s.after.tstIdx == done.tstIdx)
  {
    hide Visit, Judge, NumSkipped;
  }

  /** The visit reports its block, even when restoring fails; the count is right when it does not. */
  lemma AttemptReports(env: Setup, deps: seq<TestRef>, i: nat, p: Progress, c: Counts)
    requires i < |deps|
    ensures var s := Attempt(env, deps, i, p);
      var n := BlockBehind(env, deps, i, p);
      && Reported(s.after) == Reported(p) + multiset(deps[i..n])
      && (RestoreHolds(env, deps, i, p) ==>
            Reached(deps, s.after) == n && Total(Tally(c, s.result, s.numSkipped)) == Total(c) + (n - i))
  {
    hide Attempt, Visit, Next, Judge, Tally, Total, NumSkipped, PassedTests, RestoreHolds;
    var v := Judge(env, p.log, deps[i]);
    var done := Visit(deps, i, p, v);
    AttemptOutcome(env, deps, i, p);
    VisitReports(deps, i, p, v);
    VisitCounts(deps, i, v, c);
    PassedAppend(done.log, Restored(true));
    PassedAppend(done.log, Restored(false));
  }

  lemma SaveReportsNothing(env: Setup, p: Progress)
    ensures Reported(MaybeSave(env, p)) == Reported(p)
  {
    hide PassedTests;
    PassedAppend(p.log, Saved(env.dut.saveState(p.log)));
  }

  lemma StepReports(env: Setup, g: nat, shape: Shape, deps: seq<TestRef>, p: Progress, c: Counts)
    requires Runnable(g, shape, deps, p)
    ensures var s := Step(env, g, shape, deps, p);
      var n := BlockBehind(env, deps, p.tstIdx, MaybeSave(env, p));
      && (SaveFails(env, p) ==> Reported(s.after) == Reported(p))
      && (!SaveFails(env, p) ==> Reported(s.after) == Reported(p) + multiset(deps[p.tstIdx..n]))
      && (!SaveFails(env, p) && RestoreHolds(env, deps, p.tstIdx, MaybeSave(env, p)) ==>
            Reached(deps, s.after) == n
            && Total(Tally(c, s.result, s.numSkipped)) == Total(c) + (n - p.tstIdx))
  {
    hide Attempt, Judge, Tally, Total, BlockBehind, PassedTests, RestoreHolds;
    SaveReportsNothing(env, p);
    if !SaveFails(env, p) {
      AttemptReports(env, deps, p.tstIdx, MaybeSave(env, p), c);
    }
  }

  /** A pass gets past its whole set unless a failure stops it, within |set| + 1 calls. */
  lemma {:induction false} PassEnds(env: Setup, g: nat, shape: Shape, deps: seq<TestRef>, p: Progress, c: Counts)
    requires AllExist(g, shape, deps) && -1 <= p.tstIdx < |deps|
    ensures var end := RunPass(env, g, shape, deps, p, c);
      && (end.stopped ==> !env.ignore)
      && (!end.stopped ==> Reached(deps, end.after) == |deps|)
      && end.calls <= Remaining(deps, p) + 1
    decreases Remaining(deps, p)
  {
    hide Attempt, Tally;
    var s := Step(env, g, shape, deps, p);
    var c' := Tally(c, s.result, s.numSkipped);
    if p.tstIdx >= 0 && (s.result != TR_FAIL || env.ignore) {
      PassEnds(env, g, shape, deps, s.after, c');
    }
  }

  /**
   Conservation: as long as no hook fails, the pass reports every test it gets
   past exactly once, as failed, skipped or run without failing, and counts it
   once.
   */
  lemma {:induction false} PassConserves(env: Setup, g: nat, shape: Shape, deps: seq<TestRef>, p: Progress, c: Counts)
    requires AllExist(g, shape, deps) && 0 <= p.tstIdx < |deps|
    requires NoFaultSince(RunPass(env, g, shape, deps, p, c).after.log, |p.log|)
    ensures var end := RunPass(env, g, shape, deps, p, c);
      var m := Reached(deps, end.after);
      && p.tstIdx < m
      && Reported(end.after) == Reported(p) + multiset(deps[p.tstIdx..m])
      && Total(end.counts) == Total(c) + (m - p.tstIdx)
    decreases Remaining(deps, p)
  {
    hide Step, Reported, Tally, BlockBehind, RestoreHolds;
    var i := p.tstIdx;
    var s := Step(env, g, shape, deps, p);
    var n := BlockBehind(env, deps, i, MaybeSave(env, p));
    var c' := Tally(c, s.result, s.numSkipped);
    StepReports(env, g, shape, deps, p, c);
    StepFaults(env, g, shape, deps, p);
    if s.result != TR_FAIL || env.ignore {
      PassGrows(env, g, shape, deps, s.after, c');
      var end := RunPass(env, g, shape, deps, s.after, c').after;
      NoFaultSplits(end.log, |p.log|, s.after.log);
      if s.after.tstIdx >= 0 {
        PassConserves(env, g, shape, deps, s.after, c');
        var m := Reached(deps, end);
        assert deps[i..m] == deps[i..n] + deps[n..m];
      } else {
        NothingLeft(env, g, shape, deps, s.after, c');
      }
    }
  }

  // --------------------------------------------------- when hooks do fail

  /** No entry behind t is left to run after its visit with verdict v. */
  predicate LeavesNothing(deps: seq<TestRef>, t: TestRef, v: Verdict) {
    forall u | u in deps && Before(t, u) :: Blocks(t, v, u)
  }

  lemma NothingBehindBlock(g: nat, deps: seq<TestRef>, i: nat, v: Verdict)
    requires Ascending(deps) && AllIn(g, deps) && i < |deps|
    ensures Next(deps, i, v) == |deps| <==> LeavesNothing(deps, deps[i], v)
  {
    var n := Next(deps, i, v);
    BlockIsCondemned(g, deps, i, v.Fails());
    if n < |deps| {
      assert deps[n] in deps && Before(deps[i], deps[n]);
    } else {
      forall u | u in deps && Before(deps[i], u) ensures Blocks(deps[i], v, u) {
        var k :| 0 <= k < |deps| && deps[k] == u;
      }
    }
  }

  /** The last event is a failed restore behind a visit that left nothing to run. */
  predicate FailsAtEnd(deps: seq<TestRef>, log: Log) {
    && |log| >= 2 && log[|log| - 1] == Restored(false)
    && log[|log| - 2].Visited? && LeavesNothing(deps, log[|log| - 2].test, log[|log| - 2].verdict)
  }

  /** Where a pass ends in which a hook fails at the first call. */
  lemma StepFailsAtEnd(env: Setup, g: nat, shape: Shape, deps: seq<TestRef>, p: Progress)
    requires Ascending(deps) && AllIn(g, deps) && Runnable(g, shape, deps, p)
    requires !NoFaultSince(Step(env, g, shape, deps, p).after.log, |p.log|)
    ensures FailsAtEnd(deps, Step(env, g, shape, deps, p).after.log) <==>
      !SaveFails(env, p) && BlockBehind(env, deps, p.tstIdx, MaybeSave(env, p)) == |deps|
  {
    hide Judge, Next, NumSkipped, LeavesNothing;
    StepFaults(env, g, shape, deps, p);
    var log := Step(env, g, shape, deps, p).after.log;
    var ready := MaybeSave(env, p);
    if SaveFails(env, p) {
      assert log[|log| - 1] == Saved(false);
    } else {
      var v := Judge(env, ready.log, deps[p.tstIdx]);
      NothingBehindBlock(g, deps, p.tstIdx, v);
      assert log == ready.log + [Visited(deps[p.tstIdx], v)] + [Restored(false)];
      assert log[|log| - 2] == Visited(deps[p.tstIdx], v);
    }
  }

  lemma ShorterReport(r: multiset<TestRef>, deps: seq<TestRef>, i: nat, n: nat)
    requires i <= n <= |deps|
    ensures r + multiset(deps[i..n]) == r + multiset(deps[i..]) <==> n == |deps|
  {
    if n == |deps| {
      assert deps[i..n] == deps[i..];
    } else {
      assert |r + multiset(deps[i..n])| == |r| + (n - i);
      assert |r + multiset(deps[i..])| == |r| + (|deps| - i);
    }
  }

  /** The entries reported at the first call make up for those missing later. */
  lemma ReportsSplit(before: multiset<TestRef>, between: multiset<TestRef>, end: multiset<TestRef>,
      deps: seq<TestRef>, i: nat, n: nat)
    requires i <= n <= |deps| && between == before + multiset(deps[i..n])
    ensures end == before + multiset(deps[i..]) <==> end == between + multiset(deps[n..])
  {
    assert deps[i..] == deps[i..n] + deps[n..];
  }

  /**
   With errors ignored a pass reports its whole set if and only if no hook
   fails, or the only failure is that of the restore after the visit that left
   nothing to run.
   */
  lemma {:induction false} PassReportsAllIff(env: Setup, g: nat, shape: Shape, deps: seq<TestRef>,
      p: Progress, c: Counts)
    requires env.ignore && Ascending(deps) && AllIn(g, deps)
    requires AllExist(g, shape, deps) && 0 <= p.tstIdx < |deps|
    ensures var end := RunPass(env, g, shape, deps, p, c).after;
      Reported(end) == Reported(p) + multiset(deps[p.tstIdx..])
      <==> NoFaultSince(end.log, |p.log|) || FailsAtEnd(deps, end.log)
    decreases Remaining(deps, p)
  {
    hide Step, Reported, Tally, BlockBehind, RestoreHolds, FailsAtEnd;
    var i := p.tstIdx;
    var s := Step(env, g, shape, deps, p);
    var n := BlockBehind(env, deps, i, MaybeSave(env, p));
    var c' := Tally(c, s.result, s.numSkipped);
    StepReports(env, g, shape, deps, p, c);
    StepFaults(env, g, shape, deps, p);
    if s.after.tstIdx >= 0 {
      PassGrows(env, g, shape, deps, s.after, c');
      var end := RunPass(env, g, shape, deps, s.after, c').after;
      NoFaultSplits(end.log, |p.log|, s.after.log);
      PassReportsAllIff(env, g, shape, deps, s.after, c');
      ReportsSplit(Reported(p), Reported(s.after), Reported(end), deps, i, n);
    } else {
      NothingLeft(env, g, shape, deps, s.after, c');
      if !NoFaultSince(s.after.log, |p.log|) {
        StepFailsAtEnd(env, g, shape, deps, p);
      }
      ShorterReport(Reported(p), deps, i, if SaveFails(env, p) then i else n);
    }
  }

  /**
   When the state cannot be saved, the pass counts one failure, lists nothing
   and runs none of its tests, however many.
   */
  lemma SaveFailureEndsPass(env: Setup, g: nat, shape: Shape, deps: seq<TestRef>,
      log: Log, failed: seq<TestRef>, skipped: seq<TestRef>, c: Counts)
    requires deps != [] && Exists(g, shape, deps[0]) && env.restore && !env.dut.saveState(log)
    ensures var end := RunPass(env, g, shape, deps, Start(log, failed, skipped), c);
      && end.after == Progress(-1, log + [Saved(false)], failed, skipped)
      && end.counts[1] == c[1] + 1
      && Total(end.counts) == Total(c) + 1
  {
    hide Attempt;
    var p := Start(log, failed, skipped);
    var s := Step(env, g, shape, deps, p);
    if env.ignore {
      NothingLeft(env, g, shape, deps, s.after, Tally(c, s.result, s.numSkipped));
    }
  }
}
