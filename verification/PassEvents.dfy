/**
 What the events of a pass are: the device's answers to what happened before.
 */
module PassEvents {
  import opened TestNumbering
  import opened Dependencies
  import opened Schedule

  /** A skip entry names t itself, or t's whole group by an "ALL" level. */
  ghost predicate NamedToSkip(t: TestRef, skiptest: seq<TestRef>) {
    exists s | s in skiptest ::
      || (s.group == t.group && s.xLev == t.xLev && s.yLev == t.yLev && s.zLev == t.zLev)
      || (s.group == t.group && (s.xLev == 0xFFFF_FFFF || s.yLev == 0xFFFF_FFFF || s.zLev == 0xFFFF_FFFF))
  }

  /**
   What a visit of t must come to after the given events: a test that the skip
   list names is not asked, one that is not runnable or cannot tell is not run.
   */
  ghost predicate VerdictIsRight(env: Setup, history: Log, t: TestRef, v: Verdict) {
    && (v == ListedToSkip <==> NamedToSkip(t, env.skiptest))
    && (!NamedToSkip(t, env.skiptest) ==>
          var answer := env.dut.runnable(history, t, env.preserve);
          && (v == NotRunnable <==> answer == RUN_FALSE)
          && (v == AskFailed <==> answer == RUN_FAIL)
          && (v.Ran? <==> answer == RUN_TRUE)
          && (v.Ran? ==> v.result == env.dut.run(history, t)))
  }

  lemma JudgedRightly(env: Setup, history: Log, t: TestRef)
    ensures VerdictIsRight(env, history, t, Judge(env, history, t))
  {
    if SkipListed(t, env.skiptest) {
      var i :| 0 <= i < |env.skiptest|
        && env.skiptest[i].group == t.group && (env.skiptest[i] == t || !env.skiptest[i].Specific());
      assert env.skiptest[i] in env.skiptest;
    }
  }

  /** Event q is what the device and the skip list make of the events before it. */
  ghost predicate Answered(env: Setup, log: Log, q: nat)
    requires q < |log|
  {
    match log[q]
    case Disabled(ok) => ok == env.dut.disable(log[..q])
    case Saved(ok) => env.restore && ok == env.dut.saveState(log[..q])
    case Restored(ok) => env.restore && ok == env.dut.restoreState(log[..q])
    case Visited(t, v) => VerdictIsRight(env, log[..q], t, v)
  }

  ghost predicate AllAnswered(env: Setup, log: Log, start: nat) {
    start <= |log| && forall q | start <= q < |log| :: Answered(env, log, q) && !log[q].Disabled?
  }

  lemma AnswersExtend(env: Setup, log: Log, start: nat, e: Event)
    requires AllAnswered(env, log, start) && Answered(env, log + [e], |log|) && !e.Disabled?
    ensures AllAnswered(env, log + [e], start)
  {
    hide VerdictIsRight;
    var wide := log + [e];
    forall q | start <= q < |wide| ensures Answered(env, wide, q) && !wide[q].Disabled? {
      if q < |log| {
        assert Answered(env, log, q);
        assert wide[..q] == log[..q];
      }
    }
  }

  lemma VisitExtends(env: Setup, log: Log, start: nat, t: TestRef)
    requires AllAnswered(env, log, start)
    ensures AllAnswered(env, log + [Visited(t, Judge(env, log, t))], start)
  {
    JudgedRightly(env, log, t);
    hide Judge, VerdictIsRight;
    var e := Visited(t, Judge(env, log, t));
    assert (log + [e])[..|log|] == log;
    AnswersExtend(env, log, start, e);
  }

  lemma HookExtends(env: Setup, log: Log, start: nat)
    requires AllAnswered(env, log, start) && env.restore
    ensures AllAnswered(env, log + [Saved(env.dut.saveState(log))], start)
    ensures AllAnswered(env, log + [Restored(env.dut.restoreState(log))], start)
  {
    hide VerdictIsRight;
    var s, r := Saved(env.dut.saveState(log)), Restored(env.dut.restoreState(log));
    assert (log + [s])[..|log|] == log && (log + [r])[..|log|] == log;
    AnswersExtend(env, log, start, s);
    AnswersExtend(env, log, start, r);
  }

  lemma StepAnswers(env: Setup, g: nat, shape: Shape, deps: seq<TestRef>, start: nat, p: Progress)
    requires -1 <= p.tstIdx && AllAnswered(env, p.log, start)
    ensures AllAnswered(env, Step(env, g, shape, deps, p).after.log, start)
  {
    hide Judge, NumSkipped, BlockEnd, AllAnswered, VerdictIsRight;
    if Runnable(g, shape, deps, p) {
      var ready := MaybeSave(env, p);
      if ready.log != p.log {
        HookExtends(env, p.log, start);
      }
      if !SaveFails(env, p) {
        var t := deps[p.tstIdx];
        VisitExtends(env, ready.log, start, t);
        if env.restore {
          HookExtends(env, ready.log + [Visited(t, Judge(env, ready.log, t))], start);
        }
      }
    }
  }

  /** Every event of every pass is an answer. */
  lemma {:induction false} PassAnswers(env: Setup, g: nat, shape: Shape, deps: seq<TestRef>,
      start: nat, p: Progress, c: Counts)
    requires -1 <= p.tstIdx && AllAnswered(env, p.log, start)
    ensures AllAnswered(env, RunPass(env, g, shape, deps, p, c).after.log, start)
    decreases Remaining(deps, p)
  {
    hide Step, Tally, AllAnswered;
    var s := Step(env, g, shape, deps, p);
    StepAnswers(env, g, shape, deps, start, p);
    if s.result != TR_NOTFOUND && (s.result != TR_FAIL || env.ignore) {
      PassAnswers(env, g, shape, deps, start, s.after, Tally(c, s.result, s.numSkipped));
    }
  }

  // ---------------------------------------------------------- growth and faults

  lemma StepGrows(env: Setup, g: nat, shape: Shape, deps: seq<TestRef>, p: Progress)
    requires -1 <= p.tstIdx
    ensures p.log <= Step(env, g, shape, deps, p).after.log
  {
    hide Judge, NumSkipped, BlockEnd;
  }

  /** A pass only appends to the log. */
  lemma {:induction false} PassGrows(env: Setup, g: nat, shape: Shape, deps: seq<TestRef>, p: Progress, c: Counts)
    requires -1 <= p.tstIdx
    ensures p.log <= RunPass(env, g, shape, deps, p, c).after.log
    decreases Remaining(deps, p)
  {
    hide Step, Tally;
    var s := Step(env, g, shape, deps, p);
    StepGrows(env, g, shape, deps, p);
    if s.result != TR_NOTFOUND && (s.result != TR_FAIL || env.ignore) {
      PassGrows(env, g, shape, deps, s.after, Tally(c, s.result, s.numSkipped));
    }
  }

  lemma NoFaultSplits(log: Log, start: nat, middle: Log)
    requires start <= |middle| && middle <= log
    ensures NoFaultSince(log, start) <==> NoFaultSince(middle, start) && NoFaultSince(log, |middle|)
  {
    assert forall q | 0 <= q < |middle| :: middle[q] == log[q];
  }

  /** If restoring is called for after the visit of entry i, it succeeds. */
  predicate RestoreHolds(env: Setup, deps: seq<TestRef>, i: nat, ready: Progress)
    requires i < |deps|
  {
    var v := Judge(env, ready.log, deps[i]);
    var done := Visit(deps, i, ready, v);
    Restores(env, done, v) ==> env.dut.restoreState(done.log)
  }

  lemma VisitLogs(deps: seq<TestRef>, i: nat, p: Progress, v: Verdict)
    requires i < |deps|
    ensures Visit(deps, i, p, v).log == p.log + [Visited(deps[i], v)]
  {
  }

  lemma AttemptFaults(env: Setup, deps: seq<TestRef>, i: nat, ready: Progress)
    requires i < |deps|
    ensures var after := Attempt(env, deps, i, ready).after;
      var log, faultless := after.log, RestoreHolds(env, deps, i, ready);
      && ready.log < log && NoFaultSince(log[..|log| - 1], |ready.log|)
      && (HookFault(log[|log| - 1]) <==> !faultless)
      && (!faultless ==> after.tstIdx == -1)
  {
    hide Judge, NumSkipped, Visit;
    var v := Judge(env, ready.log, deps[i]);
    var done := Visit(deps, i, ready, v);
    var log := Attempt(env, deps, i, ready).after.log;
    VisitLogs(deps, i, ready, v);
    if Restores(env, done, v) {
      var e := Restored(env.dut.restoreState(done.log));
      assert log == done.log + [e] && log[|done.log|] == e;
      assert log[..|log| - 1] == done.log;
    } else {
      assert log == done.log;
    }
  }

  /** A call of RunTest logs a fault iff one of its hooks fails, and then it is the last event. */
  lemma StepFaults(env: Setup, g: nat, shape: Shape, deps: seq<TestRef>, p: Progress)
    requires Runnable(g, shape, deps, p)
    ensures var after := Step(env, g, shape, deps, p).after;
      var log := after.log;
      var faultless := !SaveFails(env, p) && RestoreHolds(env, deps, p.tstIdx, MaybeSave(env, p));
      && p.log < log && NoFaultSince(log[..|log| - 1], |p.log|)
      && (NoFaultSince(log, |p.log|) <==> faultless)
      && (HookFault(log[|log| - 1]) <==> !faultless)
      && (!faultless ==> after.tstIdx == -1)
  {
    hide Attempt, RestoreHolds;
    var log := Step(env, g, shape, deps, p).after.log;
    var ready := MaybeSave(env, p);
    if SaveFails(env, p) {
      assert log == p.log + [Saved(false)] && log[|p.log|] == Saved(false);
    } else {
      AttemptFaults(env, deps, p.tstIdx, ready);
      assert ready.log == p.log || ready.log == p.log + [Saved(true)];
      assert forall q | 0 <= q < |log| - 1 :: log[..|log| - 1][q] == log[q];
    }
  }

  /** At the end of the set, or at a test that does not exist, the pass ends. */
  lemma NothingLeft(env: Setup, g: nat, shape: Shape, deps: seq<TestRef>, p: Progress, c: Counts)
    requires -1 <= p.tstIdx && !Runnable(g, shape, deps, p)
    ensures RunPass(env, g, shape, deps, p, c)
         == PassEnd(p.(tstIdx := -1), Add(c, TR_NOTFOUND, 1), false, 1)
  {
  }

  /** A failed save or restore is the last event of its pass, with or without --ignore. */
  lemma {:induction false} FaultEndsPass(env: Setup, g: nat, shape: Shape, deps: seq<TestRef>, p: Progress, c: Counts)
    requires -1 <= p.tstIdx
    ensures var log := RunPass(env, g, shape, deps, p, c).after.log;
      p.log <= log && (p.log < log ==> NoFaultSince(log[..|log| - 1], |p.log|))
    decreases Remaining(deps, p)
  {
    hide Step, Tally;
    var s := Step(env, g, shape, deps, p);
    if Runnable(g, shape, deps, p) {
      StepFaults(env, g, shape, deps, p);
      if s.result != TR_FAIL || env.ignore {
        var c' := Tally(c, s.result, s.numSkipped);
        if s.after.tstIdx == -1 {
          NothingLeft(env, g, shape, deps, s.after, c');
        } else {
          FaultEndsPass(env, g, shape, deps, s.after, c');
          var log := RunPass(env, g, shape, deps, s.after, c').after.log;
          if s.after.log < log {
            NoFaultSplits(log[..|log| - 1], |p.log|, s.after.log);
          }
        }
      }
    } else {
      NothingLeft(env, g, shape, deps, p, c);
    }
  }

  /** The events a pass appends to log. */
  function Appended(env: Setup, g: nat, shape: Shape, deps: seq<TestRef>,
      log: Log, failed: seq<TestRef>, skipped: seq<TestRef>, c: Counts): (events: Log)
  {
    var end := RunPass(env, g, shape, deps, Start(log, failed, skipped), c).after;
    if |log| <= |end.log| then end.log[|log|..] else []
  }

  /** Without --restore the state is neither saved nor restored; no pass disables the controller. */
  lemma PassWithoutRestore(env: Setup, g: nat, shape: Shape, deps: seq<TestRef>,
      log: Log, failed: seq<TestRef>, skipped: seq<TestRef>, c: Counts)
    ensures var events := Appended(env, g, shape, deps, log, failed, skipped, c);
      forall q | 0 <= q < |events| :: !events[q].Disabled? && (!env.restore ==> events[q].Visited?)
  {
    hide RunPass, VerdictIsRight;
    PassAnswers(env, g, shape, deps, |log|, Start(log, failed, skipped), c);
    var end := RunPass(env, g, shape, deps, Start(log, failed, skipped), c).after;
    forall q | |log| <= q < |end.log|
      ensures !end.log[q].Disabled? && (!env.restore ==> end.log[q].Visited?)
    {
      assert Answered(env, end.log, q);
    }
  }
}
