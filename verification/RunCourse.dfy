/**
 The course of a run: which groups it passes over, which tests it visits there,
 and where it stops; said of its log alone.
 */
module RunCourse {
  import opened Wrappers
  import opened TestNumbering
  import opened Dependencies
  import opened Schedule
  import opened PassEvents
  import opened PassSafety
  import opened Execution
  import opened WholeRun

  // ------------------------------------------------------------ one pass

  /** What makes a run stop unless errors are ignored. */
  predicate Trouble(e: Event) {
    IsFailure(e) || e == Saved(false) || e == Restored(false)
  }

  predicate NoTroubleSince(log: Log, start: nat) {
    forall q | start <= q < |log| :: !Trouble(log[q])
  }

  /** Behind the first trouble there is nothing but perhaps a restore. */
  ghost predicate StopsAtTrouble(log: Log, start: nat) {
    exists q :: TroubleAt(log, start, q)
  }

  predicate TroubleAt(log: Log, start: nat, q: nat) {
    && start <= q < |log| && Trouble(log[q]) && NoTroubleSince(log[..q], start)
    && (|log| == q + 1 || (|log| == q + 2 && log[q + 1].Restored?))
  }

  lemma AttemptTrouble(env: Setup, deps: seq<TestRef>, i: nat, ready: Progress, start: nat)
    requires i < |deps| && start <= |ready.log| && NoTroubleSince(ready.log, start)
    ensures var s := Attempt(env, deps, i, ready);
      if s.result == TR_FAIL then StopsAtTrouble(s.after.log, start) else NoTroubleSince(s.after.log, start)
  {
    hide Judge, NumSkipped, Visit;
    var v := Judge(env, ready.log, deps[i]);
    var done := Visit(deps, i, ready, v);
    var log := Attempt(env, deps, i, ready).after.log;
    var q := |ready.log|;
    VisitLogs(deps, i, ready, v);
    assert done.log[q] == Visited(deps[i], v) && done.log[..q] == ready.log;
    if Restores(env, done, v) {
      var ok := env.dut.restoreState(done.log);
      assert log == done.log + [Restored(ok)] && log[q + 1] == Restored(ok);
      assert log[..q] == ready.log && log[..q + 1] == done.log && log[q] == done.log[q];
      if v.Fails() {
        assert TroubleAt(log, start, q);
      } else if !ok {
        assert TroubleAt(log, start, q + 1);
      }
    } else if v.Fails() {
      assert TroubleAt(log, start, q);
    }
  }

  lemma StepTrouble(env: Setup, g: nat, shape: Shape, deps: seq<TestRef>, p: Progress, start: nat)
    requires -1 <= p.tstIdx && start <= |p.log| && NoTroubleSince(p.log, start)
    ensures var s := Step(env, g, shape, deps, p);
      if s.result == TR_FAIL then StopsAtTrouble(s.after.log, start) else NoTroubleSince(s.after.log, start)
  {
    hide Attempt;
    if Runnable(g, shape, deps, p) {
      var ready := MaybeSave(env, p);
      if SaveFails(env, p) {
        assert ready.log[..|p.log|] == p.log && ready.log[|p.log|] == Saved(false);
        assert TroubleAt(ready.log, start, |p.log|);
      } else {
        assert ready.log == p.log || ready.log == p.log + [Saved(true)];
        AttemptTrouble(env, deps, p.tstIdx, ready, start);
      }
    }
  }

  /** A pass is stopped iff errors are not ignored and there is trouble, and then it stops there. */
  lemma {:induction false} PassStops(env: Setup, g: nat, shape: Shape, deps: seq<TestRef>,
      p: Progress, c: Counts, start: nat)
    requires -1 <= p.tstIdx && start <= |p.log| && NoTroubleSince(p.log, start) && !env.ignore
    ensures var end := RunPass(env, g, shape, deps, p, c);
      if end.stopped then StopsAtTrouble(end.after.log, start) else NoTroubleSince(end.after.log, start)
    decreases Remaining(deps, p)
  {
    hide Step, Tally, StopsAtTrouble, NoTroubleSince;
    var s := Step(env, g, shape, deps, p);
    StepTrouble(env, g, shape, deps, p, start);
    if s.result != TR_NOTFOUND && s.result != TR_FAIL {
      StepGrows(env, g, shape, deps, p);
      PassStops(env, g, shape, deps, s.after, Tally(c, s.result, s.numSkipped), start);
    }
  }

  /** From position start on, only existing tests of the set are visited. */
  ghost predicate VisitsFrom(g: nat, shape: Shape, deps: seq<TestRef>, log: Log, start: nat) {
    forall q | start <= q < |log| && log[q].Visited? :: log[q].test in deps && Exists(g, shape, log[q].test)
  }

  lemma StepVisits(env: Setup, g: nat, shape: Shape, deps: seq<TestRef>, p: Progress, start: nat)
    requires -1 <= p.tstIdx && start <= |p.log| && VisitsFrom(g, shape, deps, p.log, start)
    ensures VisitsFrom(g, shape, deps, Step(env, g, shape, deps, p).after.log, start)
  {
    hide Judge, NumSkipped, BlockEnd;
    if Runnable(g, shape, deps, p) {
      assert deps[p.tstIdx] in deps;
    }
  }

  lemma {:induction false} PassVisits(env: Setup, g: nat, shape: Shape, deps: seq<TestRef>,
      p: Progress, c: Counts, start: nat)
    requires -1 <= p.tstIdx && start <= |p.log| && VisitsFrom(g, shape, deps, p.log, start)
    ensures VisitsFrom(g, shape, deps, RunPass(env, g, shape, deps, p, c).after.log, start)
    decreases Remaining(deps, p)
  {
    hide Step, Tally, VisitsFrom;
    var s := Step(env, g, shape, deps, p);
    StepVisits(env, g, shape, deps, p, start);
    if s.result != TR_NOTFOUND && (s.result != TR_FAIL || env.ignore) {
      StepGrows(env, g, shape, deps, p);
      PassVisits(env, g, shape, deps, s.after, Tally(c, s.result, s.numSkipped), start);
    }
  }

  // ------------------------------------------------------- what is asked for

  /** Every matrix is as the APPEND_TEST macros build it. */
  ghost predicate WellBuilt(infos: seq<GroupInfo>) {
    forall i | 0 <= i < |infos| :: Jagged(infos[i].shape)
  }

  /** The test that a request for a single one names, in group num. */
  function NamedTest(test: TestRef, num: nat): TestRef {
    TestRef(num, test.xLev, test.yLev, test.zLev)
  }

  /** u is asked for in group num: any test of a whole group, else the test named and what it depends on. */
  predicate IsAsked(test: TestRef, num: nat, u: TestRef) {
    u.group == num && (WholeGroups(test) || u == NamedTest(test, num) || IsDependency(u, NamedTest(test, num)))
  }

  /** The request for group number i is refused. */
  predicate Refused(info: GroupInfo, i: nat, test: TestRef) {
    || info.num != i
    || (var t := NamedTest(test, i);
        && !WholeGroups(test) && !Exists(i, info.shape, t)
        && (t.zLev != 0 || (t.yLev != 0 && t.xLev >= |info.shape|)))
  }

  lemma SetIsAsked(info: GroupInfo, i: nat, test: TestRef)
    requires Jagged(info.shape) && Selects(test, i) && TargetFor(test, i).Some?
    ensures var tests := TestSet(info.num, info.shape, TargetFor(test, i).value);
      && (tests == None <==> Refused(info, i, test))
      && (tests.Some? ==> forall u | Exists(info.num, info.shape, u) ::
            u in tests.value <==> IsAsked(test, info.num, u))
  {
    hide Jagged;
    var target := TargetFor(test, i).value;
    if info.num == i {
      if target.Specific() {
        TestSetMissingTarget(i, info.shape, target);
        if Exists(i, info.shape, target) {
          TestSetIsDependencies(i, info.shape, target);
        }
      } else if info.shape != [] {
        IteratedIsExact(i, info.shape);
      }
    }
  }

  // ------------------------------------------------------- a pass of a run

  /**
   The events of a pass over a group: safe, visits to existing tests that are
   asked for only, and, unless trouble stops it or a hook fails, to all of them
   that nothing blocks.
   */
  ghost predicate PassIsRight(env: Setup, info: GroupInfo, test: TestRef, events: Log) {
    && Safe(events)
    && (forall q | 0 <= q < |events| && events[q].Visited? ::
          IsAsked(test, info.num, events[q].test) && Exists(info.num, info.shape, events[q].test))
    && ((env.ignore || NoTroubleSince(events, 0)) && NoFaultSince(events, 0) ==>
          forall u | IsAsked(test, info.num, u) && Exists(info.num, info.shape, u) ::
            VisitedIn(events, u) <==> !Blocked(events, u))
  }

  predicate NoDisable(log: Log) {
    forall q | 0 <= q < |log| :: !log[q].Disabled?
  }

  lemma SuffixTrouble(log: Log, n: nat)
    requires n <= |log|
    ensures NoTroubleSince(log, n) <==> NoTroubleSince(log[n..], 0)
    ensures NoFaultSince(log, n) <==> NoFaultSince(log[n..], 0)
  {
    assert forall q | n <= q < |log| :: log[n..][q - n] == log[q];
  }

  /** A pass over any set that can be scheduled, and which entries it visits. */
  lemma ScheduledPass(env: Setup, g: nat, shape: Shape, deps: seq<TestRef>,
      log: Log, failed: seq<TestRef>, skipped: seq<TestRef>, c: Counts)
    requires Schedulable(g, shape, deps)
    ensures var end := RunPass(env, g, shape, deps, Start(log, failed, skipped), c);
      && log <= end.after.log
      && var events := end.after.log[|log|..];
      && NoDisable(events) && Safe(events) && VisitsFrom(g, shape, deps, events, 0)
      && (!end.stopped && NoFaultSince(events, 0) ==> Settled(g, shape, deps, events))
  {
    hide RunPass, Safe, Schedulable, Settled;
    var p := Start(log, failed, skipped);
    PassIsSafe(env, g, shape, deps, log, failed, skipped, c);
    PassVerdict(env, g, shape, deps, log, failed, skipped, c);
    PassVisits(env, g, shape, deps, p, c, |log|);
    PassWithoutRestore(env, g, shape, deps, log, failed, skipped, c);
    var end := RunPass(env, g, shape, deps, p, c);
    assert end.after.log[|log|..] == Appended(env, g, shape, deps, log, failed, skipped, c);
    SuffixTrouble(end.after.log, |log|);
  }

  /** Whether trouble stops a pass of a run without trouble so far. */
  lemma RunStops(env: Setup, g: nat, shape: Shape, deps: seq<TestRef>, p: Progress, c: Counts)
    requires -1 <= p.tstIdx && (env.ignore || NoTroubleSince(p.log, 0))
    ensures var end := RunPass(env, g, shape, deps, p, c);
      && p.log <= end.after.log
      && (end.stopped ==> !env.ignore && StopsAtTrouble(end.after.log, 0))
      && (!end.stopped ==> env.ignore || NoTroubleSince(end.after.log, 0))
      && (end.stopped ==> !NoTroubleSince(end.after.log[|p.log|..], 0))
  {
    hide RunPass, StopsAtTrouble;
    PassGrows(env, g, shape, deps, p, c);
    var end := RunPass(env, g, shape, deps, p, c);
    SuffixTrouble(end.after.log, |p.log|);
    if env.ignore {
      NeverStopped(env, g, shape, deps, p, c);
    } else {
      PassStops(env, g, shape, deps, p, c, 0);
      PassStops(env, g, shape, deps, p, c, |p.log|);
      StoppedHasTrouble(end.after.log, |p.log|);
    }
  }

  /** What the calls of RunTest over an accepted set append to the log. */
  lemma PassRight(env: Setup, info: GroupInfo, i: nat, test: TestRef, deps: seq<TestRef>, r: Tour, log: Log)
    requires Jagged(info.shape) && Selects(test, i) && TargetFor(test, i).Some?
    requires TestSet(info.num, info.shape, TargetFor(test, i).value) == Some(deps)
    requires !env.ignore ==> NoTroubleSince(log, 0)
    ensures var end := RunPass(env, info.num, info.shape, deps, Start(log, r.failed, r.skipped), r.counts);
      && log <= end.after.log
      && NoDisable(end.after.log[|log|..]) && PassIsRight(env, info, test, end.after.log[|log|..])
      && (end.stopped ==> !env.ignore && StopsAtTrouble(end.after.log, 0))
      && (!end.stopped && !env.ignore ==> NoTroubleSince(end.after.log, 0))
  {
    hide RunPass, TestSet, Jagged, Safe, Schedulable, TargetFor, IsAsked, Exists, StopsAtTrouble, NoTroubleSince;
    var g, shape, p := info.num, info.shape, Start(log, r.failed, r.skipped);
    TestSetIsSchedulable(g, shape, TargetFor(test, i).value);
    SetIsAsked(info, i, test);
    ScheduledPass(env, g, shape, deps, log, r.failed, r.skipped, r.counts);
    RunStops(env, g, shape, deps, p, r.counts);
  }

  lemma StoppedHasTrouble(log: Log, start: nat)
    ensures StopsAtTrouble(log, start) ==> !NoTroubleSince(log, start)
  {
  }

  // ----------------------------------------------------------- all the passes

  /** The events of each pass: what follows each disabling of the controller, up to the next. */
  function Passes(log: Log): seq<Log> {
    if log == [] then []
    else
      var n := |log| - 1;
      var front := Passes(log[..n]);
      if log[n].Disabled? then front + [[]]
      else if front == [] then []
      else front[..|front| - 1] + [front[|front| - 1] + [log[n]]]
  }

  lemma {:induction false} PassesExtend(log: Log, e: Event, events: Log)
    requires e.Disabled? && NoDisable(events)
    ensures Passes(log + [e] + events) == Passes(log) + [events]
  {
    var all := log + [e] + events;
    if events == [] {
      assert all == log + [e] && all[..|log|] == log;
    } else {
      var shorter := events[..|events| - 1];
      assert all[..|all| - 1] == log + [e] + shorter;
      PassesExtend(log, e, shorter);
      assert shorter + [all[|all| - 1]] == events;
    }
  }

  /** The numbers of the groups that a request selects, in order. */
  function Selected(infos: seq<GroupInfo>, test: TestRef): (s: seq<nat>)
    ensures forall k | 0 <= k < |s| :: s[k] < |infos|
  {
    if test.group == 0xFFFF_FFFF then seq(|infos|, k => k)
    else if test.group < |infos| then [test.group]
    else []
  }

  /** Pass number k is over the group whose turn it is, which is not refused, and is right. */
  ghost predicate TurnIsRight(env: Setup, infos: seq<GroupInfo>, test: TestRef, k: nat, events: Log) {
    var groups := Selected(infos, test);
    groups != [] &&
    var i := groups[k % |groups|];
    !Refused(infos[i], i, test) && PassIsRight(env, infos[i], test, events)
  }

  ghost predicate TurnsAreRight(env: Setup, infos: seq<GroupInfo>, test: TestRef, passes: seq<Log>) {
    forall k | 0 <= k < |passes| :: TurnIsRight(env, infos, test, k, passes[k])
  }

  /** Nothing happens before the first disabling, and every disabling succeeds. */
  predicate AlwaysDisables(log: Log) {
    && (log != [] ==> log[0].Disabled?)
    && forall q | 0 <= q < |log| :: log[q] != Disabled(false)
  }

  /** A run under way: right so far, and with nothing to stop it. */
  ghost predicate OnCourse(env: Setup, infos: seq<GroupInfo>, test: TestRef, log: Log) {
    && AlwaysDisables(log)
    && (env.ignore || NoTroubleSince(log, 0))
    && TurnsAreRight(env, infos, test, Passes(log))
  }

  /** A run that ends early: at a trouble that is not ignored ... */
  ghost predicate EndsInTrouble(env: Setup, infos: seq<GroupInfo>, test: TestRef, log: Log) {
    && AlwaysDisables(log)
    && !env.ignore && StopsAtTrouble(log, 0)
    && TurnsAreRight(env, infos, test, Passes(log))
  }

  /** ... or where the controller cannot be disabled or the group whose turn it is is refused. */
  ghost predicate EndsAborted(env: Setup, infos: seq<GroupInfo>, test: TestRef, log: Log) {
    log != [] &&
    var last, front := log[|log| - 1], log[..|log| - 1];
    var groups := Selected(infos, test);
    && last.Disabled? && OnCourse(env, infos, test, front) && groups != []
    && (!last.ok ||
          var i := groups[|Passes(front)| % |groups|];
          Refused(infos[i], i, test))
  }

  ghost predicate Ends(env: Setup, infos: seq<GroupInfo>, test: TestRef, log: Log, status: Status) {
    match status
    case Going => OnCourse(env, infos, test, log)
    case EarlyOut => EndsInTrouble(env, infos, test, log)
    case Aborted => EndsAborted(env, infos, test, log)
  }

  lemma TurnsExtend(env: Setup, infos: seq<GroupInfo>, test: TestRef, passes: seq<Log>, events: Log)
    requires TurnsAreRight(env, infos, test, passes) && TurnIsRight(env, infos, test, |passes|, events)
    ensures TurnsAreRight(env, infos, test, passes + [events])
  {
    hide TurnIsRight;
  }

  lemma DisablesExtend(log: Log, events: Log)
    requires AlwaysDisables(log) && NoDisable(events)
    ensures AlwaysDisables(log + [Disabled(true)] + events)
    ensures NoTroubleSince(log, 0) <==> NoTroubleSince(log + [Disabled(true)], 0)
  {
    var all := log + [Disabled(true)] + events;
    forall q | 0 <= q < |all| ensures all[q] != Disabled(false) {
      if q < |log| {
        assert all[q] == log[q];
      } else if q > |log| {
        assert all[q] == events[q - |log| - 1];
      }
    }
    assert forall q | 0 <= q < |log| :: (log + [Disabled(true)])[q] == log[q];
  }

  /** The pass over the group whose turn it is. */
  lemma GroupPassCourse(env: Setup, infos: seq<GroupInfo>, test: TestRef, i: nat, r: Tour)
    requires WellBuilt(infos) && OnCourse(env, infos, test, r.log)
    requires i < |infos| && Selects(test, i) && TargetFor(test, i).Some?
    requires var groups := Selected(infos, test);
      groups != [] && groups[|Passes(r.log)| % |groups|] == i
    ensures var (r', status) := GroupPass(env, infos[i], TargetFor(test, i).value, r);
      && Ends(env, infos, test, r'.log, status) && r'.reports == r.reports
      && |Passes(r'.log)| == |Passes(r.log)| + 1
  {
    hide RunPass, TestSet, TargetFor, PassIsRight, Refused, NoTroubleSince, StopsAtTrouble, AlwaysDisables;
    var ok := env.dut.disable(r.log);
    var log := r.log + [Disabled(ok)];
    SetIsAsked(infos[i], i, test);
    PassesExtend(r.log, Disabled(ok), []);
    assert log + [] == log && log[..|log| - 1] == r.log;
    match TestSet(infos[i].num, infos[i].shape, TargetFor(test, i).value)
    case None =>
    case Some(deps) =>
      if ok {
        DisablesExtend(r.log, []);
        PassRight(env, infos[i], i, test, deps, r, log);
        var end := RunPass(env, infos[i].num, infos[i].shape, deps, Start(log, r.failed, r.skipped), r.counts);
        var events := end.after.log[|log|..];
        assert end.after.log == log + events;
        PassesExtend(r.log, Disabled(ok), events);
        DisablesExtend(r.log, events);
        TurnsExtend(env, infos, test, Passes(r.log), events);
      }
  }

  // ----------------------------------------------------------------- the loops

  /** How many of the selected groups are in front of group i. */
  function InFront(test: TestRef, i: nat): nat {
    if test.group == 0xFFFF_FFFF then i else if i > test.group then 1 else 0
  }

  lemma Grows(n: nat, a: nat, b: nat)
    ensures a < b ==> a * n + n <= b * n
  {
    assert b * n == a * n + (b - a) * n;
    assert a < b ==> (b - a - 1) * n >= 0;
  }

  /** Position b of loop j belongs to that loop and to the group at b. */
  lemma TurnOf(j: nat, n: nat, b: nat)
    requires b < n
    ensures (j * n + b) % n == b && (j * n + b) / n == j
  {
    var x := j * n + b;
    assert x == x / n * n + x % n;
    Grows(n, j, x / n);
    Grows(n, x / n, j);
  }

  lemma SelectedTurn(infos: seq<GroupInfo>, test: TestRef, i: nat, j: nat)
    requires i < |infos| && Selects(test, i)
    ensures var groups := Selected(infos, test);
      && InFront(test, i) < |groups| && InFront(test, i + 1) == InFront(test, i) + 1
      && groups[(j * |groups| + InFront(test, i)) % |groups|] == i
  {
    TurnOf(j, |Selected(infos, test)|, InFront(test, i));
  }

  /** Group loop number j. */
  lemma {:induction false} GroupLoopCourse(env: Setup, infos: seq<GroupInfo>, test: TestRef, i: nat, r: Tour, j: nat)
    requires i <= |infos| && (test.group == 0xFFFF_FFFF || test.group < |infos|)
    requires WellBuilt(infos) && OnCourse(env, infos, test, r.log)
    requires |Passes(r.log)| == j * |Selected(infos, test)| + InFront(test, i)
    ensures var (r', status) := GroupLoop(env, infos, test, i, r);
      var n, passes := |Selected(infos, test)|, |Passes(r'.log)|;
      && Ends(env, infos, test, r'.log, status) && r'.reports == r.reports
      && (status == Going ==> passes == j * n + n)
      && (status != Going ==> j * n < passes <= j * n + n)
    decreases |infos| - i
  {
    hide GroupPass, OnCourse, EndsInTrouble, EndsAborted, WellBuilt, Passes;
    if i < |infos| {
      match TargetFor(test, i)
      case None => GroupLoopCourse(env, infos, test, i + 1, r, j);
      case Some(target) =>
        SelectedTurn(infos, test, i, j);
        GroupPassCourse(env, infos, test, i, r);
        var (next, status) := GroupPass(env, infos[i], target, r);
        if status == Going {
          GroupLoopCourse(env, infos, test, i + 1, next, j);
        }
    }
  }

  lemma LoopNumber(passes: nat, j: nat, n: nat)
    requires j * n < passes <= j * n + n
    ensures n > 0 && (passes - 1) / n == j
  {
    TurnOf(j, n, passes - 1 - j * n);
  }

  /** The loops from number j on, n of them. */
  lemma {:induction false} LoopAllCourse(env: Setup, infos: seq<GroupInfo>, test: TestRef, m: nat, r: Tour, j: nat)
    requires test.group == 0xFFFF_FFFF || test.group < |infos|
    requires WellBuilt(infos) && OnCourse(env, infos, test, r.log)
    requires |Passes(r.log)| == j * |Selected(infos, test)| && |r.reports| == j
    ensures var (r', status) := LoopAll(env, infos, test, m, r);
      var n, passes := |Selected(infos, test)|, |Passes(r'.log)|;
      && Ends(env, infos, test, r'.log, status)
      && (status == Going ==> passes == (j + m) * n && |r'.reports| == j + m)
      && (status != Going ==> 0 < passes <= (j + m) * n)
      && (status != Going ==> |r'.reports| == (passes - 1) / n + (if status == EarlyOut then 1 else 0))
  {
    hide GroupLoop, OnCourse, EndsInTrouble, EndsAborted, WellBuilt, Passes, Selected;
    if m > 0 {
      var n := |Selected(infos, test)|;
      GroupLoopCourse(env, infos, test, 0, r, j);
      var (next, status) := GroupLoop(env, infos, test, 0, r);
      assert (j + 1) * n == j * n + n;
      if status == Going {
        LoopAllCourse(env, infos, test, m - 1, Reporting(next), j + 1);
      } else {
        LoopNumber(|Passes(next.log)|, j, n);
        assert (j + m) * n == j * n + n + (m - 1) * n;
      }
    }
  }

  lemma StartsOnCourse(env: Setup, infos: seq<GroupInfo>, test: TestRef)
    ensures OnCourse(env, infos, test, []) && Passes([]) == []
  {
  }

  /**
   The course of every run.  Pass after pass it takes the selected groups in
   turn, loop after loop, each pass visiting the tests asked for and no others.
   It goes through all loops with a summary for each, unless errors are not
   ignored and there is trouble: then at most a restore follows, and one summary
   for the loop it was in; or unless the controller cannot be disabled or a
   group is refused: then nothing follows.
   */
  lemma RunKeepsCourse(env: Setup, infos: seq<GroupInfo>, test: TestRef, loop: nat, compatible: bool)
    requires WellBuilt(infos)
    ensures var (r, status) := Execute(env, infos, test, loop, compatible);
      var n, passes := |Selected(infos, test)|, |Passes(r.log)|;
      if !compatible || (test.group != 0xFFFF_FFFF && test.group >= |infos|) then
        status == Aborted && r.log == [] && r.reports == []
      else
        && Ends(env, infos, test, r.log, status)
        && (status == Going ==> passes == loop * n && |r.reports| == loop)
        && (status == EarlyOut ==> 0 < passes <= loop * n && |r.reports| == (passes - 1) / n + 1)
        && (status == Aborted ==> 0 < passes <= loop * n && |r.reports| == (passes - 1) / n)
  {
    hide LoopAll, OnCourse, EndsInTrouble, EndsAborted, WellBuilt, Selected, Passes;
    if compatible && (test.group == 0xFFFF_FFFF || test.group < |infos|) {
      StartsOnCourse(env, infos, test);
      LoopAllCourse(env, infos, test, loop, FRESH, 0);
    }
  }

  /** Safety of whole runs: every pass of every loop is safe, whatever is requested and whatever the device does. */
  lemma RunIsSafe(env: Setup, infos: seq<GroupInfo>, test: TestRef, loop: nat, compatible: bool)
    requires WellBuilt(infos)
    ensures var log := Execute(env, infos, test, loop, compatible).0.log;
      forall k | 0 <= k < |Passes(log)| :: Safe(Passes(log)[k])
  {
    hide Execute, Safe, WellBuilt, Refused, AlwaysDisables, StopsAtTrouble;
    RunKeepsCourse(env, infos, test, loop, compatible);
    var (r, status) := Execute(env, infos, test, loop, compatible);
    var passes := Passes(r.log);
    if r.log != [] {
      var front := Passes(r.log[..|r.log| - 1]);
      NothingIsSafe();
      forall k | 0 <= k < |passes| ensures Safe(passes[k]) {
        assert status != Aborted ==> TurnIsRight(env, infos, test, k, passes[k]);
        assert status == Aborted && k < |front| ==> TurnIsRight(env, infos, test, k, front[k]);
      }
    }
  }

  lemma NothingIsSafe()
    ensures Safe([])
  {
  }

  // ------------------------------------------------------ answers and totals

  /** Every event of the run so far is an answer to what happened before it. */
  ghost predicate RunAnswered(env: Setup, log: Log) {
    forall q | 0 <= q < |log| :: Answered(env, log, q)
  }

  lemma AnswersStay(env: Setup, log: Log, wide: Log, q: nat)
    requires log <= wide && q < |log|
    ensures Answered(env, log, q) == Answered(env, wide, q)
  {
    hide VerdictIsRight;
    assert log[..q] == wide[..q];
  }

  lemma GroupPassAnswers(env: Setup, info: GroupInfo, target: TestRef, r: Tour)
    requires RunAnswered(env, r.log)
    ensures RunAnswered(env, GroupPass(env, info, target, r).0.log)
  {
    hide RunPass, TestSet, Answered;
    var log := r.log + [Disabled(env.dut.disable(r.log))];
    var wide := GroupPass(env, info, target, r).0.log;
    GroupPassGrows(env, info, target, r);
    DisablingAnswers(env, r.log);
    forall q | 0 <= q < |log| ensures Answered(env, wide, q) {
      AnswersStay(env, log, wide, q);
      if q < |r.log| {
        AnswersStay(env, r.log, log, q);
      }
    }
    match TestSet(info.num, info.shape, target)
    case None =>
    case Some(deps) =>
      PassAnswers(env, info.num, info.shape, deps, |log|, Start(log, r.failed, r.skipped), r.counts);
  }

  lemma DisablingAnswers(env: Setup, log: Log)
    ensures Answered(env, log + [Disabled(env.dut.disable(log))], |log|)
  {
    var e := Disabled(env.dut.disable(log));
    assert (log + [e])[..|log|] == log;
  }

  lemma {:induction false} GroupLoopAnswers(env: Setup, infos: seq<GroupInfo>, test: TestRef, i: nat, r: Tour)
    requires i <= |infos| && RunAnswered(env, r.log)
    ensures RunAnswered(env, GroupLoop(env, infos, test, i, r).0.log)
    decreases |infos| - i
  {
    hide GroupPass, RunAnswered;
    if i < |infos| {
      match TargetFor(test, i)
      case None => GroupLoopAnswers(env, infos, test, i + 1, r);
      case Some(target) =>
        GroupPassAnswers(env, infos[i], target, r);
        GroupLoopAnswers(env, infos, test, i + 1, GroupPass(env, infos[i], target, r).0);
    }
  }

  lemma {:induction false} LoopAllAnswers(env: Setup, infos: seq<GroupInfo>, test: TestRef, m: nat, r: Tour)
    requires RunAnswered(env, r.log)
    ensures RunAnswered(env, LoopAll(env, infos, test, m, r).0.log)
  {
    hide GroupLoop, RunAnswered;
    if m > 0 {
      GroupLoopAnswers(env, infos, test, 0, r);
      LoopAllAnswers(env, infos, test, m - 1, Reporting(GroupLoop(env, infos, test, 0, r).0));
    }
  }

  /**
   Every visit of every run ends as it must: a test is skipped unasked iff the
   skip list names it or its group, else skipped iff it is not runnable, failed
   iff it cannot tell, and otherwise run, with what it returns as the result.
   And every other event is the device's answer.
   */
  lemma RunAnswers(env: Setup, infos: seq<GroupInfo>, test: TestRef, loop: nat, compatible: bool, q: nat)
    requires q < |Execute(env, infos, test, loop, compatible).0.log|
    ensures var log := Execute(env, infos, test, loop, compatible).0.log;
      && Answered(env, log, q)
      && (log[q].Visited? ==> VerdictIsRight(env, log[..q], log[q].test, log[q].verdict))
  {
    hide LoopAll, VerdictIsRight;
    LoopAllAnswers(env, infos, test, loop, FRESH);
  }

  lemma {:induction false} LoopAllTotals(env: Setup, infos: seq<GroupInfo>, test: TestRef, m: nat, r: Tour)
    ensures var (r', status) := LoopAll(env, infos, test, m, r);
      m > 0 && status != Aborted ==>
        r'.reports != [] &&
        r'.reports[|r'.reports| - 1] == r'.counts[0] + r'.counts[1] + r'.counts[2] + r'.counts[3]
  {
    hide GroupLoop;
    if m > 1 {
      LoopAllTotals(env, infos, test, m - 1, Reporting(GroupLoop(env, infos, test, 0, r).0));
    }
  }

  /** The last summary of a run that is not aborted gives the sum of the first four counters. */
  lemma LastSummaryIsTotal(env: Setup, infos: seq<GroupInfo>, test: TestRef, loop: nat, compatible: bool)
    ensures var (r, status) := Execute(env, infos, test, loop, compatible);
      loop > 0 && status != Aborted ==>
        r.reports != [] &&
        r.reports[|r.reports| - 1] == r.counts[0] + r.counts[1] + r.counts[2] + r.counts[3]
  {
    hide LoopAll;
    LoopAllTotals(env, infos, test, loop, FRESH);
  }
}
