/**
 Statements about whole runs: every loop over every selected group.
 */
module WholeRun {
  import opened Wrappers
  import opened TestNumbering
  import opened Dependencies
  import opened Schedule
  import opened PassEvents
  import opened PassLedger
  import opened Execution

  // ------------------------------------------------------------ the ledger

  /** The counters agree with log and lists, and N/F with the number of groups entered. */
  ghost predicate TourBalanced(r: Tour, status: Status) {
    && Balanced(r.counts, r.log, r.failed, r.skipped)
    && r.counts[4] == r.numGrps - (if status == EarlyOut then 1 else 0)
  }

  lemma GroupPassBalances(env: Setup, info: GroupInfo, target: TestRef, r: Tour)
    requires TourBalanced(r, Going)
    ensures var (r', status) := GroupPass(env, info, target, r);
      TourBalanced(r', status)
  {
    hide RunPass, TestSet;
    var e := Disabled(env.dut.disable(r.log));
    LedgerAppend(r.log, e);
    match TestSet(info.num, info.shape, target)
    case None =>
    case Some(deps) =>
      PassBalances(env, info.num, info.shape, deps, Start(r.log + [e], r.failed, r.skipped), r.counts);
  }

  lemma {:induction false} GroupLoopBalances(env: Setup, infos: seq<GroupInfo>, test: TestRef, i: nat, r: Tour)
    requires i <= |infos| && TourBalanced(r, Going)
    ensures var (r', status) := GroupLoop(env, infos, test, i, r);
      TourBalanced(r', status)
    decreases |infos| - i
  {
    hide GroupPass, TourBalanced;
    if i < |infos| {
      match TargetFor(test, i)
      case None => GroupLoopBalances(env, infos, test, i + 1, r);
      case Some(target) =>
        GroupPassBalances(env, infos[i], target, r);
        var (next, status) := GroupPass(env, infos[i], target, r);
        if status == Going {
          GroupLoopBalances(env, infos, test, i + 1, next);
        }
    }
  }

  lemma ReportingKeepsBalance(r: Tour, status: Status)
    requires TourBalanced(r, status)
    ensures TourBalanced(Reporting(r), status)
  {
  }

  lemma {:induction false} LoopAllBalances(env: Setup, infos: seq<GroupInfo>, test: TestRef, n: nat, r: Tour)
    requires TourBalanced(r, Going)
    ensures var (r', status) := LoopAll(env, infos, test, n, r);
      TourBalanced(r', status)
  {
    hide GroupLoop, TourBalanced, Reporting;
    if n > 0 {
      GroupLoopBalances(env, infos, test, 0, r);
      var (next, status) := GroupLoop(env, infos, test, 0, r);
      ReportingKeepsBalance(next, status);
      if status == Going {
        LoopAllBalances(env, infos, test, n - 1, Reporting(next));
      }
    }
  }

  /**
   In every run, for any device, hooks, request and options, the counters say
   what log and lists say: how many results of a passed and of an informative
   test stand, how many tests failed, of which the failed list is the list, how
   many are on the skipped list, and how many groups were entered and finished.
   The run is reported as passed iff it was not aborted, no test failed, and no
   hook failed unlisted.
   */
  lemma RunIsBalanced(env: Setup, infos: seq<GroupInfo>, test: TestRef, loop: nat, compatible: bool)
    ensures var (r, status) := Execute(env, infos, test, loop, compatible);
      && r.counts[0] == Standing(r.log, TR_SUCCESS)
      && r.counts[1] == |r.failed| + Unlisted(r.log)
      && r.counts[2] == |r.skipped|
      && r.counts[3] == Standing(r.log, TR_INFORMATIVE)
      && r.counts[4] == r.numGrps - (if status == EarlyOut then 1 else 0)
      && r.failed == FailedTests(r.log)
      && (r.counts[1] == 0 <==> r.failed == [] && Unlisted(r.log) == 0)
  {
    hide LoopAll;
    assert TourBalanced(FRESH, Going);
    LoopAllBalances(env, infos, test, loop, FRESH);
    assert TourBalanced(FRESH, Aborted);
  }

  // -------------------------------------------------------------- growth

  lemma GroupPassGrows(env: Setup, info: GroupInfo, target: TestRef, r: Tour)
    ensures r.log + [Disabled(env.dut.disable(r.log))] <= GroupPass(env, info, target, r).0.log
    ensures r.log <= GroupPass(env, info, target, r).0.log
  {
    hide RunPass, TestSet;
    var log := r.log + [Disabled(env.dut.disable(r.log))];
    match TestSet(info.num, info.shape, target)
    case None =>
    case Some(deps) => PassGrows(env, info.num, info.shape, deps, Start(log, r.failed, r.skipped), r.counts);
  }

  lemma {:induction false} GroupLoopGrows(env: Setup, infos: seq<GroupInfo>, test: TestRef, i: nat, r: Tour)
    requires i <= |infos|
    ensures r.log <= GroupLoop(env, infos, test, i, r).0.log
    decreases |infos| - i
  {
    hide GroupPass;
    if i < |infos| {
      match TargetFor(test, i)
      case None => GroupLoopGrows(env, infos, test, i + 1, r);
      case Some(target) =>
        GroupPassGrows(env, infos[i], target, r);
        GroupLoopGrows(env, infos, test, i + 1, GroupPass(env, infos[i], target, r).0);
    }
  }

  lemma {:induction false} LoopAllGrows(env: Setup, infos: seq<GroupInfo>, test: TestRef, n: nat, r: Tour)
    ensures r.log <= LoopAll(env, infos, test, n, r).0.log
  {
    hide GroupLoop;
    if n > 0 {
      GroupLoopGrows(env, infos, test, 0, r);
      LoopAllGrows(env, infos, test, n - 1, Reporting(GroupLoop(env, infos, test, 0, r).0));
    }
  }

  // ---------------------------------------------------------- conservation

  /** Group i is part of the request. */
  predicate Selects(test: TestRef, i: nat) {
    test.group == 0xFFFF_FFFF || test.group == i
  }

  /** The request is for whole groups: for all of them, or by an "ALL" level. */
  predicate WholeGroups(test: TestRef) {
    || test.group == 0xFFFF_FFFF
    || test.xLev == 0xFFFF_FFFF || test.yLev == 0xFFFF_FFFF || test.zLev == 0xFFFF_FFFF
  }

  /** Group i has the number of its place, and the test if a single one is asked for. */
  ghost predicate RequestedIn(info: GroupInfo, i: nat, test: TestRef) {
    && Jagged(info.shape) && info.num == i
    && (WholeGroups(test) || Exists(i, info.shape, TestRef(i, test.xLev, test.yLev, test.zLev)))
  }

  /** No selected group is asked for a test that it does not have. */
  ghost predicate Requested(infos: seq<GroupInfo>, test: TestRef) {
    forall i | 0 <= i < |infos| && Selects(test, i) :: RequestedIn(infos[i], i, test)
  }

  /**
   How many tests are asked for in a selected group: all of it, or a test
   x.y.z with the z tests in front of it in its sequence and, if that is not
   part of it, x.0.0.
   */
  function Asked(info: GroupInfo, test: TestRef): nat {
    if WholeGroups(test) then |AllTests(info.num, info.shape)|
    else test.zLev + (if test.yLev == 0 then 1 else 2)
  }

  /** The tests asked for in the groups from i on, added up. */
  function AllAsked(infos: seq<GroupInfo>, test: TestRef, i: nat): nat
    requires i <= |infos|
    decreases |infos| - i
  {
    if i == |infos| then 0
    else AllAsked(infos, test, i + 1) + (if Selects(test, i) then Asked(infos[i], test) else 0)
  }

  /** Hooks and disabling succeeded from position start on. */
  predicate AllWell(log: Log, start: nat) {
    forall q | start <= q < |log| :: !HookFault(log[q]) && log[q] != Disabled(false)
  }

  lemma AllWellSplits(log: Log, start: nat, middle: Log)
    requires start <= |middle| && middle <= log && AllWell(log, start)
    ensures AllWell(middle, start) && AllWell(log, |middle|) && NoFaultSince(log, |middle|)
  {
    assert forall q | 0 <= q < |middle| :: middle[q] == log[q];
  }

  /** The only entry of an empty group's set is not there: nothing is counted. */
  lemma PhantomCountsNothing(env: Setup, num: nat, p: Progress, c: Counts)
    requires p.tstIdx == 0
    ensures var end := RunPass(env, num, [], Iterated(num, []), p, c);
      !end.stopped && Total(end.counts) == Total(c)
  {
    NothingLeft(env, num, [], Iterated(num, []), p, c);
  }

  lemma GroupPassCounts(env: Setup, info: GroupInfo, i: nat, test: TestRef, r: Tour)
    requires env.ignore && Selects(test, i) && RequestedIn(info, i, test)
    requires TargetFor(test, i).Some?
    requires AllWell(GroupPass(env, info, TargetFor(test, i).value, r).0.log, |r.log|)
    ensures var (r', status) := GroupPass(env, info, TargetFor(test, i).value, r);
      && status == Going && r'.reports == r.reports
      && Total(r'.counts) == Total(r.counts) + Asked(info, test)
  {
    hide RunPass, TestSet, Total, AllTests, TargetFor, Asked;
    var target := TargetFor(test, i).value;
    var e := Disabled(env.dut.disable(r.log));
    var p := Start(r.log + [e], r.failed, r.skipped);
    GroupPassGrows(env, info, target, r);
    AllWellSplits(GroupPass(env, info, target, r).0.log, |r.log|, p.log);
    assert p.log[|r.log|] == e;
    SetOfRequest(info, i, test);
    var deps := TestSet(info.num, info.shape, target).value;
    if info.shape == [] {
      PhantomCountsNothing(env, info.num, p, r.counts);
    } else {
      PassConserves(env, info.num, info.shape, deps, p, r.counts);
      PassEnds(env, info.num, info.shape, deps, p, r.counts);
    }
  }

  /** The set of a request: existing tests as many as asked for, unless the group is empty. */
  lemma SetOfRequest(info: GroupInfo, i: nat, test: TestRef)
    requires Selects(test, i) && RequestedIn(info, i, test)
    ensures TargetFor(test, i).Some? && TestSet(info.num, info.shape, TargetFor(test, i).value).Some?
    ensures var deps := TestSet(info.num, info.shape, TargetFor(test, i).value).value;
      && deps != []
      && (info.shape != [] ==> AllExist(info.num, info.shape, deps) && |deps| == Asked(info, test))
      && (info.shape == [] ==> deps == Iterated(info.num, []) && |deps| == 1 && Asked(info, test) == 0)
  {
    if !WholeGroups(test) {
      TestSetIsDependencies(info.num, info.shape, TargetFor(test, i).value);
    } else if info.shape != [] {
      GroupSetIsClosed(info.num, info.shape);
    }
  }

  lemma {:induction false} GroupLoopCounts(env: Setup, infos: seq<GroupInfo>, test: TestRef, i: nat, r: Tour)
    requires i <= |infos| && Requested(infos, test) && env.ignore
    requires AllWell(GroupLoop(env, infos, test, i, r).0.log, |r.log|)
    ensures var (r', status) := GroupLoop(env, infos, test, i, r);
      && status == Going && r'.reports == r.reports
      && Total(r'.counts) == Total(r.counts) + AllAsked(infos, test, i)
    decreases |infos| - i
  {
    hide GroupPass, Total, TestSet, Jagged, Asked, AllWell, RequestedIn;
    if i < |infos| {
      match TargetFor(test, i)
      case None => GroupLoopCounts(env, infos, test, i + 1, r);
      case Some(target) =>
        var next := GroupPass(env, infos[i], target, r).0;
        var log := GroupLoop(env, infos, test, i, r).0.log;
        GroupPassGrows(env, infos[i], target, r);
        GroupLoopGrows(env, infos, test, i + 1, next);
        AllWellSplits(log, |r.log|, next.log);
        GroupPassCounts(env, infos[i], i, test, r);
        GroupLoopCounts(env, infos, test, i + 1, next);
    }
  }

  /** base + size, base + 2 * size, ... base + n * size. */
  function Multiples(base: int, size: int, n: nat): (s: seq<int>)
    ensures |s| == n
  {
    seq(n, k => base + (k + 1) * size)
  }

  lemma MultiplesUnfold(base: int, size: int, n: nat)
    requires n > 0
    ensures Multiples(base, size, n) == [base + size] + Multiples(base + size, size, n - 1)
  {
    forall k | 0 < k < n
      ensures Multiples(base, size, n)[k] == Multiples(base + size, size, n - 1)[k - 1]
    {
      assert (k + 1) * size == size + k * size;
    }
  }

  lemma {:induction false} LoopAllCounts(env: Setup, infos: seq<GroupInfo>, test: TestRef, n: nat, r: Tour)
    requires Requested(infos, test) && env.ignore
    requires AllWell(LoopAll(env, infos, test, n, r).0.log, |r.log|)
    ensures var (r', status) := LoopAll(env, infos, test, n, r);
      && status == Going
      && r'.reports == r.reports + Multiples(Total(r.counts), AllAsked(infos, test, 0), n)
  {
    hide GroupLoop, Total, AllAsked, Requested, AllWell;
    if n > 0 {
      var next := Reporting(GroupLoop(env, infos, test, 0, r).0);
      var log := LoopAll(env, infos, test, n, r).0.log;
      GroupLoopGrows(env, infos, test, 0, r);
      LoopAllGrows(env, infos, test, n - 1, next);
      AllWellSplits(log, |r.log|, next.log);
      GroupLoopCounts(env, infos, test, 0, r);
      LoopAllCounts(env, infos, test, n - 1, next);
      MultiplesUnfold(Total(r.counts), AllAsked(infos, test, 0), n);
    }
  }

  /**
   Conservation over all loops: in a run with errors ignored in which disabling,
   saving and restoring succeeded, the k'th summary reports k times the number
   of tests asked for.  A group without tests, which is part of every run over
   all groups, adds nothing.
   */
  lemma RunReportsEveryTest(env: Setup, infos: seq<GroupInfo>, test: TestRef, loop: nat)
    requires env.ignore && Requested(infos, test) && (test.group == UINT_MAX || test.group < |infos|)
    requires AllWell(Execute(env, infos, test, loop, true).0.log, 0)
    ensures var (r, status) := Execute(env, infos, test, loop, true);
      status == Going && r.reports == Multiples(0, AllAsked(infos, test, 0), loop)
  {
    hide LoopAll, AllAsked, Multiples, Requested, AllWell;
    assert Total(FRESH.counts) == 0;
    LoopAllCounts(env, infos, test, loop, FRESH);
    NothingInFront(Multiples(0, AllAsked(infos, test, 0), loop));
  }

  lemma NothingInFront(s: seq<int>)
    ensures FRESH.reports + s == s
  {
  }

  /** The size of the set that GetTestSet returns for a selected group. */
  function SetSize(info: GroupInfo, test: TestRef): nat {
    match TestSet(info.num, info.shape,
      if test.group == 0xFFFF_FFFF then TestRef(info.num, 0xFFFF_FFFF, 0xFFFF_FFFF, 0xFFFF_FFFF)
      else TestRef(info.num, test.xLev, test.yLev, test.zLev))
    case None => 0
    case Some(deps) => |deps|
  }

  /** These sizes for the groups from i on, added up. */
  function SetSizes(infos: seq<GroupInfo>, test: TestRef, i: nat): nat
    requires i <= |infos|
    decreases |infos| - i
  {
    if i == |infos| then 0
    else SetSizes(infos, test, i + 1) + (if Selects(test, i) then SetSize(infos[i], test) else 0)
  }

  predicate SelectsEmpty(infos: seq<GroupInfo>, test: TestRef, i: nat)
    requires i <= |infos|
  {
    exists k | i <= k < |infos| :: Selects(test, k) && infos[k].shape == []
  }

  lemma {:induction false} SetSizesExceed(infos: seq<GroupInfo>, test: TestRef, i: nat)
    requires i <= |infos| && Requested(infos, test)
    ensures SetSizes(infos, test, i) >= AllAsked(infos, test, i)
    ensures SetSizes(infos, test, i) == AllAsked(infos, test, i) <==> !SelectsEmpty(infos, test, i)
    decreases |infos| - i
  {
    hide TestSet, Asked, Jagged;
    if i < |infos| {
      SetSizesExceed(infos, test, i + 1);
      assert SelectsEmpty(infos, test, i) <==>
        SelectsEmpty(infos, test, i + 1) || (Selects(test, i) && infos[i].shape == []);
      if Selects(test, i) {
        SetOfRequest(infos[i], i, test);
      }
    }
  }

  /**
   The summaries report the sizes of the sets that GetTestSet returned if and
   only if no selected group is empty: for an empty one it lists 0.0.0, which
   is never counted.
   */
  lemma ReportsAreSetSizesIff(env: Setup, infos: seq<GroupInfo>, test: TestRef, loop: nat)
    requires env.ignore && Requested(infos, test) && (test.group == UINT_MAX || test.group < |infos|)
    requires AllWell(Execute(env, infos, test, loop, true).0.log, 0) && loop > 0
    ensures Execute(env, infos, test, loop, true).0.reports == Multiples(0, SetSizes(infos, test, 0), loop)
      <==> !SelectsEmpty(infos, test, 0)
  {
    hide *;
    RunReportsEveryTest(env, infos, test, loop);
    SetSizesExceed(infos, test, 0);
    MultiplesDiffer(AllAsked(infos, test, 0), SetSizes(infos, test, 0), loop);
  }

  lemma MultiplesDiffer(a: int, b: int, n: nat)
    requires n > 0
    ensures Multiples(0, a, n) == Multiples(0, b, n) <==> a == b
  {
    assert Multiples(0, a, n)[0] == a && Multiples(0, b, n)[0] == b;
  }
}
