/**
 One pass of the scheduler over a test set, as functions on values.

 The device under test and the tests themselves are oracles that may look at
 everything that happened so far, so a statement about every Device is a
 statement about every run.
 */
module Schedule {
  import opened TestNumbering
  import opened Dependencies

  datatype TestResult = TR_SUCCESS | TR_FAIL | TR_SKIPPING | TR_INFORMATIVE | TR_NOTFOUND | TR_FENCE

  datatype RunType = RUN_TRUE | RUN_FALSE | RUN_FAIL

  /** What running a test can report. */
  type RunResult = r: TestResult | r == TR_SUCCESS || r == TR_FAIL || r == TR_INFORMATIVE
    witness TR_SUCCESS

  /** How a visit to a test ended. */
  datatype Verdict = Ran(result: RunResult) | AskFailed | NotRunnable | ListedToSkip {

    predicate Fails() {
      AskFailed? || this == Ran(TR_FAIL)
    }

    predicate Skips() {
      NotRunnable? || ListedToSkip?
    }

    function Result(): TestResult {
      if Ran? then result else if AskFailed? then TR_FAIL else TR_SKIPPING
    }
  }

  datatype Event =
    | Disabled(ok: bool)
    | Saved(ok: bool)
    | Visited(test: TestRef, verdict: Verdict)
    | Restored(ok: bool)

  type Log = seq<Event>

  datatype Device = Device(
    disable: Log -> bool,
    saveState: Log -> bool,
    restoreState: Log -> bool,
    runnable: (Log, TestRef, bool) -> RunType,
    run: (Log, TestRef) -> RunResult)

  /** The device and the command line options that the scheduler consults. */
  datatype Setup = Setup(
    dut: Device,
    ignore: bool,
    restore: bool,
    preserve: bool,
    skiptest: seq<TestRef>)

  // --------------------------------------------------------- a single RunTest

  /** t is named in the skip list, or its whole group is. */
  predicate SkipListed(t: TestRef, skiptest: seq<TestRef>) {
    exists i | 0 <= i < |skiptest| ::
      skiptest[i].group == t.group && (skiptest[i] == t || !skiptest[i].Specific())
  }

  function Judge(env: Setup, log: Log, t: TestRef): Verdict {
    if SkipListed(t, env.skiptest) then ListedToSkip
    else match env.dut.runnable(log, t, env.preserve)
      case RUN_TRUE => Ran(env.dut.run(log, t))
      case RUN_FALSE => NotRunnable
      case RUN_FAIL => AskFailed
  }

  /** The first entry past i that may still run after verdict v on entry i. */
  function Next(deps: seq<TestRef>, i: nat, v: Verdict): (n: nat)
    requires i < |deps|
    ensures i < n <= |deps|
  {
    if v.Fails() || v.Skips() then BlockEnd(deps, i, i + 1, v.Fails()) else i + 1
  }

  /** The index as the program keeps it: -1 means there is nothing left. */
  function Index(n: nat, deps: seq<TestRef>): int {
    if n >= |deps| then -1 else n
  }

  /** What a pass keeps between two calls of RunTest. */
  datatype Progress = Progress(tstIdx: int, log: Log, failed: seq<TestRef>, skipped: seq<TestRef>)

  datatype StepOut = StepOut(after: Progress, result: TestResult, numSkipped: nat)

  /** Entry i of deps is judged v: lists, log and index after the visit. */
  function Visit(deps: seq<TestRef>, i: nat, p: Progress, v: Verdict): Progress
    requires i < |deps|
  {
    var t := deps[i];
    var n := Next(deps, i, v);
    Progress(
      Index(n, deps),
      p.log + [Visited(t, v)],
      if v.Fails() then p.failed + [t] else p.failed,
      p.skipped + (if v.Skips() then [t] else []) + deps[i + 1..n])
  }

  function NumSkipped(deps: seq<TestRef>, i: nat, v: Verdict): nat
    requires i < |deps|
  {
    Next(deps, i, v) - i - (if v.Skips() then 0 else 1)
  }

  /** The state is saved ahead of the first test. */
  function MaybeSave(env: Setup, p: Progress): Progress {
    if env.restore && p.tstIdx == 0 then p.(log := p.log + [Saved(env.dut.saveState(p.log))]) else p
  }

  predicate SaveFails(env: Setup, p: Progress) {
    env.restore && p.tstIdx == 0 && !env.dut.saveState(p.log)
  }

  predicate Restores(env: Setup, p: Progress, v: Verdict) {
    env.restore && (p.tstIdx == -1 || v.Fails())
  }

  predicate Runnable(g: nat, shape: Shape, deps: seq<TestRef>, p: Progress) {
    0 <= p.tstIdx < |deps| && Exists(g, shape, deps[p.tstIdx])
  }

  /** Entry i is judged, and the state restored when that is called for. */
  function Attempt(env: Setup, deps: seq<TestRef>, i: nat, ready: Progress): (s: StepOut)
    requires i < |deps|
    ensures s.result in {TR_SUCCESS, TR_FAIL, TR_SKIPPING, TR_INFORMATIVE}
    ensures s.after.tstIdx == -1 || i < s.after.tstIdx < |deps|
  {
    var v := Judge(env, ready.log, deps[i]);
    var done := Visit(deps, i, ready, v);
    var k := NumSkipped(deps, i, v);
    if Restores(env, done, v) then
      var ok := env.dut.restoreState(done.log);
      var restored := done.(log := done.log + [Restored(ok)]);
      if ok then StepOut(restored, v.Result(), k)
      else StepOut(restored.(tstIdx := -1), TR_FAIL, k)
    else
      StepOut(done, v.Result(), k)
  }

  /** One call of RunTest. */
  function Step(env: Setup, g: nat, shape: Shape, deps: seq<TestRef>, p: Progress): (s: StepOut)
    requires -1 <= p.tstIdx
    ensures s.result in {TR_SUCCESS, TR_FAIL, TR_SKIPPING, TR_INFORMATIVE, TR_NOTFOUND}
    ensures s.result == TR_NOTFOUND <==> !Runnable(g, shape, deps, p)
    ensures s.after.tstIdx == -1 || p.tstIdx < s.after.tstIdx < |deps|
  {
    if !Runnable(g, shape, deps, p) then StepOut(p.(tstIdx := -1), TR_NOTFOUND, 0)
    else if SaveFails(env, p) then StepOut(MaybeSave(env, p).(tstIdx := -1), TR_FAIL, 0)
    else Attempt(env, deps, p.tstIdx, MaybeSave(env, p))
  }

  // ------------------------------------------------------------ a whole pass

  /** results[] of the summary, indexed by TestResult. */
  type Counts = c: seq<int> | |c| == 5 witness [0, 0, 0, 0, 0]

  const NO_COUNTS: Counts := [0, 0, 0, 0, 0]

  function Code(r: TestResult): (k: nat)
    requires r != TR_FENCE
    ensures k < 5
  {
    match r
    case TR_SUCCESS => 0
    case TR_FAIL => 1
    case TR_SKIPPING => 2
    case TR_INFORMATIVE => 3
    case TR_NOTFOUND => 4
  }

  function Add(c: Counts, r: TestResult, amount: int): Counts
    requires r != TR_FENCE
  {
    c[Code(r) := c[Code(r)] + amount]
  }

  /** The "total tests" line of the summary, which leaves out TR_NOTFOUND. */
  function Total(c: Counts): int {
    c[0] + c[1] + c[2] + c[3]
  }

  function Tally(c: Counts, r: TestResult, numSkipped: int): Counts
    requires r != TR_FENCE
  {
    if r == TR_SKIPPING then Add(c, r, numSkipped)
    else if r == TR_FAIL then Add(Add(c, r, 1), TR_SKIPPING, numSkipped)
    else Add(c, r, 1)
  }

  datatype PassEnd = PassEnd(after: Progress, counts: Counts, stopped: bool, calls: nat)

  function Remaining(deps: seq<TestRef>, p: Progress): nat {
    if 0 <= p.tstIdx < |deps| then |deps| - p.tstIdx else 0
  }

  /** RunTest called over and over until nothing is left or a failure stops the run. */
  function RunPass(env: Setup, g: nat, shape: Shape, deps: seq<TestRef>, p: Progress, c: Counts): PassEnd
    requires -1 <= p.tstIdx
    decreases Remaining(deps, p)
  {
    var s := Step(env, g, shape, deps, p);
    var c' := Tally(c, s.result, s.numSkipped);
    if s.result == TR_NOTFOUND then PassEnd(s.after, c', false, 1)
    else if s.result == TR_FAIL && !env.ignore then PassEnd(s.after, c', true, 1)
    else
      var rest := RunPass(env, g, shape, deps, s.after, c');
      rest.(calls := rest.calls + 1)
  }

  /** How far into deps a pass has got, counting -1 as the end. */
  function Reached(deps: seq<TestRef>, p: Progress): nat {
    if 0 <= p.tstIdx < |deps| then p.tstIdx else |deps|
  }

  function Start(log: Log, failed: seq<TestRef>, skipped: seq<TestRef>): Progress {
    Progress(0, log, failed, skipped)
  }

  // -------------------------------------------------------- what logs can say

  predicate VisitedIn(log: Log, u: TestRef) {
    exists q | 0 <= q < |log| :: log[q].Visited? && log[q].test == u
  }

  /** A test was visited and failed, or could not tell whether it can run. */
  predicate IsFailure(e: Event) {
    e.Visited? && (e.verdict == AskFailed || e.verdict == Ran(TR_FAIL))
  }

  /** A test was visited and skipped. */
  predicate IsSkip(e: Event) {
    e.Visited? && (e.verdict == NotRunnable || e.verdict == ListedToSkip)
  }

  /** A test was visited and ran without failing. */
  predicate IsPass(e: Event) {
    e.Visited? && e.verdict.Ran? && e.verdict.result != TR_FAIL
  }

  /** The visit of t with verdict v keeps u from being visited. */
  predicate Blocks(t: TestRef, v: Verdict, u: TestRef) {
    || (IsFailure(Visited(t, v)) && t.xLev == u.xLev && Before(t, u))
    || (IsSkip(Visited(t, v)) && IsDependency(t, u))
  }

  predicate Blocked(log: Log, u: TestRef) {
    exists q | 0 <= q < |log| :: log[q].Visited? && Blocks(log[q].test, log[q].verdict, u)
  }

  predicate HookFault(e: Event) {
    e == Saved(false) || e == Restored(false)
  }

  /** From position start on, every attempt to save or restore the state succeeded. */
  predicate NoFaultSince(log: Log, start: nat) {
    forall q | start <= q < |log| :: !HookFault(log[q])
  }
}
