/** Whole runs of the queue: sweeps one after another, with drafts, reviews and applies between
    them, and a crash allowed between any two file operations. */
module QueueRuns {
  import opened Queue
  import opened Spool
  import RetryCheck
  import BlockedDrain
  import ConfirmGate
  import ApplyOutcome

  /** `names` is the directory listing the sweep works through; `limit` says after how many of a
      file's own operations one throws. `Work` is everything else that moves or rewrites a file: a
      claim, a draft, a review. `Arrive` files a new task. */
  datatype Event =
    | Retry(cfg: RetryCheck.Config, seen: Name -> RetryCheck.Seen, names: seq<Name>, limit: Name -> Limit)
    | Drain(matches: BlockedDrain.Matcher, signature: string, dir: Dir, names: seq<Name>)
    | Confirm(gate: Name -> ConfirmGate.Gate, vote: Name -> ConfirmGate.Vote, names: seq<Name>, limit: Name -> Limit)
    | Apply(name: Name, stage: ApplyOutcome.ApplyStage, result: ApplyOutcome.ApplyResult, reviewSource: bool)
    | Work(name: Name, from: Dir, to: Dir, record: Task)
    | Arrive(name: Name, record: Task)

  function SrcOf(e: Event): Dir {
    match e
    case Retry(_, _, _, _) => Blocked
    case Drain(_, _, dir, _) => dir
    case Confirm(_, _, _, _) => AwaitingConfirm
    case Apply(_, _, _, _) => Approved
    case Work(_, from, _, _) => from
    case Arrive(_, _) => Pending
  }

  function NamesOf(e: Event): seq<Name> {
    if e.Retry? || e.Drain? || e.Confirm? then e.names else [e.name]
  }

  function ActionsOf(e: Event, files: Files): Name -> Action {
    match e
    case Retry(cfg, seen, _, _) => RetryCheck.Decisions(cfg, seen, files)
    case Drain(matches, signature, dir, _) => BlockedDrain.Decisions(matches, signature, dir, files)
    case Confirm(gate, vote, _, _) => ConfirmGate.Decisions(gate, vote, files)
    case Apply(name, stage, result, reviewSource) =>
      n => if Key(Approved, n) in files && files[Key(Approved, n)].Good?
           then MoveTo(ApplyOutcome.DirOf(stage),
                       ApplyOutcome.Recorded(files[Key(Approved, n)].task, stage, result, reviewSource))
           else Leave
    case Work(_, from, to, record) => n => if from == to then Rewrite(record) else MoveTo(to, record)
    case Arrive(_, record) => n => Rewrite(record)
  }

  function LimitOf(e: Event): Name -> Limit {
    if e.Retry? || e.Confirm? then e.limit else BlockedDrain.NoLimit()
  }

  function EventOps(e: Event, files: Files): seq<FileOp> {
    SweepOps(SrcOf(e), NamesOf(e), ActionsOf(e, files), LimitOf(e))
  }

  /** Drafting, reviewing and claiming keep the retry budgets and the drained signatures. */
  predicate BudgetsKept(t: Task, u: Task) {
    && u.applyRetryCount == t.applyRetryCount && u.applyTimeoutReleases == t.applyTimeoutReleases
    && u.requeuedFor == t.requeuedFor
  }

  ghost predicate Enabled(e: Event, files: Files) {
    match e
    case Retry(_, _, names, _) => Listing(files, Blocked, names)
    case Drain(_, _, dir, names) => (dir.Blocked? || dir.NeedsClarification?) && Listing(files, dir, names)
    case Confirm(_, _, names, _) => Distinct(names)
    case Apply(name, _, _, _) => Key(Approved, name) in files && files[Key(Approved, name)].Good?
    case Work(name, from, _, record) => Key(from, name) in files && files[Key(from, name)].Good?
        && BudgetsKept(files[Key(from, name)].task, record)
    case Arrive(name, _) => !Somewhere(files, name)
  }

  /** An event that may be cut short: a crash lets only its first `crash` operations happen. */
  datatype Happening = Happening(event: Event, crash: nat)

  function After(files: Files, h: Happening): Files {
    Replay(files, Cut(EventOps(h.event, files), h.crash))
  }

  function RunAll(files: Files, run: seq<Happening>): Files
    decreases |run|
  {
    if run == [] then files else RunAll(After(files, run[0]), run[1..])
  }

  ghost predicate EnabledRun(files: Files, run: seq<Happening>)
    decreases |run|
  {
    run == [] || (Enabled(run[0].event, files) && EnabledRun(After(files, run[0]), run[1..]))
  }

  lemma EventsAreSane(e: Event, files: Files)
    requires Enabled(e, files)
    ensures Sane(SrcOf(e), NamesOf(e), ActionsOf(e, files))
  {
  }

  /** Task conservation, over every run with any number of crashes and failing operations: a task
      that is somewhere in the queue is still somewhere in it at the end. */
  lemma {:induction false} NoTaskLost(files: Files, run: seq<Happening>, n: Name)
    requires EnabledRun(files, run) && Somewhere(files, n)
    ensures Somewhere(RunAll(files, run), n)
    decreases |run|
  {
    if run != [] {
      var e := run[0].event;
      var ops := EventOps(e, files);
      EventsAreSane(e, files);
      var crash := if run[0].crash < |ops| then run[0].crash else |ops|;
      assert ops[..|ops|] == ops;
      SweepKeepsNames(files, SrcOf(e), NamesOf(e), ActionsOf(e, files), LimitOf(e), crash, n);
      NoTaskLost(After(files, run[0]), run[1..], n);
    }
  }

  // ----- runs without crashes

  ghost predicate Completes(h: Happening, files: Files) {
    h.crash >= |EventOps(h.event, files)| && forall n :: LimitOf(h.event)(n).ops >= 2
  }

  ghost predicate CompleteRun(files: Files, run: seq<Happening>)
    decreases |run|
  {
    run == [] || (Completes(run[0], files) && CompleteRun(After(files, run[0]), run[1..]))
  }

  /** What a completed event does to the files of one task. */
  function EventOn(files: Files, e: Event, n: Name): Files {
    if n in NamesOf(e) then OneFile(files, SrcOf(e), n, ActionsOf(e, files)(n), Limit(2, 0)) else files
  }

  lemma CompletedEventOn(files: Files, h: Happening, n: Name)
    requires Enabled(h.event, files) && Completes(h, files)
    ensures SameFor(After(files, h), EventOn(files, h.event, n), n)
  {
    var e := h.event;
    assert Distinct(NamesOf(e));
    if n in NamesOf(e) {
      SweepOnOne(files, SrcOf(e), NamesOf(e), ActionsOf(e, files), LimitOf(e), n);
    } else {
      SweepOnOthers(files, SrcOf(e), NamesOf(e), ActionsOf(e, files), LimitOf(e), n);
    }
  }

  /** An event acts on the record in the directory it reads, or on a new one. */
  lemma ActsOnItsSource(files: Files, e: Event, n: Name)
    requires Enabled(e, files) && n in NamesOf(e) && Somewhere(files, n)
    requires !ActionsOf(e, files)(n).Leave?
    ensures Key(SrcOf(e), n) in files && files[Key(SrcOf(e), n)].Good?
  {
  }

  lemma EventKeepsOnce(files: Files, e: Event, n: Name)
    requires Enabled(e, files)
    requires Somewhere(files, n) ==> ExactlyOnce(files, n)
    ensures Somewhere(EventOn(files, e, n), n) ==> ExactlyOnce(EventOn(files, e, n), n)
  {
    var after := EventOn(files, e, n);
    EventsAreSane(e, files);
    if n in NamesOf(e) && !ActionsOf(e, files)(n).Leave? {
      var action := ActionsOf(e, files)(n);
      var k :| 0 <= k < |NamesOf(e)| && NamesOf(e)[k] == n;
      if Somewhere(files, n) {
        ActsOnItsSource(files, e, n);
        var dir :| OnlyIn(files, n, dir);
        assert Key(SrcOf(e), n) in files;
        assert dir == SrcOf(e);
        assert OnlyIn(after, n, if action.Rewrite? then SrcOf(e) else action.dest);
      } else {
        assert Key(SrcOf(e), n) !in files;
        NewTaskIsOnce(files, e, n);
      }
    }
  }

  lemma NewTaskIsOnce(files: Files, e: Event, n: Name)
    requires Enabled(e, files) && n in NamesOf(e) && !Somewhere(files, n)
    requires !ActionsOf(e, files)(n).Leave?
    ensures ExactlyOnce(EventOn(files, e, n), n)
  {
    assert forall d :: Key(d, n) !in files;
    assert e.Arrive?;
    assert OnlyIn(EventOn(files, e, n), n, Pending);
  }

  ghost predicate AllOnce(files: Files) {
    forall n :: Somewhere(files, n) ==> ExactlyOnce(files, n)
  }

  lemma SameForOnce(f: Files, g: Files, n: Name)
    requires SameFor(f, g, n) && (Somewhere(g, n) ==> ExactlyOnce(g, n))
    ensures Somewhere(f, n) ==> ExactlyOnce(f, n)
  {
    if Somewhere(f, n) {
      var d :| Key(d, n) in f;
      assert Key(d, n) in g;
      var dir :| OnlyIn(g, n, dir);
      assert OnlyIn(f, n, dir);
    }
  }

  /** Without crashes every task is in exactly one directory, at every moment between events. */
  lemma {:induction false} ExactlyOneDirectory(files: Files, run: seq<Happening>)
    requires EnabledRun(files, run) && CompleteRun(files, run) && AllOnce(files)
    ensures AllOnce(RunAll(files, run))
    decreases |run|
  {
    if run != [] {
      forall n
        ensures Somewhere(After(files, run[0]), n) ==> ExactlyOnce(After(files, run[0]), n)
      {
        CompletedEventOn(files, run[0], n);
        EventKeepsOnce(files, run[0].event, n);
        SameForOnce(After(files, run[0]), EventOn(files, run[0].event, n), n);
      }
      ExactlyOneDirectory(After(files, run[0]), run[1..]);
    }
  }

  // ----- the budgets

  /** The one record of task `n` is `t`, in `dir`. */
  ghost predicate At(files: Files, n: Name, dir: Dir, t: Task) {
    OnlyIn(files, n, dir) && files[Key(dir, n)] == Good(t)
  }

  /** The event sends task `n` back to be drafted again. */
  predicate IsRedraft(files: Files, e: Event, n: Name) {
    (e.Retry? || e.Drain?) && n in NamesOf(e) && ActionsOf(e, files)(n).MoveTo?
        && ActionsOf(e, files)(n).dest == Pending
  }

  /** The event releases task `n` from a git timeout, to be applied again. */
  predicate IsTimeoutRelease(files: Files, e: Event, n: Name) {
    && e.Retry? && n in NamesOf(e) && Key(Blocked, n) in files && files[Key(Blocked, n)].Good?
    && RetryCheck.IsGitTimeoutApplyFailure(files[Key(Blocked, n)].task)
    && ActionsOf(e, files)(n).MoveTo?
  }

  function Unused(t: Task, signatures: set<string>): set<string> {
    signatures - t.requeuedFor
  }

  function Left(cap: nat, used: nat): nat {
    if used < cap then cap - used else 0
  }

  /** The measure: signatures not yet drained for, retries left, timeout releases left. */
  predicate Drops(t: Task, u: Task, signatures: set<string>) {
    || |Unused(u, signatures)| < |Unused(t, signatures)|
    || (Unused(u, signatures) == Unused(t, signatures)
        && (|| Left(2, u.applyRetryCount) < Left(2, t.applyRetryCount)
            || (u.applyRetryCount == t.applyRetryCount
                && Left(4, u.applyTimeoutReleases) < Left(4, t.applyTimeoutReleases))))
  }

  ghost predicate DrainsWithin(e: Event, signatures: set<string>) {
    e.Drain? ==> e.signature in signatures
  }

  lemma UnusedDrops(t: Task, signature: string, signatures: set<string>)
    requires signature in signatures && signature !in t.requeuedFor
    ensures |Unused(BlockedDrain.Fresh(t, signature), signatures)| == |Unused(t, signatures)| - 1
  {
    assert Unused(BlockedDrain.Fresh(t, signature), signatures) == Unused(t, signatures) - {signature};
  }

  /** The record after a completed event: the action's, or the old one. */
  ghost function RecordAfter(files: Files, e: Event, n: Name, t: Task): Task {
    if n in NamesOf(e) && !ActionsOf(e, files)(n).Leave? then ActionsOf(e, files)(n).task else t
  }

  lemma RetryCharges(files: Files, e: Event, n: Name, t: Task)
    requires e.Retry? && n in NamesOf(e) && Key(Blocked, n) in files && files[Key(Blocked, n)] == Good(t)
    requires !ActionsOf(e, files)(n).Leave?
    ensures RecordAfter(files, e, n, t).requeuedFor == t.requeuedFor
    ensures RecordAfter(files, e, n, t).applyRetryCount == t.applyRetryCount + (if IsRedraft(files, e, n) then 1 else 0)
    ensures RecordAfter(files, e, n, t).applyTimeoutReleases
              == t.applyTimeoutReleases + (if IsTimeoutRelease(files, e, n) then 1 else 0)
    ensures IsRedraft(files, e, n) ==> t.applyRetryCount < 2
    ensures IsTimeoutRelease(files, e, n) ==> t.applyTimeoutReleases < 4
  {
    RetryCheck.BudgetsCharged(e.cfg, e.seen(n), t);
    TimeoutReleaseIsRelease(e.cfg, e.seen(n), t);
  }

  lemma DrainCharges(files: Files, e: Event, n: Name, t: Task, signatures: set<string>)
    requires e.Drain? && e.signature in signatures && n in NamesOf(e)
    requires Key(e.dir, n) in files && files[Key(e.dir, n)] == Good(t)
    requires !ActionsOf(e, files)(n).Leave?
    ensures RecordAfter(files, e, n, t).applyRetryCount == RecordAfter(files, e, n, t).applyTimeoutReleases == 0
    ensures |Unused(RecordAfter(files, e, n, t), signatures)| == |Unused(t, signatures)| - 1
  {
    UnusedDrops(t, e.signature, signatures);
  }

  lemma OthersKeepBudgets(files: Files, e: Event, n: Name, t: Task)
    requires !e.Retry? && !e.Drain? && Enabled(e, files) && n in NamesOf(e)
    requires Key(SrcOf(e), n) in files && files[Key(SrcOf(e), n)] == Good(t)
    requires !ActionsOf(e, files)(n).Leave?
    ensures BudgetsKept(t, ActionsOf(e, files)(n).task) && !ActionsOf(e, files)(n).TryMove?
  {
  }

  /** In an event that completes, every automatic requeue, drain and timeout release drops the measure
      lexicographically, and every other event leaves all three budgets as they are. */
  lemma EventAndMeasure(files: Files, e: Event, n: Name, dir: Dir, t: Task, signatures: set<string>)
    requires Enabled(e, files) && DrainsWithin(e, signatures) && At(files, n, dir, t)
    requires n in NamesOf(e) && !ActionsOf(e, files)(n).Leave? ==> dir == SrcOf(e)
    ensures IsRedraft(files, e, n) || IsTimeoutRelease(files, e, n) ==>
              Drops(t, RecordAfter(files, e, n, t), signatures)
    ensures !IsRedraft(files, e, n) && !IsTimeoutRelease(files, e, n) ==> BudgetsKept(t, RecordAfter(files, e, n, t))
  {
    assert Key(dir, n) in files;
    if e.Retry? && n in NamesOf(e) && !ActionsOf(e, files)(n).Leave? {
      RetryCharges(files, e, n, t);
    } else if e.Drain? && n in NamesOf(e) && !ActionsOf(e, files)(n).Leave? {
      DrainCharges(files, e, n, t, signatures);
    } else if n in NamesOf(e) && !ActionsOf(e, files)(n).Leave? {
      OthersKeepBudgets(files, e, n, t);
    }
  }

  lemma TimeoutReleaseIsRelease(cfg: RetryCheck.Config, seen: RetryCheck.Seen, t: Task)
    ensures RetryCheck.IsGitTimeoutApplyFailure(t) && RetryCheck.Decide(cfg, seen, Good(t)).0.MoveTo?
       <==> RetryCheck.IsGitTimeoutApplyFailure(t) && RetryCheck.Decide(cfg, seen, Good(t)).1.Released?
  {
  }

  /** The directory an apply moves a task to, and the status it leaves on the record. */
  predicate InStep(dir: Dir, status: string) {
    || (dir == Coordinating && status == "coordinating") || (dir == AwaitingConfirm && status == "awaiting-confirm")
    || (dir == Done && status == "done") || (dir == Blocked && status == "blocked")
  }

  /** After every apply that completes the task is in one of four directories, and its status names
      it: in done/ if and only if the apply succeeded, in blocked/ if and only if it failed. */
  lemma ApplyLandsInStep(files: Files, h: Happening)
    requires Enabled(h.event, files) && h.event.Apply? && Completes(h, files) && OnlyIn(files, h.event.name, Approved)
    ensures var after, n := After(files, h), h.event.name;
            exists dir, u :: OnlyIn(after, n, dir) && after[Key(dir, n)] == Good(u) && InStep(dir, u.status)
                             && (dir == Done <==> h.event.stage.StageApplied?)
                             && (dir == Blocked <==> h.event.stage.StageApplyFailed?)
                             && (dir == Coordinating <==> h.event.stage.StageCoordinating?)
  {
    var n, e := h.event.name, h.event;
    EventsAreSane(e, files);
    CompletedEventOn(files, h, n);
    var dir := ApplyOutcome.DirOf(e.stage);
    var u := ApplyOutcome.Recorded(files[Key(Approved, n)].task, e.stage, e.result, e.reviewSource);
    assert OnlyIn(After(files, h), n, dir) && After(files, h)[Key(dir, n)] == Good(u) && InStep(dir, u.status);
  }
}
