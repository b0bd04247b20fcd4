/** The apply-retry sweep (src/apply-retry-check.js:45-419). */
module RetryCheck {
  import opened Wrappers
  import opened Queue
  import opened Spool

  const MAX_APPLY_RETRIES := 2
  const APPLY_TIMEOUT_MAX_RELEASES := 4

  /** Which optional directories the caller passed. */
  datatype Config = Config(hasApproved: bool, hasClarification: bool)

  datatype PatchFailure = ConflictingEdit | StaleContext | MalformedHunk | Unclassified

  /** What the sweep observes outside the record when it reaches a task. */
  datatype Seen = Seen(cloneClean: bool, resolved: bool, patch: PatchFailure)

  datatype Tally = Unreadable | NotEligible | Released | Held | Exhausted | Resolved | Requeued

  predicate IsApplyFailure(t: Task) { t.stage.ApplyStage? }

  predicate IsGitTimeoutFailure(t: Task) { IsApplyFailure(t) && t.reason.gitTimeout }

  predicate IsGitTimeoutApplyFailure(t: Task) {
    IsGitTimeoutFailure(t) && t.applyTimeoutReleases < APPLY_TIMEOUT_MAX_RELEASES
  }

  predicate IsInfraApplyFailure(t: Task) {
    IsApplyFailure(t) && (t.reason.infra || IsGitTimeoutApplyFailure(t))
  }

  predicate IsDivergedHistoryFailure(t: Task) { IsApplyFailure(t) && t.reason.diverged }

  predicate IsFindStringMiss(t: Task) { IsApplyFailure(t) && t.reason.findMiss }

  /** src/lib/reject-retry-check.js:246-254: the last escalation has no draft after it. */
  predicate AlreadyEscalated(history: seq<string>) {
    exists k :: 0 <= k < |history| && EscalatedAt(history, k)
  }

  predicate EscalatedAt(history: seq<string>, k: int) {
    && 0 <= k < |history| && history[k] == "needs-clarification"
    && forall j :: k < j < |history| ==> history[j] != "needs-clarification" && history[j] != "draft-started"
  }

  function Escalate(t: Task, hold: Hold, events: seq<string>): Action {
    MoveTo(NeedsClarification, t.(hold := hold, history := t.history + events))
  }

  /** A task whose approved result is to be applied again, without a redraft. */
  function Release(t: Task): Action {
    MoveTo(Approved, t.(stage := NoStage, reason := Reason(false, false, false, false), status := "approved",
      history := t.history + ["approved"],
      applyTimeoutReleases := if IsGitTimeoutApplyFailure(t) then t.applyTimeoutReleases + 1
          else t.applyTimeoutReleases))
  }

  function HoldOnce(t: Task, event: string): Action {
    if event in t.history then Leave else Rewrite(t.(history := t.history + [event]))
  }

  /** The decision about one file of blocked/. */
  function Decide(cfg: Config, seen: Seen, file: File): (Action, Tally) {
    if file.Malformed? then (Leave, Unreadable)
    else
      var t := file.task;
      if !IsApplyFailure(t) then (Leave, NotEligible)
      else if IsInfraApplyFailure(t) then
        if cfg.hasApproved && seen.cloneClean then (Release(t), Released) else (HoldOnce(t, "infra-held"), Held)
      else if IsGitTimeoutFailure(t) then (HoldOnce(t, "git-timeout-exhausted"), Held)
      else if IsDivergedHistoryFailure(t) && cfg.hasClarification && "needs-clarification" !in t.history then
        (Escalate(t, OtherHold, ["needs-clarification"]), Exhausted)
      else if IsFindStringMiss(t) && cfg.hasApproved && seen.resolved then
        (MoveTo(Approved, t.(stage := NoStage, reason := Reason(false, false, false, false),
                             history := t.history + ["approved"])), Resolved)
      else if !IsDivergedHistoryFailure(t) && seen.patch.ConflictingEdit? && cfg.hasClarification
           && !AlreadyEscalated(t.history) then
        (TryMove(NeedsClarification, Conflicted(t), RetryOrExhaust(cfg, Conflicted(t)).0), Exhausted)
      else RetryOrExhaust(cfg, t)
  }

  /** The record escalated for a conflicting edit. */
  function Conflicted(t: Task): Task {
    t.(hold := OtherHold, history := t.history + ["needs-clarification"])
  }

  /** The end of the loop's body: a redraft, or what happens when none is left. */
  function RetryOrExhaust(cfg: Config, t: Task): (Action, Tally) {
    if t.applyRetryCount >= MAX_APPLY_RETRIES then
      var stamp := if "exhausted" in t.history then [] else ["exhausted"];
      if cfg.hasClarification && !AlreadyEscalated(t.history) then
        (Escalate(t, DesignDecision, stamp + ["needs-clarification"]), Exhausted)
      else (HoldOnce(t, "exhausted"), Exhausted)
    else
      (MoveTo(Pending, t.(applyRetryCount := t.applyRetryCount + 1, history := t.history + ["requeued"])), Requeued)
  }

  /** What is counted when an operation may throw: a throw during the escalation of a conflicting
      edit is taken for a failed classification, and the loop goes on. */
  function TallyOf(cfg: Config, seen: Seen, file: File, limit: Limit): Tally {
    var (action, tally) := Decide(cfg, seen, file);
    if action.TryMove? && limit.ops < 2 then RetryOrExhaust(cfg, action.task).1 else tally
  }

  /** The decisions of one sweep over `files`. */
  function Decisions(cfg: Config, seen: Name -> Seen, files: Files): Name -> Action {
    n => if Key(Blocked, n) in files then Decide(cfg, seen(n), files[Key(Blocked, n)]).0 else Leave
  }

  function Tallies(cfg: Config, seen: Name -> Seen, files: Files, limit: Name -> Limit): Name -> Tally {
    n => if Key(Blocked, n) in files then TallyOf(cfg, seen(n), files[Key(Blocked, n)], limit(n)) else NotEligible
  }

  datatype Summary = Summary(checked: nat, requeued: nat, exhausted: nat, resolved: nat, released: nat, held: nat,
                             errors: nat)

  function Count(s: Summary, tally: Tally, ok: bool): Summary {
    var c := if tally.Unreadable? then s else s.(checked := s.checked + 1);
    if tally.Unreadable? || !ok then c.(errors := c.errors + 1)
    else
      match tally
      case Requeued => c.(requeued := c.requeued + 1)
      case Exhausted => c.(exhausted := c.exhausted + 1)
      case Resolved => c.(resolved := c.resolved + 1)
      case Released => c.(released := c.released + 1)
      case Held => c.(held := c.held + 1)
      case _ => c
  }

  function SummaryOf(names: seq<Name>, action: Name -> Action, tally: Name -> Tally, limit: Name -> Limit): Summary {
    if names == [] then Summary(0, 0, 0, 0, 0, 0, 0)
    else
      var last := names[|names| - 1];
      Count(SummaryOf(names[..|names| - 1], action, tally, limit), tally(last), Succeeds(action(last), limit(last)))
  }

  /** The body of the sweep's loop. */
  method CheckOne(queue: QueueDir, cfg: Config, seen: Seen, name: Name, limit: Limit) returns (tally: Tally, ok: bool)
    requires Key(Blocked, name) in queue.files
    modifies queue
    ensures tally == TallyOf(cfg, seen, old(queue.files)[Key(Blocked, name)], limit)
    ensures queue.files == OneFile(old(queue.files), Blocked, name,
                                   Decide(cfg, seen, old(queue.files)[Key(Blocked, name)]).0, limit)
    ensures ok <==> Succeeds(Decide(cfg, seen, old(queue.files)[Key(Blocked, name)]).0, limit)
  {
    var file := queue.files[Key(Blocked, name)];
    if file.Malformed? {
      return Unreadable, true;
    }
    var task, left := file.task, limit;
    if !IsApplyFailure(task) {
      return NotEligible, true;
    }
    if IsInfraApplyFailure(task) {
      if cfg.hasApproved && seen.cloneClean {
        if IsGitTimeoutApplyFailure(task) {
          task := task.(applyTimeoutReleases := task.applyTimeoutReleases + 1);
        }
        task := task.(stage := NoStage, reason := Reason(false, false, false, false), status := "approved",
                      history := task.history + ["approved"]);
        ok := queue.Move(Blocked, name, Approved, task, limit);
        return Released, ok;
      }
      ok := true;
      if "infra-held" !in task.history {
        ok := queue.Put(Blocked, name, task.(history := task.history + ["infra-held"]), limit);
      }
      return Held, ok;
    }
    if IsGitTimeoutFailure(task) {
      ok := true;
      if "git-timeout-exhausted" !in task.history {
        ok := queue.Put(Blocked, name, task.(history := task.history + ["git-timeout-exhausted"]), limit);
      }
      return Held, ok;
    }
    if IsDivergedHistoryFailure(task) && cfg.hasClarification {
      if "needs-clarification" !in task.history {
        task := task.(hold := OtherHold, history := task.history + ["needs-clarification"]);
        ok := queue.Move(Blocked, name, NeedsClarification, task, limit);
        return Exhausted, ok;
      }
    }
    if IsFindStringMiss(task) && cfg.hasApproved {
      if seen.resolved {
        task := task.(stage := NoStage, reason := Reason(false, false, false, false),
                      history := task.history + ["approved"]);
        ok := queue.Move(Blocked, name, Approved, task, limit);
        return Resolved, ok;
      }
    }
    if !IsInfraApplyFailure(task) && !IsGitTimeoutFailure(task) && !IsDivergedHistoryFailure(task) {
      if seen.patch.ConflictingEdit? {
        if cfg.hasClarification && !AlreadyEscalated(task.history) {
          task := task.(hold := OtherHold, history := task.history + ["needs-clarification"]);
          ok := queue.Move(Blocked, name, NeedsClarification, task, left);
          if ok {
            return Exhausted, true;
          }
          left := Limit(limit.later, 0);
        }
      }
    }
    tally, ok := RetryOne(queue, cfg, task, name, left);
  }

  /** The end of the loop's body. */
  method RetryOne(queue: QueueDir, cfg: Config, t: Task, name: Name, left: Limit) returns (tally: Tally, ok: bool)
    modifies queue
    ensures tally == RetryOrExhaust(cfg, t).1
    ensures queue.files == OneFile(old(queue.files), Blocked, name, RetryOrExhaust(cfg, t).0, left)
    ensures ok <==> Succeeds(RetryOrExhaust(cfg, t).0, left)
  {
    var task := t;
    var retryCount := task.applyRetryCount;
    if retryCount >= MAX_APPLY_RETRIES {
      var alreadyStamped := "exhausted" in task.history;
      if cfg.hasClarification && !AlreadyEscalated(task.history) {
        var stamp := if alreadyStamped then [] else ["exhausted"];
        task := task.(hold := DesignDecision, history := task.history + (stamp + ["needs-clarification"]));
        ok := queue.Move(Blocked, name, NeedsClarification, task, left);
        return Exhausted, ok;
      }
      if alreadyStamped {
        return Exhausted, true;
      }
      ok := queue.Put(Blocked, name, task.(history := task.history + ["exhausted"]), left);
      return Exhausted, ok;
    }
    task := task.(applyRetryCount := retryCount + 1, history := task.history + ["requeued"]);
    ok := queue.Move(Blocked, name, Pending, task, left);
    return Requeued, ok;
  }

  /** The whole sweep: the files of blocked/, each by its own decision, and the counts reported. */
  method ApplyRetryCheck(queue: QueueDir, cfg: Config, seen: Name -> Seen, limit: Name -> Limit)
      returns (summary: Summary, ghost names: seq<Name>)
    modifies queue
    ensures Listing(old(queue.files), Blocked, names)
    ensures queue.files == Replay(old(queue.files),
                                  SweepOps(Blocked, names, Decisions(cfg, seen, old(queue.files)), limit))
    ensures summary == SummaryOf(names, Decisions(cfg, seen, old(queue.files)),
                                 Tallies(cfg, seen, old(queue.files), limit), limit)
    ensures forall n, t :: HeldBack(old(queue.files), n, t) && limit(n).ops >= 2 ==>
              Disposed(cfg, seen(n), t, queue.files, n)
    ensures (forall n :: limit(n).ops >= 2) ==> CountsAre(cfg, seen, old(queue.files), names, summary)
  {
    var listed := queue.ReadDir(Blocked);
    names := listed;
    summary := Summary(0, 0, 0, 0, 0, 0, 0);
    ghost var files0 := queue.files;
    ghost var action := Decisions(cfg, seen, files0);
    ghost var tally := Tallies(cfg, seen, files0, limit);
    var k := 0;
    while k < |listed|
      invariant 0 <= k <= |listed|
      invariant queue.files == Replay(files0, SweepOps(Blocked, names[..k], action, limit))
      invariant summary == SummaryOf(names[..k], action, tally, limit)
    {
      SweepStep(files0, Blocked, names, k, action, limit);
      assert names[k] in names && names[..k + 1][..k] == names[..k];
      assert Key(Blocked, names[k]) in queue.files;
      var one, ok := CheckOne(queue, cfg, seen(listed[k]), listed[k], limit(listed[k]));
      summary := Count(summary, one, ok);
      k := k + 1;
    }
    assert names[..k] == names;
    forall n, t | HeldBack(files0, n, t) && limit(n).ops >= 2
      ensures Disposed(cfg, seen(n), t, queue.files, n)
    {
      SweepDisposes(cfg, seen, files0, names, limit, n, t);
    }
    if forall n :: limit(n).ops >= 2 {
      SweepCounts(cfg, seen, files0, names, limit);
    }
  }

  // ----- where every task goes

  /** The task is in blocked/, and nowhere else. */
  ghost predicate HeldBack(files: Files, n: Name, t: Task) {
    OnlyIn(files, n, Blocked) && files[Key(Blocked, n)] == Good(t)
  }

  /** The last escalation or the last start of a draft, whichever came later. */
  function LastMark(history: seq<string>): Option<string> {
    if history == [] then None
    else
      var last := history[|history| - 1];
      if last == "needs-clarification" || last == "draft-started" then Some(last)
      else LastMark(history[..|history| - 1])
  }

  /** The clone or the network failed, not the draft; a timeout counts four times. */
  predicate Transient(t: Task) {
    t.stage.ApplyStage? && (t.reason.infra || (t.reason.gitTimeout && t.applyTimeoutReleases < 4))
  }

  /** An apply failure that says something about the draft. */
  predicate Ordinary(t: Task) {
    t.stage.ApplyStage? && !t.reason.infra && !t.reason.gitTimeout
  }

  predicate GoesAgain(cfg: Config, seen: Seen, t: Task) {
    Transient(t) && cfg.hasApproved && seen.cloneClean
  }

  /** The branch has diverged, and the task was never with a human. */
  predicate FirstDiverged(cfg: Config, t: Task) {
    Ordinary(t) && t.reason.diverged && cfg.hasClarification && "needs-clarification" !in t.history
  }

  /** The edit's place is gone, and a scan finds nothing left to fix. */
  predicate SiteResolved(cfg: Config, seen: Seen, t: Task) {
    Ordinary(t) && !FirstDiverged(cfg, t) && t.reason.findMiss && cfg.hasApproved && seen.resolved
  }

  /** A human can be asked: there is where to, and a draft was started since the last question. */
  predicate MayAsk(cfg: Config, t: Task) {
    cfg.hasClarification && LastMark(t.history) != Some("needs-clarification")
  }

  predicate Conflicting(cfg: Config, seen: Seen, t: Task) {
    && Ordinary(t) && !t.reason.diverged && !SiteResolved(cfg, seen, t)
    && seen.patch.ConflictingEdit? && MayAsk(cfg, t)
  }

  /** None of these. */
  predicate Retryable(cfg: Config, seen: Seen, t: Task) {
    Ordinary(t) && !FirstDiverged(cfg, t) && !SiteResolved(cfg, seen, t) && !Conflicting(cfg, seen, t)
  }

  /** The four places a task can end in, each exactly by the record and what was seen, with the
      record it has there. */
  ghost predicate Disposed(cfg: Config, seen: Seen, t: Task, after: Files, n: Name) {
    exists dir, u :: OnlyIn(after, n, dir) && after[Key(dir, n)] == Good(u) && DisposedTo(cfg, seen, t, dir, u)
  }

  ghost predicate DisposedTo(cfg: Config, seen: Seen, t: Task, dir: Dir, u: Task) {
    PlacedIn(cfg, seen, t, dir) && RecordedAs(cfg, seen, t, dir, u)
  }

  ghost predicate PlacedIn(cfg: Config, seen: Seen, t: Task, dir: Dir) {
    && (dir == Approved <==> GoesAgain(cfg, seen, t) || SiteResolved(cfg, seen, t))
    && (dir == NeedsClarification <==> FirstDiverged(cfg, t) || Conflicting(cfg, seen, t) || AskedLast(cfg, seen, t))
    && (dir == Pending <==> Redrafted(cfg, seen, t))
    && dir in {Approved, NeedsClarification, Pending, Blocked}
  }

  predicate Redrafted(cfg: Config, seen: Seen, t: Task) {
    Retryable(cfg, seen, t) && t.applyRetryCount < 2
  }

  /** Two retries are used up, and a human can be asked. */
  predicate AskedLast(cfg: Config, seen: Seen, t: Task) {
    Retryable(cfg, seen, t) && t.applyRetryCount >= 2 && MayAsk(cfg, t)
  }

  ghost predicate RecordedAs(cfg: Config, seen: Seen, t: Task, dir: Dir, u: Task) {
    match dir
    case Approved =>
      u == t.(stage := NoStage, reason := Reason(false, false, false, false), history := t.history + ["approved"],
              status := if GoesAgain(cfg, seen, t) then "approved" else t.status,
              applyTimeoutReleases := t.applyTimeoutReleases + if TimeoutCounts(cfg, seen, t) then 1 else 0)
    case NeedsClarification =>
      u == t.(hold := if AskedLast(cfg, seen, t) then DesignDecision else OtherHold,
              history := t.history + (if AskedLast(cfg, seen, t) then NewMark(cfg, seen, t) else [])
                         + ["needs-clarification"])
    case Pending =>
      u == t.(applyRetryCount := t.applyRetryCount + 1, history := t.history + ["requeued"])
    case _ =>
      u == t.(history := t.history + NewMark(cfg, seen, t))
  }

  predicate TimeoutCounts(cfg: Config, seen: Seen, t: Task) {
    GoesAgain(cfg, seen, t) && t.reason.gitTimeout && t.applyTimeoutReleases < 4
  }

  /** Why a task stays, noted once. */
  function NewMark(cfg: Config, seen: Seen, t: Task): seq<string> {
    var mark :=
      if Transient(t) then "infra-held"
      else if t.stage.ApplyStage? && t.reason.gitTimeout && !t.reason.infra then "git-timeout-exhausted"
      else "exhausted";
    if mark in t.history || !(Waits(cfg, seen, t) || Retryable(cfg, seen, t)) then [] else [mark]
  }

  predicate Waits(cfg: Config, seen: Seen, t: Task) {
    t.stage.ApplyStage? && (t.reason.infra || t.reason.gitTimeout) && !GoesAgain(cfg, seen, t)
  }

  lemma {:induction false} EscalatedIsLastMark(history: seq<string>)
    ensures AlreadyEscalated(history) <==> LastMark(history) == Some("needs-clarification")
    decreases |history|
  {
    if history != [] {
      var n := |history| - 1;
      if history[n] == "needs-clarification" {
        assert EscalatedAt(history, n);
      } else if history[n] != "draft-started" {
        EscalatedIsLastMark(history[..n]);
        OtherEventIsNoMark(history);
      }
    }
  }

  lemma OtherEventIsNoMark(history: seq<string>)
    requires history != []
    requires history[|history| - 1] != "needs-clarification" && history[|history| - 1] != "draft-started"
    ensures AlreadyEscalated(history) <==> AlreadyEscalated(history[..|history| - 1])
  {
    var init := history[..|history| - 1];
    forall k
      ensures EscalatedAt(init, k) <==> EscalatedAt(history, k)
    {
      assert forall j :: 0 <= j < |init| ==> init[j] == history[j];
    }
  }

  /** Where a completed decision puts the task, and its record there. */
  function LandsIn(action: Action): Dir {
    if action.MoveTo? || action.TryMove? then action.dest else Blocked
  }

  function LandsAs(action: Action, t: Task): Task {
    if action.Leave? then t else action.task
  }

  /** The end of the loop's body. */
  lemma RetryDisposes(cfg: Config, seen: Seen, t: Task)
    requires Retryable(cfg, seen, t)
    ensures var action := RetryOrExhaust(cfg, t).0;
            DisposedTo(cfg, seen, t, LandsIn(action), LandsAs(action, t))
  {
    EscalatedIsLastMark(t.history);
    if t.applyRetryCount >= 2 {
      assert t.history + NewMark(cfg, seen, t) + ["needs-clarification"]
          == t.history + (NewMark(cfg, seen, t) + ["needs-clarification"]);
      assert t.history + [] == t.history;
    }
  }

  lemma InfraDisposes(cfg: Config, seen: Seen, t: Task)
    requires !Ordinary(t)
    ensures var action := Decide(cfg, seen, Good(t)).0;
            DisposedTo(cfg, seen, t, LandsIn(action), LandsAs(action, t))
  {
    assert t.history + [] == t.history;
  }

  lemma EarlyDisposes(cfg: Config, seen: Seen, t: Task)
    requires Ordinary(t) && !Retryable(cfg, seen, t)
    ensures var action := Decide(cfg, seen, Good(t)).0;
            DisposedTo(cfg, seen, t, LandsIn(action), LandsAs(action, t))
  {
    EscalatedIsLastMark(t.history);
    assert t.history + [] + ["needs-clarification"] == t.history + ["needs-clarification"];
  }

  lemma DecisionDisposes(cfg: Config, seen: Seen, t: Task)
    ensures var action := Decide(cfg, seen, Good(t)).0;
            DisposedTo(cfg, seen, t, LandsIn(action), LandsAs(action, t))
  {
    if !Ordinary(t) {
      InfraDisposes(cfg, seen, t);
    } else if !Retryable(cfg, seen, t) {
      EarlyDisposes(cfg, seen, t);
    } else {
      EscalatedIsLastMark(t.history);
      RetryDisposes(cfg, seen, t);
      assert Decide(cfg, seen, Good(t)) == RetryOrExhaust(cfg, t);
    }
  }

  lemma OneLands(files: Files, n: Name, action: Action, t: Task, limit: Limit)
    requires HeldBack(files, n, t) && SaneAction(Blocked, action) && limit.ops >= 2
    ensures var after := OneFile(files, Blocked, n, action, limit);
            OnlyIn(after, n, LandsIn(action)) && after[Key(LandsIn(action), n)] == Good(LandsAs(action, t))
  {
  }

  lemma SweepDisposes(cfg: Config, seen: Name -> Seen, files: Files, names: seq<Name>, limit: Name -> Limit, n: Name,
                      t: Task)
    requires Listing(files, Blocked, names) && HeldBack(files, n, t) && limit(n).ops >= 2
    ensures Disposed(cfg, seen(n), t, Replay(files, SweepOps(Blocked, names, Decisions(cfg, seen, files), limit)), n)
  {
    var action := Decide(cfg, seen(n), Good(t)).0;
    var after := Replay(files, SweepOps(Blocked, names, Decisions(cfg, seen, files), limit));
    assert Key(Blocked, n) in files;
    SweepOnOne(files, Blocked, names, Decisions(cfg, seen, files), limit, n);
    DecisionIsSane(cfg, seen(n), t);
    OneLands(files, n, action, t, limit(n));
    DecisionDisposes(cfg, seen(n), t);
    assert OnlyIn(after, n, LandsIn(action)) && after[Key(LandsIn(action), n)] == Good(LandsAs(action, t));
  }

  lemma DecisionIsSane(cfg: Config, seen: Seen, t: Task)
    ensures SaneAction(Blocked, Decide(cfg, seen, Good(t)).0)
  {
  }

  // ----- what the sweep reports

  /** How many of the records satisfy `p`. */
  function CountOf(files: Files, names: seq<Name>, p: (Name, Task) -> bool): nat {
    if names == [] then 0
    else
      var last := names[|names| - 1];
      var one := Key(Blocked, last) in files && files[Key(Blocked, last)].Good?
          && p(last, files[Key(Blocked, last)].task);
      CountOf(files, names[..|names| - 1], p) + if one then 1 else 0
  }

  function UnreadableOf(files: Files, names: seq<Name>): nat {
    if names == [] then 0
    else
      var last := names[|names| - 1];
      var one := Key(Blocked, last) in files && files[Key(Blocked, last)].Malformed?;
      UnreadableOf(files, names[..|names| - 1]) + if one then 1 else 0
  }

  /** Each number is the number of records of one kind. */
  ghost predicate CountsAre(cfg: Config, seen: Name -> Seen, files: Files, names: seq<Name>, s: Summary) {
    && s.checked == CountOf(files, names, (n: Name, t: Task) => true)
    && s.errors == UnreadableOf(files, names)
    && s.released == CountOf(files, names, (n: Name, t: Task) => GoesAgain(cfg, seen(n), t))
    && s.held == CountOf(files, names, (n: Name, t: Task) => Waits(cfg, seen(n), t))
    && s.resolved == CountOf(files, names, (n: Name, t: Task) => SiteResolved(cfg, seen(n), t))
    && s.requeued == CountOf(files, names, (n: Name, t: Task) => Redrafted(cfg, seen(n), t))
    && s.exhausted == CountOf(files, names, (n: Name, t: Task) => GivenUp(cfg, seen(n), t))
  }

  predicate GivenUp(cfg: Config, seen: Seen, t: Task) {
    FirstDiverged(cfg, t) || Conflicting(cfg, seen, t) || (Retryable(cfg, seen, t) && t.applyRetryCount >= 2)
  }

  lemma TallyIs(cfg: Config, seen: Seen, t: Task)
    ensures var tally := Decide(cfg, seen, Good(t)).1;
            && !tally.Unreadable?
            && (tally.Released? <==> GoesAgain(cfg, seen, t))
            && (tally.Held? <==> Waits(cfg, seen, t))
            && (tally.Resolved? <==> SiteResolved(cfg, seen, t))
            && (tally.Requeued? <==> Redrafted(cfg, seen, t))
            && (tally.Exhausted? <==> GivenUp(cfg, seen, t))
  {
    EscalatedIsLastMark(t.history);
  }

  lemma {:induction false} SweepCounts(cfg: Config, seen: Name -> Seen, files: Files, names: seq<Name>,
                                       limit: Name -> Limit)
    requires forall n :: n in names ==> Key(Blocked, n) in files
    requires forall n :: limit(n).ops >= 2
    ensures CountsAre(cfg, seen, files, names, SummaryOf(names, Decisions(cfg, seen, files),
                                                         Tallies(cfg, seen, files, limit), limit))
    decreases |names|
  {
    if names != [] {
      var init, last := names[..|names| - 1], names[|names| - 1];
      assert forall n :: n in init ==> n in names;
      SweepCounts(cfg, seen, files, init, limit);
      var file := files[Key(Blocked, last)];
      if file.Good? {
        TallyIs(cfg, seen(last), file.task);
      }
    }
  }

  // ----- what a decision may do

  /** The budgets: a redraft costs exactly one of two retries, a timeout release one of four, and
      nothing else the sweep does touches either count or the drained signatures. */
  lemma BudgetsCharged(cfg: Config, seen: Seen, t: Task)
    ensures var (action, tally) := Decide(cfg, seen, Good(t));
            && (!action.Leave? ==>
                  && action.task.requeuedFor == t.requeuedFor
                  && action.task.applyRetryCount == t.applyRetryCount + (if tally.Requeued? then 1 else 0)
                  && action.task.applyTimeoutReleases
                        == t.applyTimeoutReleases + (if tally.Released? && IsGitTimeoutApplyFailure(t) then 1 else 0))
            && (tally.Requeued? <==> action.MoveTo? && action.dest == Pending)
            && (tally.Requeued? ==> t.applyRetryCount < MAX_APPLY_RETRIES)
            && (tally.Released? && t.reason.gitTimeout && !t.reason.infra ==>
                t.applyTimeoutReleases < APPLY_TIMEOUT_MAX_RELEASES)
  {
    if !IsApplyFailure(t) || IsInfraApplyFailure(t) {
    } else if IsGitTimeoutFailure(t) || IsDivergedHistoryFailure(t) {
    } else {
    }
  }

  /** What follows a caught throw charges the same. */
  lemma FallbackCharged(cfg: Config, seen: Seen, t: Task)
    ensures var action := Decide(cfg, seen, Good(t)).0;
            action.TryMove? && !action.otherwise.Leave? ==>
              && action.otherwise.task.requeuedFor == t.requeuedFor
                    && action.otherwise.task.applyTimeoutReleases == t.applyTimeoutReleases
              && action.otherwise.task.applyRetryCount
                    == t.applyRetryCount + (if action.otherwise.MoveTo? then 1 else 0)
              && (action.otherwise.MoveTo? ==>
                  action.otherwise.dest == Pending && t.applyRetryCount < MAX_APPLY_RETRIES)
  {
    assert EscalatedAt(Conflicted(t).history, |t.history|);
  }

  ghost predicate Conflicts(cfg: Config, seen: Seen, t: Task) {
    IsApplyFailure(t) && Decide(cfg, seen, Good(t)).0.TryMove?
  }

  /** The escalation of a conflicting edit is written inside a `try` whose `catch` is meant for a
      failed classification. So when its write or its unlink throws, the task is redrafted after all:
      it ends with the human and in pending/ both, if and only if the escalation was written but not
      unlinked, a retry is left, and the redraft could be written. */
  lemma EscalatedAndRedraftedIff(cfg: Config, seen: Seen, t: Task, files: Files, name: Name, limit: Limit)
    requires OnlyIn(files, name, Blocked) && files[Key(Blocked, name)] == Good(t) && Conflicts(cfg, seen, t)
    ensures var after := OneFile(files, Blocked, name, Decide(cfg, seen, Good(t)).0, limit);
            Key(NeedsClarification, name) in after && Key(Pending, name) in after <==>
              limit.ops == 1 && limit.later >= 1 && t.applyRetryCount < MAX_APPLY_RETRIES
  {
    var action := Decide(cfg, seen, Good(t)).0;
    var mid := Moved(files, Blocked, name, NeedsClarification, action.task, limit.ops);
    FallbackCharged(cfg, seen, t);
    if limit.ops < 2 {
      assert OneFile(files, Blocked, name, action, limit)
          == OneFile(mid, Blocked, name, action.otherwise, Limit(limit.later, 0));
    }
  }

  /** An infrastructure failure or a git timeout never costs a redraft and never reaches a human,
      however often it happens. */
  lemma InfrastructureNeverRedrafts(cfg: Config, seen: Seen, t: Task)
    requires IsApplyFailure(t) && (t.reason.infra || t.reason.gitTimeout)
    ensures var (action, tally) := Decide(cfg, seen, Good(t));
            && (tally.Released? || tally.Held?)
            && (action.MoveTo? ==> action.dest == Approved)
            && (!action.Leave? ==> action.task.applyRetryCount == t.applyRetryCount && action.task.hold == t.hold)
  {
  }

  /** The header of the diverged-history check says that a redraft of such a task is pure waste,
      whatever its retry count. The code redrafts it exactly when it was escalated before (or there
      is nowhere to escalate to), a retry is left, and its site is not known to be resolved: the
      guard asks whether the task was ever escalated, not whether it was since its last draft. */
  lemma DivergedIsRedraftedIff(cfg: Config, seen: Seen, t: Task)
    requires IsDivergedHistoryFailure(t) && !t.reason.infra && !t.reason.gitTimeout
    ensures Decide(cfg, seen, Good(t)).1.Requeued? <==>
            && (!cfg.hasClarification || "needs-clarification" in t.history)
            && !(IsFindStringMiss(t) && cfg.hasApproved && seen.resolved)
            && t.applyRetryCount < MAX_APPLY_RETRIES
  {
  }

  /** The human answered the first escalation and the task was drafted afresh; the next diverged
      failure is redrafted all the same. */
  lemma DivergedTwiceIsRedrafted(seen: Seen, t: Task)
    requires IsDivergedHistoryFailure(t) && !t.reason.infra && !t.reason.gitTimeout && !t.reason.findMiss
    requires t.history == ["needs-clarification", "draft-started"] && t.applyRetryCount == 0
    ensures !AlreadyEscalated(t.history)
    ensures Decide(Config(true, true), seen, Good(t)).1.Requeued?
  {
    assert t.history[0] == "needs-clarification" && t.history[1] == "draft-started";
  }
}
