/** What a finished agentic pass does to its task (src/agentic-draft-common.js:477-985): the
    continuation budget, and where partial work goes. */
module DraftBudget {
  import opened Wrappers
  import opened HubFold
  import HubQueue

  datatype Verb = Decompose | NeedsHuman | Implemented | NoChangesNeeded

  datatype Blocker = BudgetExhausted | InfraError | DesignQuestion

  /** What the pass ended with. `diff` is what the worktree holds (`bestEffortDiff`), `proposals`
      the sub-tasks parsed from the answer, `stopText` a prerequisite stop, `saysRerun` the pattern
      RERUN_NOT_A_QUESTION_RE. `gatesPass` is what the gates on a diff, or on the claim that none is
      needed, would say; `captureThrows` when the diff of a finished pass cannot be read. */
  datatype Pass = Pass(
    degenerate: bool, verb: Option<Verb>, forcedSummary: bool, blankSummary: bool, edits: nat, diff: Option<string>,
    proposals: seq<Proposal>, stopText: bool, blocker: Option<Blocker>, missingTarget: bool, saysRerun: bool,
    gatesPass: bool, captureThrows: bool)

  /** The fields of the task that the outcome writes. */
  datatype Draft = Draft(
    continuations: nat, priorPartialDiff: Option<string>, carriedPartialDiff: Option<string>,
    resolution: Option<Verb>, proposals: seq<Proposal>, rawDiff: string, decomposeBlocks: nat, rescoped: bool,
    rescopedRawText: string,
    retryable: bool, turnBudgetExhausted: bool, exhaustedBefore: bool, infraRetry: bool)

  datatype Outcome =
    | Continued           // requeued to finish what it started
    | BlockedForRetry
    | BlockedForGood
    | HeldForHuman
    | Split               // the decomposition is accepted
    | Finished
    | CaptureFailed       // the pass did not succeed: its diff could not be read

  /** Partial work may be continued: there is some, and the budget is not spent. */
  predicate MayContinue(cap: int, task: Draft, pass: Pass) {
    pass.diff.Some? && task.continuations < cap
  }

  function Continue(task: Draft, pass: Pass): (Draft, Outcome)
    requires pass.diff.Some?
  {
    (task.(continuations := task.continuations + 1, priorPartialDiff := pass.diff, retryable := true), Continued)
  }

  function TurnsSpent(task: Draft): (Draft, Outcome) {
    (task.(turnBudgetExhausted := true, retryable := true, exhaustedBefore := true), BlockedForRetry)
  }

  function AskHuman(task: Draft): (Draft, Outcome) {
    (task.(resolution := Some(NeedsHuman), rawDiff := ""), HeldForHuman)
  }

  function ResolveNoResolutionForced(cap: int, task: Draft, pass: Pass): (Draft, Outcome) {
    if pass.edits == 0 && pass.diff.None? then TurnsSpent(task)
    else if pass.blankSummary then
      if MayContinue(cap, task, pass) then Continue(task, pass) else TurnsSpent(task)
    else AskHuman(task)
  }

  function ResolveDecomposeZero(cap: int, task: Draft, pass: Pass): (Draft, Outcome) {
    if MayContinue(cap, task, pass) then Continue(task, pass)
    else (task.(decomposeBlocks := task.decomposeBlocks + 1, retryable := true), BlockedForRetry)
  }

  function ResolveDecomposeOne(task: Draft, pass: Pass): (Draft, Outcome)
    requires |pass.proposals| == 1
  {
    if task.rescoped then AskHuman(task)
    else (task.(rescoped := true, rescopedRawText := pass.proposals[0].rawText,
                decomposeBlocks := task.decomposeBlocks + 1, retryable := true), BlockedForRetry)
  }

  function ResolveDecomposeMany(cap: int, task: Draft, pass: Pass): (Draft, Outcome) {
    if MayContinue(cap, task, pass) then Continue(task, pass)
    else
      var split := task.(resolution := Some(Decompose), proposals := pass.proposals, rawDiff := "");
      (if pass.diff.Some? then split.(carriedPartialDiff := pass.diff) else split, Split)
  }

  function ResolveNeedsHuman(cap: int, task: Draft, pass: Pass): (Draft, Outcome) {
    if pass.stopText then (task, HeldForHuman)
    else if pass.blocker == Some(BudgetExhausted) then
      if MayContinue(cap, task, pass) then Continue(task, pass) else TurnsSpent(task)
    else if pass.blocker == Some(InfraError) then
      if pass.missingTarget then (task, HeldForHuman)
      else if MayContinue(cap, task, pass) then Continue(task, pass)
      else (task.(infraRetry := true, retryable := true), BlockedForRetry)
    else if pass.forcedSummary && pass.edits == 0 && pass.diff.None? && pass.saysRerun then TurnsSpent(task)
    else if MayContinue(cap, task, pass) && pass.saysRerun then Continue(task, pass)
    else AskHuman(task)
  }

  function ResolveDecompose(cap: int, task: Draft, pass: Pass): (Draft, Outcome) {
    if |pass.proposals| == 0 then ResolveDecomposeZero(cap, task, pass)
    else if |pass.proposals| == 1 then ResolveDecomposeOne(task, pass)
    else ResolveDecomposeMany(cap, task, pass)
  }

  /** `resolveAgenticDraft`: `cap` is MAX_AGENTIC_CONTINUATIONS. */
  function ResolveAgenticDraft(cap: int, task: Draft, pass: Pass): (Draft, Outcome) {
    var cleared := task.(turnBudgetExhausted := false, retryable := false);
    if pass.degenerate then (cleared, BlockedForGood)
    else if pass.verb.None? then
      if pass.forcedSummary then ResolveNoResolutionForced(cap, cleared, pass) else (cleared, BlockedForGood)
    else if pass.verb.value.Decompose? then ResolveDecompose(cap, cleared, pass)
    else if pass.verb.value.NeedsHuman? then ResolveNeedsHuman(cap, cleared, pass)
    else if pass.captureThrows then (cleared, CaptureFailed)
    else if Gated(pass) && !pass.gatesPass then (cleared.(retryable := true), BlockedForRetry)
    else (Finish(cleared, pass), Finished)
  }

  /** An implemented answer is gated on its diff, so one without a diff meets no gate. */
  predicate Gated(pass: Pass) {
    pass.verb == Some(NoChangesNeeded) || pass.diff.Some?
  }

  /** The diff is cumulative: it holds the partial work the task was carrying. */
  function Finish(task: Draft, pass: Pass): Draft {
    task.(resolution := pass.verb, rawDiff := if pass.diff.Some? then pass.diff.value else "",
          priorPartialDiff := None, carriedPartialDiff := None)
  }

  /** The task record while its outcome is written into it. Each method does
      field by field what the function of its name says, and charges the budget as it should. */
  class TaskRecord {
    var draft: Draft

    constructor (draft: Draft)
      ensures this.draft == draft
    {
      this.draft := draft;
    }

    method ContinueWith(diff: string) returns (outcome: Outcome)
      modifies this
      ensures draft == old(draft).(continuations := old(draft).continuations + 1, priorPartialDiff := Some(diff),
                                   retryable := true)
      ensures outcome.Continued?
    {
      draft := draft.(continuations := draft.continuations + 1);
      draft := draft.(priorPartialDiff := Some(diff));
      draft := draft.(retryable := true);
      return Continued;
    }

    method RecordTurnsSpent() returns (outcome: Outcome)
      modifies this
      ensures (draft, outcome) == TurnsSpent(old(draft))
    {
      draft := draft.(turnBudgetExhausted := true);
      draft := draft.(retryable := true);
      draft := draft.(exhaustedBefore := true);
      return BlockedForRetry;
    }

    method RecordQuestion() returns (outcome: Outcome)
      modifies this
      ensures (draft, outcome) == AskHuman(old(draft))
    {
      draft := draft.(resolution := Some(NeedsHuman));
      draft := draft.(rawDiff := "");
      return HeldForHuman;
    }

    method RecordNoResolutionForced(cap: int, pass: Pass) returns (outcome: Outcome)
      modifies this
      ensures (draft, outcome) == ResolveNoResolutionForced(cap, old(draft), pass)
      ensures Charged(cap, old(draft), pass, (draft, outcome)) && !outcome.Split?
    {
      ForcedCharges(cap, draft, pass);
      if pass.edits == 0 && pass.diff.None? {
        outcome := RecordTurnsSpent();
      } else if pass.blankSummary {
        if pass.diff.Some? && draft.continuations < cap {
          outcome := ContinueWith(pass.diff.value);
        } else {
          outcome := RecordTurnsSpent();
        }
      } else {
        outcome := RecordQuestion();
      }
    }

    method RecordDecompose(cap: int, pass: Pass) returns (outcome: Outcome)
      modifies this
      ensures (draft, outcome) == ResolveDecompose(cap, old(draft), pass)
      ensures Charged(cap, old(draft), pass, (draft, outcome))
      ensures outcome.Split? <==> |pass.proposals| >= 2 && !MayContinue(cap, old(draft), pass)
    {
      DecomposeCharges(cap, draft, pass);
      if |pass.proposals| == 1 {
        if draft.rescoped {
          outcome := RecordQuestion();
          return;
        }
        draft := draft.(rescoped := true, rescopedRawText := pass.proposals[0].rawText);
      } else {
        if pass.diff.Some? && draft.continuations < cap {
          outcome := ContinueWith(pass.diff.value);
          return;
        }
        if |pass.proposals| >= 2 {
          draft := draft.(resolution := Some(Decompose));
          draft := draft.(proposals := pass.proposals);
          draft := draft.(rawDiff := "");
          if pass.diff.Some? {
            draft := draft.(carriedPartialDiff := pass.diff);
          }
          return Split;
        }
      }
      draft := draft.(decomposeBlocks := draft.decomposeBlocks + 1);
      draft := draft.(retryable := true);
      return BlockedForRetry;
    }

    method RecordNeedsHuman(cap: int, pass: Pass) returns (outcome: Outcome)
      modifies this
      ensures (draft, outcome) == ResolveNeedsHuman(cap, old(draft), pass)
      ensures Charged(cap, old(draft), pass, (draft, outcome)) && !outcome.Split?
    {
      NeedsHumanCharges(cap, draft, pass);
      var mayContinue := pass.diff.Some? && draft.continuations < cap;
      if pass.stopText {
        return HeldForHuman;
      }
      if pass.blocker == Some(BudgetExhausted) {
        if mayContinue {
          outcome := ContinueWith(pass.diff.value);
        } else {
          outcome := RecordTurnsSpent();
        }
        return;
      }
      if pass.blocker == Some(InfraError) {
        if pass.missingTarget {
          return HeldForHuman;
        }
        if mayContinue {
          outcome := ContinueWith(pass.diff.value);
          return;
        }
        draft := draft.(infraRetry := true);
        draft := draft.(retryable := true);
        return BlockedForRetry;
      }
      if pass.forcedSummary && pass.edits == 0 && pass.diff.None? && pass.saysRerun {
        outcome := RecordTurnsSpent();
      } else if mayContinue && pass.saysRerun {
        outcome := ContinueWith(pass.diff.value);
      } else {
        outcome := RecordQuestion();
      }
    }

    method RecordOutcome(cap: int, pass: Pass) returns (outcome: Outcome)
      modifies this
      ensures (draft, outcome) == ResolveAgenticDraft(cap, old(draft), pass)
      ensures DecidedBy(cap, old(draft), pass, outcome) && WrittenBy(old(draft), pass, outcome, draft)
      ensures old(draft).continuations <= cap ==> draft.continuations <= cap
      ensures pass.diff.Some? && (outcome.Continued? || outcome.Split?) ==>
                pass.diff in {draft.priorPartialDiff, draft.carriedPartialDiff}
    {
      PassIsWritten(cap, draft, pass);
      PassAndBudget(cap, draft, pass);
      draft := draft.(turnBudgetExhausted := false);
      draft := draft.(retryable := false);
      if pass.degenerate || (pass.verb.None? && !pass.forcedSummary) {
        return BlockedForGood;
      }
      if pass.verb.None? {
        outcome := RecordNoResolutionForced(cap, pass);
      } else if pass.verb == Some(Decompose) {
        outcome := RecordDecompose(cap, pass);
      } else if pass.verb == Some(NeedsHuman) {
        outcome := RecordNeedsHuman(cap, pass);
      } else {
        outcome := RecordFinished(pass);
      }
    }

    /** Implemented, or no changes needed. */
    method RecordFinished(pass: Pass) returns (outcome: Outcome)
      modifies this
      ensures (draft, outcome)
           == if pass.captureThrows then (old(draft), CaptureFailed)
              else if Gated(pass) && !pass.gatesPass then (old(draft).(retryable := true), BlockedForRetry)
              else (Finish(old(draft), pass), Finished)
    {
      if pass.captureThrows {
        return CaptureFailed;
      }
      if pass.verb == Some(NoChangesNeeded) || pass.diff.Some? {
        if !pass.gatesPass {
          draft := draft.(retryable := true);
          return BlockedForRetry;
        }
      }
      draft := draft.(resolution := pass.verb);
      draft := draft.(rawDiff := if pass.diff.Some? then pass.diff.value else "");
      draft := draft.(priorPartialDiff := None, carriedPartialDiff := None);
      return Finished;
    }
  }

  /** The task after a run of passes, and how many of them were continued. */
  function RunPasses(cap: int, task: Draft, passes: seq<Pass>): (Draft, nat)
    decreases |passes|
  {
    if passes == [] then (task, 0)
    else
      var (next, outcome) := ResolveAgenticDraft(cap, task, passes[0]);
      var (last, count) := RunPasses(cap, next, passes[1..]);
      (last, count + if outcome.Continued? then 1 else 0)
  }

  // ----- which outcome, and what it writes

  /** The six outcomes other than a block for retry, each exactly by the pass and the task. */
  ghost predicate DecidedBy(cap: int, task: Draft, pass: Pass, outcome: Outcome) {
    var room := pass.diff.Some? && task.continuations < cap;
    var finished := !pass.degenerate && pass.verb in {Some(Implemented), Some(NoChangesNeeded)};
    && (outcome.BlockedForGood? <==> pass.degenerate || (pass.verb.None? && !pass.forcedSummary))
    && (outcome.CaptureFailed? <==> finished && pass.captureThrows)
    && (outcome.Finished? <==>
          && finished && !pass.captureThrows
          && (pass.gatesPass || (pass.verb == Some(Implemented) && pass.diff.None?)))
    && (outcome.Split? <==>
          !pass.degenerate && pass.verb == Some(Decompose) && |pass.proposals| >= 2 && !room)
    && (outcome.Continued? <==> !pass.degenerate && room && AsksForMore(pass))
    && (outcome.HeldForHuman? <==> !pass.degenerate && AsksHuman(task, pass, room))
  }

  /** The pass ended for want of turns or tools, or split what it had begun. */
  predicate AsksForMore(pass: Pass) {
    match pass.verb
    case None => pass.forcedSummary && pass.blankSummary
    case Some(Decompose) => |pass.proposals| != 1
    case Some(NeedsHuman) =>
      && !pass.stopText
      && (|| pass.blocker == Some(BudgetExhausted)
          || (pass.blocker == Some(InfraError) && !pass.missingTarget)
          || (pass.blocker !in {Some(BudgetExhausted), Some(InfraError)} && pass.saysRerun))
    case _ => false
  }

  /** There is something only a human can answer. `room` is whether the pass could be continued. */
  predicate AsksHuman(task: Draft, pass: Pass, room: bool) {
    match pass.verb
    case None => pass.forcedSummary && !pass.blankSummary && (pass.edits > 0 || pass.diff.Some?)
    case Some(Decompose) => |pass.proposals| == 1 && task.rescoped
    case Some(NeedsHuman) =>
      || pass.stopText
      || (pass.blocker == Some(InfraError) && pass.missingTarget)
      || (&& pass.blocker !in {Some(BudgetExhausted), Some(InfraError)}
          && (!pass.saysRerun || (!room && (!pass.forcedSummary || pass.edits > 0 || pass.diff.Some?))))
    case _ => false
  }

  /** What each field of the task is afterwards. */
  ghost predicate WrittenBy(task: Draft, pass: Pass, outcome: Outcome, task': Draft) {
    var asked := outcome.HeldForHuman? && !(pass.verb == Some(NeedsHuman) && StopsForGood(pass));
    var spent := outcome.BlockedForRetry? && pass.verb in {None, Some(NeedsHuman)} && !Infra(pass);
    && task'.continuations == task.continuations + (if outcome.Continued? then 1 else 0)
    && task'.priorPartialDiff
       == (if outcome.Continued? then pass.diff else if outcome.Finished? then None else task.priorPartialDiff)
    && task'.carriedPartialDiff
       == (if outcome.Split? && pass.diff.Some? then pass.diff
           else if outcome.Finished? then None else task.carriedPartialDiff)
    && task'.resolution
       == (if outcome.Finished? then pass.verb else if outcome.Split? then Some(Decompose)
           else if asked then Some(NeedsHuman) else task.resolution)
    && task'.rawDiff
       == (if outcome.Finished? && pass.diff.Some? then pass.diff.value
           else if outcome.Finished? || outcome.Split? || asked then "" else task.rawDiff)
    && task'.proposals == (if outcome.Split? then pass.proposals else task.proposals)
    && (task'.retryable <==> outcome.Continued? || outcome.BlockedForRetry?)
    && (task'.turnBudgetExhausted <==> spent) && (task'.exhaustedBefore <==> task.exhaustedBefore || spent)
    && (task'.infraRetry <==> task.infraRetry || (outcome.BlockedForRetry? && Infra(pass)))
    && RescopedBy(task, pass, outcome, task')
  }

  predicate Infra(pass: Pass) {
    pass.verb == Some(NeedsHuman) && pass.blocker == Some(InfraError)
  }

  /** Nothing is recorded as a question: a prerequisite or the target is missing. */
  predicate StopsForGood(pass: Pass) {
    pass.stopText || (pass.blocker == Some(InfraError) && pass.missingTarget)
  }

  ghost predicate RescopedBy(task: Draft, pass: Pass, outcome: Outcome, task': Draft) {
    var failedSplit := outcome.BlockedForRetry? && pass.verb == Some(Decompose);
    var one := failedSplit && |pass.proposals| == 1;
    && task'.decomposeBlocks == task.decomposeBlocks + (if failedSplit then 1 else 0)
    && (task'.rescoped <==> task.rescoped || one)
    && task'.rescopedRawText == (if one then pass.proposals[0].rawText else task.rescopedRawText)
  }

  /** Every pass clears the flags of the one before it. */
  predicate Cleared(task: Draft) {
    !task.turnBudgetExhausted && !task.retryable
  }

  lemma NeedsHumanIsWritten(cap: int, task: Draft, pass: Pass)
    requires Cleared(task) && !pass.degenerate && pass.verb == Some(NeedsHuman)
    ensures var (task', outcome) := ResolveNeedsHuman(cap, task, pass);
            DecidedBy(cap, task, pass, outcome) && WrittenBy(task, pass, outcome, task')
  {
    if pass.stopText || (pass.blocker == Some(InfraError) && pass.missingTarget) {
    } else if MayContinue(cap, task, pass) && AsksForMore(pass) {
      assert ResolveNeedsHuman(cap, task, pass) == Continue(task, pass);
    }
  }

  lemma DecomposeIsWritten(cap: int, task: Draft, pass: Pass)
    requires Cleared(task) && !pass.degenerate && pass.verb == Some(Decompose)
    ensures var (task', outcome) := ResolveDecompose(cap, task, pass);
            DecidedBy(cap, task, pass, outcome) && WrittenBy(task, pass, outcome, task')
  {
  }

  lemma ForcedIsWritten(cap: int, task: Draft, pass: Pass)
    requires Cleared(task) && !pass.degenerate && pass.verb == None && pass.forcedSummary
    ensures var (task', outcome) := ResolveNoResolutionForced(cap, task, pass);
            DecidedBy(cap, task, pass, outcome) && WrittenBy(task, pass, outcome, task')
  {
  }

  predicate Ladders(pass: Pass) {
    && !pass.degenerate
    && (pass.verb in {Some(NeedsHuman), Some(Decompose)} || (pass.verb == None && pass.forcedSummary))
  }

  lemma RestIsWritten(cap: int, task: Draft, pass: Pass)
    requires !Ladders(pass)
    ensures var (task', outcome) := ResolveAgenticDraft(cap, task, pass);
            DecidedBy(cap, task, pass, outcome) && WrittenBy(task, pass, outcome, task')
  {
  }

  /** Which outcome a pass has, and every field it leaves. */
  lemma PassIsWritten(cap: int, task: Draft, pass: Pass)
    ensures var (task', outcome) := ResolveAgenticDraft(cap, task, pass);
            DecidedBy(cap, task, pass, outcome) && WrittenBy(task, pass, outcome, task')
  {
    var cleared := task.(turnBudgetExhausted := false, retryable := false);
    if !Ladders(pass) {
      RestIsWritten(cap, task, pass);
    } else {
      var task', outcome := LadderIsWritten(cap, cleared, pass);
      assert ResolveAgenticDraft(cap, task, pass) == (task', outcome);
      SameForCleared(cap, task, cleared, pass, outcome, task');
    }
  }

  lemma LadderIsWritten(cap: int, cleared: Draft, pass: Pass) returns (task': Draft, outcome: Outcome)
    requires Cleared(cleared) && Ladders(pass)
    ensures (task', outcome) == match pass.verb
                                case None => ResolveNoResolutionForced(cap, cleared, pass)
                                case Some(Decompose) => ResolveDecompose(cap, cleared, pass)
                                case _ => ResolveNeedsHuman(cap, cleared, pass)
    ensures DecidedBy(cap, cleared, pass, outcome) && WrittenBy(cleared, pass, outcome, task')
  {
    match pass.verb
    case None =>
      ForcedIsWritten(cap, cleared, pass);
      var r := ResolveNoResolutionForced(cap, cleared, pass);
      task', outcome := r.0, r.1;
    case Some(Decompose) =>
      DecomposeIsWritten(cap, cleared, pass);
      var r := ResolveDecompose(cap, cleared, pass);
      task', outcome := r.0, r.1;
    case _ =>
      NeedsHumanIsWritten(cap, cleared, pass);
      var r := ResolveNeedsHuman(cap, cleared, pass);
      task', outcome := r.0, r.1;
  }

  lemma SameForCleared(cap: int, task: Draft, cleared: Draft, pass: Pass, outcome: Outcome, task': Draft)
    requires cleared == task.(turnBudgetExhausted := false, retryable := false)
    requires DecidedBy(cap, cleared, pass, outcome) && WrittenBy(cleared, pass, outcome, task')
    ensures DecidedBy(cap, task, pass, outcome) && WrittenBy(task, pass, outcome, task')
  {
  }

  /** The count moves only when the pass is continued, then by one and below the cap, and the
      partial work goes with it. */
  ghost predicate Charged(cap: int, task: Draft, pass: Pass, result: (Draft, Outcome)) {
    && result.0.continuations == task.continuations + (if result.1.Continued? then 1 else 0)
    && result.0.priorPartialDiff
       == (if result.1.Continued? then pass.diff else if result.1.Finished? then None else task.priorPartialDiff)
    && (result.1.Continued? ==> task.continuations < cap && pass.diff.Some?)
  }

  lemma HelpersCharge(cap: int, task: Draft, pass: Pass)
    ensures MayContinue(cap, task, pass) ==> Charged(cap, task, pass, Continue(task, pass))
    ensures Charged(cap, task, pass, TurnsSpent(task)) && Charged(cap, task, pass, AskHuman(task))
  {
  }

  lemma ForcedCharges(cap: int, task: Draft, pass: Pass)
    ensures Charged(cap, task, pass, ResolveNoResolutionForced(cap, task, pass))
    ensures !ResolveNoResolutionForced(cap, task, pass).1.Split?
  {
    HelpersCharge(cap, task, pass);
  }

  lemma DecomposeCharges(cap: int, task: Draft, pass: Pass)
    ensures Charged(cap, task, pass, ResolveDecompose(cap, task, pass))
    ensures ResolveDecompose(cap, task, pass).1.Split? <==> |pass.proposals| >= 2 && !MayContinue(cap, task, pass)
  {
    HelpersCharge(cap, task, pass);
  }

  lemma NeedsHumanCharges(cap: int, task: Draft, pass: Pass)
    ensures Charged(cap, task, pass, ResolveNeedsHuman(cap, task, pass)) && !ResolveNeedsHuman(cap, task, pass).1.Split?
  {
    HelpersCharge(cap, task, pass);
  }

  /** One pass charges the continuation budget exactly when it is continued, and a split is accepted
      exactly when two or more pieces are proposed and nothing can be continued instead. */
  lemma PassAndBudget(cap: int, task: Draft, pass: Pass)
    ensures Charged(cap, task, pass, ResolveAgenticDraft(cap, task, pass))
    ensures ResolveAgenticDraft(cap, task, pass).1.Split? <==>
              !pass.degenerate && pass.verb == Some(Decompose) && |pass.proposals| >= 2 && !MayContinue(cap, task, pass)
  {
    var cleared := task.(turnBudgetExhausted := false, retryable := false);
    if pass.degenerate {
    } else if pass.verb.None? {
      ForcedCharges(cap, cleared, pass);
    } else if pass.verb.value.Decompose? {
      DecomposeCharges(cap, cleared, pass);
      assert ResolveAgenticDraft(cap, task, pass) == ResolveDecompose(cap, cleared, pass);
    } else if pass.verb.value.NeedsHuman? {
      NeedsHumanCharges(cap, cleared, pass);
      assert ResolveAgenticDraft(cap, task, pass) == ResolveNeedsHuman(cap, cleared, pass);
    }
  }

  /** Over any run of passes the count never passes its cap, and counts the continuations exactly. */
  lemma {:induction false} ContinuationsAreCapped(cap: int, task: Draft, passes: seq<Pass>)
    requires task.continuations <= cap
    ensures RunPasses(cap, task, passes).0.continuations <= cap
    ensures RunPasses(cap, task, passes).0.continuations == task.continuations + RunPasses(cap, task, passes).1
    decreases |passes|
  {
    if passes != [] {
      PassAndBudget(cap, task, passes[0]);
      ContinuationsAreCapped(cap, ResolveAgenticDraft(cap, task, passes[0]).0, passes[1..]);
    }
  }

  /** The task as the parent of the hub it is split into. */
  function AsParent(id: string, ownBranch: string, stacked: Option<HubQueue.Stacked>, premium: bool,
                    task: Draft): HubQueue.Parent {
    HubQueue.Parent(id, ownBranch, stacked, task.carriedPartialDiff, premium)
  }

  /** From the split to the pieces: the work captured when a split is accepted reaches the first
      piece, and only that one, if and only if the first proposal is not a brain-dump disposition. */
  lemma SplitWorkReachesFirstPieceIff(cap: int, task: Draft, pass: Pass, diff: string, ids: seq<string>,
                                      parent: HubQueue.Parent)
    requires ResolveAgenticDraft(cap, task, pass).1.Split? && pass.diff == Some(diff) && !HubQueue.Blank(diff)
    requires parent == AsParent(parent.id, parent.ownBranch, parent.stacked, parent.premium,
                                ResolveAgenticDraft(cap, task, pass).0)
    requires |ids| == |pass.proposals|
    ensures var subs := Linked(ResolveAgenticDraft(cap, task, pass).0.proposals);
            var records := HubQueue.Records(ids, subs, parent);
            && |records| > 0
            && (HubQueue.HasDiff(records[0], diff) <==> !pass.proposals[0].disposition)
            && forall k :: 0 < k < |records| ==> !HubQueue.HasDiff(records[k], diff)
  {
    PassAndBudget(cap, task, pass);
    var subs := Linked(pass.proposals);
    HubQueue.CarriedDiffReachesFirstPieceIff(ids, subs, parent, diff);
  }

  /** A split without work of its own hands on whatever an earlier accepted split left on the task:
      the field is set when there is a diff, and cleared only when a pass finishes. */
  lemma SplitKeepsStaleWork(cap: int, task: Draft, pass: Pass)
    requires ResolveAgenticDraft(cap, task, pass).1.Split?
    ensures ResolveAgenticDraft(cap, task, pass).0.carriedPartialDiff
         == if pass.diff.Some? then pass.diff else task.carriedPartialDiff
  {
    PassAndBudget(cap, task, pass);
    var cleared := task.(turnBudgetExhausted := false, retryable := false);
    assert ResolveAgenticDraft(cap, task, pass) == ResolveDecomposeMany(cap, cleared, pass);
  }
}
