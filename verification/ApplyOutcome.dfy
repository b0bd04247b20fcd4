/** What an apply leaves on the task record (src/apply-task.js:583-653), the way into the retry
    machine. */
module ApplyOutcome {
  import opened Queue
  import RetryCheck

  /** What applyTask returned. `noopMarker` says that the marker reads as a no-op. */
  datatype ApplyResult = ApplyResult(coordinating: bool, needsConfirmation: bool, succeeded: bool, reason: Reason,
                                     noopMarker: bool)

  datatype ApplyStage = StageCoordinating | StageAwaitingConfirm | StageApplied | StageApplyFailed

  /** The directory apply-task.sh moves the file to. */
  function DirOf(stage: ApplyStage): Dir {
    match stage
    case StageCoordinating => Coordinating
    case StageAwaitingConfirm => AwaitingConfirm
    case StageApplied => Done
    case StageApplyFailed => Blocked
  }

  function StatusOf(stage: ApplyStage): string {
    match stage
    case StageCoordinating => "coordinating"
    case StageAwaitingConfirm => "awaiting-confirm"
    case StageApplied => "done"
    case StageApplyFailed => "blocked"
  }

  /** `recordApplyOutcome` on the record; `reviewSource` is whether the task's source is a review. */
  method RecordApplyOutcome(task: Task, result: ApplyResult, reviewSource: bool)
      returns (record: Task, stage: ApplyStage)
    ensures stage.StageCoordinating? <==> result.coordinating
    ensures stage.StageAwaitingConfirm? <==> !result.coordinating && result.needsConfirmation
    ensures stage.StageApplied? <==> !result.coordinating && !result.needsConfirmation && result.succeeded
    ensures stage.StageApplyFailed? <==> !result.coordinating && !result.needsConfirmation && !result.succeeded
    ensures record == Recorded(task, stage, result, reviewSource)
    ensures record.status == match stage
                             case StageCoordinating => "coordinating"
                             case StageAwaitingConfirm => "awaiting-confirm"
                             case StageApplied => "done"
                             case StageApplyFailed => "blocked"
    ensures record.history == task.history + match stage
                                             case StageCoordinating => ["coordinating"]
                                             case StageAwaitingConfirm => ["awaiting-confirm"]
                                             case StageApplied => if result.noopMarker && !reviewSource
                                                                  then ["applied", "noop"] else ["applied"]
                                             case StageApplyFailed => ["apply-failed", "blocked"]
    ensures record.applyRetryCount == task.applyRetryCount && record.applyTimeoutReleases == task.applyTimeoutReleases
    ensures record.requeuedFor == task.requeuedFor
    ensures stage.StageApplyFailed? ==> RetryCheck.IsApplyFailure(record) && record.reason == result.reason
    ensures !stage.StageApplyFailed? ==> record.stage == task.stage && record.reason == task.reason
    ensures record.noop <==> task.noop || (stage.StageApplied? && result.noopMarker && !reviewSource)
    ensures record.hold == task.hold && record.reviewInconclusive == task.reviewInconclusive
    ensures record.confirmReviewed == task.confirmReviewed && record.gateConfirmed == task.gateConfirmed
  {
    record := task;
    stage := if result.coordinating then StageCoordinating
             else if result.needsConfirmation then StageAwaitingConfirm
             else if result.succeeded then StageApplied else StageApplyFailed;
    if stage.StageApplyFailed? {
      record := record.(stage := Stage.ApplyStage, reason := result.reason);
    }
    record := record.(status := StatusOf(stage), history := record.history + [HistoryStage(stage)]);
    if stage.StageApplyFailed? {
      record := record.(history := record.history + ["blocked"]);
    }
    if stage.StageApplied? && result.noopMarker {
      if !reviewSource {
        record := record.(noop := true, history := record.history + ["noop"]);
      }
    }
  }

  function HistoryStage(stage: ApplyStage): string {
    match stage
    case StageCoordinating => "coordinating"
    case StageAwaitingConfirm => "awaiting-confirm"
    case StageApplied => "applied"
    case StageApplyFailed => "apply-failed"
  }

  function Recorded(t: Task, stage: ApplyStage, result: ApplyResult, reviewSource: bool): Task {
    var base := t.(status := StatusOf(stage));
    match stage
    case StageApplyFailed =>
      base.(stage := Stage.ApplyStage, reason := result.reason, history := t.history + ["apply-failed"] + ["blocked"])
    case StageApplied =>
      if result.noopMarker && !reviewSource then base.(noop := true, history := t.history + ["applied"] + ["noop"])
      else base.(history := t.history + ["applied"])
    case _ => base.(history := t.history + [HistoryStage(stage)])
  }

  /** A failed apply always reads as this machine's own failure, whatever stage an earlier block
      left on the record, and no apply touches the retry budgets. */
  lemma FailedApplyEntersRetryMachine(t: Task, stage: ApplyStage, result: ApplyResult, reviewSource: bool,
                                      cfg: RetryCheck.Config, seen: RetryCheck.Seen)
    ensures var record := Recorded(t, stage, result, reviewSource);
            && record.applyRetryCount == t.applyRetryCount && record.applyTimeoutReleases == t.applyTimeoutReleases
            && record.requeuedFor == t.requeuedFor
            && (stage.StageApplyFailed? ==> !RetryCheck.Decide(cfg, seen, Good(record)).1.NotEligible?)
  {
  }
}
