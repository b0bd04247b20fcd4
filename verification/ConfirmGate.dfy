/** The automatic confirmation of held tasks (src/auto-confirm-review.js:275-421). */
module ConfirmGate {
  import opened Queue
  import opened Spool

  /** Why a task is held, and what the votes said. `Paused` stops the sweep. */
  datatype Gate = Recognised | Unrecognised
  datatype Vote = Confirm | Deny | NoMajority | VoteFailed | Paused

  function Reviewed(t: Task): Task {
    t.(confirmReviewed := true)
  }

  function Advisory(t: Task): Task {
    t.(history := t.history + ["advisory"])
  }

  /** The decision about one held task. A destination that is taken is not overwritten. */
  function Decide(gate: Gate, vote: Vote, file: File, approvedTaken: bool, archiveTaken: bool): Action {
    if file.Malformed? || file.task.confirmReviewed then Leave
    else if gate.Unrecognised? then Rewrite(Advisory(Reviewed(file.task)))
    else
      var t := file.task;
      match vote
      case Paused => Leave
      case VoteFailed => Rewrite(Advisory(t))
      case Confirm =>
        if approvedTaken then Leave
        else MoveTo(Approved,
                    Reviewed(t).(gateConfirmed := true, status := "approved", history := t.history + ["approved"]))
      case Deny =>
        if archiveTaken then Leave
        else MoveTo(ArchivedNoAction, Reviewed(t).(status := "done", history := t.history + ["archived"]))
      case NoMajority => Rewrite(Advisory(Reviewed(t)))
  }

  function Decisions(gate: Name -> Gate, vote: Name -> Vote, files: Files): Name -> Action {
    n => if Key(AwaitingConfirm, n) in files
         then DecisionFor(files, gate(n), vote(n), n)
         else Leave
  }

  /** The sweep ends early at the first task whose vote is paused. */
  predicate Pauses(gate: Gate, vote: Vote, file: File) {
    file.Good? && !file.task.confirmReviewed && gate.Recognised? && vote.Paused?
  }

  method MoveTaskFile(queue: QueueDir, name: Name, dest: Dir, task: Task, limit: Limit) returns (moved: bool)
    modifies queue
    ensures queue.files == OneFile(old(queue.files), AwaitingConfirm, name,
                                   if Key(dest, name) in old(queue.files) then Leave else MoveTo(dest, task), limit)
    ensures moved <==> Key(dest, name) !in old(queue.files) && limit.ops >= 2
  {
    if Key(dest, name) in queue.files {
      return false;
    }
    moved := queue.Move(AwaitingConfirm, name, dest, task, limit);
  }

  ghost predicate Gains(before: Files, after: Files, dir: Dir, name: Name) {
    Key(dir, name) !in before && Key(dir, name) in after && after[Key(dir, name)].Good?
  }

  /** Held, readable, and not reviewed: the next sweep asks about it. */
  predicate Unreviewed(files: Files, name: Name) {
    var key := Key(AwaitingConfirm, name);
    key in files && files[key].Good? && !files[key].task.confirmReviewed
  }

  /** A vote that settles nothing, or a decision whose destination is taken. */
  predicate AsksAgain(vote: Vote, files: Files, name: Name) {
    || vote.Paused? || vote.VoteFailed?
    || (vote.Confirm? && Key(Approved, name) in files)
    || (vote.Deny? && Key(ArchivedNoAction, name) in files)
  }

  /** What a review of one held task may do, for a reader of the queue. No other file is touched and
      the task is still somewhere. A task is approved, or archived, if and only if its hold is
      recognised, the vote says so and the destination is free; an approved one carries the stamp.
      And the next sweep asks again about a task if and only if nothing was settled. */
  ghost predicate Settles(before: Files, after: Files, gate: Gate, vote: Vote, name: Name, limit: Limit) {
    && (forall k :: k in before && k != Key(AwaitingConfirm, name) ==> k in after && after[k] == before[k])
    && Somewhere(after, name)
    && (Gains(before, after, Approved, name) <==>
          && limit.ops >= 1 && gate.Recognised? && vote.Confirm?
          && Unreviewed(before, name) && Key(Approved, name) !in before)
    && (Gains(before, after, Approved, name) ==> after[Key(Approved, name)].task.gateConfirmed)
    && (Gains(before, after, ArchivedNoAction, name) <==>
          && limit.ops >= 1 && gate.Recognised? && vote.Deny?
          && Unreviewed(before, name) && Key(ArchivedNoAction, name) !in before)
    && (limit.ops >= 2 && Unreviewed(before, name) ==>
          (Unreviewed(after, name) <==> gate.Recognised? && AsksAgain(vote, before, name)))
    && (limit.ops >= 2 && Unreviewed(before, name) ==> Leaves(before, after, gate, vote, name))
    && (!Unreviewed(before, name) ==> after == before)
  }

  /** The record that a completed review leaves, and where. */
  ghost predicate Leaves(before: Files, after: Files, gate: Gate, vote: Vote, name: Name)
    requires Unreviewed(before, name)
  {
    var held := Key(AwaitingConfirm, name);
    var t := before[held].task;
    if gate.Unrecognised? || vote.NoMajority? then
      after == before[held := Good(t.(confirmReviewed := true, history := t.history + ["advisory"]))]
    else if vote.VoteFailed? then
      after == before[held := Good(t.(history := t.history + ["advisory"]))]
    else if AsksAgain(vote, before, name) then after == before
    else if vote.Confirm? then
      after == before[Key(Approved, name) := Good(t.(confirmReviewed := true, gateConfirmed := true,
                        status := "approved", history := t.history + ["approved"]))] - {held}
    else
      after == before[Key(ArchivedNoAction, name) := Good(t.(confirmReviewed := true, status := "done",
                        history := t.history + ["archived"]))] - {held}
  }

  function DecisionFor(files: Files, gate: Gate, vote: Vote, name: Name): Action
    requires Key(AwaitingConfirm, name) in files
  {
    Decide(gate, vote, files[Key(AwaitingConfirm, name)], Key(Approved, name) in files,
           Key(ArchivedNoAction, name) in files)
  }

  lemma DecisionSettles(files: Files, gate: Gate, vote: Vote, name: Name, limit: Limit)
    requires Key(AwaitingConfirm, name) in files
    ensures Settles(files, OneFile(files, AwaitingConfirm, name, DecisionFor(files, gate, vote, name), limit), gate,
                    vote, name, limit)
  {
    var action := DecisionFor(files, gate, vote, name);
    var after := OneFile(files, AwaitingConfirm, name, action, limit);
    assert Somewhere(after, name) by {
      match action
      case MoveTo(dest, _) =>
        assert limit.ops >= 2 ==> Key(dest, name) in after;
        assert limit.ops < 2 ==> Key(AwaitingConfirm, name) in after;
      case _ =>
        assert Key(AwaitingConfirm, name) in after;
    }
  }

  /** One held task; `vote` is only consulted for a hold that is recognised. */
  method ReviewOne(queue: QueueDir, gate: Gate, vote: Vote, name: Name, limit: Limit) returns (stop: bool)
    requires Key(AwaitingConfirm, name) in queue.files
    modifies queue
    ensures queue.files == OneFile(old(queue.files), AwaitingConfirm, name,
                                   DecisionFor(old(queue.files), gate, vote, name), limit)
    ensures stop <==> Pauses(gate, vote, old(queue.files)[Key(AwaitingConfirm, name)])
    ensures stop <==> Unreviewed(old(queue.files), name) && gate.Recognised? && vote.Paused?
    ensures Settles(old(queue.files), queue.files, gate, vote, name, limit)
  {
    DecisionSettles(queue.files, gate, vote, name, limit);
    var file := queue.files[Key(AwaitingConfirm, name)];
    if file.Malformed? {
      return false;
    }
    var task := file.task;
    if task.confirmReviewed {
      return false;
    }
    if gate.Unrecognised? {
      var _ := queue.Put(AwaitingConfirm, name, Advisory(Reviewed(task)), limit);
      return false;
    }
    match vote {
      case Paused =>
        return true;
      case VoteFailed =>
        var _ := queue.Put(AwaitingConfirm, name, Advisory(task), limit);
      case Confirm =>
        task := task.(gateConfirmed := true, confirmReviewed := true, status := "approved",
                      history := task.history + ["approved"]);
        var _ := MoveTaskFile(queue, name, Approved, task, limit);
      case Deny =>
        task := task.(confirmReviewed := true, status := "done", history := task.history + ["archived"]);
        var _ := MoveTaskFile(queue, name, ArchivedNoAction, task, limit);
      case NoMajority =>
        var _ := queue.Put(AwaitingConfirm, name, Advisory(Reviewed(task)), limit);
    }
    return false;
  }

  /** The sweep over awaiting-confirm/, up to the first paused vote. */
  method AutoConfirmReview(queue: QueueDir, gate: Name -> Gate, vote: Name -> Vote, limit: Name -> Limit)
      returns (ghost names: seq<Name>, ghost done: nat)
    modifies queue
    ensures Listing(old(queue.files), AwaitingConfirm, names) && done <= |names|
    ensures queue.files == Replay(old(queue.files),
                                  SweepOps(AwaitingConfirm, names[..done], Decisions(gate, vote, old(queue.files)),
                                           limit))
    ensures forall k :: 0 <= k < done ==>
              !Pauses(gate(names[k]), vote(names[k]), old(queue.files)[Key(AwaitingConfirm, names[k])])
    ensures done < |names| ==>
              Pauses(gate(names[done]), vote(names[done]), old(queue.files)[Key(AwaitingConfirm, names[done])])
    ensures forall n :: if n in names[..done]
                        then SettledFor(old(queue.files), queue.files, gate(n), vote(n), n, limit(n))
                        else SameFor(queue.files, old(queue.files), n)
  {
    var listed := queue.ReadDir(AwaitingConfirm);
    names := listed;
    ghost var files0 := queue.files;
    ghost var action := Decisions(gate, vote, files0);
    var k := 0;
    while k < |listed|
      invariant 0 <= k <= |listed|
      invariant queue.files == Replay(files0, SweepOps(AwaitingConfirm, names[..k], action, limit))
      invariant forall j :: 0 <= j < k ==>
                !Pauses(gate(names[j]), vote(names[j]), files0[Key(AwaitingConfirm, names[j])])
    {
      SweepStep(files0, AwaitingConfirm, names, k, action, limit);
      assert names[k] in names;
      assert Key(AwaitingConfirm, names[k]) in queue.files;
      var stop := ReviewOne(queue, gate(listed[k]), vote(listed[k]), listed[k], limit(listed[k]));
      if stop {
        SweepSettles(files0, names, k, gate, vote, limit);
        return names, k;
      }
      k := k + 1;
    }
    assert names[..k] == names;
    SweepSettles(files0, names, k, gate, vote, limit);
    return names, k;
  }

  /** The files of one task are as its review alone leaves them. */
  ghost predicate SettledFor(before: Files, after: Files, gate: Gate, vote: Vote, n: Name, limit: Limit) {
    exists alone :: Settles(before, alone, gate, vote, n, limit) && SameFor(after, alone, n)
  }

  lemma SweepSettles(files: Files, names: seq<Name>, done: nat, gate: Name -> Gate, vote: Name -> Vote,
                     limit: Name -> Limit)
    requires Listing(files, AwaitingConfirm, names) && done <= |names|
    ensures var after := Replay(files, SweepOps(AwaitingConfirm, names[..done], Decisions(gate, vote, files), limit));
            forall n :: if n in names[..done] then SettledFor(files, after, gate(n), vote(n), n, limit(n))
                        else SameFor(after, files, n)
  {
    var first, action := names[..done], Decisions(gate, vote, files);
    var after := Replay(files, SweepOps(AwaitingConfirm, first, action, limit));
    forall n
      ensures if n in first then SettledFor(files, after, gate(n), vote(n), n, limit(n)) else SameFor(after, files, n)
    {
      if n in first {
        assert n in names;
        SweepOnOne(files, AwaitingConfirm, first, action, limit, n);
        DecisionSettles(files, gate(n), vote(n), n, limit(n));
      } else {
        SweepOnOthers(files, AwaitingConfirm, first, action, limit, n);
      }
    }
  }

  /** No vote is acted on without its majority: only a confirmed task gains the gate's stamp, and a
      task once reviewed is left for the human. */
  lemma GateOpensOnlyOnConfirm(gate: Gate, vote: Vote, t: Task, approvedTaken: bool, archiveTaken: bool)
    requires !t.gateConfirmed
    ensures var action := Decide(gate, vote, Good(t), approvedTaken, archiveTaken);
            && ((!action.Leave? && action.task.gateConfirmed) <==>
                gate.Recognised? && vote.Confirm? && !t.confirmReviewed && !approvedTaken)
            && (action.MoveTo? ==> action.task.confirmReviewed)
            && (t.confirmReviewed ==> action.Leave?)
  {
  }
}
