/** The drain that follows a confirmed fix (src/blocked-drain.js:42-147). */
module BlockedDrain {
  import opened Queue
  import opened Spool

  /** `taskMatchesSignature`. */
  type Matcher = (Task, string) -> bool

  /** The record stripped to a fresh pending shape. */
  function Fresh(t: Task, signature: string): Task {
    Task(NoStage, Reason(false, false, false, false), "pending", ["pending", "retry-context-stamped"],
         0, 0, t.requeuedFor + {signature}, NoHold, false, false, false, false)
  }

  /** A task the fix is for: same signature, not a gate flake, not a genuine question for a human,
      and not drained for this signature before. */
  predicate Drains(matches: Matcher, signature: string, t: Task) {
    && matches(t, signature)
    && !t.reviewInconclusive
    && (t.hold.DesignDecision? ==> "exhausted" in t.history)
    && signature !in t.requeuedFor
  }

  function Decisions(matches: Matcher, signature: string, src: Dir, files: Files): Name -> Action {
    n => if Key(src, n) in files && files[Key(src, n)].Good? && Drains(matches, signature, files[Key(src, n)].task)
        && Key(Pending, n) !in files
         then MoveTo(Pending, Fresh(files[Key(src, n)].task, signature)) else Leave
  }

  function NoLimit(): Name -> Limit { _ => Limit(2, 0) }

  /** One directory of the drain. */
  method DrainDir(queue: QueueDir, matches: Matcher, signature: string, dir: Dir)
      returns (requeuedIds: seq<Name>, ghost names: seq<Name>)
    modifies queue
    ensures Listing(old(queue.files), dir, names)
    ensures queue.files == Replay(old(queue.files),
                                  SweepOps(dir, names, Decisions(matches, signature, dir, old(queue.files)), NoLimit()))
    ensures forall n :: n in requeuedIds <==> DrainedFrom(matches, signature, dir, old(queue.files), n)
    ensures DirDrained(matches, signature, dir, old(queue.files), queue.files)
  {
    var listed := queue.ReadDir(dir);
    names := listed;
    requeuedIds := [];
    ghost var files0 := queue.files;
    ghost var action := Decisions(matches, signature, dir, files0);
    var k := 0;
    while k < |listed|
      invariant 0 <= k <= |listed|
      invariant queue.files == Replay(files0, SweepOps(dir, names[..k], action, NoLimit()))
      invariant forall n :: n in requeuedIds <==> n in names[..k] && action(n).MoveTo?
    {
      SweepStep(files0, dir, names, k, action, NoLimit());
      assert names[k] in names && names[..k + 1] == names[..k] + [names[k]];
      var name := listed[k];
      k := k + 1;
      assert Key(dir, name) in queue.files;
      var file := queue.files[Key(dir, name)];
      if file.Malformed? {
        continue;
      }
      var data := file.task;
      if !matches(data, signature) {
        continue;
      }
      if data.reviewInconclusive {
        continue;
      }
      if data.hold.DesignDecision? && "exhausted" !in data.history {
        continue;
      }
      if signature in data.requeuedFor {
        continue;
      }
      var stripped := Fresh(data, signature);
      if Key(Pending, name) in queue.files {
        continue;
      }
      var _ := queue.Move(dir, name, Pending, stripped, Limit(2, 0));
      requeuedIds := requeuedIds + [name];
    }
    assert names[..k] == names;
    DirIsDrained(matches, signature, dir, files0, names);
    DrainedIsMoved(matches, signature, dir, files0, names);
  }

  /** The task may be drained: it reads, the fix is for it, it is no gate flake and no open question,
      it was not drained for this signature before, and pending/ has no task of its name. */
  ghost predicate DrainedFrom(matches: Matcher, signature: string, dir: Dir, files: Files, n: Name) {
    && Key(dir, n) in files && files[Key(dir, n)].Good? && Key(Pending, n) !in files
    && var t := files[Key(dir, n)].task;
    && matches(t, signature) && !t.reviewInconclusive && signature !in t.requeuedFor
    && (t.hold == DesignDecision ==> "exhausted" in t.history)
  }

  /** It is in pending/ instead, and nothing is left of it but its name and its signatures. */
  ghost predicate IsDrained(before: Files, after: Files, dir: Dir, signature: string, n: Name) {
    && Key(dir, n) in before && before[Key(dir, n)].Good?
    && Key(dir, n) !in after && Key(Pending, n) in after && after[Key(Pending, n)].Good?
    && (forall d :: d != dir && d != Pending ==>
        (Key(d, n) in after <==> Key(d, n) in before) && (Key(d, n) in after ==> after[Key(d, n)] == before[Key(d, n)]))
    && var t, u := before[Key(dir, n)].task, after[Key(Pending, n)].task;
    && u.requeuedFor == t.requeuedFor + {signature} && u.status == "pending"
    && u.history == ["pending", "retry-context-stamped"]
    && u.applyRetryCount == u.applyTimeoutReleases == 0
    && u.stage == NoStage && u.reason == Reason(false, false, false, false) && u.hold == NoHold
    && !u.reviewInconclusive && !u.confirmReviewed && !u.gateConfirmed && !u.noop
  }

  /** Exactly the tasks that may be drained are, and nothing else changes. */
  ghost predicate DirDrained(matches: Matcher, signature: string, dir: Dir, before: Files, after: Files) {
    forall n :: if DrainedFrom(matches, signature, dir, before, n) then IsDrained(before, after, dir, signature, n)
                else SameFor(after, before, n)
  }

  lemma DrainedOne(matches: Matcher, signature: string, dir: Dir, files: Files, after: Files, n: Name)
    requires SameFor(after, OneFile(files, dir, n, Decisions(matches, signature, dir, files)(n), Limit(2, 0)), n)
    ensures if DrainedFrom(matches, signature, dir, files, n) then IsDrained(files, after, dir, signature, n)
            else SameFor(after, files, n)
  {
  }

  lemma DirIsDrained(matches: Matcher, signature: string, dir: Dir, files: Files, names: seq<Name>)
    requires Listing(files, dir, names)
    ensures DirDrained(matches, signature, dir, files,
                       Replay(files, SweepOps(dir, names, Decisions(matches, signature, dir, files), NoLimit())))
  {
    var action := Decisions(matches, signature, dir, files);
    var after := Replay(files, SweepOps(dir, names, action, NoLimit()));
    forall n
      ensures if DrainedFrom(matches, signature, dir, files, n) then IsDrained(files, after, dir, signature, n)
              else SameFor(after, files, n)
    {
      if n in names {
        SweepOnOne(files, dir, names, action, NoLimit(), n);
        DrainedOne(matches, signature, dir, files, after, n);
      } else {
        SweepOnOthers(files, dir, names, action, NoLimit(), n);
      }
    }
  }

  lemma DrainedIsMoved(matches: Matcher, signature: string, dir: Dir, files: Files, names: seq<Name>)
    requires Listing(files, dir, names)
    ensures forall n :: n in names && Decisions(matches, signature, dir, files)(n).MoveTo? <==>
              DrainedFrom(matches, signature, dir, files, n)
  {
  }

  /** `requeueBlockedTasksForSignature`: the directories one after another. */
  method RequeueBlockedTasksForSignature(queue: QueueDir, matches: Matcher, signature: string, dirs: seq<Dir>)
      returns (requeuedIds: seq<Name>, ghost stages: seq<Files>, ghost listings: seq<seq<Name>>)
    modifies queue
    ensures DrainedThrough(matches, signature, dirs, stages, listings) && stages[0] == old(queue.files)
    ensures stages[|dirs|] == queue.files
    ensures forall n :: n in requeuedIds <==>
              exists k :: 0 <= k < |dirs| && DrainedFrom(matches, signature, dirs[k], stages[k], n)
  {
    requeuedIds, stages, listings := [], [queue.files], [];
    for k := 0 to |dirs|
      invariant DrainedThrough(matches, signature, dirs[..k], stages, listings)
      invariant stages[0] == old(queue.files) && stages[k] == queue.files
      invariant forall n :: n in requeuedIds <==>
                exists j :: 0 <= j < k && DrainedFrom(matches, signature, dirs[j], stages[j], n)
    {
      ghost var stages0 := stages;
      var ids, names := DrainDir(queue, matches, signature, dirs[k]);
      requeuedIds := requeuedIds + ids;
      stages, listings := stages + [queue.files], listings + [names];
      assert forall j :: 0 <= j <= k ==> stages[j] == stages0[j];
      assert forall j :: 0 <= j < k ==> dirs[..k + 1][j] == dirs[..k][j];
      assert forall n :: n in ids <==> DrainedFrom(matches, signature, dirs[k], stages[k], n);
    }
    assert dirs[..|dirs|] == dirs;
  }

  /** Each directory in turn, from what the one before it left. */
  ghost predicate DrainedThrough(matches: Matcher, signature: string, dirs: seq<Dir>, stages: seq<Files>,
                                 listings: seq<seq<Name>>) {
    && |stages| == |dirs| + 1 && |listings| == |dirs|
    && forall k :: 0 <= k < |dirs| ==>
         && Listing(stages[k], dirs[k], listings[k])
         && DirDrained(matches, signature, dirs[k], stages[k], stages[k + 1])
         && stages[k + 1] == Replay(stages[k],
                                    SweepOps(dirs[k], listings[k], Decisions(matches, signature, dirs[k], stages[k]),
                                             NoLimit()))
  }

  /** A task is drained at most once for a signature, and then with clean budgets. */
  lemma DrainedOncePerSignature(matches: Matcher, signature: string, t: Task)
    ensures !Drains(matches, signature, Fresh(t, signature))
    ensures Fresh(t, signature).applyRetryCount == 0 && Fresh(t, signature).applyTimeoutReleases == 0
    ensures t.requeuedFor <= Fresh(t, signature).requeuedFor
  {
  }

  /** However the drained task fares: while its record keeps the signatures it was drained for, as
      everything that moves it does, no drain for this signature takes it again. */
  lemma NotDrainedAgain(matches: Matcher, signature: string, dir: Dir, before: Files, after: Files, n: Name,
                        later: Files, from: Dir)
    requires IsDrained(before, after, dir, signature, n)
    requires Key(from, n) in later && later[Key(from, n)].Good?
    requires after[Key(Pending, n)].task.requeuedFor <= later[Key(from, n)].task.requeuedFor
    ensures !DrainedFrom(matches, signature, from, later, n)
  {
    assert signature in after[Key(Pending, n)].task.requeuedFor;
  }
}
