/** The task queue on disk: one directory per state, one file per task, and the two file operations
    every sweep is made of. A move writes the record at its destination, then unlinks the source. */
module Queue {
  datatype Dir =
    | Pending | Drafting | Approved | Blocked | NeedsClarification
    | AwaitingConfirm | Coordinating | Done | ArchivedNoAction

  /** A task's file name, which is its id. */
  type Name = string

  datatype Key = Key(dir: Dir, name: Name)

  /** What the patterns of apply-retry-check.js find in `blockedReason`. */
  datatype Reason = Reason(infra: bool, gitTimeout: bool, diverged: bool, findMiss: bool)

  datatype Stage = NoStage | ApplyStage | ReviewStage | OtherStage

  /** `needsClarification.reason`. */
  datatype Hold = NoHold | DesignDecision | OtherHold

  /** The fields of a task record that the movers read or write; `history` holds the stages. */
  datatype Task = Task(
    stage: Stage, reason: Reason, status: string, history: seq<string>,
    applyRetryCount: nat, applyTimeoutReleases: nat, requeuedFor: set<string>,
    hold: Hold, reviewInconclusive: bool, confirmReviewed: bool, gateConfirmed: bool, noop: bool)

  datatype File = Good(task: Task) | Malformed

  type Files = map<Key, File>

  datatype FileOp = Write(key: Key, task: Task) | Unlink(key: Key)

  function Do(files: Files, op: FileOp): Files {
    match op
    case Write(key, task) => files[key := Good(task)]
    case Unlink(key) => files - {key}
  }

  function Replay(files: Files, ops: seq<FileOp>): Files
    decreases |ops|
  {
    if ops == [] then files else Replay(Do(files, ops[0]), ops[1..])
  }

  /** What a sweep decides about one file. `TryMove` is a move whose failure is caught: then
      `otherwise` is done. */
  datatype Action = Leave | Rewrite(task: Task) | MoveTo(dest: Dir, task: Task)
      | TryMove(dest: Dir, task: Task, otherwise: Action)

  /** How many of a file's operations succeed before one throws; `later` counts the operations of
      what is done after a caught throw. */
  datatype Limit = Limit(ops: nat, later: nat)

  function MoveOps(src: Dir, name: Name, dest: Dir, task: Task): seq<FileOp> {
    [Write(Key(dest, name), task), Unlink(Key(src, name))]
  }

  /** The operations that take effect. */
  function OpsOf(src: Dir, name: Name, action: Action, limit: Limit): seq<FileOp> {
    match action
    case Leave => []
    case Rewrite(task) => Cut([Write(Key(src, name), task)], limit.ops)
    case MoveTo(dest, task) => Cut(MoveOps(src, name, dest, task), limit.ops)
    case TryMove(dest, task, otherwise) =>
      Cut(MoveOps(src, name, dest, task), limit.ops)
          + (if limit.ops >= 2 then [] else OpsOf(src, name, otherwise, Limit(limit.later, 0)))
  }

  /** No throw is left uncaught. */
  function Succeeds(action: Action, limit: Limit): bool {
    match action
    case Leave => true
    case Rewrite(_) => limit.ops >= 1
    case MoveTo(_, _) => limit.ops >= 2
    case TryMove(_, _, otherwise) => limit.ops >= 2 || Succeeds(otherwise, Limit(limit.later, 0))
  }

  /** The operations that take effect when the one after the first `limit` throws. */
  function Cut(ops: seq<FileOp>, limit: nat): seq<FileOp> {
    if limit < |ops| then ops[..limit] else ops
  }

  /** A sweep over `names`, file by file. */
  function SweepOps(src: Dir, names: seq<Name>, action: Name -> Action, limit: Name -> Limit): seq<FileOp> {
    if names == [] then []
    else OpsOf(src, names[0], action(names[0]), limit(names[0])) + SweepOps(src, names[1..], action, limit)
  }

  /** Exactly when every operation took effect: a move's two, a rewrite's one, and after a caught
      throw those of what is done instead. */
  lemma SucceedsIffNothingCut(src: Dir, name: Name, action: Action, limit: Limit)
    requires SaneAction(src, action)
    ensures Succeeds(action, limit) <==>
              if action.TryMove? && limit.ops < 2
              then OpsOf(src, name, action.otherwise, Limit(limit.later, 0))
                     == OpsOf(src, name, action.otherwise, Limit(2, 0))
              else OpsOf(src, name, action, limit) == OpsOf(src, name, action, Limit(2, 0))
  {
    match action
    case Leave =>
    case Rewrite(_) =>
    case MoveTo(dest, task) =>
      CutIsWhole(MoveOps(src, name, dest, task), limit.ops);
    case TryMove(dest, task, otherwise) =>
      if limit.ops >= 2 {
        CutIsWhole(MoveOps(src, name, dest, task), limit.ops);
      } else if otherwise.MoveTo? {
        CutIsWhole(MoveOps(src, name, otherwise.dest, otherwise.task), limit.later);
      }
  }

  lemma CutIsWhole(ops: seq<FileOp>, limit: nat)
    ensures Cut(ops, limit) == ops <==> limit >= |ops|
  {
  }

  lemma {:induction false} ReplayAppend(files: Files, a: seq<FileOp>, b: seq<FileOp>)
    ensures Replay(files, a + b) == Replay(Replay(files, a), b)
    decreases |a|
  {
    if a == [] {
      assert a + b == b;
    } else {
      assert (a + b)[1..] == a[1..] + b;
      ReplayAppend(Do(files, a[0]), a[1..], b);
    }
  }

  lemma {:induction false} SweepOpsAppend(src: Dir, names: seq<Name>, more: seq<Name>, action: Name -> Action,
                                          limit: Name -> Limit)
    ensures SweepOps(src, names + more, action, limit)
              == SweepOps(src, names, action, limit) + SweepOps(src, more, action, limit)
    decreases |names|
  {
    if names == [] {
      assert names + more == more;
    } else {
      assert (names + more)[1..] == names[1..] + more;
      SweepOpsAppend(src, names[1..], more, action, limit);
    }
  }

  // ----- conservation

  ghost predicate Somewhere(files: Files, name: Name) {
    exists d :: Key(d, name) in files
  }

  ghost predicate OnlyIn(files: Files, name: Name, dir: Dir) {
    forall d :: Key(d, name) in files <==> d == dir
  }

  ghost predicate ExactlyOnce(files: Files, name: Name) {
    exists dir :: OnlyIn(files, name, dir)
  }

  /** No move goes from a directory to itself, and what follows a caught throw is not itself caught. */
  predicate SaneAction(src: Dir, action: Action) {
    && (action.MoveTo? ==> action.dest != src)
    && (action.TryMove? ==> action.dest != src && !action.otherwise.TryMove? && SaneAction(src, action.otherwise))
  }

  ghost predicate Sane(src: Dir, names: seq<Name>, action: Name -> Action) {
    forall k :: 0 <= k < |names| ==> SaneAction(src, action(names[k]))
  }

  function Moved(files: Files, src: Dir, name: Name, dest: Dir, task: Task, limit: nat): Files {
    if limit == 0 then files
    else if limit == 1 then files[Key(dest, name) := Good(task)]
    else files[Key(dest, name) := Good(task)] - {Key(src, name)}
  }

  /** What one file's operations come to. */
  function OneFile(files: Files, src: Dir, name: Name, action: Action, limit: Limit): Files
    decreases action
  {
    match action
    case Leave => files
    case Rewrite(task) => if limit.ops == 0 then files else files[Key(src, name) := Good(task)]
    case MoveTo(dest, task) => Moved(files, src, name, dest, task, limit.ops)
    case TryMove(dest, task, otherwise) =>
      var after := Moved(files, src, name, dest, task, limit.ops);
      if limit.ops >= 2 then after else OneFile(after, src, name, otherwise, Limit(limit.later, 0))
  }

  lemma ReplayMove(files: Files, src: Dir, name: Name, dest: Dir, task: Task, limit: nat)
    ensures Replay(files, Cut(MoveOps(src, name, dest, task), limit)) == Moved(files, src, name, dest, task, limit)
  {
    var ops := MoveOps(src, name, dest, task);
    assert ops[..1] == [ops[0]] && [ops[0]][1..] == [] && ops[1..] == [ops[1]] && [ops[1]][1..] == [];
    assert Replay(files, [ops[0]]) == Do(files, ops[0]);
    assert Replay(Do(files, ops[0]), [ops[1]]) == Do(Do(files, ops[0]), ops[1]);
  }

  lemma {:induction false} ReplayOneFile(files: Files, src: Dir, name: Name, action: Action, limit: Limit)
    ensures Replay(files, OpsOf(src, name, action, limit)) == OneFile(files, src, name, action, limit)
    decreases action
  {
    match action
    case Leave =>
    case Rewrite(task) =>
      var ops := [Write(Key(src, name), task)];
      assert ops[1..] == [];
      assert Replay(files, ops) == Do(files, ops[0]);
    case MoveTo(dest, task) =>
      ReplayMove(files, src, name, dest, task, limit.ops);
    case TryMove(dest, task, otherwise) =>
      var first := Cut(MoveOps(src, name, dest, task), limit.ops);
      ReplayMove(files, src, name, dest, task, limit.ops);
      if limit.ops >= 2 {
        assert first + [] == first;
      } else {
        ReplayAppend(files, first, OpsOf(src, name, otherwise, Limit(limit.later, 0)));
        ReplayOneFile(Replay(files, first), src, name, otherwise, Limit(limit.later, 0));
      }
  }

  /** Stopping one file's operations after the first `crash` is one more way for one to throw. */
  function CutLimit(action: Action, limit: Limit, crash: nat): Limit {
    if action.TryMove? && limit.ops < 2 && crash > limit.ops then Limit(limit.ops, crash - limit.ops)
    else Limit(crash, 0)
  }

  lemma PrefixIsALimit(src: Dir, name: Name, action: Action, limit: Limit, crash: nat)
    requires SaneAction(src, action) && crash <= |OpsOf(src, name, action, limit)|
    ensures OpsOf(src, name, action, CutLimit(action, limit, crash)) == OpsOf(src, name, action, limit)[..crash]
  {
    match action
    case Leave =>
    case Rewrite(task) =>
      var ops := [Write(Key(src, name), task)];
      assert Cut(Cut(ops, limit.ops), crash) == Cut(ops, crash);
    case MoveTo(dest, task) =>
      PrefixOfMove(src, name, dest, task, limit.ops, crash);
    case TryMove(dest, task, otherwise) =>
      if limit.ops >= 2 || crash <= limit.ops {
        PrefixBeforeFallback(src, name, action, limit, crash);
      } else {
        PrefixInFallback(src, name, action, limit, crash);
      }
  }

  lemma PrefixBeforeFallback(src: Dir, name: Name, action: Action, limit: Limit, crash: nat)
    requires action.TryMove? && !action.otherwise.TryMove? && crash <= |OpsOf(src, name, action, limit)|
    requires (limit.ops >= 2 || crash <= limit.ops)
    ensures OpsOf(src, name, action, Limit(crash, 0)) == OpsOf(src, name, action, limit)[..crash]
  {
    var first := Cut(MoveOps(src, name, action.dest, action.task), limit.ops);
    var rest := if limit.ops >= 2 then [] else OpsOf(src, name, action.otherwise, Limit(limit.later, 0));
    assert OpsOf(src, name, action, limit) == first + rest;
    assert (first + rest)[..crash] == first[..crash];
    NothingDone(src, name, action.otherwise);
    PrefixOfMove(src, name, action.dest, action.task, limit.ops, crash);
    assert OpsOf(src, name, action, Limit(crash, 0)) == Cut(MoveOps(src, name, action.dest, action.task), crash) + [];
  }

  lemma PrefixInFallback(src: Dir, name: Name, action: Action, limit: Limit, crash: nat)
    requires action.TryMove? && !action.otherwise.TryMove? && limit.ops < 2
    requires limit.ops < crash <= |OpsOf(src, name, action, limit)|
    ensures OpsOf(src, name, action, Limit(limit.ops, crash - limit.ops)) == OpsOf(src, name, action, limit)[..crash]
  {
    var first := Cut(MoveOps(src, name, action.dest, action.task), limit.ops);
    var rest := OpsOf(src, name, action.otherwise, Limit(limit.later, 0));
    assert |first| == limit.ops;
    assert (first + rest)[..crash] == first + rest[..crash - |first|];
    PrefixOfFallback(src, name, action.otherwise, limit.later, crash - |first|);
  }

  lemma PrefixOfMove(src: Dir, name: Name, dest: Dir, task: Task, limit: nat, crash: nat)
    requires crash <= |Cut(MoveOps(src, name, dest, task), limit)|
    ensures Cut(MoveOps(src, name, dest, task), crash) == Cut(MoveOps(src, name, dest, task), limit)[..crash]
  {
  }

  lemma PrefixOfFallback(src: Dir, name: Name, action: Action, limit: nat, crash: nat)
    requires !action.TryMove? && crash <= |OpsOf(src, name, action, Limit(limit, 0))|
    ensures OpsOf(src, name, action, Limit(crash, 0)) == OpsOf(src, name, action, Limit(limit, 0))[..crash]
  {
    if action.MoveTo? {
      PrefixOfMove(src, name, action.dest, action.task, limit, crash);
    }
  }

  lemma NothingDone(src: Dir, name: Name, action: Action)
    requires !action.TryMove?
    ensures OpsOf(src, name, action, Limit(0, 0)) == []
  {
  }

  /** Stopping one file's operations anywhere loses no name. */
  lemma {:induction false} OneFileKeepsNames(files: Files, src: Dir, name: Name, action: Action, limit: Limit, n: Name)
    requires SaneAction(src, action)
    requires Somewhere(files, n)
    ensures Somewhere(OneFile(files, src, name, action, limit), n)
    decreases action
  {
    var d :| Key(d, n) in files;
    if action.MoveTo? || action.TryMove? {
      var after := Moved(files, src, name, action.dest, action.task, limit.ops);
      assert Key(if n == name && limit.ops > 0 then action.dest else d, n) in after;
      if action.TryMove? && limit.ops < 2 {
        OneFileKeepsNames(after, src, name, action.otherwise, Limit(limit.later, 0), n);
      }
    } else {
      assert Key(d, n) in OneFile(files, src, name, action, limit);
    }
  }

  /** A throw leaves a second copy of the task. */
  predicate Duplicates(action: Action, limit: Limit) {
    match action
    case MoveTo(_, _) => limit.ops == 1
    case TryMove(dest, _, otherwise) =>
      || (limit.ops == 1 && !(otherwise.MoveTo? && otherwise.dest == dest && limit.later >= 2))
      || (limit.ops == 0 && otherwise.MoveTo? && limit.later == 1)
    case _ => false
  }

  /** Exactly when it hits the unlink: a write that throws changes nothing, a move that completes
      leaves one copy. */
  lemma DuplicateIffUnlinkThrows(files: Files, src: Dir, name: Name, action: Action, limit: Limit)
    requires SaneAction(src, action) && OnlyIn(files, name, src)
    ensures ExactlyOnce(OneFile(files, src, name, action, limit), name) <==> !Duplicates(action, limit)
  {
    var after := OneFile(files, src, name, action, limit);
    if action.MoveTo? || (action.TryMove? && limit.ops >= 2) {
      assert after == Moved(files, src, name, action.dest, action.task, limit.ops);
      OnceAfterMove(files, src, name, action.dest, action.task, limit.ops);
    } else if action.TryMove? {
      var mid := Moved(files, src, name, action.dest, action.task, limit.ops);
      var o := action.otherwise;
      assert after == OneFile(mid, src, name, o, Limit(limit.later, 0));
      if o.MoveTo? {
        assert after == Moved(mid, src, name, o.dest, o.task, limit.later);
        if limit.ops == 0 {
          OnceAfterMove(files, src, name, o.dest, o.task, limit.later);
        } else if limit.later >= 2 && o.dest == action.dest {
          assert OnlyIn(after, name, o.dest);
        } else {
          assert Key(action.dest, name) in after && Key(if limit.later >= 2 then o.dest else src, name) in after;
        }
      } else {
        assert forall d :: Key(d, name) in after <==> Key(d, name) in mid;
        OnceAfterMove(files, src, name, action.dest, action.task, limit.ops);
        SameCopies(after, mid, name);
      }
    } else {
      assert OnlyIn(after, name, src);
    }
  }

  lemma OnceAfterMove(files: Files, src: Dir, name: Name, dest: Dir, task: Task, limit: nat)
    requires OnlyIn(files, name, src) && dest != src
    ensures ExactlyOnce(Moved(files, src, name, dest, task, limit), name) <==> limit != 1
  {
    var after := Moved(files, src, name, dest, task, limit);
    if limit == 1 {
      assert Key(src, name) in after && Key(dest, name) in after;
    } else {
      assert OnlyIn(after, name, if limit == 0 then src else dest);
    }
  }

  lemma SameCopies(f: Files, g: Files, name: Name)
    requires forall d :: Key(d, name) in f <==> Key(d, name) in g
    ensures ExactlyOnce(f, name) <==> ExactlyOnce(g, name)
  {
    if ExactlyOnce(f, name) {
      var dir :| OnlyIn(f, name, dir);
      assert OnlyIn(g, name, dir);
    }
    if ExactlyOnce(g, name) {
      var dir :| OnlyIn(g, name, dir);
      assert OnlyIn(f, name, dir);
    }
  }

  /** A crash between any two operations of a sweep, or an operation of any file that throws,
      loses no task. */
  lemma {:induction false} SweepKeepsNames(files: Files, src: Dir, names: seq<Name>, action: Name -> Action,
                                           limit: Name -> Limit, crash: nat, n: Name)
    requires Sane(src, names, action)
    requires Somewhere(files, n)
    requires crash <= |SweepOps(src, names, action, limit)|
    ensures Somewhere(Replay(files, SweepOps(src, names, action, limit)[..crash]), n)
    decreases |names|
  {
    if names != [] {
      var first := OpsOf(src, names[0], action(names[0]), limit(names[0]));
      var rest := SweepOps(src, names[1..], action, limit);
      if crash <= |first| {
        assert SweepOps(src, names, action, limit)[..crash] == first[..crash];
        var cut := CutLimit(action(names[0]), limit(names[0]), crash);
        PrefixIsALimit(src, names[0], action(names[0]), limit(names[0]), crash);
        ReplayOneFile(files, src, names[0], action(names[0]), cut);
        OneFileKeepsNames(files, src, names[0], action(names[0]), cut, n);
      } else {
        assert (first + rest)[..crash] == first + rest[..crash - |first|];
        ReplayAppend(files, first, rest[..crash - |first|]);
        ReplayOneFile(files, src, names[0], action(names[0]), limit(names[0]));
        OneFileKeepsNames(files, src, names[0], action(names[0]), limit(names[0]), n);
        assert forall k :: 0 <= k < |names| - 1 ==> names[1..][k] == names[k + 1];
        SweepKeepsNames(Replay(files, first), src, names[1..], action, limit, crash - |first|, n);
      }
    }
  }

  // ----- what a completed sweep does to one file

  ghost predicate SameFor(f: Files, g: Files, n: Name) {
    forall d :: (Key(d, n) in f <==> Key(d, n) in g) && (Key(d, n) in f ==> f[Key(d, n)] == g[Key(d, n)])
  }

  ghost predicate Distinct(names: seq<Name>) {
    forall i, j :: 0 <= i < j < |names| ==> names[i] != names[j]
  }

  lemma {:induction false} OneFileOnOthers(files: Files, src: Dir, name: Name, action: Action, limit: Limit, n: Name)
    requires n != name
    ensures SameFor(OneFile(files, src, name, action, limit), files, n)
    decreases action
  {
    if action.TryMove? && limit.ops < 2 {
      OneFileOnOthers(Moved(files, src, name, action.dest, action.task, limit.ops), src, name, action.otherwise,
                      Limit(limit.later, 0), n);
    }
  }

  lemma OtherNamesUntouched(files: Files, src: Dir, name: Name, action: Action, limit: Limit, n: Name)
    requires n != name
    ensures SameFor(Replay(files, OpsOf(src, name, action, limit)), files, n)
  {
    ReplayOneFile(files, src, name, action, limit);
    OneFileOnOthers(files, src, name, action, limit, n);
  }

  lemma {:induction false} SameForOneFile(f: Files, g: Files, src: Dir, n: Name, action: Action, limit: Limit)
    requires SameFor(f, g, n)
    ensures SameFor(OneFile(f, src, n, action, limit), OneFile(g, src, n, action, limit), n)
    decreases action
  {
    if action.TryMove? && limit.ops < 2 {
      SameForOneFile(Moved(f, src, n, action.dest, action.task, limit.ops),
                     Moved(g, src, n, action.dest, action.task, limit.ops),
                     src, n, action.otherwise, Limit(limit.later, 0));
    }
  }

  lemma {:induction false} SweepOnOthers(files: Files, src: Dir, names: seq<Name>, action: Name -> Action,
                                         limit: Name -> Limit, n: Name)
    requires n !in names
    ensures SameFor(Replay(files, SweepOps(src, names, action, limit)), files, n)
    decreases |names|
  {
    if names != [] {
      var first := OpsOf(src, names[0], action(names[0]), limit(names[0]));
      ReplayAppend(files, first, SweepOps(src, names[1..], action, limit));
      OtherNamesUntouched(files, src, names[0], action(names[0]), limit(names[0]), n);
      SweepOnOthers(Replay(files, first), src, names[1..], action, limit, n);
    }
  }

  /** The files of different tasks do not interfere: a sweep does to each task exactly what its own
      operations do. */
  lemma {:induction false} SweepOnOne(files: Files, src: Dir, names: seq<Name>, action: Name -> Action,
                                      limit: Name -> Limit, n: Name)
    requires Distinct(names) && n in names
    ensures SameFor(Replay(files, SweepOps(src, names, action, limit)), OneFile(files, src, n, action(n), limit(n)), n)
    decreases |names|
  {
    var first := OpsOf(src, names[0], action(names[0]), limit(names[0]));
    var after := Replay(files, first);
    ReplayAppend(files, first, SweepOps(src, names[1..], action, limit));
    if names[0] == n {
      ReplayOneFile(files, src, n, action(n), limit(n));
      SweepOnOthers(after, src, names[1..], action, limit, n);
    } else {
      OtherNamesUntouched(files, src, names[0], action(names[0]), limit(names[0]), n);
      SweepOnOne(after, src, names[1..], action, limit, n);
      SameForOneFile(after, files, src, n, action(n), limit(n));
    }
  }

  // ----- what a sweep cut short does to one file

  /** How far the sweep gets with file `n` when only its first `crash` operations happen. */
  function LimitAt(src: Dir, names: seq<Name>, action: Name -> Action, limit: Name -> Limit, crash: nat,
                   n: Name): Limit {
    if names == [] then Limit(0, 0)
    else
      var first := |OpsOf(src, names[0], action(names[0]), limit(names[0]))|;
      if names[0] == n then if crash >= first then limit(n) else CutLimit(action(n), limit(n), crash)
      else if crash < first then Limit(0, 0)
      else LimitAt(src, names[1..], action, limit, crash - first, n)
  }

  lemma {:induction false} OneFileNotReached(files: Files, src: Dir, name: Name, action: Action)
    ensures OneFile(files, src, name, action, Limit(0, 0)) == files
    decreases action
  {
    if action.TryMove? {
      OneFileNotReached(files, src, name, action.otherwise);
    }
  }

  lemma CutSplit(first: seq<FileOp>, rest: seq<FileOp>, crash: nat)
    ensures Cut(first + rest, crash) == if crash < |first| then first[..crash] else first + Cut(rest, crash - |first|)
  {
  }

  /** A sweep cut short does to each file what its own operations do as far as it gets with them. */
  lemma {:induction false} CutSweepOnOne(files: Files, src: Dir, names: seq<Name>, action: Name -> Action,
                                         limit: Name -> Limit, crash: nat, n: Name)
    requires Distinct(names) && Sane(src, names, action)
    ensures SameFor(Replay(files, Cut(SweepOps(src, names, action, limit), crash)),
                    if n in names then OneFile(files, src, n, action(n), LimitAt(src, names, action, limit, crash, n))
                    else files, n)
    decreases |names|
  {
    if names != [] {
      var first := OpsOf(src, names[0], action(names[0]), limit(names[0]));
      var rest := SweepOps(src, names[1..], action, limit);
      assert forall k :: 0 <= k < |names| - 1 ==> names[1..][k] == names[k + 1];
      CutSplit(first, rest, crash);
      if crash < |first| {
        CutInFirst(files, src, names, action, limit, crash, n);
      } else {
        ReplayAppend(files, first, Cut(rest, crash - |first|));
        var after := Replay(files, first);
        CutSweepOnOne(after, src, names[1..], action, limit, crash - |first|, n);
        FirstOnOne(files, src, names[0], action, limit, n, LimitAt(src, names[1..], action, limit, crash - |first|, n));
      }
    }
  }

  /** The first file of a sweep, done whole, seen from file `n`. */
  lemma FirstOnOne(files: Files, src: Dir, first: Name, action: Name -> Action, limit: Name -> Limit, n: Name,
                   reach: Limit)
    ensures var after := Replay(files, OpsOf(src, first, action(first), limit(first)));
            if first == n then after == OneFile(files, src, n, action(n), limit(n))
            else SameFor(after, files, n)
                 && SameFor(OneFile(after, src, n, action(n), reach), OneFile(files, src, n, action(n), reach), n)
  {
    if first == n {
      ReplayOneFile(files, src, n, action(n), limit(n));
    } else {
      OtherNamesUntouched(files, src, first, action(first), limit(first), n);
      SameForOneFile(Replay(files, OpsOf(src, first, action(first), limit(first))), files, src, n, action(n), reach);
    }
  }

  lemma CutInFirst(files: Files, src: Dir, names: seq<Name>, action: Name -> Action, limit: Name -> Limit, crash: nat,
                   n: Name)
    requires names != [] && Sane(src, names, action)
    requires crash < |OpsOf(src, names[0], action(names[0]), limit(names[0]))|
    ensures SameFor(Replay(files, OpsOf(src, names[0], action(names[0]), limit(names[0]))[..crash]),
                    if n in names then OneFile(files, src, n, action(n), LimitAt(src, names, action, limit, crash, n))
                    else files, n)
  {
    var cut := CutLimit(action(names[0]), limit(names[0]), crash);
    PrefixIsALimit(src, names[0], action(names[0]), limit(names[0]), crash);
    if names[0] == n {
      ReplayOneFile(files, src, n, action(n), cut);
    } else {
      OtherNamesUntouched(files, src, names[0], action(names[0]), cut, n);
      OneFileNotReached(files, src, n, action(n));
    }
  }

  lemma {:induction false} WholeSweepReaches(src: Dir, names: seq<Name>, action: Name -> Action, limit: Name -> Limit,
                                             crash: nat, n: Name)
    requires n in names && crash >= |SweepOps(src, names, action, limit)|
    ensures LimitAt(src, names, action, limit, crash, n) == limit(n)
    decreases |names|
  {
    if names[0] != n {
      WholeSweepReaches(src, names[1..], action, limit,
                        crash - |OpsOf(src, names[0], action(names[0]), limit(names[0]))|, n);
    }
  }
}
