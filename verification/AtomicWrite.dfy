/** The durable replace of src/atomic-write.js:11-31: write a temporary file beside the target,
    fsync it, rename it over the target. Any number of processes, readers and power failures.

    What POSIX.1-2017 is relied on for: rename() in chapter 3 of the System Interfaces volume
    replaces the directory entry in one step. Data that was not fsynced is lost or garbled by a
    power failure; directory updates reach the disk in order, at any later time. */
module AtomicWrite {
  import opened Wrappers
  import opened Decimal

  type Name = string
  type Inode = nat
  type Dir = map<Name, Inode>

  /** File data as read now. A power failure keeps it only when `synced`. */
  datatype Data = Data(bytes: string, synced: bool)

  datatype Phase = Writing | Synced | Closed

  /** A call of writeAtomicSync in progress. */
  datatype Writer = Writer(tmp: Name, inode: Inode, payload: string, written: nat, phase: Phase)

  /** `dirs` are the directory contents a power failure may leave; the last one is the present.
      A process is synchronous, so `writers` holds at most one call per process id.
      `committed` is a history variable: the original target and every payload renamed over it. */
  datatype State = State(target: Name, data: map<Inode, Data>, dirs: seq<Dir>, writers: map<nat, Writer>,
                         committed: set<Option<string>>)

  datatype Step =
    | Open(pid: nat, ms: nat, payload: string, newInode: Inode)
    | WriteChunk(pid: nat, length: nat)
    | Fsync(pid: nat)
    | Close(pid: nat)
    | Rename(pid: nat)
    | Abandon(pid: nat)  // an exception or the death of the process; the descriptor is closed
    | Flush(count: nat)  // the oldest directory updates reach the disk
    | PowerFailure(survivor: nat, garbage: map<Inode, string>)

  /** `.${base}.tmp-${pid}-${Date.now()}` */
  function TempName(base: Name, pid: nat, ms: nat): Name {
    "." + base + ".tmp-" + Numeral(pid) + "-" + Numeral(ms)
  }

  function Now(s: State): Dir
    requires s.dirs != []
  {
    s.dirs[|s.dirs| - 1]
  }

  /** What the target reads as in directory `d`; `None` when it does not exist. */
  function Target(s: State, d: Dir): Option<string> {
    if s.target in d && d[s.target] in s.data then Some(s.data[d[s.target]].bytes) else None
  }

  /** One step; `None` when it cannot happen. */
  function Next(s: State, step: Step): Option<State>
    requires s.dirs != []
  {
    match step
    case Open(pid, ms, payload, newInode) =>
      var tmp := TempName(s.target, pid, ms);
      if pid in s.writers then None
      else if tmp in Now(s) then
        var w := Writer(tmp, Now(s)[tmp], payload, 0, Writing);
        Some(s.(data := s.data[w.inode := Data("", false)], writers := s.writers[pid := w]))
      else if newInode in s.data then None
      else
        var w := Writer(tmp, newInode, payload, 0, Writing);
        Some(s.(data := s.data[newInode := Data("", false)], dirs := s.dirs + [Now(s)[tmp := newInode]],
                writers := s.writers[pid := w]))
    case WriteChunk(pid, length) =>
      if pid !in s.writers then None
      else
        var w := s.writers[pid];
        if !w.phase.Writing? || w.written + length > |w.payload| || w.inode !in s.data then None
        else
          var bytes := s.data[w.inode].bytes + w.payload[w.written..w.written + length];
          Some(s.(data := s.data[w.inode := Data(bytes, false)],
                  writers := s.writers[pid := w.(written := w.written + length)]))
    case Fsync(pid) =>
      if pid !in s.writers then None
      else
        var w := s.writers[pid];
        if !w.phase.Writing? || w.written != |w.payload| || w.inode !in s.data then None
        else Some(s.(data := s.data[w.inode := s.data[w.inode].(synced := true)],
                     writers := s.writers[pid := w.(phase := Synced)]))
    case Close(pid) =>
      if pid !in s.writers || !s.writers[pid].phase.Synced? then None
      else Some(s.(writers := s.writers[pid := s.writers[pid].(phase := Closed)]))
    case Rename(pid) =>
      if pid !in s.writers || !s.writers[pid].phase.Closed? || s.writers[pid].tmp !in Now(s) then None
      else
        var w := s.writers[pid];
        var d := Now(s);
        var renamed := if s.target in d && d[s.target] == d[w.tmp] then d else d[s.target := d[w.tmp]] - {w.tmp};
        Some(s.(dirs := s.dirs + [renamed], writers := s.writers - {pid}, committed := s.committed + {Some(w.payload)}))
    case Abandon(pid) =>
      Some(s.(writers := s.writers - {pid}))
    case Flush(count) =>
      if count >= |s.dirs| then None else Some(s.(dirs := s.dirs[count..]))
    case PowerFailure(survivor, garbage) =>
      if survivor >= |s.dirs| then None
      else
        var kept := map i | i in s.data ::
            Data(if s.data[i].synced || i !in garbage then s.data[i].bytes else garbage[i], true);
        Some(s.(data := kept, dirs := [s.dirs[survivor]], writers := map[]))
  }

  /** A run; `None` when some step cannot happen. */
  function Run(s: State, steps: seq<Step>): Option<State>
    requires s.dirs != []
    decreases |steps|
  {
    if steps == [] then Some(s)
    else
      var n := Next(s, steps[0]);
      if n.None? || n.value.dirs == [] then None else Run(n.value, steps[1..])
  }

  /** Any directory, the target in it or not, with everything on disk and nobody writing. */
  ghost predicate Initial(s: State) {
    && |s.dirs| == 1 && s.writers == map[]
    && Linked(s, Now(s))
    && (forall i :: i in s.data ==> s.data[i].synced)
    && s.committed == {Target(s, Now(s))}
  }

  // ----- the invariant

  /** Every name has its own existing file. */
  ghost predicate Linked(s: State, d: Dir) {
    && (forall n :: n in d ==> d[n] in s.data)
    && (forall n, m :: n in d && m in d && n != m ==> d[n] != d[m])
  }

  /** Whatever directory survives, the target in it is a committed file that is on disk, and no name
      that could be opened for writing now leads to it. */
  ghost predicate DirSafe(s: State, d: Dir)
    requires s.dirs != []
  {
    && Linked(s, d)
    && Target(s, d) in s.committed
    && (s.target in d ==>
          && s.data[d[s.target]].synced
          && forall n :: n in Now(s) && n != s.target ==> Now(s)[n] != d[s.target])
  }

  ghost predicate WriterSafe(s: State, pid: nat)
    requires s.dirs != [] && pid in s.writers
  {
    var w := s.writers[pid];
    && (exists ms :: w.tmp == TempName(s.target, pid, ms))
    && w.tmp in Now(s) && Now(s)[w.tmp] == w.inode && w.inode in s.data
    && w.written <= |w.payload|
    && s.data[w.inode].bytes == w.payload[..w.written]
    && (!w.phase.Writing? ==> w.written == |w.payload|)
    && (w.phase.Writing? <==> !s.data[w.inode].synced)
  }

  ghost predicate Safe(s: State) {
    && s.dirs != []
    && (forall k :: 0 <= k < |s.dirs| ==> DirSafe(s, s.dirs[k]))
    && (forall pid :: pid in s.writers ==> WriterSafe(s, pid))
  }

  /** The call of `q`, its name and its file are the same in both states. */
  ghost predicate SameCall(s: State, s': State, q: nat)
    requires s.dirs != [] && s'.dirs != []
  {
    && q in s.writers && q in s'.writers && s'.writers[q] == s.writers[q]
    && s'.target == s.target
    && s.writers[q].tmp in Now(s') && Now(s')[s.writers[q].tmp] == s.writers[q].inode
    && s.writers[q].inode in s.data && s.writers[q].inode in s'.data
    && s'.data[s.writers[q].inode] == s.data[s.writers[q].inode]
  }

  lemma SameCallStaysSafe(s: State, s': State, q: nat)
    requires s.dirs != [] && s'.dirs != [] && SameCall(s, s', q) && WriterSafe(s, q)
    ensures WriterSafe(s', q)
  {
  }

  lemma TempNameIsNotTarget(base: Name, pid: nat, ms: nat)
    ensures TempName(base, pid, ms) != base
  {
    assert |TempName(base, pid, ms)| > |base|;
  }

  /** Calls that run at the same time belong to different processes, so they never share a
      temporary file, whatever the clock says. */
  lemma TempNamesDistinct(base: Name, pid1: nat, ms1: nat, pid2: nat, ms2: nat)
    requires TempName(base, pid1, ms1) == TempName(base, pid2, ms2)
    ensures pid1 == pid2 && ms1 == ms2
  {
    NumeralIsDigits(pid1);
    NumeralIsDigits(pid2);
    NumeralIsDigits(ms1);
    NumeralIsDigits(ms2);
    var prefix := "." + base + ".tmp";
    assert "." + base + ".tmp-" == prefix + "-";
    LastDash(prefix + "-" + Numeral(pid1), Numeral(ms1), prefix + "-" + Numeral(pid2), Numeral(ms2));
    LastDash(prefix, Numeral(pid1), prefix, Numeral(pid2));
    NumeralInjective(pid1, pid2);
    NumeralInjective(ms1, ms2);
  }

  lemma WritersApart(s: State, pid1: nat, pid2: nat)
    requires Safe(s) && pid1 in s.writers && pid2 in s.writers && pid1 != pid2
    ensures s.writers[pid1].tmp != s.writers[pid2].tmp && s.writers[pid1].inode != s.writers[pid2].inode
  {
    assert WriterSafe(s, pid1) && WriterSafe(s, pid2) && DirSafe(s, Now(s));
    var ms1 :| s.writers[pid1].tmp == TempName(s.target, pid1, ms1);
    var ms2 :| s.writers[pid2].tmp == TempName(s.target, pid2, ms2);
    if s.writers[pid1].tmp == s.writers[pid2].tmp {
      TempNamesDistinct(s.target, pid1, ms1, pid2, ms2);
    }
  }

  /** Writing to a file that is no directory's target keeps the directories safe. */
  lemma DataChangeKeepsDirs(s: State, s': State, i: Inode)
    requires Safe(s) && s'.dirs == s.dirs && s'.target == s.target && s'.committed == s.committed
    requires s'.data.Keys == s.data.Keys && forall j :: j in s.data && j != i ==> s'.data[j] == s.data[j]
    requires exists n :: n in Now(s) && n != s.target && Now(s)[n] == i
    ensures forall k :: 0 <= k < |s'.dirs| ==> DirSafe(s', s'.dirs[k])
  {
    var n :| n in Now(s) && n != s.target && Now(s)[n] == i;
    forall k | 0 <= k < |s'.dirs|
      ensures DirSafe(s', s'.dirs[k])
    {
      assert DirSafe(s, s.dirs[k]);
      assert s.target in s.dirs[k] ==> Now(s)[n] != s.dirs[k][s.target];
    }
  }

  /** Opening disturbs no other call: its temporary name is its own. */
  lemma OtherStaysSafe(s: State, pid: nat, ms: nat, payload: string, newInode: Inode, q: nat)
    requires Safe(s) && Next(s, Open(pid, ms, payload, newInode)).Some? && q in s.writers
    ensures WriterSafe(Next(s, Open(pid, ms, payload, newInode)).value, q)
  {
    TempNameIsNotShared(s, pid, ms, q);
    var s' := Next(s, Open(pid, ms, payload, newInode)).value;
    assert Linked(s, Now(s)) by {
      assert DirSafe(s, Now(s));
    }
    OpenChanges(s, pid, ms, payload, newInode);
    OpenedKeepsCall(s, s', pid, TempName(s.target, pid, ms), q);
    SameCallStaysSafe(s, s', q);
  }

  /** All that opening changes: one call, one name, and the file of that name. */
  ghost predicate Opened(s: State, s': State, pid: nat, tmp: Name)
    requires s.dirs != []
  {
    && s'.dirs != [] && s'.target == s.target
    && s'.writers - {pid} == s.writers
    && Now(s') - {tmp} == Now(s) - {tmp}
    && forall i :: i in s.data ==> i in s'.data && (s'.data[i] != s.data[i] ==> tmp in Now(s) && Now(s)[tmp] == i)
  }

  lemma OpenChanges(s: State, pid: nat, ms: nat, payload: string, newInode: Inode)
    requires s.dirs != [] && Next(s, Open(pid, ms, payload, newInode)).Some?
    ensures Opened(s, Next(s, Open(pid, ms, payload, newInode)).value, pid, TempName(s.target, pid, ms))
  {
  }

  lemma OpenedKeepsCall(s: State, s': State, pid: nat, tmp: Name, q: nat)
    requires s.dirs != [] && Linked(s, Now(s)) && q in s.writers && WriterSafe(s, q)
    requires Opened(s, s', pid, tmp) && s.writers[q].tmp != tmp
    ensures SameCall(s, s', q)
  {
    assert q in s'.writers - {pid};
    assert s.writers[q].tmp in Now(s') - {tmp};
  }

  lemma TempNameIsNotShared(s: State, pid: nat, ms: nat, q: nat)
    requires s.dirs != [] && q in s.writers && WriterSafe(s, q) && q != pid
    ensures s.writers[q].tmp != TempName(s.target, pid, ms)
  {
    var ms' :| s.writers[q].tmp == TempName(s.target, q, ms');
    if s.writers[q].tmp == TempName(s.target, pid, ms) {
      TempNamesDistinct(s.target, pid, ms, q, ms');
    }
  }

  lemma OpenKeepsDirs(s: State, pid: nat, ms: nat, payload: string, newInode: Inode)
    requires Safe(s) && Next(s, Open(pid, ms, payload, newInode)).Some?
    ensures var s' := Next(s, Open(pid, ms, payload, newInode)).value;
            s'.dirs != [] && forall k :: 0 <= k < |s'.dirs| ==> DirSafe(s', s'.dirs[k])
  {
    var s' := Next(s, Open(pid, ms, payload, newInode)).value;
    var tmp := TempName(s.target, pid, ms);
    TempNameIsNotTarget(s.target, pid, ms);
    assert DirSafe(s, Now(s));
    if tmp in Now(s) {
      DataChangeKeepsDirs(s, s', Now(s)[tmp]);
    } else {
      forall k | 0 <= k < |s'.dirs|
        ensures DirSafe(s', s'.dirs[k])
      {
        if k < |s.dirs| {
          assert DirSafe(s, s.dirs[k]);
        }
      }
    }
  }

  lemma OpenKeepsSafe(s: State, pid: nat, ms: nat, payload: string, newInode: Inode)
    requires Safe(s) && Next(s, Open(pid, ms, payload, newInode)).Some?
    ensures Safe(Next(s, Open(pid, ms, payload, newInode)).value)
  {
    forall q | q in s.writers
      ensures WriterSafe(Next(s, Open(pid, ms, payload, newInode)).value, q)
    {
      OtherStaysSafe(s, pid, ms, payload, newInode, q);
    }
    OpenKeepsDirs(s, pid, ms, payload, newInode);
    assert DirSafe(s, Now(s));
  }

  /** A call may change its own file and its own progress. */
  lemma OwnFileKeepsSafe(s: State, s': State, pid: nat)
    requires Safe(s) && pid in s.writers && pid in s'.writers
    requires s'.dirs == s.dirs && s'.target == s.target && s'.committed == s.committed
    requires s'.data.Keys == s.data.Keys && forall j :: j in s.data && j != s.writers[pid].inode ==>
              s'.data[j] == s.data[j]
    requires s'.writers - {pid} == s.writers - {pid}
    requires s'.writers[pid].tmp == s.writers[pid].tmp && s'.writers[pid].inode == s.writers[pid].inode
    requires WriterSafe(s, pid) ==> WriterSafe(s', pid)
    ensures Safe(s')
  {
    OwnFileKeepsDirs(s, s', pid);
    forall q | q in s'.writers && q != pid
      ensures WriterSafe(s', q)
    {
      assert q in s'.writers - {pid};
      OwnFileKeepsOther(s, s', pid, q);
    }
  }

  lemma OwnFileKeepsDirs(s: State, s': State, pid: nat)
    requires Safe(s) && pid in s.writers
    requires s'.dirs == s.dirs && s'.target == s.target && s'.committed == s.committed
    requires s'.data.Keys == s.data.Keys && forall j :: j in s.data && j != s.writers[pid].inode ==>
              s'.data[j] == s.data[j]
    ensures forall k :: 0 <= k < |s'.dirs| ==> DirSafe(s', s'.dirs[k])
  {
    var w := s.writers[pid];
    assert WriterSafe(s, pid);
    var ms :| w.tmp == TempName(s.target, pid, ms);
    TempNameIsNotTarget(s.target, pid, ms);
    DataChangeKeepsDirs(s, s', w.inode);
  }

  lemma OwnFileKeepsOther(s: State, s': State, pid: nat, q: nat)
    requires Safe(s) && pid in s.writers && q in s'.writers && q != pid
    requires s'.dirs == s.dirs && s'.target == s.target
    requires s'.data.Keys == s.data.Keys && forall j :: j in s.data && j != s.writers[pid].inode ==>
              s'.data[j] == s.data[j]
    requires s'.writers - {pid} == s.writers - {pid}
    ensures WriterSafe(s', q)
  {
    assert q in s'.writers - {pid};
    assert q in s.writers && s'.writers[q] == s.writers[q];
    assert WriterSafe(s, q);
    WritersApart(s, q, pid);
    assert SameCall(s, s', q);
    SameCallStaysSafe(s, s', q);
  }

  lemma WriteKeepsSafe(s: State, pid: nat, length: nat)
    requires Safe(s) && Next(s, WriteChunk(pid, length)).Some?
    ensures Safe(Next(s, WriteChunk(pid, length)).value)
  {
    var s', w := Next(s, WriteChunk(pid, length)).value, s.writers[pid];
    assert w.payload[..w.written] + w.payload[w.written..w.written + length] == w.payload[..w.written + length];
    OwnFileKeepsSafe(s, s', pid);
  }

  lemma FsyncKeepsSafe(s: State, pid: nat)
    requires Safe(s) && Next(s, Fsync(pid)).Some?
    ensures Safe(Next(s, Fsync(pid)).value)
  {
    OwnFileKeepsSafe(s, Next(s, Fsync(pid)).value, pid);
  }

  lemma CloseKeepsSafe(s: State, pid: nat)
    requires Safe(s) && Next(s, Close(pid)).Some?
    ensures Safe(Next(s, Close(pid)).value)
  {
    OwnFileKeepsSafe(s, Next(s, Close(pid)).value, pid);
  }

  lemma RenameKeepsSafe(s: State, pid: nat)
    requires Safe(s) && Next(s, Rename(pid)).Some?
    ensures Safe(Next(s, Rename(pid)).value)
    ensures Target(Next(s, Rename(pid)).value, Now(Next(s, Rename(pid)).value)) == Some(s.writers[pid].payload)
    ensures s.writers[pid].tmp !in Now(Next(s, Rename(pid)).value)
  {
    var s' := Next(s, Rename(pid)).value;
    var w, d := s.writers[pid], Now(s);
    assert WriterSafe(s, pid) && DirSafe(s, d);
    var ms :| w.tmp == TempName(s.target, pid, ms);
    TempNameIsNotTarget(s.target, pid, ms);
    assert Now(s') == d[s.target := w.inode] - {w.tmp};
    assert w.payload[..w.written] == w.payload;
    forall k | 0 <= k < |s'.dirs|
      ensures DirSafe(s', s'.dirs[k])
    {
      if k < |s.dirs| {
        assert DirSafe(s, s.dirs[k]);
      }
    }
    forall q | q in s'.writers
      ensures WriterSafe(s', q)
    {
      assert WriterSafe(s, q);
      WritersApart(s, q, pid);
      var msq :| s.writers[q].tmp == TempName(s.target, q, msq);
      TempNameIsNotTarget(s.target, q, msq);
    }
  }

  lemma FailureKeepsSafe(s: State, survivor: nat, garbage: map<Inode, string>)
    requires Safe(s) && survivor < |s.dirs|
    ensures Safe(Next(s, PowerFailure(survivor, garbage)).value)
  {
    assert DirSafe(s, s.dirs[survivor]);
  }

  /** Calls have ended, or the oldest directory updates have reached the disk. */
  lemma FewerCallsKeepSafe(s: State, s': State, flushed: nat)
    requires Safe(s) && flushed < |s.dirs| && s'.dirs == s.dirs[flushed..]
    requires s'.target == s.target && s'.data == s.data && s'.committed == s.committed
    requires forall q :: q in s'.writers ==> q in s.writers && s'.writers[q] == s.writers[q]
    ensures Safe(s')
  {
    assert Now(s') == Now(s);
    forall k | 0 <= k < |s'.dirs|
      ensures DirSafe(s', s'.dirs[k])
    {
      assert DirSafe(s, s.dirs[k + flushed]);
    }
    forall q | q in s'.writers
      ensures WriterSafe(s', q)
    {
      assert WriterSafe(s, q);
      SameCallStaysSafe(s, s', q);
    }
  }

  lemma StepKeepsSafe(s: State, step: Step)
    requires Safe(s) && Next(s, step).Some?
    ensures Safe(Next(s, step).value)
  {
    match step {
      case Open(pid, ms, payload, newInode) => OpenKeepsSafe(s, pid, ms, payload, newInode);
      case WriteChunk(pid, length) => WriteKeepsSafe(s, pid, length);
      case Fsync(pid) => FsyncKeepsSafe(s, pid);
      case Close(pid) => CloseKeepsSafe(s, pid);
      case Rename(pid) => RenameKeepsSafe(s, pid);
      case Abandon(pid) => FewerCallsKeepSafe(s, Next(s, step).value, 0);
      case Flush(count) => FewerCallsKeepSafe(s, Next(s, step).value, count);
      case PowerFailure(survivor, garbage) => FailureKeepsSafe(s, survivor, garbage);
    }
  }

  lemma {:induction false} RunKeepsSafe(s: State, steps: seq<Step>)
    requires Safe(s) && Run(s, steps).Some?
    ensures Safe(Run(s, steps).value)
    decreases |steps|
  {
    if steps != [] {
      StepKeepsSafe(s, steps[0]);
      RunKeepsSafe(Next(s, steps[0]).value, steps[1..]);
    }
  }

  lemma WriterNeverAtTarget(s: State, pid: nat)
    requires Safe(s) && pid in s.writers
    ensures s.target in Now(s) ==> Now(s)[s.target] != s.writers[pid].inode
  {
    assert DirSafe(s, Now(s)) && WriterSafe(s, pid);
    var ms :| s.writers[pid].tmp == TempName(s.target, pid, ms);
    TempNameIsNotTarget(s.target, pid, ms);
  }

  /** Changing the data of a call's own file, or the list of calls, changes nothing for a reader. */
  lemma OwnFileIsNotRead(s: State, s': State, pid: nat)
    requires Safe(s) && pid in s.writers
    requires s'.dirs == s.dirs && s'.target == s.target
    requires s'.data.Keys == s.data.Keys && forall j :: j in s.data && j != s.writers[pid].inode ==>
              s'.data[j] == s.data[j]
    ensures Target(s', Now(s')) == Target(s, Now(s))
  {
    WriterNeverAtTarget(s, pid);
  }

  lemma OpenIsNotRead(s: State, pid: nat, ms: nat, payload: string, newInode: Inode)
    requires Safe(s) && Next(s, Open(pid, ms, payload, newInode)).Some?
    ensures Target(Next(s, Open(pid, ms, payload, newInode)).value,
                   Now(Next(s, Open(pid, ms, payload, newInode)).value)) == Target(s, Now(s))
  {
    TempNameIsNotTarget(s.target, pid, ms);
    assert DirSafe(s, Now(s));
  }

  /** What a step does to the target as a reader sees it: nothing, unless it is a rename, which
      shows the whole payload, or a power failure, which shows one of the values before. */
  lemma StepAndReader(s: State, step: Step)
    requires Safe(s) && Next(s, step).Some?
    ensures Next(s, step).value.dirs != []
    ensures Target(Next(s, step).value, Now(Next(s, step).value)) ==
              match step
              case Rename(pid) => Some(s.writers[pid].payload)
              case PowerFailure(survivor, _) => Target(s, s.dirs[survivor])
              case _ => Target(s, Now(s))
  {
    match step {
      case Open(pid, ms, payload, newInode) =>
        OpenIsNotRead(s, pid, ms, payload, newInode);
      case WriteChunk(pid, _) =>
        OwnFileIsNotRead(s, Next(s, step).value, pid);
      case Fsync(pid) =>
        OwnFileIsNotRead(s, Next(s, step).value, pid);
      case Rename(pid) =>
        RenameKeepsSafe(s, pid);
      case PowerFailure(survivor, garbage) =>
        FailureIsRead(s, survivor, garbage);
      case _ =>
        assert Now(Next(s, step).value) == Now(s);
    }
  }

  lemma FailureIsRead(s: State, survivor: nat, garbage: map<Inode, string>)
    requires Safe(s) && survivor < |s.dirs|
    ensures var s' := Next(s, PowerFailure(survivor, garbage)).value;
            s'.dirs != [] && Target(s', Now(s')) == Target(s, s.dirs[survivor])
  {
    assert DirSafe(s, s.dirs[survivor]);
  }

  /** The payloads the calls of a run were given. */
  ghost function Payloads(steps: seq<Step>): set<Option<string>> {
    set k | 0 <= k < |steps| && steps[k].Open? :: Some(steps[k].payload)
  }

  ghost predicate WritersCarry(s: State, values: set<Option<string>>) {
    forall pid :: pid in s.writers ==> Some(s.writers[pid].payload) in values
  }

  lemma StepCarries(s: State, step: Step, values: set<Option<string>>)
    requires s.dirs != [] && Next(s, step).Some?
    requires s.committed <= values && WritersCarry(s, values)
    requires step.Open? ==> Some(step.payload) in values
    ensures Next(s, step).value.committed <= values && WritersCarry(Next(s, step).value, values)
  {
  }

  lemma {:induction false} CommittedWasGiven(s: State, steps: seq<Step>, values: set<Option<string>>)
    requires Safe(s) && Run(s, steps).Some?
    requires s.committed <= values && WritersCarry(s, values)
    requires forall k :: 0 <= k < |steps| && steps[k].Open? ==> Some(steps[k].payload) in values
    ensures Run(s, steps).value.committed <= values
    decreases |steps|
  {
    if steps != [] {
      StepKeepsSafe(s, steps[0]);
      StepCarries(s, steps[0], values);
      CommittedWasGiven(Next(s, steps[0]).value, steps[1..], values);
    }
  }

  /** Atomic replace, over every run: with any number of processes writing at once, failing or dying
      anywhere, and power failures at any point that garble everything not fsynced, the target as
      read now, and as it would be recovered after a power failure now, is the original or the
      complete payload some call was given. */
  lemma AtomicReplace(s: State, steps: seq<Step>)
    requires Initial(s) && Run(s, steps).Some?
    ensures Safe(Run(s, steps).value)
    ensures forall d :: d in Run(s, steps).value.dirs ==>
              Target(Run(s, steps).value, d) in {Target(s, Now(s))} + Payloads(steps)
  {
    var end := Run(s, steps).value;
    assert DirSafe(s, Now(s));
    RunKeepsSafe(s, steps);
    CommittedWasGiven(s, steps, {Target(s, Now(s))} + Payloads(steps));
    forall d | d in end.dirs
      ensures Target(end, d) in {Target(s, Now(s))} + Payloads(steps)
    {
      var k :| 0 <= k < |end.dirs| && end.dirs[k] == d;
      assert DirSafe(end, end.dirs[k]);
    }
  }

  /** What a file reads as after a power failure that leaves the present directory. */
  ghost predicate MayRead(s: State, name: Name, text: string)
    requires s.dirs != []
  {
    exists garbage :: AfterFailure(s, garbage, name, text)
  }

  ghost predicate AfterFailure(s: State, garbage: map<Inode, string>, name: Name, text: string)
    requires s.dirs != []
  {
    var after := Next(s, PowerFailure(|s.dirs| - 1, garbage));
    after.Some? && Reads(after.value, name, text)
  }

  /** What the fsync is for: a power failure may leave any text at all in the file of a call until
      the call has fsynced it, and the whole payload from then on. */
  lemma GarbledUntilFsyncIff(s: State, pid: nat, text: string)
    requires Safe(s) && pid in s.writers
    ensures MayRead(s, s.writers[pid].tmp, text) <==>
              s.writers[pid].phase.Writing? || text == s.writers[pid].payload
  {
    var w := s.writers[pid];
    assert WriterSafe(s, pid);
    assert w.payload[..|w.payload|] == w.payload;
    var garbage := map[w.inode := text];
    if w.phase.Writing? || text == w.payload {
      assert AfterFailure(s, garbage, w.tmp, text);
    }
  }

  // ----- the function itself

  /** Where a call stops early: an exception from the named operation. */
  datatype Fault = NoFault | AtOpen | AtWrite(written: nat) | AtFsync | AtClose | AtRename

  /** The file system as one process sees it while it runs writeAtomicSync. */
  class Disk {
    var st: State

    constructor (st: State)
      ensures this.st == st
    {
      this.st := st;
    }

    // The operations of Node's fs, each one step of the machine. `s0` is the state in which the
    // call began and `at` how far it has come.

    method OpenSync(pid: nat, ms: nat, contents: string, newInode: Inode)
      requires Safe(st) && pid !in st.writers && newInode !in st.data
      modifies this
      ensures InCall(old(st), st, pid, Progress(TempName(old(st).target, pid, ms), contents, 0, Writing))
    {
      OpenUndisturbed(st, pid, ms, contents, newInode);
      st := Next(st, Open(pid, ms, contents, newInode)).value;
    }

    method WriteFileSync(pid: nat, length: nat, ghost s0: State, ghost at: Progress)
      requires s0.dirs != [] && InCall(s0, st, pid, at) && at.phase.Writing? && at.written + length <= |at.payload|
      modifies this
      ensures InCall(s0, st, pid, at.(written := at.written + length))
    {
      WriteUndisturbed(s0, st, pid, length, at);
      st := Next(st, WriteChunk(pid, length)).value;
    }

    method FsyncSync(pid: nat, ghost s0: State, ghost at: Progress)
      requires s0.dirs != [] && InCall(s0, st, pid, at) && at.phase.Writing? && at.written == |at.payload|
      modifies this
      ensures InCall(s0, st, pid, at.(phase := Synced))
    {
      FsyncUndisturbed(s0, st, pid, at);
      st := Next(st, Fsync(pid)).value;
    }

    method CloseSync(pid: nat, ghost s0: State, ghost at: Progress)
      requires s0.dirs != [] && InCall(s0, st, pid, at) && at.phase.Synced?
      modifies this
      ensures InCall(s0, st, pid, at.(phase := Closed))
    {
      CloseUndisturbed(s0, st, pid, at);
      st := Next(st, Close(pid)).value;
    }

    method RenameSync(pid: nat, ghost s0: State, ghost at: Progress)
      requires s0.dirs != [] && InCall(s0, st, pid, at) && at.phase.Closed?
      modifies this
      ensures Safe(st) && st.writers == s0.writers && Replaced(s0, st, at.tmp, at.payload)
    {
      RenameReplaces(s0, st, pid, at);
      st := Next(st, Rename(pid)).value;
    }

    /** The exception leaves the function; the `finally` has closed the descriptor. */
    method Throw(pid: nat, ghost s0: State, ghost at: Progress)
      requires s0.dirs != [] && InCall(s0, st, pid, at)
      modifies this
      ensures Safe(st) && st.writers == s0.writers && Undisturbed(s0, st, at.tmp)
      ensures at.written <= |at.payload| && Reads(st, at.tmp, at.payload[..at.written])
    {
      AbandonUndisturbed(s0, st, pid, at);
      st := Next(st, Abandon(pid)).value;
    }

    /** Either the target now reads as `contents`, safely on disk, and the temporary name is gone;
        or an exception was thrown and the target reads as before. Nothing removes the temporary file
        then: it keeps what had been written. */
    method WriteAtomicSync(pid: nat, ms: nat, contents: string, newInode: Inode, fault: Fault) returns (ok: bool)
      requires Safe(st) && pid !in st.writers && newInode !in st.data
      requires fault.AtWrite? ==> fault.written <= |contents|
      modifies this
      ensures Safe(st) && st.writers == old(st).writers
      ensures ok <==> fault.NoFault?
      ensures ok ==> Replaced(old(st), st, TempName(old(st).target, pid, ms), contents)
      ensures !ok ==> Undisturbed(old(st), st, TempName(old(st).target, pid, ms))
      ensures fault.AtOpen? ==> st == old(st)
      ensures !ok && !fault.AtOpen? ==>
                Reads(st, TempName(old(st).target, pid, ms),
                      if fault.AtWrite? then contents[..fault.written] else contents)
    {
      ghost var s0 := st;
      ghost var at := Progress(TempName(st.target, pid, ms), contents, 0, Writing);
      if fault.AtOpen? {
        return false;
      }
      assert contents[..|contents|] == contents;
      OpenSync(pid, ms, contents, newInode);
      if fault.AtWrite? {
        WriteFileSync(pid, fault.written, s0, at);
        at := at.(written := fault.written);
        Throw(pid, s0, at);
        return false;
      }
      WriteFileSync(pid, |contents|, s0, at);
      at := at.(written := |contents|);
      if fault.AtFsync? {
        Throw(pid, s0, at);
        return false;
      }
      FsyncSync(pid, s0, at);
      at := at.(phase := Synced);
      if fault.AtClose? {
        Throw(pid, s0, at);
        return false;
      }
      CloseSync(pid, s0, at);
      at := at.(phase := Closed);
      if fault.AtRename? {
        Throw(pid, s0, at);
        return false;
      }
      RenameSync(pid, s0, at);
      return true;
    }
  }

  /** The name leads to a file with this text. */
  ghost predicate Reads(s: State, name: Name, bytes: string) {
    s.dirs != [] && name in Now(s) && Now(s)[name] in s.data && s.data[Now(s)[name]].bytes == bytes
  }

  /** Only the temporary name may lead elsewhere than before, and the target reads the same. */
  ghost predicate Undisturbed(s0: State, s: State, tmp: Name)
    requires s0.dirs != []
  {
    && s.dirs != [] && s.target == s0.target
    && Target(s, Now(s)) == Target(s0, Now(s0))
    && Now(s) - {tmp} == Now(s0) - {tmp}
  }

  /** The target reads as `contents` and is on disk; the temporary name is gone; every other name
      leads where it led. */
  ghost predicate Replaced(s0: State, s: State, tmp: Name, contents: string)
    requires s0.dirs != []
  {
    && s.dirs != [] && s.target == s0.target
    && Target(s, Now(s)) == Some(contents) && s.data[Now(s)[s.target]].synced
    && tmp !in Now(s)
    && Now(s) - {s.target} == Now(s0) - {tmp, s.target}
  }

  datatype Progress = Progress(tmp: Name, payload: string, written: nat, phase: Phase)

  /** Process `pid` is in the middle of a call begun at `s0`, and nothing else has changed. */
  ghost predicate InCall(s0: State, s: State, pid: nat, at: Progress)
    requires s0.dirs != []
  {
    && Safe(s) && pid in s.writers && pid !in s0.writers && s.writers - {pid} == s0.writers
    && s.writers[pid].tmp == at.tmp && s.writers[pid].payload == at.payload
    && s.writers[pid].written == at.written && s.writers[pid].phase == at.phase
    && Undisturbed(s0, s, at.tmp)
  }

  lemma OpenUndisturbed(s: State, pid: nat, ms: nat, payload: string, newInode: Inode)
    requires Safe(s) && pid !in s.writers && newInode !in s.data
    ensures Next(s, Open(pid, ms, payload, newInode)).Some?
    ensures InCall(s, Next(s, Open(pid, ms, payload, newInode)).value, pid,
                   Progress(TempName(s.target, pid, ms), payload, 0, Writing))
  {
    var step := Open(pid, ms, payload, newInode);
    OpenIsNotRead(s, pid, ms, payload, newInode);
    OpenKeepsSafe(s, pid, ms, payload, newInode);
    var s' := Next(s, step).value;
    assert s'.writers - {pid} == s.writers;
  }

  /** A step of a call on its own file, and on its own entry in the list of calls. */
  lemma OwnStepUndisturbed(s0: State, s: State, s': State, pid: nat, tmp: Name)
    requires s0.dirs != [] && Safe(s) && pid in s.writers && Undisturbed(s0, s, tmp)
    requires s'.dirs == s.dirs && s'.target == s.target
    requires s'.data.Keys == s.data.Keys && forall j :: j in s.data && j != s.writers[pid].inode ==>
              s'.data[j] == s.data[j]
    requires pid in s'.writers && s'.writers == s.writers[pid := s'.writers[pid]]
    ensures Undisturbed(s0, s', tmp) && s'.writers - {pid} == s.writers - {pid}
  {
    OwnFileIsNotRead(s, s', pid);
  }

  lemma WriteUndisturbed(s0: State, s: State, pid: nat, length: nat, at: Progress)
    requires s0.dirs != [] && InCall(s0, s, pid, at) && at.phase.Writing? && at.written + length <= |at.payload|
    ensures Next(s, WriteChunk(pid, length)).Some?
    ensures InCall(s0, Next(s, WriteChunk(pid, length)).value, pid, at.(written := at.written + length))
  {
    assert WriterSafe(s, pid);
    WriteKeepsSafe(s, pid, length);
    OwnStepUndisturbed(s0, s, Next(s, WriteChunk(pid, length)).value, pid, at.tmp);
  }

  lemma FsyncUndisturbed(s0: State, s: State, pid: nat, at: Progress)
    requires s0.dirs != [] && InCall(s0, s, pid, at) && at.phase.Writing? && at.written == |at.payload|
    ensures Next(s, Fsync(pid)).Some?
    ensures InCall(s0, Next(s, Fsync(pid)).value, pid, at.(phase := Synced))
  {
    assert WriterSafe(s, pid);
    FsyncKeepsSafe(s, pid);
    OwnStepUndisturbed(s0, s, Next(s, Fsync(pid)).value, pid, at.tmp);
  }

  lemma CloseUndisturbed(s0: State, s: State, pid: nat, at: Progress)
    requires s0.dirs != [] && InCall(s0, s, pid, at) && at.phase.Synced?
    ensures Next(s, Close(pid)).Some?
    ensures InCall(s0, Next(s, Close(pid)).value, pid, at.(phase := Closed))
  {
    CloseKeepsSafe(s, pid);
    OwnStepUndisturbed(s0, s, Next(s, Close(pid)).value, pid, at.tmp);
  }

  lemma AbandonUndisturbed(s0: State, s: State, pid: nat, at: Progress)
    requires s0.dirs != [] && InCall(s0, s, pid, at)
    ensures Next(s, Abandon(pid)).Some?
    ensures Safe(Next(s, Abandon(pid)).value) && Next(s, Abandon(pid)).value.writers == s0.writers
    ensures Undisturbed(s0, Next(s, Abandon(pid)).value, at.tmp)
    ensures at.written <= |at.payload| && Reads(Next(s, Abandon(pid)).value, at.tmp, at.payload[..at.written])
  {
    assert WriterSafe(s, pid);
    StepKeepsSafe(s, Abandon(pid));
  }

  lemma RenameReplaces(s0: State, s: State, pid: nat, at: Progress)
    requires s0.dirs != [] && InCall(s0, s, pid, at) && at.phase.Closed?
    ensures Next(s, Rename(pid)).Some?
    ensures Safe(Next(s, Rename(pid)).value) && Next(s, Rename(pid)).value.writers == s0.writers
    ensures Replaced(s0, Next(s, Rename(pid)).value, at.tmp, at.payload)
  {
    assert WriterSafe(s, pid);
    RenameKeepsSafe(s, pid);
    var s', w := Next(s, Rename(pid)).value, s.writers[pid];
    assert DirSafe(s', Now(s')) && DirSafe(s, Now(s));
    WriterNeverAtTarget(s, pid);
    var ms :| w.tmp == TempName(s.target, pid, ms);
    TempNameIsNotTarget(s.target, pid, ms);
    assert Now(s') == Now(s)[s.target := w.inode] - {w.tmp};
    assert Now(s') - {s.target} == (Now(s) - {w.tmp}) - {s.target};
    assert Now(s0) - {w.tmp, s.target} == (Now(s0) - {w.tmp}) - {s.target};
  }
}
