/** The incremental scan for abandoned records (src/abandoned-recheck.js:31-49). */
module AbandonedScan {
  type Id = int

  /** A record of done/: its mtime, and whether it reads as abandoned (an unreadable one does not). */
  datatype Rec = Rec(mtime: int, abandoned: bool)

  type Disk = map<Id, Rec>

  /** A minute, in milliseconds. */
  const OVERLAP := 60000

  /** The file is skipped: untouched since the last scan, and not held. */
  predicate Skipped(disk: Disk, since: int, held: bool, id: Id)
    requires id in disk
  {
    since != 0 && disk[id].mtime < since && !held
  }

  /** Whether `id` is held after a scan that found it held or not. */
  predicate HeldAfter(disk: Disk, since: int, held: bool, id: Id) {
    if id in disk && !Skipped(disk, since, held, id) then disk[id].abandoned else held
  }

  function Without(ids: seq<Id>, id: Id): seq<Id> {
    if ids == [] then [] else (if ids[0] == id then [] else [ids[0]]) + Without(ids[1..], id)
  }

  lemma {:induction false} WithoutIs(ids: seq<Id>, id: Id)
    ensures forall x :: x in Without(ids, id) <==> x in ids && x != id
    decreases |ids|
  {
    if ids != [] {
      WithoutIs(ids[1..], id);
    }
  }

  lemma WithoutCons(h: Id, rest: seq<Id>, id: Id)
    ensures Without([h] + rest, id) == (if h == id then [] else [h]) + Without(rest, id)
  {
    assert ([h] + rest)[1..] == rest;
  }

  lemma {:induction false} WithoutAbsent(ids: seq<Id>, id: Id)
    requires id !in ids
    ensures Without(ids, id) == ids
    decreases |ids|
  {
    if ids != [] {
      WithoutAbsent(ids[1..], id);
    }
  }

  ghost predicate NoRepeats(ids: seq<Id>) {
    forall i, j :: 0 <= i < j < |ids| ==> ids[i] != ids[j]
  }

  lemma {:induction false} WithoutKeepsNoRepeats(ids: seq<Id>, id: Id)
    ensures NoRepeats(ids) ==> NoRepeats(Without(ids, id))
    decreases |ids|
  {
    if ids != [] {
      WithoutKeepsNoRepeats(ids[1..], id);
      WithoutIs(ids[1..], id);
      var rest := Without(ids[1..], id);
      if NoRepeats(ids) {
        assert NoRepeats(ids[1..]);
        forall j | 0 <= j < |rest|
          ensures rest[j] != ids[0]
        {
          assert rest[j] in rest;
          var k :| 0 <= k < |ids| - 1 && ids[1..][k] == rest[j];
          assert ids[k + 1] == rest[j];
        }
      }
    }
  }

  /** The state kept in queue/abandoned-recheck-state.json. */
  class IndexState {
    var scannedAtMs: int
    var abandoned: seq<Id>
    var checked: map<Id, int>

    constructor (scannedAtMs: int, abandoned: seq<Id>, checked: map<Id, int>)
      ensures this.scannedAtMs == scannedAtMs && this.abandoned == abandoned && this.checked == checked
    {
      this.scannedAtMs, this.abandoned, this.checked := scannedAtMs, abandoned, checked;
    }

    /** `names` is the listing of done/ in any order; `now` the clock when the scan began. */
    method ScanForAbandoned(disk: Disk, names: seq<Id>, now: int)
      requires forall id :: id in names <==> id in disk
      modifies this`abandoned, this`scannedAtMs
      ensures scannedAtMs == now - 60000
      ensures forall id :: id in abandoned <==> HeldAfter(disk, old(scannedAtMs), id in old(abandoned), id)
      ensures forall id :: id in disk ==>
                (id in abandoned <==>
                 && disk[id].abandoned
                 && (old(scannedAtMs) == 0 || disk[id].mtime >= old(scannedAtMs) || id in old(abandoned)))
      ensures forall id :: id !in disk ==> (id in abandoned <==> id in old(abandoned))
      ensures NoRepeats(old(abandoned)) ==> NoRepeats(abandoned)
      ensures (forall id :: id in disk ==> (id in old(abandoned) <==> disk[id].abandoned)) ==>
                abandoned == old(abandoned)
    {
      var since := scannedAtMs;
      var known := abandoned;
      var k := 0;
      while k < |names|
        invariant 0 <= k <= |names| && since == old(scannedAtMs)
        invariant forall id :: id in known <==>
                    if id in names[..k] then HeldAfter(disk, since, id in old(abandoned), id) else id in old(abandoned)
        invariant (forall id :: id in disk ==> (id in old(abandoned) <==> disk[id].abandoned)) ==>
                  known == old(abandoned)
        invariant NoRepeats(old(abandoned)) ==> NoRepeats(known)
      {
        var id := names[k];
        assert id in names && names[..k + 1] == names[..k] + [id];
        if since != 0 && disk[id].mtime < since && id !in known {
        } else if disk[id].abandoned {
          if id !in known {
            known := known + [id];
          }
        } else {
          WithoutIs(known, id);
          if id !in known {
            WithoutAbsent(known, id);
          }
          WithoutKeepsNoRepeats(known, id);
          known := Without(known, id);
        }
        k := k + 1;
      }
      abandoned := known;
      scannedAtMs := now - OVERLAP;
    }
  }

  // ----- runs of writes and scans

  /** `clock` is the start of the latest scan: what happens next happens no earlier. */
  datatype State = State(disk: Disk, held: set<Id>, since: int, clock: int)

  /** `Write` makes a record visible at time `at`; `Forget` is the recheck dropping an id whose
      record it corrected or moved away. */
  datatype Event =
    | Write(id: Id, rec: Rec, at: int)
    | Remove(id: Id)
    | Forget(id: Id)
    | Scan(now: int)

  /** A record becomes visible at most `delay` milliseconds after its mtime. */
  predicate Enabled(delay: int, s: State, e: Event) {
    match e
    case Write(_, rec, at) => at >= s.clock && at <= rec.mtime + delay
    case Remove(_) => true
    case Forget(id) => id !in s.disk || !s.disk[id].abandoned
    case Scan(now) => now >= s.clock
  }

  function Next(s: State, e: Event): State {
    match e
    case Write(id, rec, _) => s.(disk := s.disk[id := rec])
    case Remove(id) => s.(disk := s.disk - {id})
    case Forget(id) => s.(held := s.held - {id})
    case Scan(now) =>
      s.(held := (set id | id in s.held + s.disk.Keys && HeldAfter(s.disk, s.since, id in s.held, id)),
         since := now - OVERLAP, clock := now)
  }

  function RunAll(s: State, events: seq<Event>): State {
    if events == [] then s else Next(RunAll(s, events[..|events| - 1]), events[|events| - 1])
  }

  predicate EnabledRun(delay: int, s: State, events: seq<Event>) {
    events == [] ||
    (EnabledRun(delay, s, events[..|events| - 1])
     && Enabled(delay, RunAll(s, events[..|events| - 1]), events[|events| - 1]))
  }

  /** The index agrees with a full scan of what is there. */
  ghost predicate Exact(s: State) {
    forall id :: id in s.disk ==> (id in s.held <==> s.disk[id].abandoned)
  }

  /** Between scans: the index is right about every file the next scan would skip. */
  ghost predicate RightBelowWatermark(s: State) {
    && (s.since != 0 ==> s.since <= s.clock - OVERLAP)
    && forall id :: id in s.disk && s.since != 0 && s.disk[id].mtime < s.since ==>
          (id in s.held <==> s.disk[id].abandoned)
  }

  lemma EventKeepsRight(s: State, e: Event)
    requires RightBelowWatermark(s) && Enabled(OVERLAP, s, e)
    ensures RightBelowWatermark(Next(s, e))
    ensures e.Scan? ==> Exact(Next(s, e))
  {
  }

  lemma {:induction false} RunKeepsRight(s: State, events: seq<Event>)
    requires s.since == 0 && EnabledRun(OVERLAP, s, events)
    ensures RightBelowWatermark(RunAll(s, events))
    decreases |events|
  {
    if events != [] {
      RunKeepsRight(s, events[..|events| - 1]);
      EventKeepsRight(RunAll(s, events[..|events| - 1]), events[|events| - 1]);
    }
  }

  /** Over any run that starts with no scan made, in which every record becomes visible at most a
      minute after its mtime: after every scan the ids held, restricted to the files that exist, are
      exactly those whose record is abandoned. */
  lemma IncrementalScanIsExact(s: State, events: seq<Event>)
    requires s.since == 0 && EnabledRun(OVERLAP, s, events)
    requires events != [] && events[|events| - 1].Scan?
    ensures Exact(RunAll(s, events))
  {
    RunKeepsRight(s, events[..|events| - 1]);
    EventKeepsRight(RunAll(s, events[..|events| - 1]), events[|events| - 1]);
  }

  /** One scan is right about a file exactly when the file was touched since the watermark, or is
      held already, or is not abandoned. */
  lemma ScanIsRightIff(disk: Disk, since: int, held: bool, id: Id)
    requires id in disk
    ensures (HeldAfter(disk, since, held, id) <==> disk[id].abandoned)
       <==> since == 0 || disk[id].mtime >= since || held || !disk[id].abandoned
  {
  }

  ghost predicate AlwaysExact(delay: int) {
    forall s: State, events: seq<Event> ::
      s.since == 0 && EnabledRun(delay, s, events) && events != [] && events[|events| - 1].Scan? ==>
      Exact(RunAll(s, events))
  }

  /** The minute is exact: every scan of every run is right if and only if no record becomes visible
      more than a minute after its mtime. */
  lemma OverlapIsTheMostDelay(delay: int)
    ensures AlwaysExact(delay) <==> delay <= 60000
  {
    if delay <= OVERLAP {
      forall s: State, events: seq<Event> | s.since == 0 && EnabledRun(delay, s, events) && events != []
          && events[|events| - 1].Scan?
        ensures Exact(RunAll(s, events))
      {
        LessDelay(delay, s, events);
        IncrementalScanIsExact(s, events);
      }
    } else {
      var events := MissedRun();
      MissedRunIsMissed(delay);
      assert Empty().since == 0 && events[|events| - 1].Scan?;
    }
  }

  lemma {:induction false} LessDelay(delay: int, s: State, events: seq<Event>)
    requires delay <= OVERLAP && EnabledRun(delay, s, events)
    ensures EnabledRun(OVERLAP, s, events)
    decreases |events|
  {
    if events != [] {
      LessDelay(delay, s, events[..|events| - 1]);
    }
  }

  function Empty(): State { State(map[], {}, 0, 1) }

  /** A scan; then a record becomes visible one millisecond too late; then another scan. */
  function MissedRun(): seq<Event> {
    [Scan(OVERLAP + 2), Write(0, Rec(1, true), OVERLAP + 2), Scan(OVERLAP + 2)]
  }

  lemma MissedRunIsMissed(delay: int)
    requires delay > OVERLAP
    ensures EnabledRun(delay, Empty(), MissedRun()) && !Exact(RunAll(Empty(), MissedRun()))
  {
    var s, all := Empty(), MissedRun();
    var one, two := [all[0]], [all[0], all[1]];
    assert all[..2] == two && two[..1] == one && one[..0] == [];
    var s1 := Next(s, all[0]);
    assert RunAll(s, []) == s && RunAll(s, one) == s1 && EnabledRun(delay, s, one);
    var s2 := Next(s1, all[1]);
    assert RunAll(s, two) == s2 && EnabledRun(delay, s, two);
    assert RunAll(s, all) == Next(s2, all[2]) && EnabledRun(delay, s, all);
    assert 0 in s2.disk && 0 !in s2.held && s2.since == 2;
  }

  /** A record moved into done/ with an mtime more than a minute old is missed by that scan and by
      every later one, until it is touched. */
  lemma {:induction false} LateRecordStaysMissed(s: State, scans: seq<Event>, id: Id)
    requires id in s.disk && s.disk[id].abandoned && id !in s.held && s.since != 0 && s.disk[id].mtime < s.since
    requires EnabledRun(OVERLAP, s, scans) && s.since <= s.clock - OVERLAP
    requires forall k :: 0 <= k < |scans| ==> scans[k].Scan? && scans[k].now != OVERLAP
    ensures var end := RunAll(s, scans);
            id !in end.held && id in end.disk && end.disk[id] == s.disk[id] && end.since != 0
                && s.since <= end.since <= end.clock - OVERLAP
    decreases |scans|
  {
    if scans != [] {
      LateRecordStaysMissed(s, scans[..|scans| - 1], id);
    }
  }
}
