/** One hub, one chain: the records a decomposition writes (src/apply-adhoc-diff.js:155-311). */
module HubQueue {
  import opened Wrappers
  import opened Decimal
  import opened HubFold

  datatype Stacked = Stacked(branch: string, slot: int, total: int)

  /** The task that decomposed. Its `stacked` counts only with a branch; `ownBranch` is
      `agent/decompose-` and the slug of its id. */
  datatype Parent = Parent(id: string, ownBranch: string, stacked: Option<Stacked>,
                           carriedPartialDiff: Option<string>, premium: bool)

  /** A written record. A piece's prompt text is `rawText`, after the note on prior work when
      `priorWorkNote`, and before `filesLine`. */
  datatype Record =
    | Routed(id: string, title: string, evidenceText: string, rawText: string, premium: bool)
    | Piece(id: string, title: string, rawText: string, priorWorkNote: bool, filesLine: string,
            stacked: Option<Stacked>, dependsOn: Option<string>,
            priorPartialDiff: Option<string>, acceptanceCriteria: seq<string>, premium: bool)

  // ----- ids

  function Pad2(n: nat): string {
    if |Numeral(n)| < 2 then "0" + Numeral(n) else Numeral(n)
  }

  /** src/hub-serial.js:71-73 */
  function MemberId(hubLabel: string, number: nat, slug: string): string {
    hubLabel + "-" + Pad2(number) + "-" + slug
  }

  lemma {:induction false} NumeralStart(n: nat)
    requires n > 0
    ensures Numeral(n)[0] != '0'
    decreases n
  {
    if n >= 10 {
      NumeralStart(n / 10);
    }
  }

  lemma Pad2Injective(m: nat, n: nat)
    requires m > 0 && n > 0 && Pad2(m) == Pad2(n)
    ensures m == n
  {
    NumeralStart(m);
    NumeralStart(n);
    NumeralLength(m);
    NumeralLength(n);
    assert m < 10 ==> Pad2(m)[1..] == Numeral(m);
    assert n < 10 ==> Pad2(n)[1..] == Numeral(n);
    NumeralInjective(m, n);
  }

  /** Members of one hub have different ids, whatever their titles. */
  lemma MemberIdsDistinct(hubLabel: string, m: nat, slugM: string, n: nat, slugN: string)
    requires m > 0 && n > 0 && MemberId(hubLabel, m, slugM) == MemberId(hubLabel, n, slugN)
    ensures m == n
  {
    var a, b := Pad2(m), Pad2(n);
    var id := MemberId(hubLabel, m, slugM);
    NumeralIsDigits(m);
    NumeralIsDigits(n);
    var from := |hubLabel| + 1;
    assert id[from..from + |a|] == a && id[from + |a|] == '-';
    assert id == MemberId(hubLabel, n, slugN);
    assert id[from..from + |b|] == b && id[from + |b|] == '-';
    assert forall k :: 0 <= k < |a| ==> id[from + k] == a[k];
    assert forall k :: 0 <= k < |b| ==> id[from + k] == b[k];
    assert |a| == |b|;
    Pad2Injective(m, n);
  }

  // ----- the chain

  /** The surviving pieces below `n`, in proposal order. */
  function Survivors(subs: seq<Proposal>, n: nat): (r: seq<nat>)
    requires n <= |subs|
    ensures forall k :: 0 <= k < |r| ==> r[k] < n
  {
    if n == 0 then [] else Survivors(subs, n - 1) + (if Survives(subs, n - 1) then [n - 1] else [])
  }

  /** They are exactly the pieces that survive, in increasing order. */
  lemma {:induction false} SurvivorsAreSurvivors(subs: seq<Proposal>, n: nat)
    requires n <= |subs|
    ensures forall i: nat :: i in Survivors(subs, n) <==> i < n && Survives(subs, i)
    ensures forall k, l :: 0 <= k < l < |Survivors(subs, n)| ==> Survivors(subs, n)[k] < Survivors(subs, n)[l]
    decreases n
  {
    if n > 0 {
      SurvivorsAreSurvivors(subs, n - 1);
    }
  }

  function Nested(parent: Parent): bool {
    parent.stacked.Some? && parent.stacked.value.branch != ""
  }

  function Branch(parent: Parent): string {
    if Nested(parent) then parent.stacked.value.branch else parent.ownBranch
  }

  /** `Number(nested.seq) || 1` */
  function FirstSlot(parent: Parent): int {
    if Nested(parent) && parent.stacked.value.slot != 0 then parent.stacked.value.slot else 1
  }

  function SlotOf(parent: Parent, rank: nat): int {
    FirstSlot(parent) + rank
  }

  function ChainTotal(parent: Parent, pieces: nat): int {
    var before :=
      if !Nested(parent) then 0
      else if parent.stacked.value.total != 0 then parent.stacked.value.total - 1
      else FirstSlot(parent) - 1;
    before + pieces
  }

  predicate Blank(s: string) {
    forall k :: 0 <= k < |s| ==> s[k] in {' ', '\t', '\n', '\r'}
  }

  function CarriedDiff(parent: Parent): Option<string> {
    if parent.carriedPartialDiff.Some? && !Blank(parent.carriedPartialDiff.value) then parent.carriedPartialDiff
    else None
  }

  /** The texts of the pieces below `n` folded into `s`, in order. */
  function Criteria(subs: seq<Proposal>, s: nat, n: nat): seq<string>
    requires n <= |subs|
  {
    if n == 0 then []
    else Criteria(subs, s, n - 1)
         + (if !Survives(subs, n - 1) && Survivor(subs, n - 1) == s then [subs[n - 1].rawText] else [])
  }

  lemma {:induction false} CriteriaAreFolded(subs: seq<Proposal>, s: nat, n: nat)
    requires n <= |subs|
    ensures |Criteria(subs, s, n)| == |FoldedInto(subs, s, n)|
    ensures forall k :: 0 <= k < |Criteria(subs, s, n)| ==>
              Criteria(subs, s, n)[k] == subs[FoldedInto(subs, s, n)[k]].rawText
    decreases n
  {
    if n > 0 {
      CriteriaAreFolded(subs, s, n - 1);
    }
  }

  /** The ids of all proposals, folded ones included. */
  function Ids(hubLabel: string, subs: seq<Proposal>): (ids: seq<string>)
    ensures |ids| == |subs|
  {
    seq(|subs|, i requires 0 <= i < |subs| => MemberId(hubLabel, i + 1, subs[i].slug))
  }

  ghost predicate DistinctIds(ids: seq<string>) {
    forall i, j :: 0 <= i < j < |ids| ==> ids[i] != ids[j]
  }

  lemma IdsAreDistinct(hubLabel: string, subs: seq<Proposal>)
    ensures DistinctIds(Ids(hubLabel, subs))
  {
    forall i, j | 0 <= i < j < |subs|
      ensures Ids(hubLabel, subs)[i] != Ids(hubLabel, subs)[j]
    {
      if Ids(hubLabel, subs)[i] == Ids(hubLabel, subs)[j] {
        MemberIdsDistinct(hubLabel, i + 1, subs[i].slug, j + 1, subs[j].slug);
      }
    }
  }

  /** The record of surviving piece `i`, the `rank`-th of `pieces` survivors, after `prev`. */
  function RecordOf(ids: seq<string>, subs: seq<Proposal>, parent: Parent, pieces: nat, i: nat, rank: nat,
                    prev: Option<nat>): Record
    requires |ids| == |subs| && i < |subs| && (prev.Some? ==> prev.value < |subs|)
  {
    var sub := subs[i];
    if sub.disposition then
      Routed(ids[i], sub.title, if sub.rawText != "" then sub.rawText else sub.title, sub.rawText, parent.premium)
    else
      var carries := CarriedDiff(parent).Some? && rank == 0;
      Piece(
        ids[i], sub.title, sub.rawText, carries, sub.filesLine,
        if pieces >= 2 then Some(Stacked(Branch(parent), SlotOf(parent, rank), ChainTotal(parent, pieces))) else None,
        if pieces >= 2 && prev.Some? then Some(ids[prev.value]) else None,
        if carries then CarriedDiff(parent) else None,
        Criteria(subs, i, |subs|),
        parent.premium)
  }

  /** The survivor before the `k`-th. */
  function Before(survivors: seq<nat>, k: nat): Option<nat>
    requires k <= |survivors|
  {
    if k > 0 then Some(survivors[k - 1]) else None
  }

  /** The records of a hub, one per survivor, in order. */
  function Records(ids: seq<string>, subs: seq<Proposal>, parent: Parent): (r: seq<Record>)
    requires |ids| == |subs|
    ensures |r| == |Survivors(subs, |subs|)|
  {
    var s := Survivors(subs, |subs|);
    seq(|s|, k requires 0 <= k < |s| => RecordOf(ids, subs, parent, |s|, s[k], k, Before(s, k)))
  }

  /** The entry of `extraCriteria` for `s`; no entry means no criteria. */
  function Extra(extra: map<nat, seq<string>>, s: nat): seq<string> {
    if s in extra then extra[s] else []
  }

  ghost predicate ExtraBelow(subs: seq<Proposal>, extra: map<nat, seq<string>>, n: nat)
    requires n <= |subs|
  {
    forall s: nat {:trigger Extra(extra, s)} :: Extra(extra, s) == Criteria(subs, s, n)
  }

  /** `extraCriteria`: for each survivor the texts folded into it. */
  method ExtraCriteria(subs: seq<Proposal>, targets: map<nat, nat>) returns (extra: map<nat, seq<string>>)
    requires TargetsBelow(subs, targets, |subs|)
    ensures ExtraBelow(subs, extra, |subs|)
  {
    extra := map[];
    for i := 0 to |subs|
      invariant ExtraBelow(subs, extra, i)
    {
      ghost var before := extra;
      if i in targets {
        var target := targets[i];
        var list := if target in extra then extra[target] else [];
        extra := extra[target := list + [subs[i].rawText]];
      }
      ExtraStep(subs, before, i, extra);
    }
  }

  lemma ExtraStep(subs: seq<Proposal>, extra: map<nat, seq<string>>, i: nat, extra': map<nat, seq<string>>)
    requires i < |subs| && ExtraBelow(subs, extra, i)
    requires Survives(subs, i) ==> extra' == extra
    requires !Survives(subs, i) ==>
              extra' == extra[Survivor(subs, i) := Extra(extra, Survivor(subs, i)) + [subs[i].rawText]]
    ensures ExtraBelow(subs, extra', i + 1)
  {
    forall s: nat
      ensures Extra(extra', s) == Criteria(subs, s, i + 1)
    {
      assert Extra(extra, s) == Criteria(subs, s, i);
    }
  }

  /** The record of one surviving piece, field by field. */
  method BuildRecord(ids: seq<string>, subs: seq<Proposal>, parent: Parent, extra: map<nat, seq<string>>, pieces: nat,
                     i: nat, rank: nat, prev: Option<nat>) returns (record: Record)
    requires |ids| == |subs| && i < |subs| && (prev.Some? ==> prev.value < |subs|)
    requires ExtraBelow(subs, extra, |subs|)
    ensures record == RecordOf(ids, subs, parent, pieces, i, rank, prev)
  {
    var sub := subs[i];
    if sub.disposition {
      return Routed(ids[i], sub.title, if sub.rawText != "" then sub.rawText else sub.title, sub.rawText,
                    parent.premium);
    }
    var stacked, dependsOn, priorPartialDiff, note := None, None, None, false;
    if pieces >= 2 {
      stacked := Some(Stacked(Branch(parent), SlotOf(parent, rank), ChainTotal(parent, pieces)));
      if prev.Some? {
        dependsOn := Some(ids[prev.value]);
      }
    }
    var carriedDiff := CarriedDiff(parent);
    if carriedDiff.Some? && rank == 0 {
      priorPartialDiff := carriedDiff;
      note := true;
    }
    assert Extra(extra, i) == Criteria(subs, i, |subs|);
    var criteria := if i in extra then extra[i] else [];
    record := Piece(ids[i], sub.title, sub.rawText, note, sub.filesLine, stacked, dependsOn, priorPartialDiff,
                    criteria, parent.premium);
  }

  /** The first `n` proposals have been handled: their survivors' records are in queue/adhoc/. */
  ghost predicate Written(records: seq<Record>, queued: seq<string>, adhoc: map<string, Record>) {
    && |queued| <= |records| && |adhoc.Keys| == |queued|
    && forall k :: 0 <= k < |queued| ==>
          queued[k] == records[k].id && queued[k] in adhoc && adhoc[queued[k]] == records[k]
  }

  ghost predicate IdsBelow(ids: seq<string>, n: nat, adhoc: map<string, Record>)
    requires n <= |ids|
  {
    forall id :: id in adhoc ==> id in ids[..n]
  }

  /** The state of the loop after the first `n` proposals, towards the hub's `records`. */
  ghost predicate WrittenBelow(ids: seq<string>, subs: seq<Proposal>, records: seq<Record>, n: nat,
                               queued: seq<string>, adhoc: map<string, Record>, prev: Option<nat>)
    requires |ids| == |subs| && n <= |subs|
  {
    && |queued| == |Survivors(subs, n)| && prev == Before(Survivors(subs, n), |queued|)
    && Written(records, queued, adhoc) && IdsBelow(ids, n, adhoc)
  }

  lemma NothingToWrite(ids: seq<string>, subs: seq<Proposal>, records: seq<Record>, i: nat, queued: seq<string>,
                       adhoc: map<string, Record>, prev: Option<nat>)
    requires |ids| == |subs| && i < |subs| && !Survives(subs, i)
    requires WrittenBelow(ids, subs, records, i, queued, adhoc, prev)
    ensures WrittenBelow(ids, subs, records, i + 1, queued, adhoc, prev)
  {
    assert Survivors(subs, i + 1) == Survivors(subs, i);
    assert ids[..i + 1] == ids[..i] + [ids[i]];
  }

  lemma WriteNext(ids: seq<string>, subs: seq<Proposal>, records: seq<Record>, i: nat, queued: seq<string>,
                  adhoc: map<string, Record>, prev: Option<nat>)
    requires |ids| == |subs| && DistinctIds(ids) && i < |subs|
    requires WrittenBelow(ids, subs, records, i, queued, adhoc, prev)
    requires Survivors(subs, i + 1) == Survivors(subs, i) + [i]
    requires |queued| < |records| && records[|queued|].id == ids[i]
    ensures WrittenBelow(ids, subs, records, i + 1, queued + [ids[i]], adhoc[ids[i] := records[|queued|]], Some(i))
  {
    var record := records[|queued|];
    assert record.id !in adhoc by {
      assert forall k :: 0 <= k < i ==> ids[..i][k] != ids[i];
    }
    WriteOne(records, queued, adhoc, record);
    assert ids[..i + 1] == ids[..i] + [ids[i]];
  }

  lemma WriteOne(records: seq<Record>, queued: seq<string>, adhoc: map<string, Record>, record: Record)
    requires Written(records, queued, adhoc) && |queued| < |records|
    requires record == records[|queued|] && record.id !in adhoc
    ensures Written(records, queued + [record.id], adhoc[record.id := record])
  {
    assert (adhoc[record.id := record]).Keys == adhoc.Keys + {record.id};
  }

  /** `queueSubTasks`: infers links, folds, and writes one record per surviving piece. */
  method QueueSubTasks(hubLabel: string, raw: seq<Proposal>, parent: Parent)
      returns (queued: seq<string>, adhoc: map<string, Record>)
    ensures Written(Records(Ids(hubLabel, Linked(raw)), Linked(raw), parent), queued, adhoc)
    ensures |queued| == |Records(Ids(hubLabel, Linked(raw)), Linked(raw), parent)|
    ensures HubWritten(hubLabel, Linked(raw), parent, queued, adhoc)
  {
    var subs := InferMissingAfterLinks(raw);
    var ids := Ids(hubLabel, subs);
    IdsAreDistinct(hubLabel, subs);
    var targets := FoldTargets(subs);
    var extra := ExtraCriteria(subs, targets);
    TargetsAndSurvivors(subs, targets);
    queued, adhoc := WriteRecords(ids, subs, targets, extra, parent, |subs| - |targets|);
    WrittenIsHub(hubLabel, subs, parent, queued, adhoc);
  }

  method WriteRecords(ids: seq<string>, subs: seq<Proposal>, targets: map<nat, nat>, extra: map<nat, seq<string>>,
                      parent: Parent, pieces: nat)
    returns (queued: seq<string>, adhoc: map<string, Record>)
    requires |ids| == |subs| && DistinctIds(ids) && pieces == |Survivors(subs, |subs|)|
    requires TargetsBelow(subs, targets, |subs|)
    requires ExtraBelow(subs, extra, |subs|)
    ensures Written(Records(ids, subs, parent), queued, adhoc) && |queued| == |Records(ids, subs, parent)|
  {
    ghost var records := Records(ids, subs, parent);
    queued, adhoc := [], map[];
    var prev: Option<nat> := None;
    NothingYet(ids, subs, records);
    for i := 0 to |subs|
      invariant WrittenBelow(ids, subs, records, i, queued, adhoc, prev)
    {
      if i !in targets {
        queued, adhoc := QueueOne(ids, subs, extra, parent, pieces, i, queued, adhoc, prev);
        prev := Some(i);
      } else {
        NothingToWrite(ids, subs, records, i, queued, adhoc, prev);
      }
    }
  }

  lemma NothingYet(ids: seq<string>, subs: seq<Proposal>, records: seq<Record>)
    requires |ids| == |subs|
    ensures WrittenBelow(ids, subs, records, 0, [], map[], None)
  {
  }

  method QueueOne(ids: seq<string>, subs: seq<Proposal>, extra: map<nat, seq<string>>, parent: Parent, pieces: nat,
                  i: nat, queued: seq<string>, adhoc: map<string, Record>, prev: Option<nat>)
    returns (queued': seq<string>, adhoc': map<string, Record>)
    requires |ids| == |subs| && DistinctIds(ids) && pieces == |Survivors(subs, |subs|)| && i < |subs|
    requires Survives(subs, i)
    requires ExtraBelow(subs, extra, |subs|)
    requires WrittenBelow(ids, subs, Records(ids, subs, parent), i, queued, adhoc, prev)
    ensures WrittenBelow(ids, subs, Records(ids, subs, parent), i + 1, queued', adhoc', Some(i))
  {
    NextRecord(ids, subs, parent, i);
    var record := BuildRecord(ids, subs, parent, extra, pieces, i, |queued|, prev);
    WriteNext(ids, subs, Records(ids, subs, parent), i, queued, adhoc, prev);
    queued', adhoc' := queued + [record.id], adhoc[record.id := record];
  }

  lemma {:induction false} SurvivorsPrefix(subs: seq<Proposal>, n: nat)
    requires n <= |subs|
    ensures |Survivors(subs, n)| <= |Survivors(subs, |subs|)|
    ensures Survivors(subs, n) == Survivors(subs, |subs|)[..|Survivors(subs, n)|]
    decreases |subs| - n
  {
    if n < |subs| {
      SurvivorsPrefix(subs, n + 1);
      assert Survivors(subs, n) == Survivors(subs, n + 1)[..|Survivors(subs, n)|];
    }
  }

  /** The next surviving piece is the next record's. */
  lemma NextRecord(ids: seq<string>, subs: seq<Proposal>, parent: Parent, i: nat)
    requires |ids| == |subs| && i < |subs| && Survives(subs, i)
    ensures Survivors(subs, i + 1) == Survivors(subs, i) + [i]
    ensures |Survivors(subs, i)| < |Records(ids, subs, parent)|
    ensures Records(ids, subs, parent)[|Survivors(subs, i)|]
         == RecordOf(ids, subs, parent, |Survivors(subs, |subs|)|, i, |Survivors(subs, i)|,
                     Before(Survivors(subs, i), |Survivors(subs, i)|))
  {
    var rank, all := |Survivors(subs, i)|, Survivors(subs, |subs|);
    SurvivorsPrefix(subs, i + 1);
    assert all[..rank + 1] == Survivors(subs, i) + [i];
    assert all[rank] == all[..rank + 1][rank] && (rank > 0 ==> all[rank - 1] == all[..rank + 1][rank - 1]);
    assert Before(all, rank) == Before(Survivors(subs, i), rank);
  }

  ghost function FoldedBelow(subs: seq<Proposal>, n: nat): (r: set<nat>)
    requires n <= |subs|
    ensures forall i: nat :: i in r <==> i < n && !Survives(subs, i)
    ensures |r| + |Survivors(subs, n)| == n
  {
    if n == 0 then {}
    else if Survives(subs, n - 1) then FoldedBelow(subs, n - 1)
    else FoldedBelow(subs, n - 1) + {n - 1}
  }

  lemma TargetsAndSurvivors(subs: seq<Proposal>, targets: map<nat, nat>)
    requires TargetsBelow(subs, targets, |subs|)
    ensures |subs| - |targets| == |Survivors(subs, |subs|)|
  {
    assert targets.Keys == FoldedBelow(subs, |subs|);
    assert |targets| == |targets.Keys|;
  }

  // ----- theorems

  /** A proposal has a record of its own exactly when it survives, and then just one, with its text. */
  lemma SurvivorHasOneRecord(ids: seq<string>, subs: seq<Proposal>, parent: Parent, i: nat)
    requires |ids| == |subs| && DistinctIds(ids) && i < |subs|
    ensures Survives(subs, i) <==>
              exists k :: 0 <= k < |Records(ids, subs, parent)| && Records(ids, subs, parent)[k].id == ids[i]
    ensures forall k :: 0 <= k < |Records(ids, subs, parent)| && Records(ids, subs, parent)[k].id == ids[i] ==>
              Survivors(subs, |subs|)[k] == i && Records(ids, subs, parent)[k].rawText == subs[i].rawText
    ensures forall k, l :: 0 <= k < l < |Records(ids, subs, parent)| && Records(ids, subs, parent)[k].id == ids[i] ==>
              Records(ids, subs, parent)[l].id != ids[i]
  {
    var survivors, records := Survivors(subs, |subs|), Records(ids, subs, parent);
    SurvivorsAreSurvivors(subs, |subs|);
    forall k | 0 <= k < |records| && records[k].id == ids[i]
      ensures survivors[k] == i && Survives(subs, i) && records[k].rawText == subs[i].rawText
    {
      assert records[k].id == ids[survivors[k]];
      assert survivors[k] in survivors;
    }
    if Survives(subs, i) {
      var k :| 0 <= k < |survivors| && survivors[k] == i;
      assert records[k].id == ids[i];
    }
  }

  /** The record of the k-th surviving piece, by the fields of its proposal and of the parent. */
  ghost predicate RecordIs(hubLabel: string, subs: seq<Proposal>, parent: Parent, k: nat, record: Record)
    requires k < |Survivors(subs, |subs|)|
  {
    var i := Survivors(subs, |subs|)[k];
    && record.id == hubLabel + "-" + TwoDigits(i + 1) + "-" + subs[i].slug
    && HasFields(subs[i], parent, record)
    && (record.Piece? ==> HasFolded(subs, i, record.acceptanceCriteria) && HasPriorWork(parent, k, record))
  }

  /** At least two digits. */
  function TwoDigits(n: nat): string {
    (if n < 10 then "0" else "") + Numeral(n)
  }

  ghost predicate HasFields(sub: Proposal, parent: Parent, record: Record) {
    && record.title == sub.title && record.rawText == sub.rawText && record.premium == parent.premium
    && (record.Routed? <==> sub.disposition)
    && (record.Routed? ==> record.evidenceText == if sub.rawText == "" then sub.title else sub.rawText)
    && (record.Piece? ==> record.filesLine == sub.filesLine)
  }

  /** The first record has the parent's carried diff, unless that is blank, and says so. */
  ghost predicate HasPriorWork(parent: Parent, k: nat, record: Record)
    requires record.Piece?
  {
    var carried := parent.carriedPartialDiff;
    var usable := carried.Some? && exists at :: 0 <= at < |carried.value|
                                                && carried.value[at] !in {' ', '\t', '\n', '\r'};
    && record.priorPartialDiff == (if k == 0 && usable then carried else None)
    && (record.priorWorkNote <==> record.priorPartialDiff.Some?)
  }

  /** The texts of all the pieces that fold to `s`, each once and in order. */
  ghost predicate HasFolded(subs: seq<Proposal>, s: nat, criteria: seq<string>) {
    exists folded: seq<nat> :: AreFolded(subs, s, folded) && AreTexts(subs, folded, criteria)
  }

  ghost predicate AreFolded(subs: seq<Proposal>, s: nat, folded: seq<nat>) {
    && (forall k, l :: 0 <= k < l < |folded| ==> folded[k] < folded[l])
    && (forall i: nat :: i in folded <==> 0 < i < |subs| && subs[i].verificationOnly && FoldsTo(subs, i, s))
  }

  ghost predicate AreTexts(subs: seq<Proposal>, folded: seq<nat>, texts: seq<string>) {
    |texts| == |folded| && forall k :: 0 <= k < |texts| ==> folded[k] < |subs| && texts[k] == subs[folded[k]].rawText
  }

  lemma CriteriaHaveFolded(subs: seq<Proposal>, s: nat)
    ensures HasFolded(subs, s, Criteria(subs, s, |subs|))
  {
    var folded := FoldedInto(subs, s, |subs|);
    FoldedOnce(subs, s, |subs|);
    CriteriaAreFolded(subs, s, |subs|);
    assert AreFolded(subs, s, folded) && AreTexts(subs, folded, Criteria(subs, s, |subs|));
  }

  lemma PadIsTwoDigits(n: nat)
    ensures Pad2(n) == TwoDigits(n)
  {
    NumeralLength(n);
  }

  lemma RecordHasPriorWork(ids: seq<string>, subs: seq<Proposal>, parent: Parent, k: nat)
    requires |ids| == |subs| && k < |Records(ids, subs, parent)| && Records(ids, subs, parent)[k].Piece?
    ensures HasPriorWork(parent, k, Records(ids, subs, parent)[k])
  {
  }

  lemma RecordHasFields(ids: seq<string>, subs: seq<Proposal>, parent: Parent, k: nat)
    requires |ids| == |subs| && k < |Records(ids, subs, parent)|
    ensures var i := Survivors(subs, |subs|)[k]; var record := Records(ids, subs, parent)[k];
            && record.id == ids[i] && HasFields(subs[i], parent, record)
            && (record.Piece? ==> record.acceptanceCriteria == Criteria(subs, i, |subs|))
  {
  }

  lemma RecordOfHub(hubLabel: string, subs: seq<Proposal>, parent: Parent, k: nat)
    requires k < |Survivors(subs, |subs|)|
    ensures RecordIs(hubLabel, subs, parent, k, Records(Ids(hubLabel, subs), subs, parent)[k])
  {
    var i := Survivors(subs, |subs|)[k];
    RecordHasFields(Ids(hubLabel, subs), subs, parent, k);
    PadIsTwoDigits(i + 1);
    CriteriaHaveFolded(subs, i);
    if Records(Ids(hubLabel, subs), subs, parent)[k].Piece? {
      RecordHasPriorWork(Ids(hubLabel, subs), subs, parent, k);
    }
  }

  /** Every file written is one of these records, in order. */
  ghost predicate HubWritten(hubLabel: string, subs: seq<Proposal>, parent: Parent, queued: seq<string>,
                             adhoc: map<string, Record>) {
    && |queued| == |Survivors(subs, |subs|)| == |adhoc.Keys|
    && forall k :: 0 <= k < |queued| ==>
         queued[k] in adhoc && adhoc[queued[k]].id == queued[k]
         && RecordIs(hubLabel, subs, parent, k, adhoc[queued[k]])
  }

  lemma WrittenIsHub(hubLabel: string, subs: seq<Proposal>, parent: Parent, queued: seq<string>,
                     adhoc: map<string, Record>)
    requires var records := Records(Ids(hubLabel, subs), subs, parent);
             Written(records, queued, adhoc) && |queued| == |records|
    ensures HubWritten(hubLabel, subs, parent, queued, adhoc)
  {
    forall k | 0 <= k < |queued|
      ensures RecordIs(hubLabel, subs, parent, k, adhoc[queued[k]])
    {
      RecordOfHub(hubLabel, subs, parent, k);
    }
  }

  ghost predicate IsCriterionOf(record: Record, id: string, text: string) {
    record.id == id && record.Piece? && text in record.acceptanceCriteria
  }

  /** A folded piece's text is kept -- as a criterion of the record of the piece it belongs to -- if
      and only if that piece is not routed as a brain-dump disposition, whose record has no
      criteria. */
  lemma FoldedTextKeptIff(ids: seq<string>, subs: seq<Proposal>, parent: Parent, i: nat)
    requires |ids| == |subs| && DistinctIds(ids) && i < |subs| && !Survives(subs, i)
    ensures (exists record :: record in Records(ids, subs, parent)
                              && IsCriterionOf(record, ids[Survivor(subs, i)], subs[i].rawText))
       <==> !subs[Survivor(subs, i)].disposition
  {
    var s, records := Survivor(subs, i), Records(ids, subs, parent);
    SurvivorSurvives(subs, i);
    SurvivorHasOneRecord(ids, subs, parent, s);
    TextIsCriterion(subs, i);
    forall k | 0 <= k < |records| && records[k].id == ids[s]
      ensures IsCriterionOf(records[k], ids[s], subs[i].rawText) <==> !subs[s].disposition
    {
    }
    var k :| 0 <= k < |records| && records[k].id == ids[s];
    assert records[k] in records;
  }

  lemma TextIsCriterion(subs: seq<Proposal>, i: nat)
    requires i < |subs| && !Survives(subs, i)
    ensures subs[i].rawText in Criteria(subs, Survivor(subs, i), |subs|)
  {
    var folded := FoldedInto(subs, Survivor(subs, i), |subs|);
    FoldedAre(subs, Survivor(subs, i), |subs|);
    var f :| 0 <= f < |folded| && folded[f] == i;
    CriteriaAreFolded(subs, Survivor(subs, i), |subs|);
    assert Criteria(subs, Survivor(subs, i), |subs|)[f] == subs[i].rawText;
  }

  /** The k-th of the pieces of a hub, by the parent's own fields: on its own a hub starts a branch
      and counts from 1; a hub whose parent is itself stacked goes on with the parent's branch, takes
      over the parent's slot (a missing one is 1), and adds its pieces to the parent's total. */
  ghost predicate PlacedAt(parent: Parent, pieces: nat, k: nat, s: Stacked) {
    if parent.stacked.Some? && parent.stacked.value.branch != "" then
      var p := parent.stacked.value;
      var slot := if p.slot == 0 then 1 else p.slot;
      var total := if p.total == 0 then slot else p.total;
      s.branch == p.branch && s.slot == slot + k && s.total == total - 1 + pieces
    else s.branch == parent.ownBranch && s.slot == k + 1 && s.total == pieces
  }

  /** One chain: the pieces of a hub of two or more are stacked one after another, and each depends on
      the piece before it -- an earlier proposal. */
  lemma OneChain(ids: seq<string>, subs: seq<Proposal>, parent: Parent, k: nat)
    requires |ids| == |subs| && k < |Records(ids, subs, parent)| && Records(ids, subs, parent)[k].Piece?
    ensures var records := Records(ids, subs, parent); var survivors := Survivors(subs, |subs|);
            && (records[k].stacked.Some? <==> |records| >= 2)
            && (records[k].stacked.Some? ==> PlacedAt(parent, |records|, k, records[k].stacked.value))
            && (records[k].dependsOn.Some? <==> |records| >= 2 && k > 0)
            && (k > 0 ==> survivors[k - 1] < survivors[k] && records[k - 1].id == ids[survivors[k - 1]])
            && (records[k].dependsOn.Some? ==> records[k].dependsOn.value == records[k - 1].id)
  {
    SurvivorsAreSurvivors(subs, |subs|);
  }

  ghost predicate WithinTotal(s: Stacked) {
    s.slot <= s.total
  }

  /** Slots stay within the total exactly when the parent's did. */
  lemma SlotsWithinTotalIff(parent: Parent, pieces: nat)
    requires pieces >= 1
    ensures (forall k: nat, s :: k < pieces && PlacedAt(parent, pieces, k, s) ==> WithinTotal(s)) <==>
            (parent.stacked.Some? && parent.stacked.value.branch != "" && parent.stacked.value.total != 0 ==>
              (if parent.stacked.value.slot == 0 then 1 else parent.stacked.value.slot) <= parent.stacked.value.total)
  {
    var last := Stacked(Branch(parent), SlotOf(parent, pieces - 1), ChainTotal(parent, pieces));
    assert PlacedAt(parent, pieces, pieces - 1, last);
  }

  /** What `queueDecomposedSubTasks` was called with. */
  datatype Hub = Hub(ids: seq<string>, subs: seq<Proposal>, parent: Parent)

  /** Piece k of the hub is stacked as `stacked` says. */
  ghost predicate IsStacked(hub: Hub, k: int, stacked: Option<Stacked>) {
    && |hub.ids| == |hub.subs|
    && var records := Records(hub.ids, hub.subs, hub.parent);
    0 <= k < |records| && records[k].Piece? && records[k].stacked == stacked
  }

  ghost predicate PieceBecomesHub(hub: Hub, next: Hub) {
    exists k :: IsStacked(hub, k, next.parent.stacked)
  }

  /** A line of hubs: each one's parent is stacked as some piece of the hub before it. */
  ghost predicate Lineage(hubs: seq<Hub>) {
    && (hubs != [] ==> !Nested(hubs[0].parent))
    && (forall g :: 0 <= g < |hubs| - 1 ==> PieceBecomesHub(hubs[g], hubs[g + 1]))
  }

  /** Hubs nested to any depth: no piece's slot ever exceeds the total it carries. */
  lemma {:induction false} NestedSlotsWithinTotal(hubs: seq<Hub>, g: nat, k: nat, stacked: Stacked)
    requires Lineage(hubs) && g < |hubs| && IsStacked(hubs[g], k, Some(stacked))
    ensures 1 <= stacked.slot <= stacked.total
    decreases g
  {
    var parent := hubs[g].parent;
    if g > 0 && Nested(parent) {
      var l := ParentPiece(hubs, g);
      NestedSlotsWithinTotal(hubs, g - 1, l, parent.stacked.value);
    }
    PieceWithinTotal(hubs[g], k, stacked);
  }

  lemma PieceWithinTotal(hub: Hub, k: nat, stacked: Stacked)
    requires IsStacked(hub, k, Some(stacked))
    requires Nested(hub.parent) ==> 1 <= hub.parent.stacked.value.slot <= hub.parent.stacked.value.total
    ensures 1 <= stacked.slot <= stacked.total
  {
    OneChain(hub.ids, hub.subs, hub.parent, k);
  }

  /** Every hub of the line but the first comes from a stacked piece. */
  ghost predicate AllStacked(hubs: seq<Hub>) {
    forall g :: 0 < g < |hubs| ==> hubs[g].parent.stacked.Some?
  }

  lemma PieceFollowsParent(hub: Hub, k: nat, stacked: Stacked)
    requires IsStacked(hub, k, Some(stacked))
    ensures Nested(hub.parent) ==> stacked.branch == hub.parent.stacked.value.branch
    ensures !Nested(hub.parent) ==> stacked.branch == hub.parent.ownBranch && stacked.slot == k + 1
    ensures Nested(hub.parent) && hub.parent.stacked.value.slot != 0 ==>
              stacked.slot == hub.parent.stacked.value.slot + k
  {
    OneChain(hub.ids, hub.subs, hub.parent, k);
  }

  /** The ancestor hub ends as one branch: so does every hub below it. */
  lemma {:induction false} LineageSharesBranch(hubs: seq<Hub>, g: nat, k: nat, stacked: Stacked)
    requires Lineage(hubs) && AllStacked(hubs) && g < |hubs| && IsStacked(hubs[g], k, Some(stacked))
    requires hubs[0].parent.ownBranch != ""
    ensures stacked.branch == hubs[0].parent.ownBranch
    decreases g
  {
    PieceFollowsParent(hubs[g], k, stacked);
    if g > 0 {
      var l := ParentPiece(hubs, g);
      LineageSharesBranch(hubs, g - 1, l, hubs[g].parent.stacked.value);
    }
  }

  /** The first piece of a nested hub takes exactly its parent's slot, the others the ones after it. */
  lemma NestedTakesParentSlot(hubs: seq<Hub>, g: nat, k: nat, stacked: Stacked)
    requires Lineage(hubs) && AllStacked(hubs) && 0 < g < |hubs| && IsStacked(hubs[g], k, Some(stacked))
    requires hubs[0].parent.ownBranch != ""
    ensures stacked.slot == hubs[g].parent.stacked.value.slot + k
  {
    var l := ParentPiece(hubs, g);
    LineageSharesBranch(hubs, g - 1, l, hubs[g].parent.stacked.value);
    NestedSlotsWithinTotal(hubs, g - 1, l, hubs[g].parent.stacked.value);
    PieceFollowsParent(hubs[g], k, stacked);
  }

  lemma ParentPiece(hubs: seq<Hub>, g: nat) returns (l: nat)
    requires Lineage(hubs) && 0 < g < |hubs|
    ensures IsStacked(hubs[g - 1], l, hubs[g].parent.stacked)
  {
    assert PieceBecomesHub(hubs[g - 1], hubs[g - 1 + 1]);
    var k :| IsStacked(hubs[g - 1], k, hubs[g].parent.stacked);
    l := k;
  }

  /** So no piece of a hub below shares a slot with a piece before the one it comes from. */
  lemma {:induction false} SlotsRise(hubs: seq<Hub>, g: nat, h: nat, k: nat, stacked: Stacked)
    requires Lineage(hubs) && AllStacked(hubs) && 0 < g <= h < |hubs| && IsStacked(hubs[h], k, Some(stacked))
    requires hubs[0].parent.ownBranch != ""
    ensures stacked.slot >= hubs[g].parent.stacked.value.slot
    decreases h
  {
    NestedTakesParentSlot(hubs, h, k, stacked);
    if g < h {
      var l := ParentPiece(hubs, h);
      SlotsRise(hubs, g, h - 1, l, hubs[h].parent.stacked.value);
    }
  }

  /** The pieces after it keep their slots, though. Piece `j` of a hub and piece `l` of the hub that
      its piece `k` splits into have one slot if and only if `j` is `l` places behind `k`: when a
      piece splits in two, the second half has the slot of the next piece. */
  lemma SlotSharedIff(hub: Hub, next: Hub, k: nat, j: nat, l: nat, sj: Stacked, sl: Stacked)
    requires IsStacked(hub, k, next.parent.stacked) && IsStacked(hub, j, Some(sj)) && IsStacked(next, l, Some(sl))
    requires Nested(next.parent) && next.parent.stacked.value.slot != 0
    ensures sl.slot == sj.slot <==> j == k + l
  {
    OneChain(hub.ids, hub.subs, hub.parent, k);
    OneChain(hub.ids, hub.subs, hub.parent, j);
    OneChain(next.ids, next.subs, next.parent, l);
  }

  // ----- handing over carried work

  /** What `buildDecomposedPlan` leaves: the records, and the parent without its copy of the diff. */
  method BuildDecomposedPlan(hubLabel: string, proposals: seq<Proposal>, task: Parent)
      returns (queued: seq<string>, adhoc: map<string, Record>, task': Parent, skipped: bool)
    ensures skipped <==> proposals == []
    ensures skipped ==> queued == [] && adhoc == map[] && task' == task
    ensures !skipped ==>
              && Written(Records(Ids(hubLabel, Linked(proposals)), Linked(proposals), task), queued, adhoc)
              && |queued| == |Records(Ids(hubLabel, Linked(proposals)), Linked(proposals), task)|
              && HubWritten(hubLabel, Linked(proposals), task, queued, adhoc)
              && task' == (if task.carriedPartialDiff == Some("") then task else task.(carriedPartialDiff := None))
  {
    if |proposals| == 0 {
      return [], map[], task, true;
    }
    queued, adhoc := QueueSubTasks(hubLabel, proposals, task);
    task' := task;
    if task.carriedPartialDiff.Some? && task.carriedPartialDiff.value != "" {
      task' := task'.(carriedPartialDiff := None);
    }
    skipped := false;
  }

  ghost predicate HasDiff(record: Record, diff: string) {
    record.Piece? && record.priorPartialDiff == Some(diff)
  }

  /** The diff captured when the parent split reaches the first piece and no other -- if and only if
      the first proposal is not a disposition. When it is one, no record has the diff, and the
      parent's own copy is deleted all the same. */
  lemma CarriedDiffReachesFirstPieceIff(ids: seq<string>, subs: seq<Proposal>, parent: Parent, diff: string)
    requires |ids| == |subs| && subs != []
    requires parent.carriedPartialDiff == Some(diff) && !Blank(diff)
    ensures |Records(ids, subs, parent)| > 0 && Survivors(subs, |subs|)[0] == 0
    ensures HasDiff(Records(ids, subs, parent)[0], diff) <==> !subs[0].disposition
    ensures forall k :: 0 < k < |Records(ids, subs, parent)| && Records(ids, subs, parent)[k].Piece? ==>
              Records(ids, subs, parent)[k].priorPartialDiff == None
  {
    SurvivorSurvives(subs, 0);
    SurvivorsAreSurvivors(subs, |subs|);
    assert 0 in Survivors(subs, |subs|);
  }
}
