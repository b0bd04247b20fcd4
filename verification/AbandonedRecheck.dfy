/** The bounded recheck pass (src/abandoned-recheck.js:51-96) and its fairness. Ids are numbered in
    the order in which they are saved. */
module AbandonedRecheck {
  import opened AbandonedScan

  /** What becomes of a rechecked id: still abandoned, no longer in the list, or an exception. */
  datatype Outcome = Stays | Leaves | Fails

  type Outcomes = Id -> Outcome

  /** The place of each id in the list of a pass. After a save that is the order of the ids
      themselves; a pass whose scan has just appended ids has them in listing order. */
  type Order = Id -> int

  function SavedOrder(): Order { id => id }

  /** `Date.parse(checked[id]) || 0` */
  function Stamp(checked: map<Id, int>, id: Id): int {
    if id in checked then checked[id] else 0
  }

  predicate Due(checked: map<Id, int>, now: int, ttl: int, id: Id) {
    id !in checked || now - checked[id] >= ttl
  }

  /** Oldest first; a stable sort keeps the order of the list between equal stamps. */
  predicate Before(pos: Order, checked: map<Id, int>, a: Id, b: Id) {
    Stamp(checked, a) < Stamp(checked, b) || (Stamp(checked, a) == Stamp(checked, b) && pos(a) < pos(b))
  }

  function Insert(checked: map<Id, int>, x: Id, sorted: seq<Id>): seq<Id> {
    if sorted == [] || Stamp(checked, x) <= Stamp(checked, sorted[0]) then [x] + sorted
    else [sorted[0]] + Insert(checked, x, sorted[1..])
  }

  /** `abandoned.filter(due).sort((a, b) => stamp(a) - stamp(b))` */
  function DueSorted(ids: seq<Id>, checked: map<Id, int>, now: int, ttl: int): seq<Id> {
    if ids == [] then []
    else
      var rest := DueSorted(ids[1..], checked, now, ttl);
      if Due(checked, now, ttl, ids[0]) then Insert(checked, ids[0], rest) else rest
  }

  function Chosen(ids: seq<Id>, checked: map<Id, int>, now: int, ttl: int, limit: nat): seq<Id> {
    var sorted := DueSorted(ids, checked, now, ttl);
    if |sorted| <= limit then sorted else sorted[..limit]
  }

  ghost predicate Increasing(pos: Order, ids: seq<Id>) {
    forall i, j :: 0 <= i < j < |ids| ==> pos(ids[i]) < pos(ids[j])
  }

  ghost predicate InOrder(pos: Order, checked: map<Id, int>, sorted: seq<Id>) {
    forall i, j :: 0 <= i < j < |sorted| ==> Before(pos, checked, sorted[i], sorted[j])
  }

  lemma {:induction false} InsertInOrder(pos: Order, checked: map<Id, int>, x: Id, sorted: seq<Id>)
    requires InOrder(pos, checked, sorted) && forall y :: y in sorted ==> pos(x) < pos(y)
    ensures InOrder(pos, checked, Insert(checked, x, sorted))
    ensures forall y :: y in Insert(checked, x, sorted) <==> y == x || y in sorted
    decreases |sorted|
  {
    if sorted != [] && Stamp(checked, x) > Stamp(checked, sorted[0]) {
      var rest := Insert(checked, x, sorted[1..]);
      assert forall y :: y in sorted[1..] ==> y in sorted;
      InsertInOrder(pos, checked, x, sorted[1..]);
      forall j | 0 <= j < |rest|
        ensures Before(pos, checked, sorted[0], rest[j])
      {
        assert rest[j] in rest;
        if rest[j] != x {
          var k :| 0 <= k < |sorted| - 1 && sorted[1..][k] == rest[j];
          assert Before(pos, checked, sorted[0], sorted[k + 1]);
        }
      }
    } else {
      forall j | 0 <= j < |sorted|
        ensures Before(pos, checked, x, sorted[j])
      {
        assert sorted[j] in sorted;
        assert j > 0 ==> Before(pos, checked, sorted[0], sorted[j]);
      }
    }
  }

  /** The queue of a pass: the due ids, each once, oldest stamp first, list order between equals. */
  lemma {:induction false} DueSortedIs(pos: Order, ids: seq<Id>, checked: map<Id, int>, now: int, ttl: int)
    requires Increasing(pos, ids)
    ensures InOrder(pos, checked, DueSorted(ids, checked, now, ttl))
    ensures forall y :: y in DueSorted(ids, checked, now, ttl) <==>
              y in ids && (y !in checked || checked[y] + ttl <= now)
    decreases |ids|
  {
    if ids != [] {
      DueSortedIs(pos, ids[1..], checked, now, ttl);
      forall y | y in ids[1..]
        ensures pos(ids[0]) < pos(y)
      {
        var k :| 0 <= k < |ids| - 1 && ids[1..][k] == y;
        assert pos(ids[0]) < pos(ids[k + 1]);
      }
      if Due(checked, now, ttl, ids[0]) {
        InsertInOrder(pos, checked, ids[0], DueSorted(ids[1..], checked, now, ttl));
      }
    }
  }

  /** The state after a pass. */
  predicate StillListed(chosen: seq<Id>, outcome: Outcomes, id: Id) {
    !(id in chosen && outcome(id).Leaves?)
  }

  function Remaining(ids: seq<Id>, chosen: seq<Id>, outcome: Outcomes): seq<Id> {
    if ids == [] then []
    else (if StillListed(chosen, outcome, ids[0]) then [ids[0]] else []) + Remaining(ids[1..], chosen, outcome)
  }

  function Restamped(checked: map<Id, int>, chosen: seq<Id>, outcome: Outcomes, now: int): map<Id, int> {
    map id | id in checked.Keys + (set y | y in chosen && outcome(y).Stays?) ::
      if id in chosen && outcome(id).Stays? then now else checked[id]
  }

  lemma {:induction false} RemainingIs(pos: Order, ids: seq<Id>, chosen: seq<Id>, outcome: Outcomes)
    ensures forall y :: y in Remaining(ids, chosen, outcome) <==> y in ids && StillListed(chosen, outcome, y)
    ensures Increasing(pos, ids) ==> Increasing(pos, Remaining(ids, chosen, outcome))
    decreases |ids|
  {
    if ids != [] {
      RemainingIs(pos, ids[1..], chosen, outcome);
      if Increasing(pos, ids) {
        var rest := Remaining(ids[1..], chosen, outcome);
        assert Increasing(pos, ids[1..]);
        forall j | 0 <= j < |rest|
          ensures pos(ids[0]) < pos(rest[j])
        {
          assert rest[j] in rest;
          var k :| 0 <= k < |ids| - 1 && ids[1..][k] == rest[j];
          assert pos(ids[0]) < pos(ids[k + 1]);
        }
      }
    }
  }

  /** One pass over the state, after the scan. */
  method RecheckDue(st: IndexState, outcome: Outcomes, now: int, ttl: int, limit: nat)
      returns (handled: nat, ghost chosen: seq<Id>)
    modifies st`abandoned, st`checked
    ensures chosen == Chosen(old(st.abandoned), old(st.checked), now, ttl, limit) && handled == |chosen|
    ensures st.abandoned == Remaining(old(st.abandoned), chosen, outcome)
    ensures st.checked == Restamped(old(st.checked), chosen, outcome, now)
    ensures Passes(old(st.checked), Round(old(st.abandoned), now, outcome, chosen, st.abandoned), st.checked, ttl,
                   limit)
  {
    chosen := Chosen(st.abandoned, st.checked, now, ttl, limit);
    PassPasses(st.abandoned, st.checked, outcome, now, ttl, limit);
    var sorted := DueSorted(st.abandoned, st.checked, now, ttl);
    var due := if |sorted| <= limit then sorted else sorted[..limit];
    RecheckAll(st, due, outcome, now);
    handled := |due|;
  }

  /** The loop over the ids that are due. */
  method RecheckAll(st: IndexState, due: seq<Id>, outcome: Outcomes, now: int)
    modifies st`abandoned, st`checked
    ensures Rechecked(old(st.abandoned), old(st.checked), due, outcome, now, st.abandoned, st.checked)
  {
    ghost var ids, checked := st.abandoned, st.checked;
    RemainingNone(ids, outcome);
    for k := 0 to |due|
      invariant Rechecked(ids, checked, due[..k], outcome, now, st.abandoned, st.checked)
    {
      var id := due[k];
      ghost var ids0, checked0 := st.abandoned, st.checked;
      if outcome(id).Leaves? {
        st.abandoned := Without(st.abandoned, id);
      } else if outcome(id).Stays? {
        st.checked := st.checked[id := now];
      }
      RecheckedStep(ids, checked, due, k, outcome, now, ids0, checked0, st.abandoned, st.checked);
    }
    assert due[..|due|] == due;
  }

  /** Never checked, or last checked at least `ttl` milliseconds ago. */
  predicate Stale(checked: map<Id, int>, now: int, ttl: int, id: Id) {
    id in checked ==> now >= checked[id] + ttl
  }

  /** `a` was checked no later than `b`; what was never checked counts as checked at time 0. */
  predicate NoLater(checked: map<Id, int>, a: Id, b: Id) {
    (if a in checked then checked[a] else 0) <= (if b in checked then checked[b] else 0)
  }

  /** At most `limit` listed ids, all stale; no stale one is left while there is room, and none that
      is left was checked before one that was picked. */
  ghost predicate OldestPicked(ids: seq<Id>, checked: map<Id, int>, now: int, ttl: int, limit: nat, chosen: seq<Id>) {
    && |chosen| <= limit
    && (forall x :: x in chosen ==> x in ids && Stale(checked, now, ttl, x))
    && (|chosen| < limit ==> forall x :: x in ids && Stale(checked, now, ttl, x) ==> x in chosen)
    && (forall x, y :: x in chosen && y in ids && y !in chosen && Stale(checked, now, ttl, y) ==>
        NoLater(checked, x, y))
  }

  /** A rechecked id leaves the list, or is stamped, or keeps its stamp; no other id changes, nor the
      order of the list. */
  ghost predicate Stepped(ids: seq<Id>, checked: map<Id, int>, chosen: seq<Id>, outcome: Outcomes, now: int,
                          ids': seq<Id>, checked': map<Id, int>) {
    && (forall x :: x in ids' <==> x in ids && !(x in chosen && outcome(x).Leaves?))
    && KeepsOrder(ids, ids')
    && (forall x :: x in checked' <==> x in checked || (x in chosen && outcome(x).Stays?))
    && (forall x :: x in checked' ==>
        checked'[x] == if x in chosen && outcome(x).Stays? then now else checked[x])
  }

  ghost predicate KeepsOrder(ids: seq<Id>, ids': seq<Id>) {
    forall pos: Order :: Increasing(pos, ids) ==> Increasing(pos, ids')
  }

  ghost predicate ByStamp(checked: map<Id, int>, sorted: seq<Id>) {
    forall i, j :: 0 <= i < j < |sorted| ==> NoLater(checked, sorted[i], sorted[j])
  }

  lemma {:induction false} InsertByStamp(checked: map<Id, int>, x: Id, sorted: seq<Id>)
    requires ByStamp(checked, sorted)
    ensures ByStamp(checked, Insert(checked, x, sorted))
    ensures forall y :: y in Insert(checked, x, sorted) <==> y == x || y in sorted
    decreases |sorted|
  {
    if sorted != [] && Stamp(checked, x) > Stamp(checked, sorted[0]) {
      var rest := Insert(checked, x, sorted[1..]);
      InsertByStamp(checked, x, sorted[1..]);
      forall j | 0 <= j < |rest|
        ensures NoLater(checked, sorted[0], rest[j])
      {
        assert rest[j] in rest;
        if rest[j] != x {
          var k :| 0 <= k < |sorted| - 1 && sorted[1..][k] == rest[j];
          assert NoLater(checked, sorted[0], sorted[k + 1]);
        }
      }
    }
  }

  lemma {:induction false} DueSortedByStamp(ids: seq<Id>, checked: map<Id, int>, now: int, ttl: int)
    ensures ByStamp(checked, DueSorted(ids, checked, now, ttl))
    ensures forall y :: y in DueSorted(ids, checked, now, ttl) <==> y in ids && Stale(checked, now, ttl, y)
    decreases |ids|
  {
    if ids != [] {
      DueSortedByStamp(ids[1..], checked, now, ttl);
      if Due(checked, now, ttl, ids[0]) {
        InsertByStamp(checked, ids[0], DueSorted(ids[1..], checked, now, ttl));
      }
    }
  }

  lemma ChosenArePicked(ids: seq<Id>, checked: map<Id, int>, now: int, ttl: int, limit: nat)
    ensures OldestPicked(ids, checked, now, ttl, limit, Chosen(ids, checked, now, ttl, limit))
  {
    var sorted, chosen := DueSorted(ids, checked, now, ttl), Chosen(ids, checked, now, ttl, limit);
    DueSortedByStamp(ids, checked, now, ttl);
    forall x | x in chosen
      ensures x in sorted
    {
      var k :| 0 <= k < |chosen| && chosen[k] == x;
      assert sorted[k] == x;
    }
    forall x, y | x in chosen && y in sorted && y !in chosen
      ensures NoLater(checked, x, y)
    {
      var j, k :| 0 <= j < |chosen| && chosen[j] == x && 0 <= k < |sorted| && sorted[k] == y;
      assert forall i :: 0 <= i < |chosen| ==> chosen[i] == sorted[i] && sorted[i] in chosen;
    }
  }

  lemma PassSteps(ids: seq<Id>, checked: map<Id, int>, chosen: seq<Id>, outcome: Outcomes, now: int)
    ensures Stepped(ids, checked, chosen, outcome, now, Remaining(ids, chosen, outcome),
                    Restamped(checked, chosen, outcome, now))
  {
    RemainingIs(SavedOrder(), ids, chosen, outcome);
    forall pos: Order
      ensures Increasing(pos, ids) ==> Increasing(pos, Remaining(ids, chosen, outcome))
    {
      RemainingIs(pos, ids, chosen, outcome);
    }
  }

  // ----- runs of passes, with any scans between them

  /** One pass: the list it found and the list it left. A scan may change the list before the next. */
  datatype Round = Round(ids: seq<Id>, now: int, outcome: Outcomes, chosen: seq<Id>, ids': seq<Id>)

  /** Passes one after another, each from the stamps the one before it saved. */
  ghost predicate PassRun(stamps: seq<map<Id, int>>, rounds: seq<Round>, ttl: int, limit: nat) {
    && |stamps| == |rounds| + 1
    && forall k :: 0 <= k < |rounds| ==> Passes(stamps[k], rounds[k], stamps[k + 1], ttl, limit)
  }

  /** What `RecheckDue` promises of one pass. */
  ghost predicate Passes(checked: map<Id, int>, round: Round, checked': map<Id, int>, ttl: int, limit: nat) {
    && OldestPicked(round.ids, checked, round.now, ttl, limit, round.chosen)
    && Stepped(round.ids, checked, round.chosen, round.outcome, round.now, round.ids', checked')
  }

  lemma PassPasses(ids: seq<Id>, checked: map<Id, int>, outcome: Outcomes, now: int, ttl: int, limit: nat)
    ensures var chosen := Chosen(ids, checked, now, ttl, limit);
            Passes(checked, Round(ids, now, outcome, chosen, Remaining(ids, chosen, outcome)),
                   Restamped(checked, chosen, outcome, now), ttl, limit)
  {
    ChosenArePicked(ids, checked, now, ttl, limit);
    PassSteps(ids, checked, Chosen(ids, checked, now, ttl, limit), outcome, now);
  }

  /** The round rechecks `x`, and that does not throw. */
  predicate Rechecks(round: Round, x: Id) {
    x in round.chosen && round.outcome(x).Stays?
  }

  /** What one pass does to the stamp of `x`. */
  lemma OnePassOnStamp(checked: map<Id, int>, round: Round, checked': map<Id, int>, ttl: int, limit: nat, x: Id)
    requires Passes(checked, round, checked', ttl, limit)
    ensures Rechecks(round, x) ==>
              x in checked' && checked'[x] == round.now && (x in checked ==> checked[x] + ttl <= round.now)
    ensures !Rechecks(round, x) && x in checked ==> x in checked' && checked'[x] == checked[x]
  {
  }

  /** Once rechecked, an id has a stamp no older than that, whatever happens to the list. */
  lemma {:induction false} StampRemains(stamps: seq<map<Id, int>>, rounds: seq<Round>, ttl: int, limit: nat, k: nat,
                                        n: nat, x: Id)
    requires PassRun(stamps, rounds, ttl, limit) && k < n <= |rounds| && ttl >= 0 && Rechecks(rounds[k], x)
    ensures x in stamps[n] && stamps[n][x] >= rounds[k].now
    decreases n
  {
    OnePassOnStamp(stamps[n - 1], rounds[n - 1], stamps[n - 1 + 1], ttl, limit, x);
    if k < n - 1 {
      StampRemains(stamps, rounds, ttl, limit, k, n - 1, x);
    }
  }

  /** Two rechecks of one id that do not throw are at least `ttl` apart, over any run of passes and
      scans and whatever the clock does between them. */
  lemma RechecksAreApart(stamps: seq<map<Id, int>>, rounds: seq<Round>, ttl: int, limit: nat, i: nat, j: nat, x: Id)
    requires PassRun(stamps, rounds, ttl, limit) && i < j < |rounds| && ttl >= 0
    requires Rechecks(rounds[i], x) && Rechecks(rounds[j], x)
    ensures rounds[j].now - rounds[i].now >= ttl
  {
    StampRemains(stamps, rounds, ttl, limit, i, j, x);
    OnePassOnStamp(stamps[j], rounds[j], stamps[j + 1], ttl, limit, x);
  }

  /** The state once the ids of `before` have been rechecked. */
  ghost predicate Rechecked(ids: seq<Id>, checked: map<Id, int>, before: seq<Id>, outcome: Outcomes, now: int,
                            ids': seq<Id>, checked': map<Id, int>) {
    ids' == Remaining(ids, before, outcome) && checked' == Restamped(checked, before, outcome, now)
  }

  lemma RecheckedStep(ids: seq<Id>, checked: map<Id, int>, due: seq<Id>, k: nat, outcome: Outcomes, now: int,
                      ids0: seq<Id>, checked0: map<Id, int>, ids': seq<Id>, checked': map<Id, int>)
    requires k < |due| && Rechecked(ids, checked, due[..k], outcome, now, ids0, checked0)
    requires ids' == if outcome(due[k]).Leaves? then Without(ids0, due[k]) else ids0
    requires checked' == if outcome(due[k]).Stays? then checked0[due[k] := now] else checked0
    ensures Rechecked(ids, checked, due[..k + 1], outcome, now, ids', checked')
  {
    assert due[..k + 1] == due[..k] + [due[k]];
    RemainingStep(ids, due[..k], due[k], outcome);
    RestampedStep(checked, due[..k], due[k], outcome, now);
  }

  lemma RestampedStep(checked: map<Id, int>, before: seq<Id>, id: Id, outcome: Outcomes, now: int)
    ensures Restamped(checked, before + [id], outcome, now)
         == if outcome(id).Stays? then Restamped(checked, before, outcome, now)[id := now]
            else Restamped(checked, before, outcome, now)
  {
    var a, b := Restamped(checked, before + [id], outcome, now), Restamped(checked, before, outcome, now);
    var c := if outcome(id).Stays? then b[id := now] else b;
    assert forall x :: x in before + [id] <==> x in before || x == id;
    assert a.Keys == c.Keys;
    assert forall x :: x in a ==> a[x] == c[x];
  }

  lemma {:induction false} RemainingNone(ids: seq<Id>, outcome: Outcomes)
    ensures Remaining(ids, [], outcome) == ids
    decreases |ids|
  {
    if ids != [] {
      RemainingNone(ids[1..], outcome);
    }
  }

  lemma {:induction false} RemainingStep(ids: seq<Id>, before: seq<Id>, id: Id, outcome: Outcomes)
    ensures Remaining(ids, before + [id], outcome)
         == if outcome(id).Leaves? then Without(Remaining(ids, before, outcome), id)
            else Remaining(ids, before, outcome)
    decreases |ids|
  {
    if ids != [] {
      RemainingStep(ids[1..], before, id, outcome);
      var rest := Remaining(ids[1..], before, outcome);
      WithoutCons(ids[0], rest, id);
      assert forall x :: x in before + [id] <==> x in before || x == id;
      assert [] + rest == rest && [] + Without(rest, id) == Without(rest, id);
    }
  }

  // ----- fairness

  /** The ids ordered before `x` in the queue of a pass at `now`. */
  ghost function Ahead(pos: Order, ids: seq<Id>, checked: map<Id, int>, now: int, ttl: int, x: Id): set<Id> {
    set y | y in ids && Due(checked, now, ttl, y) && Before(pos, checked, y, x)
  }

  /** Stamps come from earlier passes. */
  ghost predicate StampedBy(checked: map<Id, int>, now: int) {
    forall id :: id in checked ==> 0 < checked[id] <= now
  }

  ghost predicate Waiting(pos: Order, ids: seq<Id>, checked: map<Id, int>, now: int, ttl: int, x: Id) {
    Increasing(pos, ids) && StampedBy(checked, now) && now > 0 && x in ids && Due(checked, now, ttl, x)
  }

  lemma {:induction false} DistinctCount(s: seq<Id>)
    requires forall i, j :: 0 <= i < j < |s| ==> s[i] != s[j]
    ensures |(set k | 0 <= k < |s| :: s[k])| == |s|
    decreases |s|
  {
    if s != [] {
      var n := |s| - 1;
      DistinctCount(s[..n]);
      assert (set k | 0 <= k < |s| :: s[k]) == (set k | 0 <= k < n :: s[..n][k]) + {s[n]};
    }
  }

  /** When `x` is passed over, the ids chosen are `limit` ids, all ordered before it. */
  lemma PassedOver(pos: Order, ids: seq<Id>, checked: map<Id, int>, now: int, ttl: int, limit: nat, x: Id)
      returns (chosen: set<Id>)
    requires Waiting(pos, ids, checked, now, ttl, x)
    requires x !in Chosen(ids, checked, now, ttl, limit)
    ensures chosen == set y | y in Chosen(ids, checked, now, ttl, limit)
    ensures |chosen| == limit && chosen <= Ahead(pos, ids, checked, now, ttl, x)
  {
    var sorted := DueSorted(ids, checked, now, ttl);
    DueSortedIs(pos, ids, checked, now, ttl);
    var picked := sorted[..limit];
    forall i, j | 0 <= i < j < |picked|
      ensures picked[i] != picked[j]
    {
      assert Before(pos, checked, sorted[i], sorted[j]);
    }
    DistinctCount(picked);
    chosen := set k | 0 <= k < |picked| :: picked[k];
    assert chosen == set y | y in Chosen(ids, checked, now, ttl, limit);
    var p :| 0 <= p < |sorted| && sorted[p] == x;
    assert forall k :: 0 <= k < |picked| ==> sorted[k] == picked[k] && sorted[k] in picked;
    assert limit <= p;
    forall y | y in chosen
      ensures y in Ahead(pos, ids, checked, now, ttl, x)
    {
      var k :| 0 <= k < |picked| && picked[k] == y;
      assert sorted[k] in sorted && Before(pos, checked, sorted[k], sorted[p]);
    }
  }

  /** A pass that does not reach `x` moves every id it stamps behind `x`, and no id that becomes due
      later gets in front: only those that failed stay ahead -- whatever order `next` the list has
      in the next pass. */
  lemma PassShortensQueue(pos: Order, next: Order, ids: seq<Id>, checked: map<Id, int>, outcome: Outcomes, now: int,
                          later: int, ttl: int, limit: nat, x: Id)
    requires Waiting(pos, ids, checked, now, ttl, x) && ttl > 0 && now <= later
    requires x !in Chosen(ids, checked, now, ttl, limit)
    ensures var chosen := Chosen(ids, checked, now, ttl, limit);
            var ids', checked' := Remaining(ids, chosen, outcome), Restamped(checked, chosen, outcome, now);
            && Waiting(pos, ids', checked', later, ttl, x)
            && Stamp(checked', x) == Stamp(checked, x)
            && forall y :: y in Ahead(next, ids', checked', later, ttl, x) ==>
                 y in Ahead(next, ids, checked, now, ttl, x) && (y in chosen ==> outcome(y).Fails?)
  {
    var chosen := Chosen(ids, checked, now, ttl, limit);
    var checked' := Restamped(checked, chosen, outcome, now);
    RemainingIs(pos, ids, chosen, outcome);
    assert forall id :: id in chosen ==> exists k :: 0 <= k < |chosen| && chosen[k] == id;
    assert Stamp(checked, x) < now;
    forall y | y in Ahead(next, Remaining(ids, chosen, outcome), checked', later, ttl, x)
      ensures y in Ahead(next, ids, checked, now, ttl, x) && (y in chosen ==> outcome(y).Fails?)
    {
      assert y in chosen && outcome(y).Stays? ==> Stamp(checked', y) == now;
      assert Stamp(checked', y) == Stamp(checked, y);
    }
  }

  /** A pass: the clock, and what becomes of each id that is rechecked. */
  datatype Pass = Pass(now: int, outcome: Outcomes)

  ghost predicate Clocked(passes: seq<Pass>) {
    forall i, j :: 0 <= i < j < |passes| ==> passes[i].now <= passes[j].now
  }

  /** `x` is rechecked in one of the passes. */
  ghost predicate Reached(ids: seq<Id>, checked: map<Id, int>, passes: seq<Pass>, ttl: int, limit: nat, x: Id)
    decreases |passes|
  {
    passes != [] &&
    var chosen := Chosen(ids, checked, passes[0].now, ttl, limit);
    (|| x in chosen
     || Reached(Remaining(ids, chosen, passes[0].outcome),
                Restamped(checked, chosen, passes[0].outcome, passes[0].now), passes[1..], ttl, limit, x))
  }

  lemma ShorterBy(ahead: set<Id>, chosen: set<Id>, ahead': set<Id>, failing: set<Id>, limit: nat)
    requires chosen <= ahead && |chosen| == limit
    requires ahead' <= ahead && ahead' * chosen <= failing
    ensures |ahead' * failing| <= |ahead * failing|
    ensures |ahead' - failing| <= |ahead - failing| - (limit - |ahead * failing|)
  {
    CardinalityMono(ahead' * failing, ahead * failing);
    CardinalityMono(chosen * failing, ahead * failing);
    Parts(chosen, failing);
    CardinalityMono(ahead' - failing, (ahead - failing) - (chosen - failing));
    Removed(ahead - failing, chosen - failing);
  }

  lemma Parts(a: set<Id>, b: set<Id>)
    ensures |a| == |a - b| + |a * b|
  {
    assert a == (a - b) + a * b;
  }

  lemma Removed(a: set<Id>, b: set<Id>)
    requires b <= a
    ensures |a - b| == |a| - |b|
  {
    assert a == (a - b) + b;
  }

  lemma {:induction false} CardinalityMono(a: set<Id>, b: set<Id>)
    requires a <= b
    ensures |a| <= |b|
  {
    assert b == a + (b - a);
  }

  /** `a` ids are passed `slack` at a time within `n` passes: a / slack < n. */
  predicate Fits(a: int, slack: int, n: nat)
    decreases n
  {
    n > 0 && (a < slack || Fits(a - slack, slack, n - 1))
  }

  lemma {:induction false} FitsIsQuotient(a: int, slack: int, n: nat)
    requires a >= 0 && slack > 0
    ensures Fits(a, slack, n) <==> a / slack < n
    decreases n
  {
    QuotientBelow(a, slack, n);
    if n > 0 && a >= slack {
      FitsIsQuotient(a - slack, slack, n - 1);
      QuotientBelow(a - slack, slack, n - 1);
      assert (n - 1) * slack == n * slack - slack;
    } else if n > 0 {
      MulMono(1, n, slack);
    }
  }

  lemma {:induction false} FitsMore(a': int, slack': int, a: int, slack: int, n: nat)
    requires Fits(a, slack, n) && a' <= a && slack' >= slack
    ensures Fits(a', slack', n)
    decreases n
  {
    if a' >= slack' {
      FitsMore(a' - slack', slack', a - slack, slack, n - 1);
    }
  }

  ghost predicate Served(ahead: set<Id>, failing: set<Id>, limit: nat, n: nat) {
    |ahead * failing| < limit && Fits(|ahead - failing|, limit - |ahead * failing|, n)
  }

  lemma ServedLater(ahead: set<Id>, ahead': set<Id>, failing: set<Id>, limit: nat, n: nat)
    requires Served(ahead, failing, limit, n) && |ahead - failing| >= limit - |ahead * failing|
    requires |ahead' * failing| <= |ahead * failing|
    requires |ahead' - failing| <= |ahead - failing| - (limit - |ahead * failing|)
    ensures n > 1 && Served(ahead', failing, limit, n - 1)
  {
    var slack := limit - |ahead * failing|;
    FitsMore(|ahead' - failing|, limit - |ahead' * failing|, |ahead - failing| - slack, slack, n - 1);
  }

  lemma {:induction false} ReachedInTime(pos: Order, ids: seq<Id>, checked: map<Id, int>, passes: seq<Pass>, ttl: int,
                                         limit: nat, x: Id, failing: set<Id>)
    requires passes != [] && Clocked(passes) && Waiting(pos, ids, checked, passes[0].now, ttl, x) && ttl > 0
    requires forall k :: 0 <= k < |passes| ==> OnlyFails(passes[k].outcome, failing)
    requires Served(Ahead(pos, ids, checked, passes[0].now, ttl, x), failing, limit, |passes|)
    ensures Reached(ids, checked, passes, ttl, limit, x)
    decreases |passes|
  {
    var now, outcome := passes[0].now, passes[0].outcome;
    var chosen := Chosen(ids, checked, now, ttl, limit);
    if x !in chosen {
      EnoughAhead(pos, ids, checked, now, ttl, limit, x, failing);
      var ahead := Ahead(pos, ids, checked, now, ttl, x);
      assert |passes| > 1;
      var later := passes[1].now;
      PassMakesProgress(pos, ids, checked, outcome, now, later, ttl, limit, x, failing);
      var ids', checked' := Remaining(ids, chosen, outcome), Restamped(checked, chosen, outcome, now);
      ServedLater(ahead, Ahead(pos, ids', checked', later, ttl, x), failing, limit, |passes|);
      assert forall k :: 0 <= k < |passes| - 1 ==> passes[1..][k] == passes[k + 1];
      ReachedInTime(pos, ids', checked', passes[1..], ttl, limit, x, failing);
    }
  }

  ghost predicate OnlyFails(outcome: Outcomes, failing: set<Id>) {
    forall id :: outcome(id).Fails? ==> id in failing
  }

  /** The fair scheduling bound. Ids outside `failing` never throw; fewer than `limit` of those that
      may are ordered before `x`. Then `x` is rechecked within floor(k / (limit - f)) + 1 passes,
      where k other ids and f failing ones are before it -- floor(k / limit) + 1 when none fail. */
  lemma FairSchedulingBound(pos: Order, ids: seq<Id>, checked: map<Id, int>, passes: seq<Pass>, ttl: int, limit: nat,
                            x: Id, failing: set<Id>)
    requires passes != [] && Clocked(passes) && Waiting(pos, ids, checked, passes[0].now, ttl, x) && ttl > 0
    requires forall k :: 0 <= k < |passes| ==> OnlyFails(passes[k].outcome, failing)
    requires |Ahead(pos, ids, checked, passes[0].now, ttl, x) * failing| < limit
    requires |Ahead(pos, ids, checked, passes[0].now, ttl, x) - failing|
               / (limit - |Ahead(pos, ids, checked, passes[0].now, ttl, x) * failing|) < |passes|
    ensures Reached(ids, checked, passes, ttl, limit, x)
  {
    var ahead := Ahead(pos, ids, checked, passes[0].now, ttl, x);
    FitsIsQuotient(|ahead - failing|, limit - |ahead * failing|, |passes|);
    ReachedInTime(pos, ids, checked, passes, ttl, limit, x, failing);
  }

  /** The list as it is saved after a pass. */
  function Saved(ids: seq<Id>): (r: seq<Id>)
    ensures forall y :: y in r <==> y in ids
  {
    if ids == [] then [] else SavedAmong(ids[0], Saved(ids[1..]))
  }

  function SavedAmong(x: Id, sorted: seq<Id>): (r: seq<Id>)
    ensures forall y :: y in r <==> y == x || y in sorted
  {
    if sorted == [] || x < sorted[0] then [x] + sorted
    else if x == sorted[0] then sorted
    else [sorted[0]] + SavedAmong(x, sorted[1..])
  }

  lemma {:induction false} SavedAmongIncreases(x: Id, sorted: seq<Id>)
    requires Increasing(SavedOrder(), sorted)
    ensures Increasing(SavedOrder(), SavedAmong(x, sorted))
    decreases |sorted|
  {
    if sorted != [] && x > sorted[0] {
      var rest := SavedAmong(x, sorted[1..]);
      SavedAmongIncreases(x, sorted[1..]);
      forall j | 0 <= j < |rest|
        ensures sorted[0] < rest[j]
      {
        assert rest[j] in rest;
        if rest[j] != x {
          var k :| 0 <= k < |sorted| - 1 && sorted[1..][k] == rest[j];
          assert SavedOrder()(sorted[0]) < SavedOrder()(sorted[k + 1]);
        }
      }
    }
  }

  lemma {:induction false} SavedIncreases(ids: seq<Id>)
    ensures Increasing(SavedOrder(), Saved(ids))
    decreases |ids|
  {
    if ids != [] {
      SavedIncreases(ids[1..]);
      SavedAmongIncreases(ids[0], Saved(ids[1..]));
    }
  }

  /** The same bound from a pass whose scan has just found new ids: it works through the list in any
      order `pos`, the passes after it in the saved order. An id with the stamp of `x` counts as
      ahead when it is earlier in either. */
  lemma FairSchedulingFromScan(pos: Order, ids: seq<Id>, checked: map<Id, int>, passes: seq<Pass>, ttl: int,
                               limit: nat, x: Id, failing: set<Id>)
    requires passes != [] && Clocked(passes) && Waiting(pos, ids, checked, passes[0].now, ttl, x) && ttl > 0
    requires forall k :: 0 <= k < |passes| ==> OnlyFails(passes[k].outcome, failing)
    requires |AheadInEither(pos, ids, checked, passes[0].now, ttl, x) * failing| < limit
    requires |AheadInEither(pos, ids, checked, passes[0].now, ttl, x) - failing|
               / (limit - |AheadInEither(pos, ids, checked, passes[0].now, ttl, x) * failing|) < |passes|
    ensures ReachedFromScan(ids, checked, passes, ttl, limit, x)
  {
    var either := AheadInEither(pos, ids, checked, passes[0].now, ttl, x);
    FitsIsQuotient(|either - failing|, limit - |either * failing|, |passes|);
    FromScanInTime(pos, ids, checked, passes, ttl, limit, x, failing);
  }

  /** `x` is rechecked in the first pass, or in one of the passes over the saved list. */
  ghost predicate ReachedFromScan(ids: seq<Id>, checked: map<Id, int>, passes: seq<Pass>, ttl: int, limit: nat, x: Id)
    requires passes != []
  {
    var chosen := Chosen(ids, checked, passes[0].now, ttl, limit);
    || x in chosen
    || Reached(Saved(Remaining(ids, chosen, passes[0].outcome)),
               Restamped(checked, chosen, passes[0].outcome, passes[0].now),
               passes[1..], ttl, limit, x)
  }

  lemma FromScanInTime(pos: Order, ids: seq<Id>, checked: map<Id, int>, passes: seq<Pass>, ttl: int, limit: nat,
                       x: Id, failing: set<Id>)
    requires passes != [] && Clocked(passes) && Waiting(pos, ids, checked, passes[0].now, ttl, x) && ttl > 0
    requires forall k :: 0 <= k < |passes| ==> OnlyFails(passes[k].outcome, failing)
    requires Served(AheadInEither(pos, ids, checked, passes[0].now, ttl, x), failing, limit, |passes|)
    ensures ReachedFromScan(ids, checked, passes, ttl, limit, x)
  {
    var now, outcome := passes[0].now, passes[0].outcome;
    var chosen := Chosen(ids, checked, now, ttl, limit);
    if x !in chosen {
      EnoughInEither(pos, ids, checked, now, ttl, limit, x, failing);
      assert |passes| > 1;
      var rest := passes[1..];
      assert forall k :: 0 <= k < |rest| ==> rest[k] == passes[k + 1];
      SecondPassIsServed(pos, ids, checked, outcome, now, rest[0].now, ttl, limit, x, failing, |passes|);
      ReachedInTime(SavedOrder(), Saved(Remaining(ids, chosen, outcome)), Restamped(checked, chosen, outcome, now),
                    rest, ttl, limit, x, failing);
    }
  }

  lemma SecondPassIsServed(pos: Order, ids: seq<Id>, checked: map<Id, int>, outcome: Outcomes, now: int, later: int,
                           ttl: int, limit: nat, x: Id, failing: set<Id>, n: nat)
    requires Waiting(pos, ids, checked, now, ttl, x) && ttl > 0 && now <= later
    requires x !in Chosen(ids, checked, now, ttl, limit)
    requires OnlyFails(outcome, failing) && Served(AheadInEither(pos, ids, checked, now, ttl, x), failing, limit, n)
    ensures var chosen := Chosen(ids, checked, now, ttl, limit);
            var ids', checked' := Saved(Remaining(ids, chosen, outcome)), Restamped(checked, chosen, outcome, now);
            && Waiting(SavedOrder(), ids', checked', later, ttl, x)
            && n > 1 && Served(Ahead(SavedOrder(), ids', checked', later, ttl, x), failing, limit, n - 1)
  {
    var chosen := Chosen(ids, checked, now, ttl, limit);
    EnoughInEither(pos, ids, checked, now, ttl, limit, x, failing);
    FirstPassShortens(pos, ids, checked, outcome, now, later, ttl, limit, x, failing);
    ServedLater(AheadInEither(pos, ids, checked, now, ttl, x),
                Ahead(SavedOrder(), Saved(Remaining(ids, chosen, outcome)), Restamped(checked, chosen, outcome, now),
                      later, ttl, x),
                failing, limit, n);
  }

  lemma EnoughInEither(pos: Order, ids: seq<Id>, checked: map<Id, int>, now: int, ttl: int, limit: nat, x: Id,
                       failing: set<Id>)
    requires Waiting(pos, ids, checked, now, ttl, x) && x !in Chosen(ids, checked, now, ttl, limit)
    ensures |AheadInEither(pos, ids, checked, now, ttl, x) - failing|
              >= limit - |AheadInEither(pos, ids, checked, now, ttl, x) * failing|
  {
    var either := AheadInEither(pos, ids, checked, now, ttl, x);
    var picked := PassedOver(pos, ids, checked, now, ttl, limit, x);
    CardinalityMono(picked, either);
    Parts(either, failing);
  }

  /** A first pass in any order, seen from the saved order that follows it. */
  lemma FirstPassShortens(pos: Order, ids: seq<Id>, checked: map<Id, int>, outcome: Outcomes, now: int, later: int,
                          ttl: int, limit: nat, x: Id, failing: set<Id>)
    requires Waiting(pos, ids, checked, now, ttl, x) && ttl > 0 && now <= later
    requires x !in Chosen(ids, checked, now, ttl, limit)
    requires OnlyFails(outcome, failing)
    ensures var chosen := Chosen(ids, checked, now, ttl, limit);
            var ids', checked' := Saved(Remaining(ids, chosen, outcome)), Restamped(checked, chosen, outcome, now);
            var either, ahead' := AheadInEither(pos, ids, checked, now, ttl, x),
                Ahead(SavedOrder(), ids', checked', later, ttl, x);
            && Waiting(SavedOrder(), ids', checked', later, ttl, x)
            && |ahead' * failing| <= |either * failing|
            && |ahead' - failing| <= |either - failing| - (limit - |either * failing|)
  {
    var chosen := Chosen(ids, checked, now, ttl, limit);
    var remaining, checked' := Remaining(ids, chosen, outcome), Restamped(checked, chosen, outcome, now);
    var picked := PassedOver(pos, ids, checked, now, ttl, limit, x);
    PassShortensQueue(pos, SavedOrder(), ids, checked, outcome, now, later, ttl, limit, x);
    SavedIncreases(remaining);
    var ahead' := Ahead(SavedOrder(), Saved(remaining), checked', later, ttl, x);
    assert ahead' == Ahead(SavedOrder(), remaining, checked', later, ttl, x);
    ShorterBy(AheadInEither(pos, ids, checked, now, ttl, x), picked, ahead', failing, limit);
  }

  ghost function AheadInEither(pos: Order, ids: seq<Id>, checked: map<Id, int>, now: int, ttl: int, x: Id): set<Id> {
    Ahead(pos, ids, checked, now, ttl, x) + Ahead(SavedOrder(), ids, checked, now, ttl, x)
  }

  lemma EnoughAhead(pos: Order, ids: seq<Id>, checked: map<Id, int>, now: int, ttl: int, limit: nat, x: Id,
                    failing: set<Id>)
    requires Waiting(pos, ids, checked, now, ttl, x) && x !in Chosen(ids, checked, now, ttl, limit)
    ensures |Ahead(pos, ids, checked, now, ttl, x) - failing|
              >= limit - |Ahead(pos, ids, checked, now, ttl, x) * failing|
  {
    var ahead := Ahead(pos, ids, checked, now, ttl, x);
    var picked := PassedOver(pos, ids, checked, now, ttl, limit, x);
    CardinalityMono(picked, ahead);
    assert ahead == (ahead - failing) + (ahead * failing);
  }

  lemma PassMakesProgress(pos: Order, ids: seq<Id>, checked: map<Id, int>, outcome: Outcomes, now: int, later: int,
                          ttl: int, limit: nat, x: Id, failing: set<Id>)
    requires Waiting(pos, ids, checked, now, ttl, x) && ttl > 0 && now <= later
    requires x !in Chosen(ids, checked, now, ttl, limit)
    requires OnlyFails(outcome, failing)
    ensures var chosen := Chosen(ids, checked, now, ttl, limit);
            var ids', checked' := Remaining(ids, chosen, outcome), Restamped(checked, chosen, outcome, now);
            var ahead, ahead' := Ahead(pos, ids, checked, now, ttl, x), Ahead(pos, ids', checked', later, ttl, x);
            && Waiting(pos, ids', checked', later, ttl, x)
            && |ahead' * failing| <= |ahead * failing|
            && |ahead' - failing| <= |ahead - failing| - (limit - |ahead * failing|)
  {
    var chosen := Chosen(ids, checked, now, ttl, limit);
    PassShortensQueue(pos, pos, ids, checked, outcome, now, later, ttl, limit, x);
    var picked := PassedOver(pos, ids, checked, now, ttl, limit, x);
    ShorterBy(Ahead(pos, ids, checked, now, ttl, x), picked,
              Ahead(pos, Remaining(ids, chosen, outcome), Restamped(checked, chosen, outcome, now), later, ttl, x),
              failing, limit);
  }

  lemma MulMono(x: int, y: int, d: int)
    requires d >= 0
    ensures x <= y ==> x * d <= y * d
  {
  }

  lemma QuotientBelow(a: int, d: int, m: int)
    requires a >= 0 && d > 0
    ensures a / d < m <==> a < m * d
  {
    var q := a / d;
    assert q * d <= a < (q + 1) * d;
    MulMono(m, q, d);
    MulMono(q + 1, m, d);
  }

  /** The bound on failing ids is exact: when `limit` ids ordered before `x` fail in every pass, `x`
      is never rechecked, however many passes are made. An id whose recheck throws is not stamped,
      so it keeps its place at the head of the queue. */
  lemma {:induction false} FailingIdsStarve(pos: Order, ids: seq<Id>, checked: map<Id, int>, passes: seq<Pass>,
                                            ttl: int, limit: nat, x: Id, stuck: set<Id>)
    requires passes != [] && Clocked(passes) && Waiting(pos, ids, checked, passes[0].now, ttl, x) && ttl > 0
    requires forall k :: 0 <= k < |passes| ==> forall id :: id in stuck ==> passes[k].outcome(id).Fails?
    requires stuck <= Ahead(pos, ids, checked, passes[0].now, ttl, x) && |stuck| >= limit
    ensures !Reached(ids, checked, passes, ttl, limit, x)
    decreases |passes|
  {
    var now, outcome := passes[0].now, passes[0].outcome;
    var chosen := Chosen(ids, checked, now, ttl, limit);
    NotChosenBehind(pos, ids, checked, now, ttl, limit, x, stuck);
    if |passes| > 1 {
      var later := passes[1].now;
      PassShortensQueue(pos, pos, ids, checked, outcome, now, later, ttl, limit, x);
      var ids', checked' := Remaining(ids, chosen, outcome), Restamped(checked, chosen, outcome, now);
      RemainingIs(pos, ids, chosen, outcome);
      assert passes[0] in passes;
      forall y | y in stuck
        ensures y in Ahead(pos, ids', checked', later, ttl, x)
      {
        assert y in Ahead(pos, ids, checked, now, ttl, x) && outcome(y).Fails?;
        assert Stamp(checked', y) == Stamp(checked, y) && (y in checked' <==> y in checked);
      }
      assert forall k :: 0 <= k < |passes| - 1 ==> passes[1..][k] == passes[k + 1];
      FailingIdsStarve(pos, ids', checked', passes[1..], ttl, limit, x, stuck);
    }
  }

  lemma OrderGivesPosition(pos: Order, checked: map<Id, int>, sorted: seq<Id>, q: nat, p: nat)
    requires InOrder(pos, checked, sorted) && p < |sorted| && q < |sorted| && Before(pos, checked, sorted[q], sorted[p])
    ensures q < p
  {
  }

  lemma NotChosenBehind(pos: Order, ids: seq<Id>, checked: map<Id, int>, now: int, ttl: int, limit: nat, x: Id,
                        ahead: set<Id>)
    requires Waiting(pos, ids, checked, now, ttl, x)
    requires ahead <= Ahead(pos, ids, checked, now, ttl, x) && |ahead| >= limit
    ensures x !in Chosen(ids, checked, now, ttl, limit)
  {
    var sorted := DueSorted(ids, checked, now, ttl);
    DueSortedIs(pos, ids, checked, now, ttl);
    var p :| 0 <= p < |sorted| && sorted[p] == x;
    var front := sorted[..p];
    forall i, j | 0 <= i < j < |sorted|
      ensures sorted[i] != sorted[j]
    {
      assert Before(pos, checked, sorted[i], sorted[j]);
    }
    DistinctCount(front);
    var fronts := set k | 0 <= k < |front| :: front[k];
    forall y | y in ahead
      ensures y in fronts
    {
      assert y in Ahead(pos, ids, checked, now, ttl, x);
      var q :| 0 <= q < |sorted| && sorted[q] == y;
      OrderGivesPosition(pos, checked, sorted, q, p);
      assert front[q] == y;
    }
    CardinalityMono(ahead, fronts);
  }
}
