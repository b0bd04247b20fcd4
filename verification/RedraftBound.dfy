/** How often a task can be drafted again automatically, over runs with any number of crashes and
    throwing operations. A throw before an unlink leaves a second copy, which has budgets of its own;
    so the budgets are added up over all the copies of a task. */
module RedraftBound {
  import opened Queue
  import opened QueueRuns
  import RetryCheck
  import BlockedDrain

  // ----- what an event does to one task

  /** How far the event gets with the task. */
  function Reach(files: Files, h: Happening, n: Name): Limit {
    LimitAt(SrcOf(h.event), NamesOf(h.event), ActionsOf(h.event, files), LimitOf(h.event), h.crash, n)
  }

  function ActionOn(files: Files, h: Happening, n: Name): Action {
    if n in NamesOf(h.event) then ActionsOf(h.event, files)(n) else Leave
  }

  function AfterOn(files: Files, h: Happening, n: Name): Files {
    OneFile(files, SrcOf(h.event), n, ActionOn(files, h, n), Reach(files, h, n))
  }

  lemma AfterIsAfterOn(files: Files, h: Happening, n: Name)
    requires Enabled(h.event, files)
    ensures SameFor(After(files, h), AfterOn(files, h, n), n)
  {
    var e := h.event;
    assert Distinct(NamesOf(e));
    EventsAreSane(e, files);
    CutSweepOnOne(files, SrcOf(e), NamesOf(e), ActionsOf(e, files), LimitOf(e), h.crash, n);
  }

  /** A move to `dest` is at least written. */
  predicate Writes(dest: Dir, action: Action, limit: Limit) {
    match action
    case MoveTo(d, _) => d == dest && limit.ops >= 1
    case TryMove(d, _, otherwise) =>
      || (d == dest && limit.ops >= 1)
      || (limit.ops < 2 && otherwise.MoveTo? && otherwise.dest == dest && limit.later >= 1)
    case _ => false
  }

  /** The event puts the task into pending/, by whatever way and whether or not it gets further. */
  predicate Redrafts(files: Files, h: Happening, n: Name) {
    (h.event.Retry? || h.event.Drain?) && Writes(Pending, ActionOn(files, h, n), Reach(files, h, n))
  }

  /** The event puts it back into approved/ after a git timeout. */
  predicate Releases(files: Files, h: Happening, n: Name) {
    && h.event.Retry? && Key(Blocked, n) in files && files[Key(Blocked, n)].Good?
    && RetryCheck.IsGitTimeoutApplyFailure(files[Key(Blocked, n)].task)
    && Writes(Approved, ActionOn(files, h, n), Reach(files, h, n))
  }

  /** It is cut before an unlink of the task. */
  predicate CutAtUnlink(files: Files, h: Happening, n: Name) {
    Duplicates(ActionOn(files, h, n), Reach(files, h, n))
  }

  /** `f` added up along the states that `next` goes through. */
  function SumAlong<S, H>(s: S, run: seq<H>, next: (S, H) -> S, f: (S, H) -> nat): nat
    decreases |run|
  {
    if run == [] then 0 else f(s, run[0]) + SumAlong(next(s, run[0]), run[1..], next, f)
  }

  ghost predicate Along<S, H>(s: S, run: seq<H>, next: (S, H) -> S, can: (S, H) -> bool)
    decreases |run|
  {
    run == [] || (can(s, run[0]) && Along(next(s, run[0]), run[1..], next, can))
  }

  function Step(): (Files, Happening) -> Files {
    (files: Files, h: Happening) => After(files, h)
  }

  /** Added up over a run. */
  function Sum(files: Files, run: seq<Happening>, f: (Files, Happening) -> nat): nat {
    SumAlong(files, run, Step(), f)
  }

  function RedraftOf(n: Name): (Files, Happening) -> nat {
    (files: Files, h: Happening) => if Redrafts(files, h, n) then 1 else 0
  }

  function ReleaseOf(n: Name): (Files, Happening) -> nat {
    (files: Files, h: Happening) => if Releases(files, h, n) then 1 else 0
  }

  function CutOf(n: Name): (Files, Happening) -> nat {
    (files: Files, h: Happening) => if CutAtUnlink(files, h, n) then 1 else 0
  }

  // ----- weights

  function Weight(files: Files, d: Dir, n: Name, w: Task -> nat): nat {
    if Key(d, n) in files && files[Key(d, n)].Good? then w(files[Key(d, n)].task) else 0
  }

  /** Over all the copies of the task. */
  function Total(files: Files, n: Name, w: Task -> nat): nat {
    Weight(files, Pending, n, w) + Weight(files, Drafting, n, w) + Weight(files, Approved, n, w)
        + Weight(files, Blocked, n, w)
    + Weight(files, NeedsClarification, n, w) + Weight(files, AwaitingConfirm, n, w) + Weight(files, Coordinating, n, w)
    + Weight(files, Done, n, w) + Weight(files, ArchivedNoAction, n, w)
  }

  lemma OneWeightDiffers(f: Files, g: Files, d: Dir, n: Name, w: Task -> nat)
    requires forall d' :: d' != d ==> Weight(g, d', n, w) == Weight(f, d', n, w)
    ensures Total(g, n, w) == Total(f, n, w) - Weight(f, d, n, w) + Weight(g, d, n, w)
  {
  }

  lemma TotalAfterWrite(files: Files, d: Dir, n: Name, t: Task, w: Task -> nat)
    ensures Total(files[Key(d, n) := Good(t)], n, w) == Total(files, n, w) - Weight(files, d, n, w) + w(t)
  {
    var after := files[Key(d, n) := Good(t)];
    forall d' | d' != d
      ensures Weight(after, d', n, w) == Weight(files, d', n, w)
    {
    }
    OneWeightDiffers(files, after, d, n, w);
  }

  lemma TotalAfterUnlink(files: Files, d: Dir, n: Name, w: Task -> nat)
    ensures Total(files - {Key(d, n)}, n, w) == Total(files, n, w) - Weight(files, d, n, w)
  {
    var after := files - {Key(d, n)};
    forall d' | d' != d
      ensures Weight(after, d', n, w) == Weight(files, d', n, w)
    {
    }
    OneWeightDiffers(files, after, d, n, w);
  }

  lemma SameTotal(f: Files, g: Files, n: Name, w: Task -> nat)
    requires SameFor(f, g, n)
    ensures Total(f, n, w) == Total(g, n, w)
  {
    assert forall d :: Weight(f, d, n, w) == Weight(g, d, n, w);
  }

  lemma OneCopyTotal(files: Files, n: Name, dir: Dir, w: Task -> nat, most: nat)
    requires OnlyIn(files, n, dir) && forall u :: w(u) <= most
    ensures Total(files, n, w) <= most
  {
    assert forall d :: d != dir ==> Weight(files, d, n, w) == 0;
    assert Weight(files, dir, n, w) <= most;
  }

  /** A move that stops before its unlink. */
  lemma TotalAfterCutMove(files: Files, src: Dir, n: Name, dest: Dir, u: Task, w: Task -> nat)
    ensures Total(Moved(files, src, n, dest, u, 1), n, w) == Total(files, n, w) + w(u) - Weight(files, dest, n, w)
  {
    TotalAfterWrite(files, dest, n, u, w);
  }

  lemma TotalAfterWholeMove(files: Files, src: Dir, n: Name, dest: Dir, u: Task, limit: nat, w: Task -> nat)
    requires dest != src && limit >= 2
    ensures Total(Moved(files, src, n, dest, u, limit), n, w)
         == Total(files, n, w) + w(u) - Weight(files, dest, n, w) - Weight(files, src, n, w)
  {
    var written := Moved(files, src, n, dest, u, 1);
    assert Weight(written, src, n, w) == Weight(files, src, n, w);
    TotalAfterCutMove(files, src, n, dest, u, w);
    TotalAfterUnlink(written, src, n, w);
  }

  /** What the action charges to the budget `w` measures, `c` for its move and `later` for the move of
      its fallback. */
  predicate Charges(action: Action, t: Task, w: Task -> nat, c: nat, later: nat) {
    match action
    case Leave => true
    case Rewrite(u) => w(u) <= w(t)
    case MoveTo(_, u) => w(u) + c <= w(t)
    case TryMove(_, u, otherwise) => w(u) <= w(t) && !otherwise.TryMove? && Charges(otherwise, t, w, later, 0)
  }

  function Spent(action: Action, limit: Limit, c: nat, later: nat): nat {
    match action
    case MoveTo(_, _) => if limit.ops >= 1 then c else 0
    case TryMove(_, _, otherwise) => if limit.ops < 2 && otherwise.MoveTo? && limit.later >= 1 then later else 0
    case _ => 0
  }

  lemma MoveSpends(files: Files, src: Dir, n: Name, dest: Dir, u: Task, limit: nat, t: Task, w: Task -> nat, c: nat,
                   most: nat)
    requires dest != src && Key(src, n) in files && files[Key(src, n)] == Good(t) && w(u) + c <= w(t) <= most
    ensures Total(Moved(files, src, n, dest, u, limit), n, w) + (if limit >= 1 then c else 0)
              <= Total(files, n, w) + (if limit == 1 then most else 0)
  {
    if limit == 1 {
      TotalAfterCutMove(files, src, n, dest, u, w);
    } else if limit >= 2 {
      TotalAfterWholeMove(files, src, n, dest, u, limit, w);
    }
  }

  /** An action without a fallback. */
  lemma PlainActionSpends(files: Files, src: Dir, n: Name, action: Action, limit: Limit, t: Task, w: Task -> nat,
                          c: nat, most: nat)
    requires SaneAction(src, action) && !action.TryMove? && Key(src, n) in files && files[Key(src, n)] == Good(t)
    requires Charges(action, t, w, c, 0) && w(t) <= most
    ensures Total(OneFile(files, src, n, action, limit), n, w) + (if action.MoveTo? && limit.ops >= 1 then c else 0)
         <= Total(files, n, w) + (if action.MoveTo? && limit.ops == 1 then most else 0)
  {
    match action
    case Leave =>
    case Rewrite(u) =>
      TotalAfterWrite(files, src, n, u, w);
    case MoveTo(dest, u) =>
      MoveSpends(files, src, n, dest, u, limit.ops, t, w, c, most);
  }

  /** A fallback to the same place replaces the copy of the move that was cut. */
  lemma RetriedMoveSpends(files: Files, src: Dir, n: Name, dest: Dir, u: Task, v: Task, limit: nat, t: Task,
                          w: Task -> nat, c: nat)
    requires dest != src && limit >= 2 && Key(src, n) in files && files[Key(src, n)] == Good(t) && w(v) + c <= w(t)
    ensures Total(Moved(Moved(files, src, n, dest, u, 1), src, n, dest, v, limit), n, w) + c <= Total(files, n, w)
  {
    var mid := Moved(files, src, n, dest, u, 1);
    assert Weight(mid, dest, n, w) == w(u) && Weight(mid, src, n, w) == w(t);
    TotalAfterCutMove(files, src, n, dest, u, w);
    TotalAfterWholeMove(mid, src, n, dest, v, limit, w);
  }

  /** One event on one task: what it spends comes out of the total, but for the copies it adds. */
  lemma ActionSpends(files: Files, src: Dir, n: Name, action: Action, limit: Limit, t: Task, w: Task -> nat, c: nat,
                     later: nat, most: nat)
    requires SaneAction(src, action) && Key(src, n) in files && files[Key(src, n)] == Good(t)
    requires Charges(action, t, w, c, later) && forall u :: w(u) <= most
    ensures Total(OneFile(files, src, n, action, limit), n, w) + Spent(action, limit, c, later)
         <= Total(files, n, w) + (if Duplicates(action, limit) then 2 * most else 0)
  {
    assert w(t) <= most;
    match action
    case TryMove(dest, u, otherwise) =>
      MoveSpends(files, src, n, dest, u, limit.ops, t, w, 0, most);
      if limit.ops == 1 && otherwise.MoveTo? && otherwise.dest == dest && limit.later >= 2 {
        RetriedMoveSpends(files, src, n, dest, u, otherwise.task, limit.later, t, w, later);
      } else if limit.ops < 2 {
        var mid := Moved(files, src, n, dest, u, limit.ops);
        PlainActionSpends(mid, src, n, otherwise, Limit(limit.later, 0), t, w, later, most);
      }
    case _ =>
      PlainActionSpends(files, src, n, action, limit, t, w, c, most);
  }

  // ----- the two budgets

  /** Three redrafts for every signature not drained for, and the retries left. */
  function RedraftsLeft(signatures: set<string>): Task -> nat {
    (t: Task) => 3 * |Unused(t, signatures)| + Left(2, t.applyRetryCount)
  }

  /** Four releases for every signature not drained for, and the releases left. */
  function ReleasesLeft(signatures: set<string>): Task -> nat {
    (t: Task) => 4 * |Unused(t, signatures)| + Left(4, t.applyTimeoutReleases)
  }

  function MostRedrafts(signatures: set<string>): nat {
    3 * |signatures| + 2
  }

  function MostReleases(signatures: set<string>): nat {
    4 * |signatures| + 4
  }

  lemma UnusedAreSignatures(signatures: set<string>)
    ensures forall t :: RedraftsLeft(signatures)(t) <= MostRedrafts(signatures)
    ensures forall t :: ReleasesLeft(signatures)(t) <= MostReleases(signatures)
  {
    forall t
      ensures |Unused(t, signatures)| <= |signatures|
    {
      assert signatures == Unused(t, signatures) + signatures * t.requeuedFor;
    }
  }

  predicate IsTo(dest: Dir, action: Action) {
    action.MoveTo? && action.dest == dest
  }

  function Redraft(e: Event, action: Action): nat {
    if (e.Retry? || e.Drain?) && IsTo(Pending, action) then 1 else 0
  }

  function Release(e: Event, t: Task, action: Action): nat {
    if e.Retry? && RetryCheck.IsGitTimeoutApplyFailure(t) && IsTo(Approved, action) then 1 else 0
  }

  /** The fallback's redraft. */
  function Later(e: Event, action: Action): nat {
    if action.TryMove? then Redraft(e, action.otherwise) else 0
  }

  lemma RetryCharges(files: Files, e: Event, n: Name, t: Task, signatures: set<string>)
    requires e.Retry? && n in NamesOf(e) && Key(Blocked, n) in files && files[Key(Blocked, n)] == Good(t)
    ensures var action := ActionsOf(e, files)(n);
            && Charges(action, t, RedraftsLeft(signatures), Redraft(e, action), Later(e, action))
            && Charges(action, t, ReleasesLeft(signatures), Release(e, t, action), 0)
  {
    var action := ActionsOf(e, files)(n);
    RetryCheck.BudgetsCharged(e.cfg, e.seen(n), t);
    RetryCheck.FallbackCharged(e.cfg, e.seen(n), t);
    TimeoutReleaseIsRelease(e.cfg, e.seen(n), t);
    if !action.Leave? {
      assert Unused(action.task, signatures) == Unused(t, signatures);
      if action.TryMove? && !action.otherwise.Leave? {
        assert Unused(action.otherwise.task, signatures) == Unused(t, signatures);
      }
    }
  }

  lemma DrainCharges(files: Files, e: Event, n: Name, t: Task, signatures: set<string>)
    requires e.Drain? && e.signature in signatures && Key(e.dir, n) in files && files[Key(e.dir, n)] == Good(t)
    ensures var action := ActionsOf(e, files)(n);
            && Charges(action, t, RedraftsLeft(signatures), Redraft(e, action), Later(e, action))
            && Charges(action, t, ReleasesLeft(signatures), Release(e, t, action), 0)
  {
    if !ActionsOf(e, files)(n).Leave? {
      UnusedDrops(t, e.signature, signatures);
    }
  }

  lemma EventCharges(files: Files, h: Happening, n: Name, t: Task, signatures: set<string>)
    requires Enabled(h.event, files) && DrainsWithin(h.event, signatures)
    requires Key(SrcOf(h.event), n) in files && files[Key(SrcOf(h.event), n)] == Good(t)
    ensures var action := ActionOn(files, h, n);
            && Charges(action, t, RedraftsLeft(signatures), Redraft(h.event, action), Later(h.event, action))
            && Charges(action, t, ReleasesLeft(signatures), Release(h.event, t, action), 0)
  {
    var e, action := h.event, ActionOn(files, h, n);
    if n in NamesOf(e) && !action.Leave? {
      if e.Retry? {
        RetryCharges(files, e, n, t, signatures);
      } else if e.Drain? {
        DrainCharges(files, e, n, t, signatures);
      } else {
        OthersKeepBudgets(files, e, n, t);
        assert Unused(action.task, signatures) == Unused(t, signatures);
      }
    }
  }

  // ----- runs

  /** One event, by either budget. */
  lemma HappeningSpends(files: Files, h: Happening, n: Name, w: Task -> nat, c: nat, later: nat, most: nat)
    requires Enabled(h.event, files) && Somewhere(files, n) && forall u :: w(u) <= most
    requires Key(SrcOf(h.event), n) in files && files[Key(SrcOf(h.event), n)].Good? ==>
               Charges(ActionOn(files, h, n), files[Key(SrcOf(h.event), n)].task, w, c, later)
    ensures Total(After(files, h), n, w) + Spent(ActionOn(files, h, n), Reach(files, h, n), c, later)
         <= Total(files, n, w) + (if CutAtUnlink(files, h, n) then 2 * most else 0)
  {
    var e, action, limit := h.event, ActionOn(files, h, n), Reach(files, h, n);
    AfterIsAfterOn(files, h, n);
    SameTotal(After(files, h), AfterOn(files, h, n), n, w);
    if !action.Leave? {
      ActsOnItsSource(files, e, n);
      EventsAreSane(e, files);
      assert exists k :: 0 <= k < |NamesOf(e)| && NamesOf(e)[k] == n;
      ActionSpends(files, SrcOf(e), n, action, limit, files[Key(SrcOf(e), n)].task, w, c, later, most);
    }
  }

  lemma RedraftIsSpent(files: Files, h: Happening, n: Name, signatures: set<string>)
    requires Enabled(h.event, files) && DrainsWithin(h.event, signatures) && Somewhere(files, n)
    ensures Total(After(files, h), n, RedraftsLeft(signatures)) + (if Redrafts(files, h, n) then 1 else 0)
         <= Total(files, n, RedraftsLeft(signatures))
             + (if CutAtUnlink(files, h, n) then 2 * MostRedrafts(signatures) else 0)
  {
    var e, action := h.event, ActionOn(files, h, n);
    UnusedAreSignatures(signatures);
    if Key(SrcOf(e), n) in files && files[Key(SrcOf(e), n)].Good? {
      EventCharges(files, h, n, files[Key(SrcOf(e), n)].task, signatures);
    }
    HappeningSpends(files, h, n, RedraftsLeft(signatures), Redraft(e, action), Later(e, action),
                    MostRedrafts(signatures));
    RedraftIsMove(files, h, n);
  }

  lemma RedraftIsMove(files: Files, h: Happening, n: Name)
    requires Enabled(h.event, files)
    ensures var action := ActionOn(files, h, n);
            Redrafts(files, h, n) ==>
                Spent(action, Reach(files, h, n), Redraft(h.event, action), Later(h.event, action)) == 1
  {
    EscalationIsNoRedraft(files, h, n);
  }

  lemma EscalationIsNoRedraft(files: Files, h: Happening, n: Name)
    requires Enabled(h.event, files)
    ensures ActionOn(files, h, n).TryMove? ==> ActionOn(files, h, n).dest.NeedsClarification?
  {
  }

  lemma ReleaseIsSpent(files: Files, h: Happening, n: Name, signatures: set<string>)
    requires Enabled(h.event, files) && DrainsWithin(h.event, signatures) && Somewhere(files, n)
    ensures Total(After(files, h), n, ReleasesLeft(signatures)) + (if Releases(files, h, n) then 1 else 0)
         <= Total(files, n, ReleasesLeft(signatures))
             + (if CutAtUnlink(files, h, n) then 2 * MostReleases(signatures) else 0)
  {
    var e, action := h.event, ActionOn(files, h, n);
    UnusedAreSignatures(signatures);
    var c := 0;
    if Key(SrcOf(e), n) in files && files[Key(SrcOf(e), n)].Good? {
      EventCharges(files, h, n, files[Key(SrcOf(e), n)].task, signatures);
      c := Release(e, files[Key(SrcOf(e), n)].task, action);
    }
    HappeningSpends(files, h, n, ReleasesLeft(signatures), c, 0, MostReleases(signatures));
    if Releases(files, h, n) && action.TryMove? {
      EscalationIsNoRedraft(files, h, n);
      FallbackIsNoRelease(files, h, n);
    }
  }

  lemma FallbackIsNoRelease(files: Files, h: Happening, n: Name)
    requires Enabled(h.event, files) && ActionOn(files, h, n).TryMove? && ActionOn(files, h, n).otherwise.MoveTo?
    ensures ActionOn(files, h, n).otherwise.dest.Pending?
  {
    RetryCheck.FallbackCharged(h.event.cfg, h.event.seen(n), files[Key(Blocked, n)].task);
  }

  function Times(m: nat, k: nat): nat {
    m * k
  }

  /** 2 * m * k, added up. */
  function Extra(m: nat, k: nat): nat {
    if k == 0 then 0 else 2 * m + Extra(m, k - 1)
  }

  lemma {:induction false} ExtraIsProduct(m: nat, k: nat)
    ensures m + Extra(m, k) == m * (1 + 2 * k)
    decreases k
  {
    if k > 0 {
      ExtraIsProduct(m, k - 1);
      assert m * (1 + 2 * k) == m * (1 + 2 * (k - 1)) + 2 * m;
    }
  }

  lemma AsProduct(count: nat, m: nat, k: nat)
    requires count <= m + Extra(m, k)
    ensures count <= Times(m, 1 + 2 * k)
  {
    ExtraIsProduct(m, k);
  }

  lemma {:induction false} ExtraAdds(m: nat, j: nat, k: nat)
    ensures Extra(m, j + k) == Extra(m, j) + Extra(m, k)
    decreases j
  {
    if j > 0 {
      ExtraAdds(m, j - 1, k);
    }
  }

  /** In one step what is spent comes out of `total`, but for what its cuts add. */
  predicate Spends<S, H>(s: S, h: H, next: (S, H) -> S, spent: (S, H) -> nat, cuts: (S, H) -> nat, total: S -> nat,
                         m: nat) {
    total(next(s, h)) + spent(s, h) <= total(s) + Extra(m, cuts(s, h))
  }

  lemma {:induction false} RunSpends<S(!new), H(!new)>(s: S, run: seq<H>, next: (S, H) -> S, can: (S, H) -> bool,
                                                       spent: (S, H) -> nat, cuts: (S, H) -> nat, total: S -> nat,
                                                       m: nat)
    requires Along(s, run, next, can)
    requires forall g: S, h: H :: can(g, h) ==> Spends(g, h, next, spent, cuts, total, m)
    ensures SumAlong(s, run, next, spent) <= total(s) + Extra(m, SumAlong(s, run, next, cuts))
    decreases |run|
  {
    if run != [] {
      assert Spends(s, run[0], next, spent, cuts, total, m);
      RunSpends(next(s, run[0]), run[1..], next, can, spent, cuts, total, m);
      ExtraAdds(m, cuts(s, run[0]), SumAlong(next(s, run[0]), run[1..], next, cuts));
    }
  }

  ghost predicate CanHappen(files: Files, h: Happening, n: Name, signatures: set<string>) {
    Enabled(h.event, files) && DrainsWithin(h.event, signatures) && Somewhere(files, n)
  }

  ghost function Can(n: Name, signatures: set<string>): (Files, Happening) -> bool {
    (files: Files, h: Happening) => CanHappen(files, h, n, signatures)
  }

  lemma {:induction false} RunGoesAlong(files: Files, run: seq<Happening>, n: Name, signatures: set<string>)
    requires EnabledRun(files, run) && Somewhere(files, n)
    requires forall k :: 0 <= k < |run| ==> DrainsWithin(run[k].event, signatures)
    ensures Along(files, run, Step(), Can(n, signatures))
    decreases |run|
  {
    if run != [] {
      assert DrainsWithin(run[0].event, signatures);
      StaysSomewhere(files, run, n);
      RunGoesAlong(After(files, run[0]), run[1..], n, signatures);
    }
  }

  function TotalOf(n: Name, w: Task -> nat): Files -> nat {
    (files: Files) => Total(files, n, w)
  }

  lemma StaysSomewhere(files: Files, run: seq<Happening>, n: Name)
    requires EnabledRun(files, run) && Somewhere(files, n) && run != []
    ensures Somewhere(After(files, run[0]), n)
    ensures forall k :: 0 <= k < |run| - 1 ==> run[1..][k] == run[k + 1]
  {
    var one := [run[0]];
    assert one[1..] == [] && RunAll(files, one) == After(files, run[0]);
    NoTaskLost(files, one, n);
  }

  lemma OneCopyBoundsRedrafts(files: Files, run: seq<Happening>, n: Name, dir: Dir, signatures: set<string>)
    requires EnabledRun(files, run) && OnlyIn(files, n, dir)
    requires forall k :: 0 <= k < |run| ==> DrainsWithin(run[k].event, signatures)
    ensures Sum(files, run, RedraftOf(n))
              <= MostRedrafts(signatures) + Extra(MostRedrafts(signatures), Sum(files, run, CutOf(n)))
  {
    assert Key(dir, n) in files;
    RedraftsOfRun(files, run, n, signatures);
    UnusedAreSignatures(signatures);
    OneCopyTotal(files, n, dir, RedraftsLeft(signatures), MostRedrafts(signatures));
  }

  lemma OneCopyBoundsReleases(files: Files, run: seq<Happening>, n: Name, dir: Dir, signatures: set<string>)
    requires EnabledRun(files, run) && OnlyIn(files, n, dir)
    requires forall k :: 0 <= k < |run| ==> DrainsWithin(run[k].event, signatures)
    ensures Sum(files, run, ReleaseOf(n))
              <= MostReleases(signatures) + Extra(MostReleases(signatures), Sum(files, run, CutOf(n)))
  {
    assert Key(dir, n) in files;
    ReleasesOfRun(files, run, n, signatures);
    UnusedAreSignatures(signatures);
    OneCopyTotal(files, n, dir, ReleasesLeft(signatures), MostReleases(signatures));
  }

  lemma RedraftsOfRun(files: Files, run: seq<Happening>, n: Name, signatures: set<string>)
    requires EnabledRun(files, run) && Somewhere(files, n)
    requires forall k :: 0 <= k < |run| ==> DrainsWithin(run[k].event, signatures)
    ensures Sum(files, run, RedraftOf(n))
              <= Total(files, n, RedraftsLeft(signatures)) + Extra(MostRedrafts(signatures), Sum(files, run, CutOf(n)))
  {
    var total, m := TotalOf(n, RedraftsLeft(signatures)), MostRedrafts(signatures);
    forall g: Files, h: Happening | Can(n, signatures)(g, h)
      ensures Spends(g, h, Step(), RedraftOf(n), CutOf(n), total, m)
    {
      RedraftIsSpent(g, h, n, signatures);
      assert Extra(m, 0) == 0 && Extra(m, 1) == 2 * m;
    }
    RunGoesAlong(files, run, n, signatures);
    RunSpends(files, run, Step(), Can(n, signatures), RedraftOf(n), CutOf(n), total, m);
  }

  lemma ReleasesOfRun(files: Files, run: seq<Happening>, n: Name, signatures: set<string>)
    requires EnabledRun(files, run) && Somewhere(files, n)
    requires forall k :: 0 <= k < |run| ==> DrainsWithin(run[k].event, signatures)
    ensures Sum(files, run, ReleaseOf(n))
              <= Total(files, n, ReleasesLeft(signatures)) + Extra(MostReleases(signatures), Sum(files, run, CutOf(n)))
  {
    var total, m := TotalOf(n, ReleasesLeft(signatures)), MostReleases(signatures);
    forall g: Files, h: Happening | Can(n, signatures)(g, h)
      ensures Spends(g, h, Step(), ReleaseOf(n), CutOf(n), total, m)
    {
      ReleaseIsSpent(g, h, n, signatures);
      assert Extra(m, 0) == 0 && Extra(m, 1) == 2 * m;
    }
    RunGoesAlong(files, run, n, signatures);
    RunSpends(files, run, Step(), Can(n, signatures), ReleaseOf(n), CutOf(n), total, m);
  }

  /** However long the run and however often it crashes or an operation throws: a task that starts
      with one copy, and S signatures it can be drained for, is automatically redrafted at most
      3S + 2 = 2(S + 1) + S times, and released from git timeouts at most 4(S + 1) times, plus
      twice as much for every event that was cut before one of its unlinks of the task. */
  lemma AutomaticRedraftsAreBounded(files: Files, run: seq<Happening>, n: Name, dir: Dir, signatures: set<string>)
    requires EnabledRun(files, run) && OnlyIn(files, n, dir)
    requires forall k :: 0 <= k < |run| ==> DrainsWithin(run[k].event, signatures)
    ensures Sum(files, run, RedraftOf(n)) <= Times(MostRedrafts(signatures), 1 + 2 * Sum(files, run, CutOf(n)))
    ensures Sum(files, run, ReleaseOf(n)) <= Times(MostReleases(signatures), 1 + 2 * Sum(files, run, CutOf(n)))
  {
    var cuts := Sum(files, run, CutOf(n));
    OneCopyBoundsRedrafts(files, run, n, dir, signatures);
    OneCopyBoundsReleases(files, run, n, dir, signatures);
    AsProduct(Sum(files, run, RedraftOf(n)), MostRedrafts(signatures), cuts);
    AsProduct(Sum(files, run, ReleaseOf(n)), MostReleases(signatures), cuts);
  }

  lemma {:induction false} CompleteRunIsNotCut(files: Files, run: seq<Happening>, n: Name)
    requires EnabledRun(files, run) && CompleteRun(files, run)
    ensures Sum(files, run, CutOf(n)) == 0
    decreases |run|
  {
    if run != [] {
      var h := run[0];
      CompleteIsNotCut(files, h, n);
      CompleteRunIsNotCut(After(files, h), run[1..], n);
    }
  }

  lemma CompleteIsNotCut(files: Files, h: Happening, n: Name)
    requires Completes(h, files)
    ensures CutOf(n)(files, h) == 0
  {
    if n in NamesOf(h.event) {
      WholeSweepReaches(SrcOf(h.event), NamesOf(h.event), ActionsOf(h.event, files), LimitOf(h.event), h.crash, n);
      assert Reach(files, h, n).ops >= 2;
    }
  }

  /** Without crashes and throws: 2(S + 1) + S redrafts and 4(S + 1) releases in all. */
  lemma CrashFreeRedraftsAreBounded(files: Files, run: seq<Happening>, n: Name, dir: Dir, signatures: set<string>)
    requires EnabledRun(files, run) && CompleteRun(files, run) && OnlyIn(files, n, dir)
    requires forall k :: 0 <= k < |run| ==> DrainsWithin(run[k].event, signatures)
    ensures Sum(files, run, RedraftOf(n)) <= 2 * (|signatures| + 1) + |signatures|
    ensures Sum(files, run, ReleaseOf(n)) <= 4 * (|signatures| + 1)
  {
    OneCopyBoundsRedrafts(files, run, n, dir, signatures);
    OneCopyBoundsReleases(files, run, n, dir, signatures);
    CompleteRunIsNotCut(files, run, n);
  }

  /** The extra term is needed: a redraft whose unlink throws leaves the blocked copy with its budget
      unspent beside the one in pending/. */
  lemma CutRedraftKeepsBudget(files: Files, h: Happening, n: Name, t: Task)
    requires Enabled(h.event, files) && h.event.Retry? && n in h.event.names && h.crash >= |EventOps(h.event, files)|
    requires OnlyIn(files, n, Blocked) && files[Key(Blocked, n)] == Good(t)
    requires IsRedraft(files, h.event, n) && h.event.limit(n).ops == 1
    ensures Redrafts(files, h, n) && CutAtUnlink(files, h, n)
    ensures Key(Pending, n) in After(files, h) && Key(Blocked, n) in After(files, h)
    ensures After(files, h)[Key(Blocked, n)] == Good(t)
  {
    WholeSweepReaches(Blocked, h.event.names, ActionsOf(h.event, files), h.event.limit, h.crash, n);
    AfterIsAfterOn(files, h, n);
  }
}
