/** From a decomposition's proposals to the pieces that survive: inferred links and folding
    (src/apply-adhoc-diff.js:56-77 and 149-187). */
module HubFold {
  import opened Wrappers
  import EditMatch

  /** A proposed sub-task. `created`, `verificationOnly` and `disposition` are what the patterns
      CREATED_FILE_RE, VERIFICATION_LEAD_RE/CODE_CHANGE_VERB_RE and BRAIN_DUMP_DISPOSITION_RE find
      in it; `created` is the base name of the file it claims to create. */
  datatype Proposal = Proposal(
    title: string, rawText: string, after: Option<int>, filesLine: string, slug: string,
    created: Option<string>, verificationOnly: bool, disposition: bool)

  /** `text.includes(part)` */
  predicate Includes(text: string, part: string) {
    EditMatch.NextMatch(text, part, 0).Some?
  }

  /** Piece `j` comes before piece `i` and creates a file that `i` mentions. */
  predicate Feeds(subs: seq<Proposal>, j: nat, i: nat)
    requires i < |subs|
  {
    j < i && subs[j].created.Some? && Includes(subs[i].rawText, subs[j].created.value)
  }

  /** The first piece that feeds `i`, from `j` on. */
  function FirstFeeder(subs: seq<Proposal>, i: nat, j: nat): (r: Option<nat>)
    requires j <= i < |subs|
    ensures r.Some? ==> j <= r.value && Feeds(subs, r.value, i) && forall k :: j <= k < r.value ==> !Feeds(subs, k, i)
    ensures r.None? ==> forall k :: j <= k ==> !Feeds(subs, k, i)
    decreases i - j
  {
    if j == i then None else if Feeds(subs, j, i) then Some(j) else FirstFeeder(subs, i, j + 1)
  }

  /** The proposals with missing links filled in: the model's own link is kept; otherwise the link
      is the first piece that creates a file this one mentions. */
  function Linked(subs: seq<Proposal>): (r: seq<Proposal>)
    ensures |r| == |subs|
  {
    seq(|subs|, i requires 0 <= i < |subs| =>
      if subs[i].after.Some? || FirstFeeder(subs, i, 0).None? then subs[i]
      else subs[i].(after := Some(FirstFeeder(subs, i, 0).value)))
  }

  /** One entry of the `createdBy` map: a base name and the first piece that creates it. */
  datatype Entry = Entry(basename: string, piece: nat)

  ghost predicate Listed(entries: seq<Entry>, basename: string, most: nat) {
    exists e :: 0 <= e < |entries| && entries[e].basename == basename && entries[e].piece <= most
  }

  /** `createdBy` after the first `n` pieces, in insertion order. */
  ghost predicate FirstCreators(subs: seq<Proposal>, n: nat, entries: seq<Entry>) {
    && n <= |subs|
    && (forall e :: 0 <= e < |entries| ==>
        entries[e].piece < n && subs[entries[e].piece].created == Some(entries[e].basename))
    && (forall e, f :: 0 <= e < f < |entries| ==> entries[e].piece < entries[f].piece)
    && (forall j :: 0 <= j < n && subs[j].created.Some? ==> Listed(entries, subs[j].created.value, j))
  }

  lemma KnownCreator(subs: seq<Proposal>, n: nat, entries: seq<Entry>)
    requires FirstCreators(subs, n, entries) && n < |subs|
    requires subs[n].created.Some? ==> exists e :: 0 <= e < |entries| && entries[e].basename == subs[n].created.value
    ensures FirstCreators(subs, n + 1, entries)
  {
    assert subs[n].created.Some? ==> Listed(entries, subs[n].created.value, n);
  }

  lemma NewCreator(subs: seq<Proposal>, n: nat, entries: seq<Entry>, basename: string)
    requires FirstCreators(subs, n, entries) && n < |subs| && subs[n].created == Some(basename)
    ensures FirstCreators(subs, n + 1, entries + [Entry(basename, n)])
  {
    var more := entries + [Entry(basename, n)];
    assert more[|entries|] == Entry(basename, n);
    forall j | 0 <= j < n + 1 && subs[j].created.Some?
      ensures Listed(more, subs[j].created.value, j)
    {
      if j < n {
        var e :| 0 <= e < |entries| && entries[e].basename == subs[j].created.value && entries[e].piece <= j;
        assert more[e] == entries[e];
      }
    }
  }

  method Creators(subs: seq<Proposal>) returns (createdBy: seq<Entry>)
    ensures FirstCreators(subs, |subs|, createdBy)
  {
    createdBy := [];
    for i := 0 to |subs|
      invariant FirstCreators(subs, i, createdBy)
    {
      if subs[i].created.Some? && !exists e :: 0 <= e < |createdBy| && createdBy[e].basename == subs[i].created.value {
        NewCreator(subs, i, createdBy, subs[i].created.value);
        createdBy := createdBy + [Entry(subs[i].created.value, i)];
      } else {
        KnownCreator(subs, i, createdBy);
      }
    }
  }

  predicate Matches(subs: seq<Proposal>, entry: Entry, i: nat)
    requires i < |subs|
  {
    entry.piece < i && Includes(subs[i].rawText, entry.basename)
  }

  method LinkOf(subs: seq<Proposal>, createdBy: seq<Entry>, i: nat) returns (link: Option<nat>)
    requires FirstCreators(subs, |subs|, createdBy) && i < |subs|
    ensures link == FirstFeeder(subs, i, 0)
  {
    var e := 0;
    while e < |createdBy|
      invariant 0 <= e <= |createdBy|
      invariant forall f :: 0 <= f < e ==> !Matches(subs, createdBy[f], i)
    {
      if Matches(subs, createdBy[e], i) {
        FirstMatchIsFirstFeeder(subs, createdBy, i, e);
        return Some(createdBy[e].piece);
      }
      e := e + 1;
    }
    FirstMatchIsFirstFeeder(subs, createdBy, i, e);
    return None;
  }

  method InferMissingAfterLinks(subs: seq<Proposal>) returns (r: seq<Proposal>)
    ensures r == Linked(subs)
  {
    var createdBy := Creators(subs);
    r := [];
    for i := 0 to |subs|
      invariant r == Linked(subs)[..i]
    {
      var sub := subs[i];
      if sub.after.None? {
        var link := LinkOf(subs, createdBy, i);
        if link.Some? {
          sub := sub.(after := Some(link.value));
        }
      }
      r := r + [sub];
    }
  }

  lemma EntryOfFeeder(subs: seq<Proposal>, entries: seq<Entry>, i: nat) returns (f: nat)
    requires FirstCreators(subs, |subs|, entries) && i < |subs| && FirstFeeder(subs, i, 0).Some?
    ensures f < |entries| && entries[f].piece == FirstFeeder(subs, i, 0).value && Matches(subs, entries[f], i)
  {
    var j := FirstFeeder(subs, i, 0).value;
    assert Listed(entries, subs[j].created.value, j);
    f :| 0 <= f < |entries| && entries[f].basename == subs[j].created.value && entries[f].piece <= j;
    assert Feeds(subs, entries[f].piece, i);
  }

  /** Scanning the map in insertion order finds the first feeder. */
  lemma FirstMatchIsFirstFeeder(subs: seq<Proposal>, entries: seq<Entry>, i: nat, e: nat)
    requires FirstCreators(subs, |subs|, entries) && i < |subs| && e <= |entries|
    requires forall f :: 0 <= f < e ==> !Matches(subs, entries[f], i)
    requires e < |entries| ==> Matches(subs, entries[e], i)
    ensures FirstFeeder(subs, i, 0) == if e < |entries| then Some(entries[e].piece) else None
  {
    if e < |entries| {
      assert Feeds(subs, entries[e].piece, i);
    }
    if FirstFeeder(subs, i, 0).Some? {
      var f := EntryOfFeeder(subs, entries, i);
      assert e <= f;
    }
  }

  /** Piece `j` comes before piece `i`, and `i`'s text holds the name of a file that `j` creates. */
  ghost predicate Mentions(subs: seq<Proposal>, i: nat, j: nat)
    requires i < |subs|
  {
    j < i && subs[j].created.Some? && exists at :: EditMatch.OccursAt(subs[i].rawText, subs[j].created.value, at)
  }

  lemma FeedsIfMentioned(subs: seq<Proposal>, i: nat, j: nat)
    requires i < |subs|
    ensures Feeds(subs, j, i) <==> Mentions(subs, i, j)
  {
    if j < i && subs[j].created.Some? {
      var found := EditMatch.NextMatch(subs[i].rawText, subs[j].created.value, 0);
      assert found.Some? ==> EditMatch.OccursAt(subs[i].rawText, subs[j].created.value, found.value);
    }
  }

  /** Every link that inference adds points to an earlier piece, and to the earliest one that
      creates a file the later piece mentions; a link the model made is never changed, a piece that
      mentions an earlier one's file is never left unlinked, and nothing else about a piece changes. */
  lemma InferredLinks(subs: seq<Proposal>, i: nat)
    requires i < |subs|
    ensures Linked(subs)[i].(after := subs[i].after) == subs[i]
    ensures subs[i].after.Some? ==> Linked(subs)[i] == subs[i]
    ensures subs[i].after.None? && Linked(subs)[i].after.Some? ==>
              exists j: nat :: Linked(subs)[i].after == Some(j) && Mentions(subs, i, j)
                                && forall k: nat :: k < j ==> !Mentions(subs, i, k)
    ensures Linked(subs)[i].after.None? <==> subs[i].after.None? && forall j: nat :: !Mentions(subs, i, j)
  {
    forall j: nat
      ensures Feeds(subs, j, i) <==> Mentions(subs, i, j)
    {
      FeedsIfMentioned(subs, i, j);
    }
    if subs[i].after.None? && FirstFeeder(subs, i, 0).Some? {
      assert Mentions(subs, i, FirstFeeder(subs, i, 0).value);
    }
  }

  // ----- folding

  /** The piece a verification-only proposal is meant for: its declared link when that is earlier,
      else the one before it. */
  function Declared(subs: seq<Proposal>, i: nat): (r: Option<nat>)
    requires i < |subs|
    ensures r.Some? ==> r.value < i
  {
    if !subs[i].verificationOnly then None
    else if subs[i].after.Some? && 0 <= subs[i].after.value < i then Some(subs[i].after.value)
    else if i > 0 then Some(i - 1)
    else None
  }

  /** The piece that `i`'s text ends up with: itself, or the end of the chain of folds. */
  function Survivor(subs: seq<Proposal>, i: nat): (r: nat)
    requires i < |subs|
    ensures r <= i
    decreases i
  {
    if Declared(subs, i).None? then i else Survivor(subs, Declared(subs, i).value)
  }

  predicate Survives(subs: seq<Proposal>, i: nat)
    requires i < |subs|
  {
    Declared(subs, i).None?
  }

  ghost predicate TargetsBelow(subs: seq<Proposal>, targets: map<nat, nat>, n: nat)
    requires n <= |subs|
  {
    && (forall i: nat :: i in targets <==> i < n && !Survives(subs, i))
    && (forall i :: i in targets ==> targets[i] == Survivor(subs, i))
  }

  /** Follows the folds made so far from piece `i`'s declared one. */
  method FoldTarget(subs: seq<Proposal>, targets: map<nat, nat>, i: nat) returns (target: Option<nat>)
    requires i < |subs| && TargetsBelow(subs, targets, i) && subs[i].verificationOnly
    ensures target == if Survives(subs, i) then None else Some(Survivor(subs, i))
    ensures target.Some? ==> target.value < i
  {
    target := if subs[i].after.Some? && 0 <= subs[i].after.value < i then Some(subs[i].after.value)
              else if i > 0 then Some(i - 1) else None;
    ghost var declared := target;
    assert declared == Declared(subs, i);
    while target.Some? && target.value in targets
      invariant target.Some? <==> declared.Some?
      invariant target.Some? ==> target.value < i && Survivor(subs, target.value) == Survivor(subs, declared.value)
      decreases if target.Some? then target.value else 0
    {
      SurvivorSurvives(subs, target.value);
      target := Some(targets[target.value]);
    }
  }

  /** `foldTargets`: where each folded piece goes. */
  method FoldTargets(subs: seq<Proposal>) returns (targets: map<nat, nat>)
    ensures TargetsBelow(subs, targets, |subs|)
    ensures forall i :: i in targets <==> 0 < i < |subs| && subs[i].verificationOnly
    ensures forall i, s: nat :: i in targets ==> (FoldsTo(subs, i, s) <==> s == targets[i])
  {
    forall i: nat, s: nat | i < |subs|
      ensures FoldsTo(subs, i, s) <==> s == Survivor(subs, i)
    {
      FoldsToSurvivor(subs, i, s);
    }
    targets := map[];
    for i := 0 to |subs|
      invariant TargetsBelow(subs, targets, i)
    {
      if subs[i].verificationOnly {
        var target := FoldTarget(subs, targets, i);
        if target.Some? && target.value != i {
          targets := targets[i := target.value];
        }
      }
    }
  }

  /** Every fold ends at an earlier piece that survives, whatever chain of verification-only
      proposals leads there; the first proposal always survives. */
  lemma {:induction false} SurvivorSurvives(subs: seq<Proposal>, i: nat)
    requires i < |subs|
    ensures Survives(subs, Survivor(subs, i)) && Survivor(subs, Survivor(subs, i)) == Survivor(subs, i)
    ensures Survivor(subs, i) == i <==> Survives(subs, i)
    ensures Survives(subs, 0)
    decreases i
  {
    if Declared(subs, i).Some? {
      SurvivorSurvives(subs, Declared(subs, i).value);
    }
  }

  /** A verification-only piece folds onto the piece its link names, when that is earlier, else onto
      the one before it. */
  ghost predicate FoldStep(subs: seq<Proposal>, i: nat, j: nat)
    requires i < |subs|
  {
    var link := subs[i].after;
    && subs[i].verificationOnly && i > 0
    && (if link.Some? && 0 <= link.value < i then j == link.value else j == i - 1)
  }

  /** From fold to fold, to a piece that is not folded. */
  ghost predicate FoldPath(subs: seq<Proposal>, path: seq<nat>) {
    && path != [] && (forall k :: 0 <= k < |path| ==> path[k] < |subs|)
    && (forall k :: 0 <= k < |path| - 1 ==> FoldStep(subs, path[k], path[k + 1]))
    && (subs[path[|path| - 1]].verificationOnly ==> path[|path| - 1] == 0)
  }

  /** Each piece has a path, and every one of its paths ends where its text does. */
  lemma {:induction false} OnePath(subs: seq<Proposal>, i: nat) returns (path: seq<nat>)
    requires i < |subs|
    ensures FoldPath(subs, path) && path[0] == i && path[|path| - 1] == Survivor(subs, i)
    decreases i
  {
    if Survives(subs, i) {
      path := [i];
    } else {
      var rest := OnePath(subs, Declared(subs, i).value);
      path := [i] + rest;
      assert forall k :: 0 < k < |path| ==> path[k] == rest[k - 1];
    }
  }

  lemma {:induction false} PathEndsAtSurvivor(subs: seq<Proposal>, path: seq<nat>)
    requires FoldPath(subs, path)
    ensures path[|path| - 1] == Survivor(subs, path[0])
    decreases |path|
  {
    if |path| > 1 {
      assert FoldStep(subs, path[0], path[0 + 1]);
      assert forall k :: 0 <= k < |path| - 1 ==> path[1..][k] == path[k + 1];
      PathEndsAtSurvivor(subs, path[1..]);
    }
  }

  /** Following the folds from `i` one comes to `s`. */
  ghost predicate FoldsTo(subs: seq<Proposal>, i: nat, s: nat) {
    exists path :: FoldPath(subs, path) && path[0] == i && path[|path| - 1] == s
  }

  lemma FoldsToSurvivor(subs: seq<Proposal>, i: nat, s: nat)
    requires i < |subs|
    ensures FoldsTo(subs, i, s) <==> s == Survivor(subs, i)
  {
    var one := OnePath(subs, i);
    if path :| FoldPath(subs, path) && path[0] == i && path[|path| - 1] == s {
      PathEndsAtSurvivor(subs, path);
    }
  }

  /** The pieces below `n` folded into `s`, in order: whose texts its acceptance criteria are. */
  function FoldedInto(subs: seq<Proposal>, s: nat, n: nat): (r: seq<nat>)
    requires n <= |subs|
    ensures forall k :: 0 <= k < |r| ==> r[k] < n
  {
    if n == 0 then []
    else FoldedInto(subs, s, n - 1) + (if !Survives(subs, n - 1) && Survivor(subs, n - 1) == s then [n - 1] else [])
  }

  lemma {:induction false} FoldedAre(subs: seq<Proposal>, s: nat, n: nat)
    requires n <= |subs|
    ensures forall i :: i in FoldedInto(subs, s, n) <==> 0 <= i < n && !Survives(subs, i) && Survivor(subs, i) == s
    decreases n
  {
    if n > 0 {
      FoldedAre(subs, s, n - 1);
      var before, last := FoldedInto(subs, s, n - 1), n - 1;
      var one: seq<nat> := if !Survives(subs, last) && Survivor(subs, last) == s then [last] else [];
      assert FoldedInto(subs, s, n) == before + one;
      assert forall i :: i in before + one <==> i in before || i in one;
    }
  }

  lemma {:induction false} FoldedInOrder(subs: seq<Proposal>, s: nat, n: nat)
    requires n <= |subs|
    ensures forall k, l :: 0 <= k < l < |FoldedInto(subs, s, n)| ==>
              FoldedInto(subs, s, n)[k] < FoldedInto(subs, s, n)[l]
    decreases n
  {
    if n > 0 {
      FoldedInOrder(subs, s, n - 1);
    }
  }

  /** Each folded piece is listed once, in order, under the piece it folds to, and under no other. */
  lemma FoldedOnce(subs: seq<Proposal>, s: nat, n: nat)
    requires n <= |subs|
    ensures forall i: nat :: i in FoldedInto(subs, s, n) <==>
              0 < i < n && subs[i].verificationOnly && FoldsTo(subs, i, s)
    ensures forall k, l :: 0 <= k < l < |FoldedInto(subs, s, n)| ==>
              FoldedInto(subs, s, n)[k] < FoldedInto(subs, s, n)[l]
  {
    FoldedAre(subs, s, n);
    FoldedInOrder(subs, s, n);
    forall i: nat | i < n
      ensures FoldsTo(subs, i, s) <==> s == Survivor(subs, i)
    {
      FoldsToSurvivor(subs, i, s);
    }
  }
}
