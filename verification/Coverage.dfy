/** Review state carried across rebuilds of the community graph (python/graph_communities.py:100-136). */
module Coverage {
  import opened Wrappers

  type Time = string

  datatype Node = Node(id: string, community: Option<nat>)

  datatype Community = Community(id: nat, name: string, lastReviewedAt: Option<Time>, lastCandidateCount: int)

  /** The ids of a community's nodes. The source sorts them into a tuple, which says the same. */
  function Members(id: nat, nodes: seq<Node>): multiset<string> {
    if nodes == [] then multiset{}
    else
      var last := nodes[|nodes| - 1];
      Members(id, nodes[..|nodes| - 1]) + (if last.community == Some(id) then multiset{last.id} else multiset{})
  }

  /** The last of the communities that has these members. */
  function OldWith(prior: seq<Community>, nodes: seq<Node>, members: multiset<string>): (r: Option<Community>)
    ensures r.Some? ==> r.value in prior && Members(r.value.id, nodes) == members
    ensures r.None? ==> forall c :: c in prior ==> Members(c.id, nodes) != members
  {
    if prior == [] then None
    else if Members(prior[|prior| - 1].id, nodes) == members then Some(prior[|prior| - 1])
    else OldWith(prior[..|prior| - 1], nodes, members)
  }

  function Carry(c: Community, prior: Option<Community>): Community {
    if prior.None? then c
    else c.(lastReviewedAt := prior.value.lastReviewedAt, lastCandidateCount := prior.value.lastCandidateCount)
  }

  function Merged(prior: seq<Community>, oldNodes: seq<Node>, rebuilt: seq<Community>,
                  nodes: seq<Node>): (r: seq<Community>)
    ensures |r| == |rebuilt|
    ensures forall i :: 0 <= i < |r| ==>
              r[i] == Carry(rebuilt[i], OldWith(prior, oldNodes, Members(rebuilt[i].id, nodes)))
  {
    if rebuilt == [] then []
    else
      var n := |rebuilt| - 1;
      Merged(prior, oldNodes, rebuilt[..n], nodes)
          + [Carry(rebuilt[n], OldWith(prior, oldNodes, Members(rebuilt[n].id, nodes)))]
  }

  method MergeCoverage(prior: seq<Community>, oldNodes: seq<Node>, rebuilt: seq<Community>, nodes: seq<Node>)
      returns (merged: seq<Community>)
    ensures merged == Merged(prior, oldNodes, rebuilt, nodes)
    ensures |merged| == |rebuilt| && forall i :: 0 <= i < |merged| ==>
              CarriedFrom(prior, oldNodes, Members(rebuilt[i].id, nodes), rebuilt[i], merged[i])
  {
    forall i | 0 <= i < |rebuilt|
      ensures CarriedFrom(prior, oldNodes, Members(rebuilt[i].id, nodes), rebuilt[i],
                          Merged(prior, oldNodes, rebuilt, nodes)[i])
    {
      CarryIsFromLast(prior, oldNodes, Members(rebuilt[i].id, nodes), rebuilt[i]);
    }
    var oldBySignature: map<multiset<string>, Community> := map[];
    for k := 0 to |prior|
      invariant forall m :: OldWith(prior[..k], oldNodes, m)
                         == if m in oldBySignature then Some(oldBySignature[m]) else None
    {
      assert prior[..k + 1][..k] == prior[..k];
      oldBySignature := oldBySignature[Members(prior[k].id, oldNodes) := prior[k]];
    }
    assert prior[..|prior|] == prior;
    merged := [];
    for k := 0 to |rebuilt|
      invariant merged == Merged(prior, oldNodes, rebuilt[..k], nodes)
    {
      assert rebuilt[..k + 1][..k] == rebuilt[..k];
      var signature := Members(rebuilt[k].id, nodes);
      if signature in oldBySignature {
        var earlier := oldBySignature[signature];
        merged := merged + [rebuilt[k].(lastReviewedAt := earlier.lastReviewedAt,
                                        lastCandidateCount := earlier.lastCandidateCount)];
      } else {
        merged := merged + [rebuilt[k]];
      }
    }
    assert rebuilt[..|rebuilt|] == rebuilt;
  }

  /** The k-th old community has these members, and no later one does. */
  ghost predicate LastWith(prior: seq<Community>, nodes: seq<Node>, members: multiset<string>, k: int) {
    && 0 <= k < |prior| && Members(prior[k].id, nodes) == members
    && forall j :: k < j < |prior| ==> Members(prior[j].id, nodes) != members
  }

  /** The two review fields are those of the last old community with these members; without one the
      new community is as it was, and its number and name are its own in any case. */
  ghost predicate CarriedFrom(prior: seq<Community>, nodes: seq<Node>, members: multiset<string>, c: Community,
                              r: Community) {
    && r.id == c.id && r.name == c.name
    && (forall k :: LastWith(prior, nodes, members, k) ==>
        r.lastReviewedAt == prior[k].lastReviewedAt && r.lastCandidateCount == prior[k].lastCandidateCount)
    && ((forall k :: !LastWith(prior, nodes, members, k)) ==> r == c)
  }

  lemma {:induction false} OldWithIsLast(prior: seq<Community>, nodes: seq<Node>, members: multiset<string>)
    ensures OldWith(prior, nodes, members).Some? <==> exists k :: LastWith(prior, nodes, members, k)
    ensures forall k :: LastWith(prior, nodes, members, k) ==> OldWith(prior, nodes, members) == Some(prior[k])
    decreases |prior|
  {
    if prior != [] {
      var n := |prior| - 1;
      var init := prior[..n];
      if Members(prior[n].id, nodes) == members {
        assert LastWith(prior, nodes, members, n);
      } else {
        OldWithIsLast(init, nodes, members);
        LastOfInit(prior, nodes, members);
        if k :| LastWith(init, nodes, members, k) {
          assert LastWith(prior, nodes, members, k);
        }
        assert forall k :: LastWith(prior, nodes, members, k) ==>
            LastWith(init, nodes, members, k) && init[k] == prior[k];
      }
    }
  }

  lemma LastOfInit(prior: seq<Community>, nodes: seq<Node>, members: multiset<string>)
    requires prior != [] && Members(prior[|prior| - 1].id, nodes) != members
    ensures forall k :: LastWith(prior, nodes, members, k) <==> LastWith(prior[..|prior| - 1], nodes, members, k)
  {
    var init := prior[..|prior| - 1];
    forall k
      ensures LastWith(prior, nodes, members, k) <==> LastWith(init, nodes, members, k)
    {
      assert forall j :: 0 <= j < |init| ==> init[j] == prior[j];
    }
  }

  lemma CarryIsFromLast(prior: seq<Community>, nodes: seq<Node>, members: multiset<string>, c: Community)
    ensures CarriedFrom(prior, nodes, members, c, Carry(c, OldWith(prior, nodes, members)))
  {
    OldWithIsLast(prior, nodes, members);
  }

  // ----- runs of rebuilds and reviews

  datatype Event =
    | Build(nodes: seq<Node>, communities: seq<Community>)
    | Review(id: nat, at: Time, candidates: int)

  /** A build numbers its communities, none of them empty, puts each file in one of them, and
      starts with no review state. */
  ghost predicate IsBuild(e: Event) {
    && e.Build?
    && (forall i :: 0 <= i < |e.communities| ==>
        e.communities[i].id == i && e.communities[i].lastReviewedAt == None
        && e.communities[i].lastCandidateCount == -1)
    && (forall i :: 0 <= i < |e.communities| ==> Members(i, e.nodes) != multiset{})
    && (forall j, k :: 0 <= j < k < |e.nodes| ==> e.nodes[j].id != e.nodes[k].id)
  }

  ghost predicate Run(events: seq<Event>) {
    forall k :: 0 <= k < |events| ==> events[k].Build? ==> IsBuild(events[k])
  }

  datatype State = State(coverage: seq<Community>, nodes: seq<Node>)

  /** A review stamps the community it was about, as `find` by id does. */
  function Stamped(coverage: seq<Community>, id: nat, at: Time, candidates: int): seq<Community> {
    if coverage == [] then []
    else if coverage[0].id == id
         then [coverage[0].(lastReviewedAt := Some(at), lastCandidateCount := candidates)] + coverage[1..]
    else [coverage[0]] + Stamped(coverage[1..], id, at, candidates)
  }

  function After(events: seq<Event>): State {
    if events == [] then State([], [])
    else
      var st := After(events[..|events| - 1]);
      match events[|events| - 1]
      case Build(nodes, communities) => State(Merged(st.coverage, st.nodes, communities, nodes), nodes)
      case Review(id, at, candidates) => State(Stamped(st.coverage, id, at, candidates), st.nodes)
  }

  // ----- the same in terms of member sets alone

  /** The latest build of the run. */
  function Latest(events: seq<Event>): Event {
    if events == [] then Build([], [])
    else if events[|events| - 1].Build? then events[|events| - 1]
    else Latest(events[..|events| - 1])
  }

  ghost predicate Has(build: Event, members: multiset<string>)
    requires build.Build?
  {
    exists i: nat :: i < |build.communities| && Members(i, build.nodes) == members
  }

  lemma LatestIsBuild(events: seq<Event>)
    ensures Latest(events).Build?
    ensures Run(events) ==> IsBuild(Latest(events))
  {
    if events != [] && events[|events| - 1].Review? {
      LatestIsBuild(events[..|events| - 1]);
    }
  }

  /** The k-th event reviews the community that has these members in the build of that moment. */
  ghost predicate Reviews(events: seq<Event>, k: nat, members: multiset<string>)
    requires k < |events|
  {
    var e := events[k];
    LatestIsBuild(events[..k]);
    var build := Latest(events[..k]);
    e.Review? && e.id < |build.communities| && Members(e.id, build.nodes) == members
  }

  /** This exact member set was reviewed by event k, not again since, and every build since has it. */
  ghost predicate ReviewedAt(events: seq<Event>, members: multiset<string>, k: nat) {
    && k < |events| && Reviews(events, k, members)
    && (forall j :: k < j < |events| ==> (events[j].Build? ==> Has(events[j], members)) && !Reviews(events, j, members))
  }

  ghost predicate Agrees(events: seq<Event>, c: Community, members: multiset<string>) {
    && (c.lastReviewedAt.None? ==> c.lastCandidateCount == -1 && forall k: nat :: !ReviewedAt(events, members, k))
    && (c.lastReviewedAt.Some? ==>
          exists k: nat :: ReviewedAt(events, members, k) && events[k].at == c.lastReviewedAt.value
                           && events[k].candidates == c.lastCandidateCount)
  }

  lemma {:induction false} InMembers(id: nat, nodes: seq<Node>, x: string)
    ensures x in Members(id, nodes) <==>
              exists k :: 0 <= k < |nodes| && nodes[k].id == x && nodes[k].community == Some(id)
    decreases |nodes|
  {
    if nodes != [] {
      var n := |nodes| - 1;
      InMembers(id, nodes[..n], x);
      if k :| 0 <= k < n && nodes[..n][k].id == x && nodes[..n][k].community == Some(id) {
        assert nodes[k].id == x && nodes[k].community == Some(id);
      }
      if k :| 0 <= k < |nodes| && nodes[k].id == x && nodes[k].community == Some(id) {
        assert k < n ==> nodes[..n][k].id == x && nodes[..n][k].community == Some(id);
      }
    }
  }

  /** Different communities of a build have different members. */
  lemma MembersTell(e: Event, i: nat, j: nat)
    requires IsBuild(e) && i < |e.communities| && j < |e.communities| && Members(i, e.nodes) == Members(j, e.nodes)
    ensures i == j
  {
    var x :| x in Members(i, e.nodes);
    InMembers(i, e.nodes, x);
    InMembers(j, e.nodes, x);
    var a :| 0 <= a < |e.nodes| && e.nodes[a].id == x && e.nodes[a].community == Some(i);
    var b :| 0 <= b < |e.nodes| && e.nodes[b].id == x && e.nodes[b].community == Some(j);
    assert a == b;
  }

  lemma {:induction false} StampedAt(coverage: seq<Community>, offset: nat, id: nat, at: Time, candidates: int)
    requires forall i :: 0 <= i < |coverage| ==> coverage[i].id == offset + i
    ensures |Stamped(coverage, id, at, candidates)| == |coverage|
    ensures forall i :: 0 <= i < |coverage| ==>
              Stamped(coverage, id, at, candidates)[i]
              == if offset + i == id then coverage[i].(lastReviewedAt := Some(at), lastCandidateCount := candidates)
                 else coverage[i]
    decreases |coverage|
  {
    if coverage != [] && coverage[0].id != id {
      StampedAt(coverage[1..], offset + 1, id, at, candidates);
    }
  }

  ghost predicate Numbered(st: State, build: Event)
    requires build.Build?
  {
    && st.nodes == build.nodes && |st.coverage| == |build.communities|
    && forall i :: 0 <= i < |st.coverage| ==> st.coverage[i].id == i
  }

  lemma {:induction false} StateIsNumbered(events: seq<Event>)
    requires Run(events)
    ensures Latest(events).Build? && Numbered(After(events), Latest(events))
    decreases |events|
  {
    LatestIsBuild(events);
    if events != [] {
      var n := |events| - 1;
      StateIsNumbered(events[..n]);
      var e, st := events[n], After(events[..n]);
      if e.Review? {
        StampedAt(st.coverage, 0, e.id, e.at, e.candidates);
      }
    }
  }

  lemma PrefixReviews(events: seq<Event>, n: nat, k: nat, members: multiset<string>)
    requires k < n <= |events|
    ensures Reviews(events[..n], k, members) == Reviews(events, k, members)
  {
    assert events[..n][..k] == events[..k];
  }

  /** How `ReviewedAt` changes with one more event. */
  lemma OneMoreEvent(events: seq<Event>, members: multiset<string>, k: nat)
    requires events != []
    ensures k < |events| - 1 ==>
              (ReviewedAt(events, members, k) <==>
               && ReviewedAt(events[..|events| - 1], members, k)
               && (events[|events| - 1].Build? ==> Has(events[|events| - 1], members))
               && !Reviews(events, |events| - 1, members))
  {
    var n := |events| - 1;
    forall j: nat | j < n
      ensures events[..n][j] == events[j] && Reviews(events[..n], j, members) == Reviews(events, j, members)
    {
      PrefixReviews(events, n, j, members);
    }
  }

  /** A member set the latest build does not have carries no review. */
  lemma {:induction false} AbsentHasNoReview(events: seq<Event>, members: multiset<string>, k: nat)
    requires Run(events) && ReviewedAt(events, members, k)
    ensures Latest(events).Build? && Has(Latest(events), members)
    decreases |events|
  {
    LatestIsBuild(events);
    var n := |events| - 1;
    if k < n {
      OneMoreEvent(events, members, k);
      if events[n].Review? {
        AbsentHasNoReview(events[..n], members, k);
      }
    } else {
      assert events[..k] == events[..n];
    }
  }

  lemma AgreesAfterBuild(events: seq<Event>, c: Community, members: multiset<string>)
    requires events != [] && events[|events| - 1].Build? && Has(events[|events| - 1], members)
    requires Agrees(events[..|events| - 1], c, members)
    ensures Agrees(events, c, members)
  {
    var n := |events| - 1;
    forall k: nat
      ensures ReviewedAt(events, members, k) <==> ReviewedAt(events[..n], members, k)
    {
      if k < n {
        OneMoreEvent(events, members, k);
      }
    }
    if c.lastReviewedAt.Some? {
      var k: nat :| ReviewedAt(events[..n], members, k) && events[..n][k].at == c.lastReviewedAt.value
          && events[..n][k].candidates == c.lastCandidateCount;
      assert events[k] == events[..n][k];
    }
  }

  lemma AgreesAfterReview(events: seq<Event>, c: Community, members: multiset<string>)
    requires events != [] && events[|events| - 1].Review? && !Reviews(events, |events| - 1, members)
    requires Agrees(events[..|events| - 1], c, members)
    ensures Agrees(events, c, members)
  {
    var n := |events| - 1;
    forall k: nat
      ensures ReviewedAt(events, members, k) <==> ReviewedAt(events[..n], members, k)
    {
      if k < n {
        OneMoreEvent(events, members, k);
      }
    }
    if c.lastReviewedAt.Some? {
      var k: nat :| ReviewedAt(events[..n], members, k) && events[..n][k].at == c.lastReviewedAt.value
          && events[..n][k].candidates == c.lastCandidateCount;
      assert events[k] == events[..n][k];
    }
  }

  /** Over every run: what a community's record says about its review is exactly the last review of
      that exact set of files, provided every build since had that set; ids play no part in it. */
  lemma {:induction false} ReviewFollowsMembership(events: seq<Event>, i: nat)
    requires Run(events) && i < |After(events).coverage|
    ensures Agrees(events, After(events).coverage[i], Members(i, After(events).nodes))
    decreases |events|, 0
  {
    var n := |events| - 1;
    var e, st := events[n], After(events[..n]);
    var members := Members(i, After(events).nodes);
    StateIsNumbered(events[..n]);
    StateIsNumbered(events);
    LatestIsBuild(events[..n]);
    if e.Review? {
      StampedAt(st.coverage, 0, e.id, e.at, e.candidates);
      if e.id == i {
        assert ReviewedAt(events, members, n);
      } else {
        ReviewFollowsMembership(events[..n], i);
        if Reviews(events, n, members) {
          MembersTell(Latest(events[..n]), e.id, i);
        }
        AgreesAfterReview(events, After(events).coverage[i], members);
      }
    } else {
      BuildAgrees(events, i);
    }
  }

  lemma BuildAgrees(events: seq<Event>, i: nat)
    requires Run(events) && events != [] && events[|events| - 1].Build? && i < |After(events).coverage|
    ensures Agrees(events, After(events).coverage[i], Members(i, After(events).nodes))
    decreases |events| - 1, 2
  {
    var n := |events| - 1;
    var e, st := events[n], After(events[..n]);
    var members := Members(i, e.nodes);
    assert IsBuild(e);
    var c := e.communities[i];
    assert c.id == i && c.lastReviewedAt == None && c.lastCandidateCount == -1;
    assert Has(e, members);
    CarryAgrees(events[..n], c, members);
    AgreesAfterBuild(events, Carry(c, OldWith(st.coverage, st.nodes, members)), members);
  }

  /** What a merge carries into a community with these members is right for the run so far. */
  lemma CarryAgrees(events: seq<Event>, c: Community, members: multiset<string>)
    requires Run(events) && c.lastReviewedAt == None && c.lastCandidateCount == -1
    ensures Agrees(events, Carry(c, OldWith(After(events).coverage, After(events).nodes, members)), members)
    decreases |events|, 1
  {
    var st := After(events);
    var prior := OldWith(st.coverage, st.nodes, members);
    StateIsNumbered(events);
    if prior.Some? {
      var j :| 0 <= j < |st.coverage| && st.coverage[j] == prior.value;
      ReviewFollowsMembership(events, j);
    } else {
      assert !Has(Latest(events), members) by {
        forall i: nat | i < |Latest(events).communities|
          ensures Members(i, Latest(events).nodes) != members
        {
          assert st.coverage[i] in st.coverage && st.coverage[i].id == i;
        }
      }
      forall k: nat
        ensures !ReviewedAt(events, members, k)
      {
        if ReviewedAt(events, members, k) {
          AbsentHasNoReview(events, members, k);
        }
      }
    }
  }

  /** Two runs with the same member sets in every build and the same sets reviewed at the same
      moments: they may number (and name) the communities in any way. */
  ghost predicate SameButNumbering(a: seq<Event>, b: seq<Event>) {
    && |a| == |b|
    && (forall k, m :: 0 <= k < |a| && a[k].Build? ==> b[k].Build? && (Has(a[k], m) <==> Has(b[k], m)))
    && (forall k :: 0 <= k < |a| && a[k].Review? ==>
        b[k].Review? && a[k].at == b[k].at && a[k].candidates == b[k].candidates)
    && (forall k: nat, m :: k < |a| ==> (Reviews(a, k, m) <==> Reviews(b, k, m)))
  }

  /** How a build numbers its communities makes no difference to what is carried. */
  lemma NumberingDoesNotMatter(a: seq<Event>, b: seq<Event>, i: nat, j: nat)
    requires Run(a) && Run(b) && SameButNumbering(a, b)
    requires i < |After(a).coverage| && j < |After(b).coverage|
    requires Members(i, After(a).nodes) == Members(j, After(b).nodes)
    ensures After(a).coverage[i].lastReviewedAt == After(b).coverage[j].lastReviewedAt
    ensures After(a).coverage[i].lastCandidateCount == After(b).coverage[j].lastCandidateCount
  {
    var m := Members(i, After(a).nodes);
    ReviewFollowsMembership(a, i);
    ReviewFollowsMembership(b, j);
    forall k: nat
      ensures ReviewedAt(a, m, k) <==> ReviewedAt(b, m, k)
    {
    }
    OneReview(a, m);
  }

  lemma OneReview(events: seq<Event>, members: multiset<string>)
    ensures forall j: nat, k: nat :: ReviewedAt(events, members, j) && ReviewedAt(events, members, k) ==> j == k
  {
  }
}
