/** Star clusters and the two-pass layout of the graph view (python/visualize_graph.py:82-135, 290-345). */
module StarLayout {
  type Id = string

  datatype Link = Link(source: Id, target: Id)

  datatype Pos = Pos(x: real, y: real)

  type Adjacency = map<Id, set<Id>>

  const HUB_DEGREE_THRESHOLD: nat := 10
  const MIN_STAR_CLUSTER_SIZE: nat := 6

  ghost predicate Joined(nodes: seq<Id>, links: seq<Link>, a: Id, b: Id) {
    && a in nodes && b in nodes && a != b
    && exists k :: 0 <= k < |links| && links[k] in {Link(a, b), Link(b, a)}
  }

  /** Neighbours over links between two different listed nodes; links to anything else are dropped. */
  method BuildAdjacency(nodes: seq<Id>, links: seq<Link>) returns (adj: Adjacency)
    ensures forall n :: n in adj <==> n in nodes
    ensures forall a, b :: a in adj ==> (b in adj[a] <==> Joined(nodes, links, a, b))
  {
    adj := map n | n in nodes :: {};
    for k := 0 to |links|
      invariant forall n :: n in adj <==> n in nodes
      invariant forall a, b :: a in adj ==> (b in adj[a] <==> Joined(nodes, links[..k], a, b))
    {
      var s, t := links[k].source, links[k].target;
      OneMoreLink(nodes, links, k);
      if s in nodes && t in nodes && s != t {
        adj := adj[s := adj[s] + {t}];
        adj := adj[t := adj[t] + {s}];
      }
    }
    assert links[..|links|] == links;
  }

  lemma OneMoreLink(nodes: seq<Id>, links: seq<Link>, k: nat)
    requires k < |links|
    ensures forall a, b :: Joined(nodes, links[..k + 1], a, b) <==>
              Joined(nodes, links[..k], a, b)
                  || (a in nodes && b in nodes && a != b && links[k] in {Link(a, b), Link(b, a)})
  {
    var shorter, longer := links[..k], links[..k + 1];
    assert longer[k] == links[k];
    forall a, b
      ensures Joined(nodes, shorter, a, b) ==> Joined(nodes, longer, a, b)
    {
      if Joined(nodes, shorter, a, b) {
        var j :| 0 <= j < k && shorter[j] in {Link(a, b), Link(b, a)};
        assert longer[j] == shorter[j];
      }
    }
    forall a, b | Joined(nodes, longer, a, b) && links[k] !in {Link(a, b), Link(b, a)}
      ensures Joined(nodes, shorter, a, b)
    {
      var j :| 0 <= j <= k && longer[j] in {Link(a, b), Link(b, a)};
      assert shorter[j] == longer[j];
    }
  }

  // ----- star clusters

  predicate IsHub(adj: Adjacency, h: Id) {
    h in adj && |adj[h]| >= HUB_DEGREE_THRESHOLD
  }

  /** The files all of whose links go to `hubs`, one or two hubs. */
  ghost predicate LeafOf(adj: Adjacency, n: Id, hubs: set<Id>) {
    n in adj && adj[n] == hubs && 1 <= |hubs| <= 2 && forall h :: h in hubs ==> IsHub(adj, h)
  }

  ghost function Leaves(adj: Adjacency, hubs: set<Id>): set<Id> {
    set n | n in adj && LeafOf(adj, n, hubs)
  }

  ghost predicate Lists(s: seq<Id>, ids: set<Id>) {
    (forall x :: x in s <==> x in ids) && forall i, j :: 0 <= i < j < |s| ==> s[i] != s[j]
  }

  lemma {:induction false} ListsCount(s: seq<Id>, ids: set<Id>)
    requires Lists(s, ids)
    ensures |s| == |ids|
    decreases |s|
  {
    if s == [] {
      assert ids == {};
    } else {
      var n := |s| - 1;
      assert forall x :: x in s[..n] ==> exists k :: 0 <= k < n && s[k] == x;
      assert forall k :: 0 <= k < n ==> s[k] in s[..n];
      ListsCount(s[..n], ids - {s[n]});
    }
  }

  /** Python's order on two strings. */
  predicate Before(a: string, b: string) {
    if b == "" then false
    else if a == "" then true
    else a[0] < b[0] || (a[0] == b[0] && Before(a[1..], b[1..]))
  }

  lemma {:induction false} BeforeIsTotal(a: string, b: string)
    requires a != b
    ensures Before(a, b) != Before(b, a)
    decreases |a|
  {
    if a != "" && b != "" && a[0] == b[0] {
      assert a == [a[0]] + a[1..] && b == [b[0]] + b[1..];
      BeforeIsTotal(a[1..], b[1..]);
    }
  }

  type Pair = (Id, Id)

  datatype StarClusters = StarClusters(single: map<Id, seq<Id>>, dual: map<Pair, seq<Id>>)

  /** One group for each set of one or two hubs with at least six exclusive leaves, listing them. */
  ghost predicate AreClusters(adj: Adjacency, c: StarClusters) {
    && (forall h :: h in c.single ==> Lists(c.single[h], Leaves(adj, {h})) && |c.single[h]| >= MIN_STAR_CLUSTER_SIZE)
    && (forall h :: h !in c.single ==> |Leaves(adj, {h})| < MIN_STAR_CLUSTER_SIZE)
    && (forall p :: p in c.dual ==>
        Before(p.0, p.1) && p.0 != p.1 && Lists(c.dual[p], Leaves(adj, {p.0, p.1}))
        && |c.dual[p]| >= MIN_STAR_CLUSTER_SIZE)
    && (forall p: Pair :: p !in c.dual && p.0 != p.1 && Before(p.0, p.1) ==>
        |Leaves(adj, {p.0, p.1})| < MIN_STAR_CLUSTER_SIZE)
  }

  function Group<K>(groups: map<K, seq<Id>>, key: K): seq<Id> {
    if key in groups then groups[key] else []
  }

  ghost predicate SinglesOf(adj: Adjacency, done: set<Id>, single: map<Id, seq<Id>>) {
    forall h :: Lists(Group(single, h), Leaves(adj, {h}) * done)
  }

  ghost predicate DualsOf(adj: Adjacency, done: set<Id>, dual: map<Pair, seq<Id>>) {
    && (forall p :: p in dual ==> p.0 != p.1 && Before(p.0, p.1))
    && (forall p: Pair :: p.0 != p.1 && Before(p.0, p.1) ==> Lists(Group(dual, p), Leaves(adj, {p.0, p.1}) * done))
  }

  lemma ListsOneMore(s: seq<Id>, ids: set<Id>, n: Id)
    requires Lists(s, ids) && n !in ids
    ensures Lists(s + [n], ids + {n})
  {
    assert forall k :: 0 <= k < |s| ==> s[k] in s;
  }

  lemma OneElement(s: set<Id>, a: Id)
    requires |s| == 1 && a in s
    ensures s == {a}
  {
    assert |s - {a}| == 0;
  }

  lemma TwoElements(s: set<Id>, a: Id)
    requires |s| == 2 && a in s
    ensures exists b :: b != a && s == {a, b}
  {
    assert |s - {a}| == 1;
    var b :| b in s - {a};
    OneElement(s - {a}, b);
    assert s == {a} + (s - {a}) == {a, b};
  }

  method AddSingle(ghost adj: Adjacency, ghost done: set<Id>, single: map<Id, seq<Id>>, n: Id, hub: Id)
      returns (r: map<Id, seq<Id>>)
    requires SinglesOf(adj, done, single) && n !in done && LeafOf(adj, n, {hub})
    ensures SinglesOf(adj, done + {n}, r)
  {
    r := single[hub := Group(single, hub) + [n]];
    forall h
      ensures Lists(Group(r, h), Leaves(adj, {h}) * (done + {n}))
    {
      if h == hub {
        ListsOneMore(Group(single, hub), Leaves(adj, {hub}) * done, n);
        assert Leaves(adj, {hub}) * (done + {n}) == Leaves(adj, {hub}) * done + {n};
      } else {
        assert hub in {hub} && hub !in {h};
        assert Leaves(adj, {h}) * (done + {n}) == Leaves(adj, {h}) * done;
      }
    }
  }

  method AddDual(ghost adj: Adjacency, ghost done: set<Id>, dual: map<Pair, seq<Id>>, n: Id, pair: Pair)
      returns (r: map<Pair, seq<Id>>)
    requires DualsOf(adj, done, dual) && n !in done && pair.0 != pair.1 && Before(pair.0, pair.1)
    requires LeafOf(adj, n, {pair.0, pair.1})
    ensures DualsOf(adj, done + {n}, r)
  {
    r := dual[pair := Group(dual, pair) + [n]];
    forall p: Pair | p.0 != p.1 && Before(p.0, p.1)
      ensures Lists(Group(r, p), Leaves(adj, {p.0, p.1}) * (done + {n}))
    {
      if p == pair {
        ListsOneMore(Group(dual, p), Leaves(adj, {p.0, p.1}) * done, n);
        assert Leaves(adj, {p.0, p.1}) * (done + {n}) == Leaves(adj, {p.0, p.1}) * done + {n};
      } else {
        SamePair(p, pair);
        assert Leaves(adj, {p.0, p.1}) * (done + {n}) == Leaves(adj, {p.0, p.1}) * done;
      }
    }
  }

  lemma SamePair(p: Pair, q: Pair)
    requires p.0 != p.1 && Before(p.0, p.1) && q.0 != q.1 && Before(q.0, q.1)
    ensures {p.0, p.1} == {q.0, q.1} ==> p == q
  {
    BeforeIsTotal(p.0, p.1);
    if {p.0, p.1} == {q.0, q.1} {
      assert p.0 in {q.0, q.1} && p.1 in {q.0, q.1};
    }
  }

  /** A node that is no leaf of one hub changes no single group. */
  lemma NotSingle(adj: Adjacency, done: set<Id>, single: map<Id, seq<Id>>, n: Id)
    requires SinglesOf(adj, done, single) && forall h :: !LeafOf(adj, n, {h})
    ensures SinglesOf(adj, done + {n}, single)
  {
    forall h
      ensures Leaves(adj, {h}) * (done + {n}) == Leaves(adj, {h}) * done
    {
      assert n !in Leaves(adj, {h});
    }
  }

  lemma NotDual(adj: Adjacency, done: set<Id>, dual: map<Pair, seq<Id>>, n: Id)
    requires DualsOf(adj, done, dual) && forall p: Pair :: p.0 != p.1 ==> !LeafOf(adj, n, {p.0, p.1})
    ensures DualsOf(adj, done + {n}, dual)
  {
    forall p: Pair | p.0 != p.1
      ensures Leaves(adj, {p.0, p.1}) * (done + {n}) == Leaves(adj, {p.0, p.1}) * done
    {
      assert n !in Leaves(adj, {p.0, p.1});
    }
  }

  /** What one node's neighbours make it. */
  lemma OneNeighbour(adj: Adjacency, n: Id)
    requires n in adj && |adj[n]| != 1
    ensures forall h :: !LeafOf(adj, n, {h})
  {
    forall h
      ensures !LeafOf(adj, n, {h})
    {
      assert |{h}| == 1;
    }
  }

  lemma TwoNeighbours(adj: Adjacency, n: Id)
    requires n in adj && |adj[n]| != 2
    ensures forall p: Pair :: p.0 != p.1 ==> !LeafOf(adj, n, {p.0, p.1})
  {
    forall p: Pair | p.0 != p.1
      ensures !LeafOf(adj, n, {p.0, p.1})
    {
      assert |{p.0, p.1}| == 2;
    }
  }

  /** One node of the scan over the adjacency. */
  method Classify(adj: Adjacency, ghost done: set<Id>, n: Id, single: map<Id, seq<Id>>, dual: map<Pair, seq<Id>>)
      returns (single': map<Id, seq<Id>>, dual': map<Pair, seq<Id>>)
    requires n in adj && n !in done && SinglesOf(adj, done, single) && DualsOf(adj, done, dual)
    ensures SinglesOf(adj, done + {n}, single') && DualsOf(adj, done + {n}, dual')
  {
    single', dual' := single, dual;
    var neighbours := adj[n];
    if |neighbours| == 1 {
      TwoNeighbours(adj, n);
      NotDual(adj, done, dual, n);
      var hub :| hub in neighbours;
      OneElement(neighbours, hub);
      if IsHub(adj, hub) {
        single' := AddSingle(adj, done, single, n, hub);
      } else {
        assert forall h :: {h} == {hub} ==> h in {hub};
        NotSingle(adj, done, single, n);
      }
    } else if |neighbours| == 2 {
      OneNeighbour(adj, n);
      NotSingle(adj, done, single, n);
      var a :| a in neighbours;
      TwoElements(neighbours, a);
      var b :| b in neighbours && b != a;
      assert neighbours == {a, b};
      BeforeIsTotal(a, b);
      var pair := if Before(a, b) then (a, b) else (b, a);
      assert neighbours == {pair.0, pair.1};
      if IsHub(adj, pair.0) && IsHub(adj, pair.1) {
        dual' := AddDual(adj, done, dual, n, pair);
      } else {
        assert pair.0 in neighbours && pair.1 in neighbours;
        NotDual(adj, done, dual, n);
      }
    } else {
      OneNeighbour(adj, n);
      TwoNeighbours(adj, n);
      NotSingle(adj, done, single, n);
      NotDual(adj, done, dual, n);
    }
  }

  /** Groups smaller than the minimum are dropped. */
  method DropSmall(ghost adj: Adjacency, single: map<Id, seq<Id>>, dual: map<Pair, seq<Id>>) returns (c: StarClusters)
    requires SinglesOf(adj, adj.Keys, single) && DualsOf(adj, adj.Keys, dual)
    ensures AreClusters(adj, c)
  {
    c := StarClusters(map h | h in single && |single[h]| >= MIN_STAR_CLUSTER_SIZE :: single[h],
                      map p | p in dual && |dual[p]| >= MIN_STAR_CLUSTER_SIZE :: dual[p]);
    forall h
      ensures Lists(Group(single, h), Leaves(adj, {h})) && |Group(single, h)| == |Leaves(adj, {h})|
    {
      AllLeaves(adj, {h});
      ListsCount(Group(single, h), Leaves(adj, {h}));
    }
    forall p: Pair | p.0 != p.1 && Before(p.0, p.1)
      ensures Lists(Group(dual, p), Leaves(adj, {p.0, p.1})) && |Group(dual, p)| == |Leaves(adj, {p.0, p.1})|
    {
      AllLeaves(adj, {p.0, p.1});
      ListsCount(Group(dual, p), Leaves(adj, {p.0, p.1}));
    }
  }

  lemma AllLeaves(adj: Adjacency, hubs: set<Id>)
    ensures Leaves(adj, hubs) * adj.Keys == Leaves(adj, hubs)
  {
  }

  method DetectStarClusters(adj: Adjacency) returns (c: StarClusters)
    ensures AreClusters(adj, c)
  {
    var single: map<Id, seq<Id>> := map[];
    var dual: map<Pair, seq<Id>> := map[];
    var todo := adj.Keys;
    while todo != {}
      invariant todo <= adj.Keys
      invariant SinglesOf(adj, adj.Keys - todo, single) && DualsOf(adj, adj.Keys - todo, dual)
      decreases |todo|
    {
      var n :| n in todo;
      single, dual := Classify(adj, adj.Keys - todo, n, single, dual);
      assert adj.Keys - (todo - {n}) == adj.Keys - todo + {n};
      todo := todo - {n};
    }
    assert adj.Keys - todo == adj.Keys;
    c := DropSmall(adj, single, dual);
  }

  /** A leaf of a star big enough to be drawn as one. */
  ghost predicate StarLeaf(adj: Adjacency, n: Id) {
    n in adj && LeafOf(adj, n, adj[n]) && |Leaves(adj, adj[n])| >= MIN_STAR_CLUSTER_SIZE
  }

  /** In numbers: it has one or two neighbours, each of those has ten or more, and at least six nodes
      have these neighbours and no others. */
  lemma StarLeafIff(adj: Adjacency, n: Id)
    ensures StarLeaf(adj, n) <==>
            && n in adj && 1 <= |adj[n]| <= 2
            && (forall h :: h in adj[n] ==> h in adj && |adj[h]| >= 10)
            && |set m | m in adj && adj[m] == adj[n]| >= 6
  {
    if n in adj && LeafOf(adj, n, adj[n]) {
      assert Leaves(adj, adj[n]) == set m | m in adj && adj[m] == adj[n];
    }
  }

  ghost predicate InSingle(c: StarClusters, h: Id, n: Id) {
    h in c.single && n in c.single[h]
  }

  ghost predicate InDual(c: StarClusters, p: Pair, n: Id) {
    p in c.dual && n in c.dual[p]
  }

  lemma HubsOfGroup(adj: Adjacency, c: StarClusters, n: Id)
    requires AreClusters(adj, c)
    ensures forall h :: InSingle(c, h, n) ==> adj.Keys >= {n, h} && adj[n] == {h} && IsHub(adj, h) && StarLeaf(adj, n)
    ensures forall p :: InDual(c, p, n) ==>
              adj.Keys >= {n, p.0, p.1} && adj[n] == {p.0, p.1} && IsHub(adj, p.0) && IsHub(adj, p.1)
              && StarLeaf(adj, n)
  {
    forall h | InSingle(c, h, n)
      ensures adj.Keys >= {n, h} && adj[n] == {h} && IsHub(adj, h) && StarLeaf(adj, n)
    {
      assert n in Leaves(adj, {h}) && h in {h};
      ListsCount(c.single[h], Leaves(adj, {h}));
    }
    forall p | InDual(c, p, n)
      ensures adj.Keys >= {n, p.0, p.1} && adj[n] == {p.0, p.1} && IsHub(adj, p.0) && IsHub(adj, p.1)
      ensures StarLeaf(adj, n)
    {
      assert n in Leaves(adj, {p.0, p.1}) && p.0 in {p.0, p.1} && p.1 in {p.0, p.1};
      ListsCount(c.dual[p], Leaves(adj, {p.0, p.1}));
    }
  }

  /** Each star leaf is in exactly one group, no other node is in any, and no hub of a group is
      a leaf: a hub has at least ten neighbours, a leaf at most two. */
  lemma OneGroupPerLeaf(adj: Adjacency, c: StarClusters, n: Id)
    requires AreClusters(adj, c)
    ensures StarLeaf(adj, n) <==> (exists h :: InSingle(c, h, n)) || (exists p :: InDual(c, p, n))
    ensures forall h, h' :: InSingle(c, h, n) && InSingle(c, h', n) ==> h == h'
    ensures forall p, q :: InDual(c, p, n) && InDual(c, q, n) ==> p == q
    ensures forall h, p :: !(InSingle(c, h, n) && InDual(c, p, n))
    ensures IsHub(adj, n) ==> !StarLeaf(adj, n)
  {
    HubsOfGroup(adj, c, n);
    forall h, h' | InSingle(c, h, n) && InSingle(c, h', n)
      ensures h == h'
    {
      assert h in {h'};
    }
    forall p, q | InDual(c, p, n) && InDual(c, q, n)
      ensures p == q
    {
      SamePair(p, q);
    }
    forall h, p | InSingle(c, h, n)
      ensures !InDual(c, p, n)
    {
      assert |{h}| == 1;
      assert InDual(c, p, n) ==> |{p.0, p.1}| == 2;
    }
    if StarLeaf(adj, n) {
      LeafIsGrouped(adj, c, n);
    }
  }

  lemma LeafIsGrouped(adj: Adjacency, c: StarClusters, n: Id)
    requires AreClusters(adj, c) && StarLeaf(adj, n)
    ensures (exists h :: InSingle(c, h, n)) || (exists p :: InDual(c, p, n))
  {
    var hubs := adj[n];
    assert n in Leaves(adj, hubs);
    var a :| a in hubs;
    if |hubs| == 1 {
      OneElement(hubs, a);
      assert InSingle(c, a, n);
    } else {
      TwoElements(hubs, a);
      var b :| b != a && hubs == {a, b};
      BeforeIsTotal(a, b);
      var p: Pair := if Before(a, b) then (a, b) else (b, a);
      assert hubs == {p.0, p.1};
      assert InDual(c, p, n);
    }
  }

  function GroupedLeaves(c: StarClusters): set<Id> {
    (set h, n | h in c.single && n in c.single[h] :: n) + (set p, n | p in c.dual && n in c.dual[p] :: n)
  }

  // ----- positions

  function NotIn(leaves: seq<Id>, have: set<Id>): seq<Id> {
    if leaves == [] then []
    else
      var n := |leaves| - 1;
      NotIn(leaves[..n], have) + (if leaves[n] in have then [] else [leaves[n]])
  }

  lemma {:induction false} NotInMembers(leaves: seq<Id>, have: set<Id>)
    ensures forall x :: x in NotIn(leaves, have) <==> x in leaves && x !in have
    decreases |leaves|
  {
    if leaves != [] {
      var n := |leaves| - 1;
      NotInMembers(leaves[..n], have);
      assert leaves == leaves[..n] + [leaves[n]];
    }
  }

  lemma {:induction false} NotInDistinct(leaves: seq<Id>, have: set<Id>)
    requires forall i, j :: 0 <= i < j < |leaves| ==> leaves[i] != leaves[j]
    ensures forall i, j :: 0 <= i < j < |NotIn(leaves, have)| ==> NotIn(leaves, have)[i] != NotIn(leaves, have)[j]
    decreases |leaves|
  {
    if leaves != [] {
      var n := |leaves| - 1;
      NotInDistinct(leaves[..n], have);
      NotInMembers(leaves[..n], have);
      var r := NotIn(leaves[..n], have);
      assert forall i :: 0 <= i < |r| ==> r[i] in leaves[..n];
    }
  }

  /** `place(i, n)` is where the i-th of n new leaves goes. */
  ghost predicate PlacedBy(resolved: map<Id, Pos>, leaves: seq<Id>, place: (nat, nat) -> Pos) {
    forall i: nat :: i < |leaves| ==> leaves[i] in resolved && resolved[leaves[i]] == place(i, |leaves|)
  }

  /** One group of the second pass: only leaves that have no position yet get one. */
  method PlaceNew(resolved: map<Id, Pos>, leaves: seq<Id>, place: (nat, nat) -> Pos)
      returns (resolved': map<Id, Pos>, newLeaves: seq<Id>)
    requires forall i, j :: 0 <= i < j < |leaves| ==> leaves[i] != leaves[j]
    ensures newLeaves == NotIn(leaves, resolved.Keys)
    ensures forall n :: n in resolved' <==> n in resolved || n in newLeaves
    ensures forall n :: n in resolved ==> resolved'[n] == resolved[n]
    ensures PlacedBy(resolved', newLeaves, place)
  {
    newLeaves := [];
    for k := 0 to |leaves|
      invariant newLeaves == NotIn(leaves[..k], resolved.Keys)
    {
      assert leaves[..k + 1][..k] == leaves[..k];
      if leaves[k] !in resolved {
        newLeaves := newLeaves + [leaves[k]];
      }
    }
    assert leaves[..|leaves|] == leaves;
    NotInDistinct(leaves, resolved.Keys);
    NotInMembers(leaves, resolved.Keys);
    resolved' := resolved;
    for i := 0 to |newLeaves|
      invariant forall n :: n in resolved' <==> n in resolved || n in newLeaves[..i]
      invariant forall n :: n in resolved ==> resolved'[n] == resolved[n]
      invariant forall j: nat :: j < i ==> resolved'[newLeaves[j]] == place(j, |newLeaves|)
    {
      assert newLeaves[i] in newLeaves;
      resolved' := resolved'[newLeaves[i] := place(i, |newLeaves|)];
    }
  }

  /** Nodes that get a position in the first pass: all but star leaves without a cached one. */
  ghost predicate FirstPass(nodes: seq<Id>, leaves: set<Id>, cached: map<Id, Pos>, seed: Id -> Pos,
                            resolved: map<Id, Pos>) {
    && (forall n :: n in resolved <==> n in nodes && (n in cached || n !in leaves))
    && (forall n :: n in resolved ==> resolved[n] == if n in cached then cached[n] else seed(n))
  }

  method ResolveAnchors(nodes: seq<Id>, leaves: set<Id>, cached: map<Id, Pos>, seed: Id -> Pos)
      returns (resolved: map<Id, Pos>)
    ensures FirstPass(nodes, leaves, cached, seed, resolved)
  {
    resolved := map[];
    for k := 0 to |nodes|
      invariant FirstPass(nodes[..k], leaves, cached, seed, resolved)
    {
      assert nodes[..k + 1] == nodes[..k] + [nodes[k]];
      var n := nodes[k];
      if !(n in leaves && n !in cached) {
        resolved := resolved[n := if n in cached then cached[n] else seed(n)];
      }
    }
    assert nodes[..|nodes|] == nodes;
  }

  ghost predicate LeafIn(c: StarClusters, hubs: set<Id>, pairs: set<Pair>, n: Id) {
    (exists h :: h in hubs && InSingle(c, h, n)) || (exists p :: p in pairs && InDual(c, p, n))
  }

  function Around(ring: (Pos, nat, nat) -> Pos, hub: Pos): (nat, nat) -> Pos {
    (i: nat, n: nat) => ring(hub, i, n)
  }

  function Between(spindle: (Pos, Pos, nat) -> Pos, hub1: Pos, hub2: Pos): (nat, nat) -> Pos {
    (i: nat, n: nat) => spindle(hub1, hub2, i)
  }

  /** The two formulas for new leaves: `ring(hub, i, n)` and `spindle(hub1, hub2, i)`. */
  datatype Formulas = Formulas(ring: (Pos, nat, nat) -> Pos, spindle: (Pos, Pos, nat) -> Pos)

  ghost predicate RingPlaced(c: StarClusters, cached: map<Id, Pos>, f: Formulas, resolved: map<Id, Pos>, h: Id)
    requires h in c.single
  {
    h in resolved && PlacedBy(resolved, NotIn(c.single[h], cached.Keys), Around(f.ring, resolved[h]))
  }

  ghost predicate SpindlePlaced(c: StarClusters, cached: map<Id, Pos>, f: Formulas, resolved: map<Id, Pos>, p: Pair)
    requires p in c.dual
  {
    && p.0 in resolved && p.1 in resolved
    && PlacedBy(resolved, NotIn(c.dual[p], cached.Keys), Between(f.spindle, resolved[p.0], resolved[p.1]))
  }

  /** The second pass after the groups of `hubs` and `pairs`. */
  ghost predicate SecondPass(c: StarClusters, cached: map<Id, Pos>, f: Formulas, anchors: map<Id, Pos>,
                             hubs: set<Id>, pairs: set<Pair>, resolved: map<Id, Pos>, placed: set<Id>) {
    && (forall n :: n in placed <==> LeafIn(c, hubs, pairs, n) && n !in cached)
    && (forall n :: n in resolved <==> n in anchors || n in placed)
    && (forall n :: n in anchors ==> resolved[n] == anchors[n])
    && GroupsPlaced(c, cached, f, hubs, pairs, resolved)
  }

  /** What the first pass leaves: every node but the uncached star leaves has its position. */
  ghost predicate Ready(adj: Adjacency, c: StarClusters, cached: map<Id, Pos>, anchors: map<Id, Pos>) {
    && AreClusters(adj, c)
    && (forall n :: n in anchors <==> n in adj && (n in cached || !StarLeaf(adj, n)))
  }

  lemma HubsAreAnchors(adj: Adjacency, c: StarClusters, cached: map<Id, Pos>, anchors: map<Id, Pos>)
    requires Ready(adj, c, cached, anchors)
    ensures forall h :: h in c.single ==> h in anchors
    ensures forall p :: p in c.dual ==> p.0 in anchors && p.1 in anchors
  {
    forall h | h in c.single
      ensures h in anchors
    {
      var n := c.single[h][0];
      HubsOfGroup(adj, c, n);
      assert InSingle(c, h, n);
    }
    forall p | p in c.dual
      ensures p.0 in anchors && p.1 in anchors
    {
      var n := c.dual[p][0];
      HubsOfGroup(adj, c, n);
      assert InDual(c, p, n);
    }
  }

  lemma {:induction false} NotInSame(leaves: seq<Id>, a: set<Id>, b: set<Id>)
    requires forall i :: 0 <= i < |leaves| ==> (leaves[i] in a <==> leaves[i] in b)
    ensures NotIn(leaves, a) == NotIn(leaves, b)
    decreases |leaves|
  {
    if leaves != [] {
      NotInSame(leaves[..|leaves| - 1], a, b);
    }
  }

  /** A group not placed yet has positions for exactly its cached leaves. */
  lemma GroupIsUntouched(adj: Adjacency, c: StarClusters, cached: map<Id, Pos>, f: Formulas, anchors: map<Id, Pos>,
                         hubs: set<Id>, pairs: set<Pair>, resolved: map<Id, Pos>, placed: set<Id>)
    requires Ready(adj, c, cached, anchors) && SecondPass(c, cached, f, anchors, hubs, pairs, resolved, placed)
    ensures forall h :: h in c.single && h !in hubs ==>
              NotIn(c.single[h], resolved.Keys) == NotIn(c.single[h], cached.Keys)
    ensures forall p :: p in c.dual && p !in pairs ==> NotIn(c.dual[p], resolved.Keys) == NotIn(c.dual[p], cached.Keys)
  {
    forall h | h in c.single && h !in hubs
      ensures NotIn(c.single[h], resolved.Keys) == NotIn(c.single[h], cached.Keys)
    {
      forall n | n in c.single[h]
        ensures n in resolved.Keys <==> n in cached.Keys
      {
        assert InSingle(c, h, n);
        LeafIsUntouched(adj, c, cached, f, anchors, hubs, pairs, resolved, placed, n);
      }
      assert forall i :: 0 <= i < |c.single[h]| ==> c.single[h][i] in c.single[h];
      NotInSame(c.single[h], resolved.Keys, cached.Keys);
    }
    forall p | p in c.dual && p !in pairs
      ensures NotIn(c.dual[p], resolved.Keys) == NotIn(c.dual[p], cached.Keys)
    {
      forall n | n in c.dual[p]
        ensures n in resolved.Keys <==> n in cached.Keys
      {
        assert InDual(c, p, n);
        LeafIsUntouched(adj, c, cached, f, anchors, hubs, pairs, resolved, placed, n);
      }
      assert forall i :: 0 <= i < |c.dual[p]| ==> c.dual[p][i] in c.dual[p];
      NotInSame(c.dual[p], resolved.Keys, cached.Keys);
    }
  }

  lemma LeafIsUntouched(adj: Adjacency, c: StarClusters, cached: map<Id, Pos>, f: Formulas, anchors: map<Id, Pos>,
                        hubs: set<Id>, pairs: set<Pair>, resolved: map<Id, Pos>, placed: set<Id>, n: Id)
    requires Ready(adj, c, cached, anchors) && SecondPass(c, cached, f, anchors, hubs, pairs, resolved, placed)
    requires (exists h :: InSingle(c, h, n) && h !in hubs) || (exists p :: InDual(c, p, n) && p !in pairs)
    ensures n in resolved <==> n in cached
  {
    OneGroupPerLeaf(adj, c, n);
    HubsOfGroup(adj, c, n);
  }

  ghost predicate GroupsPlaced(c: StarClusters, cached: map<Id, Pos>, f: Formulas, hubs: set<Id>, pairs: set<Pair>,
                               resolved: map<Id, Pos>) {
    && (forall h {:trigger RingPlaced(c, cached, f, resolved, h)} :: h in hubs && h in c.single ==>
        RingPlaced(c, cached, f, resolved, h))
    && (forall p {:trigger SpindlePlaced(c, cached, f, resolved, p)} :: p in pairs && p in c.dual ==>
        SpindlePlaced(c, cached, f, resolved, p))
  }

  /** Positions added later leave the groups placed so far where they are. */
  lemma GroupsStayPlaced(c: StarClusters, cached: map<Id, Pos>, f: Formulas, hubs: set<Id>, pairs: set<Pair>,
                         resolved: map<Id, Pos>, resolved': map<Id, Pos>)
    requires GroupsPlaced(c, cached, f, hubs, pairs, resolved)
    requires forall n :: n in resolved ==> n in resolved' && resolved'[n] == resolved[n]
    ensures GroupsPlaced(c, cached, f, hubs, pairs, resolved')
  {
    forall h | h in hubs && h in c.single
      ensures RingPlaced(c, cached, f, resolved', h)
    {
      assert RingPlaced(c, cached, f, resolved, h);
    }
    forall p | p in pairs && p in c.dual
      ensures SpindlePlaced(c, cached, f, resolved', p)
    {
      assert SpindlePlaced(c, cached, f, resolved, p);
    }
  }

  lemma OneMoreSingle(c: StarClusters, hubs: set<Id>, pairs: set<Pair>, h: Id)
    requires h in c.single
    ensures forall n :: LeafIn(c, hubs + {h}, pairs, n) <==> LeafIn(c, hubs, pairs, n) || n in c.single[h]
  {
    forall n
      ensures LeafIn(c, hubs + {h}, pairs, n) <==> LeafIn(c, hubs, pairs, n) || n in c.single[h]
    {
      assert InSingle(c, h, n) <==> n in c.single[h];
    }
  }

  lemma OneMoreDual(c: StarClusters, hubs: set<Id>, pairs: set<Pair>, p: Pair)
    requires p in c.dual
    ensures forall n :: LeafIn(c, hubs, pairs + {p}, n) <==> LeafIn(c, hubs, pairs, n) || n in c.dual[p]
  {
    forall n
      ensures LeafIn(c, hubs, pairs + {p}, n) <==> LeafIn(c, hubs, pairs, n) || n in c.dual[p]
    {
      assert InDual(c, p, n) <==> n in c.dual[p];
    }
  }

  lemma SingleDone(c: StarClusters, cached: map<Id, Pos>, f: Formulas, anchors: map<Id, Pos>, hubs: set<Id>,
                   pairs: set<Pair>, resolved: map<Id, Pos>, placed: set<Id>, h: Id, resolved': map<Id, Pos>,
                   newLeaves: seq<Id>)
    requires SecondPass(c, cached, f, anchors, hubs, pairs, resolved, placed)
    requires h in c.single && h in anchors
    requires newLeaves == NotIn(c.single[h], resolved.Keys) == NotIn(c.single[h], cached.Keys)
    requires forall n :: n in resolved' <==> n in resolved || n in newLeaves
    requires forall n :: n in resolved ==> resolved'[n] == resolved[n]
    requires PlacedBy(resolved', newLeaves, Around(f.ring, resolved[h]))
    ensures SecondPass(c, cached, f, anchors, hubs + {h}, pairs, resolved', placed + (set n | n in newLeaves))
  {
    NotInMembers(c.single[h], cached.Keys);
    OneMoreSingle(c, hubs, pairs, h);
    GroupsStayPlaced(c, cached, f, hubs, pairs, resolved, resolved');
    assert RingPlaced(c, cached, f, resolved', h);
  }

  lemma DualDone(c: StarClusters, cached: map<Id, Pos>, f: Formulas, anchors: map<Id, Pos>, hubs: set<Id>,
                 pairs: set<Pair>, resolved: map<Id, Pos>, placed: set<Id>, p: Pair, resolved': map<Id, Pos>,
                 newLeaves: seq<Id>)
    requires SecondPass(c, cached, f, anchors, hubs, pairs, resolved, placed)
    requires p in c.dual && p.0 in anchors && p.1 in anchors
    requires newLeaves == NotIn(c.dual[p], resolved.Keys) == NotIn(c.dual[p], cached.Keys)
    requires forall n :: n in resolved' <==> n in resolved || n in newLeaves
    requires forall n :: n in resolved ==> resolved'[n] == resolved[n]
    requires PlacedBy(resolved', newLeaves, Between(f.spindle, resolved[p.0], resolved[p.1]))
    ensures SecondPass(c, cached, f, anchors, hubs, pairs + {p}, resolved', placed + (set n | n in newLeaves))
  {
    NotInMembers(c.dual[p], cached.Keys);
    OneMoreDual(c, hubs, pairs, p);
    GroupsStayPlaced(c, cached, f, hubs, pairs, resolved, resolved');
    assert SpindlePlaced(c, cached, f, resolved', p);
  }

  /** One group of the second pass, if its hub has a position. */
  method PlaceSingle(ghost adj: Adjacency, c: StarClusters, ghost cached: map<Id, Pos>, f: Formulas,
                     ghost anchors: map<Id, Pos>, ghost hubs: set<Id>, ghost pairs: set<Pair>, resolved: map<Id, Pos>,
                     placed: set<Id>, h: Id)
      returns (resolved': map<Id, Pos>, placed': set<Id>)
    requires Ready(adj, c, cached, anchors) && SecondPass(c, cached, f, anchors, hubs, pairs, resolved, placed)
    requires h in c.single && h !in hubs
    ensures SecondPass(c, cached, f, anchors, hubs + {h}, pairs, resolved', placed')
  {
    HubsAreAnchors(adj, c, cached, anchors);
    resolved', placed' := resolved, placed;
    if h in resolved {
      GroupIsUntouched(adj, c, cached, f, anchors, hubs, pairs, resolved, placed);
      assert Lists(c.single[h], Leaves(adj, {h}));
      var newLeaves;
      resolved', newLeaves := PlaceNew(resolved, c.single[h], Around(f.ring, resolved[h]));
      SingleDone(c, cached, f, anchors, hubs, pairs, resolved, placed, h, resolved', newLeaves);
      placed' := placed + (set n | n in newLeaves);
    }
  }

  method PlaceDual(ghost adj: Adjacency, c: StarClusters, ghost cached: map<Id, Pos>, f: Formulas,
                   ghost anchors: map<Id, Pos>, ghost hubs: set<Id>, ghost pairs: set<Pair>, resolved: map<Id, Pos>,
                   placed: set<Id>, p: Pair)
      returns (resolved': map<Id, Pos>, placed': set<Id>)
    requires Ready(adj, c, cached, anchors) && SecondPass(c, cached, f, anchors, hubs, pairs, resolved, placed)
    requires p in c.dual && p !in pairs
    ensures SecondPass(c, cached, f, anchors, hubs, pairs + {p}, resolved', placed')
  {
    HubsAreAnchors(adj, c, cached, anchors);
    resolved', placed' := resolved, placed;
    if p.0 in resolved && p.1 in resolved {
      GroupIsUntouched(adj, c, cached, f, anchors, hubs, pairs, resolved, placed);
      assert Lists(c.dual[p], Leaves(adj, {p.0, p.1}));
      var newLeaves;
      resolved', newLeaves := PlaceNew(resolved, c.dual[p], Between(f.spindle, resolved[p.0], resolved[p.1]));
      DualDone(c, cached, f, anchors, hubs, pairs, resolved, placed, p, resolved', newLeaves);
      placed' := placed + (set n | n in newLeaves);
    }
  }

  lemma NothingPlaced(c: StarClusters, cached: map<Id, Pos>, f: Formulas, anchors: map<Id, Pos>)
    ensures SecondPass(c, cached, f, anchors, {}, {}, anchors, {})
  {
  }

  /** The second pass over the single-hub groups. */
  method PlaceSingles(ghost adj: Adjacency, c: StarClusters, ghost cached: map<Id, Pos>, f: Formulas,
                      ghost anchors: map<Id, Pos>, resolved0: map<Id, Pos>, placed0: set<Id>)
      returns (resolved: map<Id, Pos>, placed: set<Id>)
    requires Ready(adj, c, cached, anchors)
    requires SecondPass(c, cached, f, anchors, {}, {}, resolved0, placed0)
    ensures SecondPass(c, cached, f, anchors, c.single.Keys, {}, resolved, placed)
  {
    resolved, placed := resolved0, placed0;
    ghost var done: set<Id> := {};
    var hubs := c.single.Keys;
    while hubs != {}
      invariant hubs !! done && hubs + done == c.single.Keys
      invariant SecondPass(c, cached, f, anchors, done, {}, resolved, placed)
      decreases |hubs|
    {
      var h :| h in hubs;
      assert h in c.single.Keys;
      resolved, placed := PlaceSingle(adj, c, cached, f, anchors, done, {}, resolved, placed, h);
      hubs, done := hubs - {h}, done + {h};
    }
  }

  /** The second pass over the groups between two hubs. */
  method PlaceDuals(ghost adj: Adjacency, c: StarClusters, ghost cached: map<Id, Pos>, f: Formulas,
                    ghost anchors: map<Id, Pos>, resolved0: map<Id, Pos>, placed0: set<Id>)
      returns (resolved: map<Id, Pos>, placed: set<Id>)
    requires Ready(adj, c, cached, anchors)
    requires SecondPass(c, cached, f, anchors, c.single.Keys, {}, resolved0, placed0)
    ensures SecondPass(c, cached, f, anchors, c.single.Keys, c.dual.Keys, resolved, placed)
  {
    resolved, placed := resolved0, placed0;
    ghost var done: set<Pair> := {};
    var pairs := c.dual.Keys;
    while pairs != {}
      invariant pairs !! done && pairs + done == c.dual.Keys
      invariant SecondPass(c, cached, f, anchors, c.single.Keys, done, resolved, placed)
      decreases |pairs|
    {
      var p :| p in pairs;
      assert p in c.dual.Keys;
      resolved, placed := PlaceDual(adj, c, cached, f, anchors, c.single.Keys, done, resolved, placed, p);
      pairs, done := pairs - {p}, done + {p};
    }
  }

  /** The positions of a render. Every node ends with one; a cached position is kept; the nodes
      placed afresh, which the view fixes, are exactly the star leaves without a cached one; any
      other node gets its seed. Each fresh leaf stands where the formula of its one group puts
      it, around the final position of its hub or hubs. */
  method ResolvePositions(nodes: seq<Id>, links: seq<Link>, cached: map<Id, Pos>, seed: Id -> Pos, f: Formulas)
      returns (ghost adj: Adjacency, ghost c: StarClusters, resolved: map<Id, Pos>, placed: set<Id>)
    ensures forall n :: n in adj <==> n in nodes
    ensures forall a, b :: a in adj ==> (b in adj[a] <==> Joined(nodes, links, a, b))
    ensures AreClusters(adj, c)
    ensures forall n :: n in resolved <==> n in nodes
    ensures forall n :: n in nodes && n in cached ==> resolved[n] == cached[n]
    ensures forall n :: n in placed <==> n in nodes && n !in cached && StarLeaf(adj, n)
    ensures forall n :: n in nodes && n !in cached && n !in placed ==> resolved[n] == seed(n)
    ensures GroupsPlaced(c, cached, f, c.single.Keys, c.dual.Keys, resolved)
  {
    var adjacency := BuildAdjacency(nodes, links);
    var clusters := DetectStarClusters(adjacency);
    adj, c := adjacency, clusters;
    var starLeaves := GroupedLeaves(clusters);
    StarLeavesAre(adjacency, clusters);
    var anchors := ResolveAnchors(nodes, starLeaves, cached, seed);
    NothingPlaced(c, cached, f, anchors);
    resolved, placed := PlaceSingles(adjacency, clusters, cached, f, anchors, anchors, {});
    resolved, placed := PlaceDuals(adjacency, clusters, cached, f, anchors, resolved, placed);
  }

  lemma StarLeavesAre(adj: Adjacency, c: StarClusters)
    requires AreClusters(adj, c)
    ensures forall n :: LeafIn(c, c.single.Keys, c.dual.Keys, n) <==> StarLeaf(adj, n)
    ensures forall n :: n in GroupedLeaves(c) <==> StarLeaf(adj, n)
  {
    forall n
      ensures LeafIn(c, c.single.Keys, c.dual.Keys, n) <==> StarLeaf(adj, n)
      ensures n in GroupedLeaves(c) <==> StarLeaf(adj, n)
    {
      OneGroupPerLeaf(adj, c, n);
      if h :| InSingle(c, h, n) {
        assert h in c.single.Keys && n in c.single[h];
      } else if p :| InDual(c, p, n) {
        assert p in c.dual.Keys && n in c.dual[p];
      } else {
        assert forall h :: h in c.single ==> !InSingle(c, h, n);
        assert forall p :: p in c.dual ==> !InDual(c, p, n);
      }
    }
  }
}
