/** The spindle between two hubs, over the reals (python/visualize_graph.py:151-168). */
module Spindle {
  import opened StarLayout

  const SPACING: real := 50.0
  const PUSH: real := 90.0

  function Distance(i: nat): real {
    PUSH + i as real * SPACING
  }

  function On(m: Pos, perp: Pos, dist: real): Pos {
    Pos(m.x + perp.x * dist, m.y + perp.y * dist)
  }

  function Midpoint(h1: Pos, h2: Pos): Pos {
    Pos((h1.x + h2.x) / 2.0, (h1.y + h2.y) / 2.0)
  }

  function Axis(h1: Pos, h2: Pos): Pos {
    Pos(h2.x - h1.x, h2.y - h1.y)
  }

  /** `hypot` stands for the length of the axis, which is not computed here: what follows holds for
      any non-negative number in its place. Where it is zero, 1.0 is used. */
  function Perpendicular(axis: Pos, hypot: real): Pos {
    var length := if hypot == 0.0 then 1.0 else hypot;
    Pos(-axis.y / length, axis.x / length)
  }

  /** Where the i-th new leaf goes: on the perpendicular from the midpoint of the hubs. */
  function LeafAt(h1: Pos, h2: Pos, hypot: real, i: nat): Pos {
    On(Midpoint(h1, h2), Perpendicular(Axis(h1, h2), hypot), Distance(i))
  }

  method PositionDualHubLeaves(h1: Pos, h2: Pos, hypot: real, leafIds: seq<Id>) returns (positions: map<Id, Pos>)
    ensures forall id :: id in positions <==> id in leafIds
    ensures (forall i, j :: 0 <= i < j < |leafIds| ==> leafIds[i] != leafIds[j]) ==>
              forall i: nat :: i < |leafIds| ==> positions[leafIds[i]] == LeafAt(h1, h2, hypot, i)
    ensures hypot > 0.0 && (forall i, j :: 0 <= i < j < |leafIds| ==> leafIds[i] != leafIds[j]) ==>
              forall i: nat :: i < |leafIds| ==>
                  StandsOff(h1, h2, hypot, 90.0 + 50.0 * i as real, positions[leafIds[i]])
  {
    if hypot > 0.0 {
      forall i: nat
        ensures StandsOff(h1, h2, hypot, 90.0 + 50.0 * i as real, LeafAt(h1, h2, hypot, i))
      {
        LeafStandsOff(h1, h2, hypot, i);
      }
    }
    var mx, my := (h1.x + h2.x) / 2.0, (h1.y + h2.y) / 2.0;
    var dx, dy := h2.x - h1.x, h2.y - h1.y;
    var length := if hypot == 0.0 then 1.0 else hypot;
    var perpX, perpY := -dy / length, dx / length;
    var place := (i: nat) => On(Pos(mx, my), Pos(perpX, perpY), PUSH + i as real * SPACING);
    positions := PlaceAll(leafIds, place);
    assert forall i: nat :: place(i) == LeafAt(h1, h2, hypot, i);
  }

  /** `leaf` stands off the midpoint of the hubs at a right angle to their line, to the left as one
      goes from `h1` to `h2`, `dist` away: its offset, scaled by the length
      of the axis, is the axis turned by a right angle and scaled by `dist`. */
  ghost predicate StandsOff(h1: Pos, h2: Pos, length: real, dist: real, leaf: Pos) {
    && (leaf.x - (h1.x + h2.x) / 2.0) * length == -(h2.y - h1.y) * dist
    && (leaf.y - (h1.y + h2.y) / 2.0) * length == (h2.x - h1.x) * dist
  }

  lemma LeafStandsOff(h1: Pos, h2: Pos, hypot: real, i: nat)
    requires hypot > 0.0
    ensures StandsOff(h1, h2, hypot, 90.0 + 50.0 * i as real, LeafAt(h1, h2, hypot, i))
  {
    var dist := 90.0 + 50.0 * i as real;
    assert Distance(i) == dist;
    ScaledBack(-(h2.y - h1.y), hypot, dist);
    ScaledBack(h2.x - h1.x, hypot, dist);
  }

  lemma ScaledBack(d: real, length: real, dist: real)
    requires length > 0.0
    ensures d / length * dist * length == d * dist
  {
    var u := d / length;
    assert u * length == d;
    assert u * dist * length == u * length * dist;
  }

  method PlaceAll(leafIds: seq<Id>, place: nat -> Pos) returns (positions: map<Id, Pos>)
    ensures forall id :: id in positions <==> id in leafIds
    ensures (forall i, j :: 0 <= i < j < |leafIds| ==> leafIds[i] != leafIds[j]) ==>
              forall i: nat :: i < |leafIds| ==> positions[leafIds[i]] == place(i)
  {
    positions := map[];
    for i := 0 to |leafIds|
      invariant forall id :: id in positions <==> id in leafIds[..i]
      invariant (forall j, k :: 0 <= j < k < |leafIds| ==> leafIds[j] != leafIds[k]) ==>
                  forall j: nat :: j < i ==> leafIds[j] in positions && positions[leafIds[j]] == place(j)
    {
      positions := positions[leafIds[i] := place(i)];
    }
  }

  /** The point a fraction s of the way along the edge from a to b. */
  function Along(a: Pos, b: Pos, s: real): Pos {
    Pos(a.x + s * (b.x - a.x), a.y + s * (b.y - a.y))
  }

  /** Coordinates on two axes that are not parallel. */
  function Spanned(m: Pos, d: Pos, p: Pos, a: real, b: real): Pos {
    Pos(m.x + d.x * a + p.x * b, m.y + d.y * a + p.y * b)
  }

  lemma SpannedTell(m: Pos, d: Pos, p: Pos, a: real, b: real, a': real, b': real)
    requires d.x * p.y - d.y * p.x != 0.0
    requires Spanned(m, d, p, a, b) == Spanned(m, d, p, a', b')
    ensures a == a' && b == b'
  {
    assert d.x * (a - a') + p.x * (b - b') == 0.0;
    assert d.y * (a - a') + p.y * (b - b') == 0.0;
    Independent(d.x, d.y, p.x, p.y, a - a', b - b');
  }

  lemma Independent(dx: real, dy: real, px: real, py: real, a: real, b: real)
    requires dx * py - dy * px != 0.0
    requires dx * a + px * b == 0.0 && dy * a + py * b == 0.0
    ensures a == 0.0 && b == 0.0
  {
    var cross := dx * py - dy * px;
    assert a * cross == py * (dx * a + px * b) - px * (dy * a + py * b);
    assert b * cross == dx * (dy * a + py * b) - dy * (dx * a + px * b);
    NoZeroDivisor(a, cross);
    NoZeroDivisor(b, cross);
  }

  lemma NoZeroDivisor(a: real, b: real)
    requires a * b == 0.0 && b != 0.0
    ensures a == 0.0
  {
  }

  lemma SameSign(d: real, length: real)
    requires length > 0.0
    ensures d * (d / length) >= 0.0 && (d != 0.0 ==> d * (d / length) > 0.0) && -d / length == -(d / length)
  {
    var u := d / length;
    assert u * length == d;
    if d > 0.0 {
      assert u > 0.0;
    } else if d < 0.0 {
      assert u < 0.0;
    }
  }

  /** The leaves' ray is not parallel to the line of the hubs. */
  lemma PerpendicularIsIndependent(dx: real, dy: real, px: real, py: real, length: real)
    requires (dx != 0.0 || dy != 0.0) && length > 0.0 && px == -dy / length && py == dx / length
    ensures dx * py - dy * px != 0.0
  {
    SameSign(dx, length);
    SameSign(dy, length);
    assert dy * px == -(dy * (dy / length));
  }

  // ----- crossings

  predicate Fraction(s: real) {
    0.0 <= s <= 1.0
  }

  /** Two edges, from a to b and from c to d, share a point only as `meet` allows. */
  ghost predicate Share(a: Pos, b: Pos, c: Pos, d: Pos, s: real, t: real) {
    Fraction(s) && Fraction(t) && Along(a, b, s) == Along(c, d, t)
  }

  /** Edges of two leaves to the same hub meet only at the hub, edges of two leaves to opposite
      hubs not at all, and the two edges of one leaf only at the leaf. */
  ghost predicate Apart(h1: Pos, h2: Pos, leaf: Pos, leaf': Pos, same: bool, s: real, t: real) {
    if same then Share(h1, leaf, h2, leaf', s, t) ==> s == t == 1.0
    else
      && (Share(h1, leaf, h1, leaf', s, t) ==> s == t == 0.0)
      && (Share(h2, leaf, h2, leaf', s, t) ==> s == t == 0.0)
      && !Share(h1, leaf, h2, leaf', s, t)
  }

  /** The spindle is drawn without crossings, however many leaves it has. */
  ghost predicate NonCrossing(h1: Pos, h2: Pos, hypot: real) {
    forall i: nat, j: nat, s, t :: ApartAt(h1, h2, hypot, i, j, s, t)
  }

  ghost predicate ApartAt(h1: Pos, h2: Pos, hypot: real, i: nat, j: nat, s: real, t: real) {
    Apart(h1, h2, LeafAt(h1, h2, hypot, i), LeafAt(h1, h2, hypot, j), i == j, s, t)
  }

  /** A point of an edge on the two axes: `side` is -0.5 from the first hub, 0.5 from the second. */
  lemma EdgePoint(h: Pos, m: Pos, d: Pos, p: Pos, side: real, dist: real, s: real)
    requires h == Pos(m.x + d.x * side, m.y + d.y * side)
    ensures Along(h, On(m, p, dist), s) == Spanned(m, d, p, side * (1.0 - s), s * dist)
  {
    AlongOneAxis(h.x, m.x, d.x, p.x, side, dist, s);
    AlongOneAxis(h.y, m.y, d.y, p.y, side, dist, s);
  }

  lemma AlongOneAxis(h: real, m: real, d: real, p: real, side: real, dist: real, s: real)
    requires h == m + d * side
    ensures h + s * ((m + p * dist) - h) == m + d * (side * (1.0 - s)) + p * (s * dist)
  {
    assert s * ((m + p * dist) - h) == s * (p * dist) - s * (d * side);
    assert s * (p * dist) == p * (s * dist);
    assert d * (side * (1.0 - s)) == d * side - s * (d * side);
  }

  /** Where two edges share a point, they agree on both axes. */
  lemma SharedPoint(m: Pos, d: Pos, p: Pos, h: Pos, side: real, dist: real, h': Pos, side': real, dist': real,
                    s: real, t: real)
    requires d.x * p.y - d.y * p.x != 0.0
    requires h == Pos(m.x + d.x * side, m.y + d.y * side) && h' == Pos(m.x + d.x * side', m.y + d.y * side')
    requires Along(h, On(m, p, dist), s) == Along(h', On(m, p, dist'), t)
    ensures side * (1.0 - s) == side' * (1.0 - t) && s * dist == t * dist'
  {
    EdgePoint(h, m, d, p, side, dist, s);
    EdgePoint(h', m, d, p, side', dist', t);
    SpannedTell(m, d, p, side * (1.0 - s), s * dist, side' * (1.0 - t), t * dist');
  }

  /** Two edges to the same hub. */
  lemma SameHub(m: Pos, d: Pos, p: Pos, h: Pos, side: real, dist: real, dist': real, s: real, t: real)
    requires d.x * p.y - d.y * p.x != 0.0 && (side == -0.5 || side == 0.5) && dist != dist'
    requires h == Pos(m.x + d.x * side, m.y + d.y * side)
    requires Along(h, On(m, p, dist), s) == Along(h, On(m, p, dist'), t)
    ensures s == t == 0.0
  {
    SharedPoint(m, d, p, h, side, dist, h, side, dist', s, t);
    assert s == t;
    assert s * (dist - dist') == 0.0;
    NoZeroDivisor(s, dist - dist');
  }

  /** Two edges to opposite hubs. */
  lemma OppositeHubs(m: Pos, d: Pos, p: Pos, h1: Pos, h2: Pos, side: real, side': real, dist: real, dist': real,
                     s: real, t: real)
    requires d.x * p.y - d.y * p.x != 0.0 && Fraction(s) && Fraction(t) && side == -0.5 && side' == 0.5
    requires h1 == Pos(m.x + d.x * side, m.y + d.y * side) && h2 == Pos(m.x + d.x * side', m.y + d.y * side')
    requires Along(h1, On(m, p, dist), s) == Along(h2, On(m, p, dist'), t)
    ensures s == t == 1.0 && dist == dist'
  {
    SharedPoint(m, d, p, h1, side, dist, h2, side', dist', s, t);
    BothAtTheLeaf(side, side', dist, dist', s, t);
  }

  lemma BothAtTheLeaf(side: real, side': real, dist: real, dist': real, s: real, t: real)
    requires side == -0.5 && side' == 0.5 && Fraction(s) && Fraction(t)
    requires side * (1.0 - s) == side' * (1.0 - t) && s * dist == t * dist'
    ensures s == t == 1.0 && dist == dist'
  {
    assert s == t == 1.0;
    assert s * dist == dist && t * dist' == dist';
  }

  lemma LeavesAreApart(h1: Pos, h2: Pos, hypot: real, i: nat, j: nat, s: real, t: real)
    requires h1 != h2 && hypot >= 0.0
    ensures ApartAt(h1, h2, hypot, i, j, s, t)
  {
    var m, d := Midpoint(h1, h2), Axis(h1, h2);
    var p := Perpendicular(d, hypot);
    PerpendicularIsIndependent(d.x, d.y, p.x, p.y, if hypot == 0.0 then 1.0 else hypot);
    var leaf, leaf' := LeafAt(h1, h2, hypot, i), LeafAt(h1, h2, hypot, j);
    if Share(h1, leaf, h2, leaf', s, t) {
      OppositeHubs(m, d, p, h1, h2, -0.5, 0.5, Distance(i), Distance(j), s, t);
    }
    if i != j {
      LeavesMeetAtHub(h1, h2, hypot, h1, -0.5, i, j, s, t);
      LeavesMeetAtHub(h1, h2, hypot, h2, 0.5, i, j, s, t);
    }
  }

  lemma LeavesMeetAtHub(h1: Pos, h2: Pos, hypot: real, h: Pos, side: real, i: nat, j: nat, s: real, t: real)
    requires h1 != h2 && hypot >= 0.0 && i != j && (h, side) in {(h1, -0.5), (h2, 0.5)}
    ensures Share(h, LeafAt(h1, h2, hypot, i), h, LeafAt(h1, h2, hypot, j), s, t) ==> s == t == 0.0
  {
    var m, d := Midpoint(h1, h2), Axis(h1, h2);
    var p := Perpendicular(d, hypot);
    PerpendicularIsIndependent(d.x, d.y, p.x, p.y, if hypot == 0.0 then 1.0 else hypot);
    if Share(h, LeafAt(h1, h2, hypot, i), h, LeafAt(h1, h2, hypot, j), s, t) {
      SameHub(m, d, p, h, side, Distance(i), Distance(j), s, t);
    }
  }

  lemma CoincidingHubsCross(h: Pos, hypot: real)
    ensures !ApartAt(h, h, hypot, 0, 1, 0.0, 0.0)
  {
    assert LeafAt(h, h, hypot, 0) == h == LeafAt(h, h, hypot, 1);
    assert Share(h, h, h, h, 0.0, 0.0);
  }

  /** The claim holds for every number of leaves exactly when the hubs are at different points. */
  lemma NonCrossingIff(h1: Pos, h2: Pos, hypot: real)
    requires hypot >= 0.0
    ensures NonCrossing(h1, h2, hypot) <==> h1 != h2
  {
    if h1 != h2 {
      forall i: nat, j: nat, s, t
        ensures ApartAt(h1, h2, hypot, i, j, s, t)
      {
        LeavesAreApart(h1, h2, hypot, i, j, s, t);
      }
    } else {
      CoincidingHubsCross(h1, hypot);
    }
  }

  /** `length(a, b)` stands for the distance of two points. */
  function Drawn(length: (Pos, Pos) -> real): (Pos, Pos, nat) -> Pos {
    (h1: Pos, h2: Pos, i: nat) => LeafAt(h1, h2, length(h1, h2), i)
  }

  /** In a rendered graph: the edges of the leaves newly placed between two hubs do not cross. */
  lemma RenderedSpindleDoesNotCross(c: StarClusters, cached: map<Id, Pos>, f: Formulas, length: (Pos, Pos) -> real,
                                    resolved: map<Id, Pos>, p: Pair, i: nat, j: nat, s: real, t: real)
    requires p in c.dual && SpindlePlaced(c, cached, f, resolved, p) && f.spindle == Drawn(length)
    requires resolved[p.0] != resolved[p.1] && length(resolved[p.0], resolved[p.1]) >= 0.0
    requires i < |NotIn(c.dual[p], cached.Keys)| && j < |NotIn(c.dual[p], cached.Keys)| && i != j
    ensures var h1, h2 := resolved[p.0], resolved[p.1];
            var leaf, leaf' := resolved[NotIn(c.dual[p], cached.Keys)[i]], resolved[NotIn(c.dual[p], cached.Keys)[j]];
            Apart(h1, h2, leaf, leaf', false, s, t)
  {
    var h1, h2 := resolved[p.0], resolved[p.1];
    var leaves := NotIn(c.dual[p], cached.Keys);
    LeavesAreApart(h1, h2, length(h1, h2), i, j, s, t);
    assert resolved[leaves[i]] == f.spindle(h1, h2, i) && resolved[leaves[j]] == f.spindle(h1, h2, j);
  }

  /** In a later render, with the hubs where they were: a leaf that an earlier render placed as its
      i-th is clear of all the leaves placed now if and only if fewer than i + 1 are placed now. The
      new leaves are numbered from nought again, so the i-th of them lands on the old leaf. */
  lemma CachedLeafIsClearIff(c: StarClusters, cached: map<Id, Pos>, f: Formulas, length: (Pos, Pos) -> real,
                             resolved: map<Id, Pos>, p: Pair, leaf: Id, i: nat)
    requires p in c.dual && SpindlePlaced(c, cached, f, resolved, p) && f.spindle == Drawn(length)
    requires resolved[p.0] != resolved[p.1] && length(resolved[p.0], resolved[p.1]) >= 0.0
    requires leaf in resolved
    requires resolved[leaf] == LeafAt(resolved[p.0], resolved[p.1], length(resolved[p.0], resolved[p.1]), i)
    ensures (forall j: nat, s, t :: j < |NotIn(c.dual[p], cached.Keys)| ==>
             ClearOf(c, cached, resolved, p, leaf, j, s, t))
       <==> i >= |NotIn(c.dual[p], cached.Keys)|
  {
    var h1, h2 := resolved[p.0], resolved[p.1];
    var leaves := NotIn(c.dual[p], cached.Keys);
    if i < |leaves| {
      assert resolved[leaves[i]] == f.spindle(h1, h2, i) == resolved[leaf];
      assert Share(h1, resolved[leaf], h1, resolved[leaf], 1.0, 1.0);
      assert !ClearOf(c, cached, resolved, p, leaf, i, 1.0, 1.0);
    } else {
      forall j: nat, s, t | j < |leaves|
        ensures ClearOf(c, cached, resolved, p, leaf, j, s, t)
      {
        LeavesAreApart(h1, h2, length(h1, h2), i, j, s, t);
        assert resolved[leaves[j]] == f.spindle(h1, h2, j);
      }
    }
  }

  ghost predicate ClearOf(c: StarClusters, cached: map<Id, Pos>, resolved: map<Id, Pos>, p: Pair, leaf: Id, j: nat,
                          s: real, t: real) {
    && p in c.dual && p.0 in resolved && p.1 in resolved && leaf in resolved
    && j < |NotIn(c.dual[p], cached.Keys)| && NotIn(c.dual[p], cached.Keys)[j] in resolved
    && Apart(resolved[p.0], resolved[p.1], resolved[leaf], resolved[NotIn(c.dual[p], cached.Keys)[j]], false, s, t)
  }
}
