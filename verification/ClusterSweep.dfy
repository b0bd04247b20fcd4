/** The sweep that reports clusters of blocked tasks (src/blocked-cluster-sweep.js:63-159). */
module ClusterSweep {
  import opened Wrappers

  /** A readable record of blocked/. `fingerprint` is its normalised blockedReason, if any. */
  datatype Blocked = Blocked(id: string, fingerprint: Option<string>)

  datatype Cluster = Cluster(fingerprint: string, count: nat, taskIds: seq<string>)

  function IdsWith(tasks: seq<Blocked>, fingerprint: string): seq<string> {
    if tasks == [] then []
    else
      var last := tasks[|tasks| - 1];
      IdsWith(tasks[..|tasks| - 1], fingerprint) + (if last.fingerprint == Some(fingerprint) then [last.id] else [])
  }

  function CountWith(tasks: seq<Blocked>, fingerprint: string): nat {
    |IdsWith(tasks, fingerprint)|
  }

  ghost predicate Distinct(clusters: seq<Cluster>) {
    forall i, j :: 0 <= i < j < |clusters| ==> clusters[i].fingerprint != clusters[j].fingerprint
  }

  /** The buckets are right for `tasks`: one for every fingerprint that occurs, with its tasks. */
  ghost predicate Buckets(tasks: seq<Blocked>, clusters: seq<Cluster>) {
    && Distinct(clusters)
    && (forall i :: 0 <= i < |clusters| ==>
        clusters[i].taskIds == IdsWith(tasks, clusters[i].fingerprint)
        && clusters[i].count == |clusters[i].taskIds| > 0)
    && (forall f :: CountWith(tasks, f) > 0 ==> HasCluster(clusters, f))
  }

  ghost predicate HasCluster(clusters: seq<Cluster>, fingerprint: string) {
    exists i :: 0 <= i < |clusters| && clusters[i].fingerprint == fingerprint
  }

  ghost predicate LargestFirst(clusters: seq<Cluster>) {
    forall i, j :: 0 <= i < j < |clusters| ==> clusters[i].count >= clusters[j].count
  }

  /** A task with `f` is listed before every task with `g`. */
  ghost predicate Earlier(tasks: seq<Blocked>, f: string, g: string) {
    exists k: nat :: k < |tasks| && tasks[k].fingerprint == Some(f) && NotUpTo(tasks, k, g)
  }

  ghost predicate NotUpTo(tasks: seq<Blocked>, k: nat, g: string) {
    forall m :: 0 <= m <= k && m < |tasks| ==> tasks[m].fingerprint != Some(g)
  }

  ghost predicate InOrder(tasks: seq<Blocked>, clusters: seq<Cluster>) {
    forall i, j :: 0 <= i < j < |clusters| ==> Earlier(tasks, clusters[i].fingerprint, clusters[j].fingerprint)
  }

  /** Clusters of one size are in the order in which their first tasks are listed. */
  ghost predicate TiesInOrder(tasks: seq<Blocked>, clusters: seq<Cluster>) {
    forall i, j :: 0 <= i < j < |clusters| && clusters[i].count == clusters[j].count ==>
        Earlier(tasks, clusters[i].fingerprint, clusters[j].fingerprint)
  }

  lemma IdsWithStep(tasks: seq<Blocked>, k: nat, f: string)
    requires k < |tasks|
    ensures IdsWith(tasks[..k + 1], f)
              == IdsWith(tasks[..k], f) + (if tasks[k].fingerprint == Some(f) then [tasks[k].id] else [])
  {
    assert tasks[..k + 1][..k] == tasks[..k];
  }

  /** One more task: into its bucket, or into a new one. */
  method AddTask(ghost tasks: seq<Blocked>, k: nat, task: Blocked, clusters: seq<Cluster>) returns (r: seq<Cluster>)
    requires k < |tasks| && task == tasks[k] && Buckets(tasks[..k], clusters)
    requires InOrder(tasks[..k], clusters)
    ensures Buckets(tasks[..k + 1], r) && InOrder(tasks[..k + 1], r)
  {
    OrderKept(tasks, k, clusters);
    if task.fingerprint.None? {
      IdsWithSteps(tasks, k);
      return clusters;
    }
    var f := task.fingerprint.value;
    var i := 0;
    while i < |clusters| && clusters[i].fingerprint != f
      invariant 0 <= i <= |clusters|
      invariant forall j :: 0 <= j < i ==> clusters[j].fingerprint != f
    {
      i := i + 1;
    }
    if i < |clusters| {
      var bucket := clusters[i];
      r := clusters[i := Cluster(f, bucket.count + 1, bucket.taskIds + [task.id])];
      GrownBucket(tasks, k, clusters, i, r);
    } else {
      r := clusters + [Cluster(f, 1, [task.id])];
      NewBucket(tasks, k, clusters, r);
      NewIsLast(tasks, k, clusters, f);
    }
  }

  lemma OrderKept(tasks: seq<Blocked>, k: nat, clusters: seq<Cluster>)
    requires k < |tasks| && InOrder(tasks[..k], clusters)
    ensures InOrder(tasks[..k + 1], clusters)
  {
    forall i, j | 0 <= i < j < |clusters|
      ensures Earlier(tasks[..k + 1], clusters[i].fingerprint, clusters[j].fingerprint)
    {
      var f, g := clusters[i].fingerprint, clusters[j].fingerprint;
      assert Earlier(tasks[..k], f, g);
      var m: nat :| m < k && tasks[..k][m].fingerprint == Some(f) && NotUpTo(tasks[..k], m, g);
      assert forall l :: 0 <= l <= m ==> tasks[..k + 1][l] == tasks[..k][l];
      assert NotUpTo(tasks[..k + 1], m, g);
    }
  }

  /** A fingerprint met for the first time comes after all others. */
  lemma NewIsLast(tasks: seq<Blocked>, k: nat, clusters: seq<Cluster>, g: string)
    requires k < |tasks| && Buckets(tasks[..k], clusters) && !HasCluster(clusters, g)
    ensures forall i :: 0 <= i < |clusters| ==> Earlier(tasks[..k + 1], clusters[i].fingerprint, g)
  {
    var init := tasks[..k];
    assert CountWith(init, g) == 0;
    WithNoneIff(init, g);
    forall i | 0 <= i < |clusters|
      ensures Earlier(tasks[..k + 1], clusters[i].fingerprint, g)
    {
      WithNoneIff(init, clusters[i].fingerprint);
      var m: nat :| m < |init| && init[m].fingerprint == Some(clusters[i].fingerprint);
      assert forall l :: 0 <= l <= m ==> tasks[..k + 1][l] == init[l];
      assert NotUpTo(tasks[..k + 1], m, g);
    }
  }

  lemma {:induction false} WithNoneIff(tasks: seq<Blocked>, f: string)
    ensures IdsWith(tasks, f) == [] <==> forall k :: 0 <= k < |tasks| ==> tasks[k].fingerprint != Some(f)
    decreases |tasks|
  {
    if tasks != [] {
      var n := |tasks| - 1;
      WithNoneIff(tasks[..n], f);
      assert forall k :: 0 <= k < n ==> tasks[..n][k] == tasks[k];
    }
  }

  lemma IdsWithSteps(tasks: seq<Blocked>, k: nat)
    requires k < |tasks|
    ensures forall f ::
              IdsWith(tasks[..k + 1], f)
              == IdsWith(tasks[..k], f) + (if tasks[k].fingerprint == Some(f) then [tasks[k].id] else [])
  {
    forall f
      ensures IdsWith(tasks[..k + 1], f)
                == IdsWith(tasks[..k], f) + (if tasks[k].fingerprint == Some(f) then [tasks[k].id] else [])
    {
      IdsWithStep(tasks, k, f);
    }
  }

  lemma GrownBucket(tasks: seq<Blocked>, k: nat, clusters: seq<Cluster>, i: nat, r: seq<Cluster>)
    requires k < |tasks| && Buckets(tasks[..k], clusters) && i < |clusters|
    requires tasks[k].fingerprint == Some(clusters[i].fingerprint)
    requires r == clusters[i := Cluster(clusters[i].fingerprint, clusters[i].count + 1,
                                        clusters[i].taskIds + [tasks[k].id])]
    ensures Buckets(tasks[..k + 1], r)
  {
    IdsWithSteps(tasks, k);
    assert forall j :: 0 <= j < |clusters| ==> r[j].fingerprint == clusters[j].fingerprint;
    forall g | CountWith(tasks[..k + 1], g) > 0
      ensures HasCluster(r, g)
    {
      assert g != clusters[i].fingerprint ==> HasCluster(clusters, g);
      assert r[i].fingerprint == clusters[i].fingerprint;
    }
  }

  lemma NewBucket(tasks: seq<Blocked>, k: nat, clusters: seq<Cluster>, r: seq<Cluster>)
    requires k < |tasks| && Buckets(tasks[..k], clusters)
    requires tasks[k].fingerprint.Some? && !HasCluster(clusters, tasks[k].fingerprint.value)
    requires r == clusters + [Cluster(tasks[k].fingerprint.value, 1, [tasks[k].id])]
    ensures Buckets(tasks[..k + 1], r)
  {
    IdsWithSteps(tasks, k);
    var f := tasks[k].fingerprint.value;
    assert CountWith(tasks[..k], f) == 0;
    assert r[|clusters|].fingerprint == f;
    forall g | CountWith(tasks[..k + 1], g) > 0
      ensures HasCluster(r, g)
    {
      if g != f {
        assert CountWith(tasks[..k], g) > 0;
        assert HasCluster(clusters, g);
        var j :| 0 <= j < |clusters| && clusters[j].fingerprint == g;
        assert r[j] == clusters[j];
      }
    }
  }

  function AtLeast(clusters: seq<Cluster>, min: nat): (r: seq<Cluster>)
    ensures forall c :: c in r <==> c in clusters && c.count >= min
    ensures Distinct(clusters) ==> Distinct(r)
  {
    if clusters == [] then []
    else
      var n := |clusters| - 1;
      var r := AtLeast(clusters[..n], min);
      assert forall j :: 0 <= j < |r| ==> r[j] in clusters[..n];
      r + (if clusters[n].count >= min then [clusters[n]] else [])
  }

  function InsertByCount(c: Cluster, sorted: seq<Cluster>): (r: seq<Cluster>)
    requires LargestFirst(sorted) && Distinct(sorted)
    requires forall k :: 0 <= k < |sorted| ==> sorted[k].fingerprint != c.fingerprint
    ensures LargestFirst(r) && Distinct(r) && forall x :: x in r <==> x == c || x in sorted
  {
    if sorted == [] || c.count >= sorted[0].count then [c] + sorted
    else
      var rest := InsertByCount(c, sorted[1..]);
      assert forall x :: x in sorted[1..] ==> x.count <= sorted[0].count && x.fingerprint != sorted[0].fingerprint;
      assert forall j :: 0 <= j < |rest| ==> rest[j] in rest;
      [sorted[0]] + rest
  }

  /** `sort((a, b) => b.count - a.count)` */
  function SortedByCount(clusters: seq<Cluster>): (r: seq<Cluster>)
    requires Distinct(clusters)
    ensures LargestFirst(r) && Distinct(r) && forall x :: x in r <==> x in clusters
  {
    if clusters == [] then []
    else
      var rest := SortedByCount(clusters[1..]);
      assert forall x :: x in clusters[1..] ==> x.fingerprint != clusters[0].fingerprint;
      assert forall k :: 0 <= k < |rest| ==> rest[k] in rest;
      InsertByCount(clusters[0], rest)
  }

  lemma {:induction false} AtLeastInOrder(tasks: seq<Blocked>, clusters: seq<Cluster>, min: nat)
    requires InOrder(tasks, clusters)
    ensures InOrder(tasks, AtLeast(clusters, min))
    decreases |clusters|
  {
    if clusters != [] {
      var n := |clusters| - 1;
      var r := AtLeast(clusters[..n], min);
      AtLeastInOrder(tasks, clusters[..n], min);
      forall i | 0 <= i < |r|
        ensures Earlier(tasks, r[i].fingerprint, clusters[n].fingerprint)
      {
        assert r[i] in r;
        var k :| 0 <= k < n && clusters[..n][k] == r[i];
        assert clusters[k] == r[i];
      }
    }
  }

  lemma {:induction false} InsertKeepsTies(tasks: seq<Blocked>, c: Cluster, sorted: seq<Cluster>)
    requires LargestFirst(sorted) && Distinct(sorted) && TiesInOrder(tasks, sorted)
    requires forall k :: 0 <= k < |sorted| ==> sorted[k].fingerprint != c.fingerprint
    requires forall k :: 0 <= k < |sorted| ==> Earlier(tasks, c.fingerprint, sorted[k].fingerprint)
    ensures TiesInOrder(tasks, InsertByCount(c, sorted))
    decreases |sorted|
  {
    if sorted != [] && c.count < sorted[0].count {
      var rest := InsertByCount(c, sorted[1..]);
      InsertKeepsTies(tasks, c, sorted[1..]);
      forall j | 0 <= j < |rest| && rest[j].count == sorted[0].count
        ensures Earlier(tasks, sorted[0].fingerprint, rest[j].fingerprint)
      {
        assert rest[j] in rest;
        var k :| 0 <= k < |sorted| - 1 && sorted[1..][k] == rest[j];
        assert sorted[k + 1] == rest[j];
      }
    }
  }

  lemma {:induction false} SortKeepsTies(tasks: seq<Blocked>, clusters: seq<Cluster>)
    requires Distinct(clusters) && InOrder(tasks, clusters)
    ensures TiesInOrder(tasks, SortedByCount(clusters))
    decreases |clusters|
  {
    if clusters != [] {
      var rest := SortedByCount(clusters[1..]);
      SortKeepsTies(tasks, clusters[1..]);
      forall k | 0 <= k < |rest|
        ensures Earlier(tasks, clusters[0].fingerprint, rest[k].fingerprint)
                && rest[k].fingerprint != clusters[0].fingerprint
      {
        assert rest[k] in rest;
        var i :| 0 <= i < |clusters| - 1 && clusters[1..][i] == rest[k];
        assert clusters[i + 1] == rest[k];
      }
      InsertKeepsTies(tasks, clusters[0], rest);
    }
  }

  /** `at` lists, in order, the tasks that have the fingerprint. */
  ghost predicate ListsSharers(tasks: seq<Blocked>, f: string, at: seq<nat>) {
    && (forall i, j :: 0 <= i < j < |at| ==> at[i] < at[j])
    && (forall k: nat :: k in at <==> k < |tasks| && tasks[k].fingerprint == Some(f))
  }

  /** The ids of the tasks that have the fingerprint, each once and in the order of the listing. */
  ghost predicate AreSharers(tasks: seq<Blocked>, f: string, ids: seq<string>) {
    exists at :: ListsSharers(tasks, f, at) && AreIds(tasks, at, ids)
  }

  ghost predicate AreIds(tasks: seq<Blocked>, at: seq<nat>, ids: seq<string>) {
    |ids| == |at| && forall i :: 0 <= i < |ids| ==> at[i] < |tasks| && ids[i] == tasks[at[i]].id
  }

  lemma {:induction false} IdsWithAreSharers(tasks: seq<Blocked>, f: string)
    ensures AreSharers(tasks, f, IdsWith(tasks, f))
    decreases |tasks|
  {
    if tasks == [] {
      assert ListsSharers(tasks, f, []) && AreIds(tasks, [], IdsWith(tasks, f));
    } else {
      var n := |tasks| - 1;
      IdsWithAreSharers(tasks[..n], f);
      var at :| ListsSharers(tasks[..n], f, at) && AreIds(tasks[..n], at, IdsWith(tasks[..n], f));
      OneMoreSharer(tasks, f, at);
    }
  }

  lemma OneMoreSharer(tasks: seq<Blocked>, f: string, at: seq<nat>)
    requires tasks != [] && ListsSharers(tasks[..|tasks| - 1], f, at)
    requires AreIds(tasks[..|tasks| - 1], at, IdsWith(tasks[..|tasks| - 1], f))
    ensures AreSharers(tasks, f, IdsWith(tasks, f))
  {
    var n := |tasks| - 1;
    if tasks[n].fingerprint == Some(f) {
      SharersExtended(tasks, f, at);
      assert AreIds(tasks, at + [n], IdsWith(tasks[..n], f) + [tasks[n].id]);
    } else {
      SharersKept(tasks, f, at);
      assert AreIds(tasks, at, IdsWith(tasks[..n], f) + []);
    }
  }

  lemma SharersExtended(tasks: seq<Blocked>, f: string, at: seq<nat>)
    requires tasks != [] && ListsSharers(tasks[..|tasks| - 1], f, at) && tasks[|tasks| - 1].fingerprint == Some(f)
    ensures ListsSharers(tasks, f, at + [|tasks| - 1])
  {
    var n, init := |tasks| - 1, tasks[..|tasks| - 1];
    assert forall k :: 0 <= k < |at| ==> at[k] in at;
    assert forall k: nat :: k < n ==> init[k] == tasks[k];
  }

  lemma SharersKept(tasks: seq<Blocked>, f: string, at: seq<nat>)
    requires tasks != [] && ListsSharers(tasks[..|tasks| - 1], f, at) && tasks[|tasks| - 1].fingerprint != Some(f)
    ensures ListsSharers(tasks, f, at)
  {
    var n, init := |tasks| - 1, tasks[..|tasks| - 1];
    assert forall k: nat :: k < n ==> init[k] == tasks[k];
  }

  /** Exactly the fingerprints shared by at least `min` tasks, each with all its tasks, largest first
      and otherwise in the order of the listing. */
  method FindBlockedClusters(tasks: seq<Blocked>, min: nat) returns (clusters: seq<Cluster>)
    requires min > 0
    ensures LargestFirst(clusters) && Distinct(clusters) && TiesInOrder(tasks, clusters)
    ensures forall c :: c in clusters ==>
              c.taskIds == IdsWith(tasks, c.fingerprint) && c.count == CountWith(tasks, c.fingerprint) >= min
    ensures forall f :: CountWith(tasks, f) >= min ==> Cluster(f, CountWith(tasks, f), IdsWith(tasks, f)) in clusters
    ensures forall c :: c in clusters ==> c.count == |c.taskIds| && AreSharers(tasks, c.fingerprint, c.taskIds)
  {
    forall f
      ensures AreSharers(tasks, f, IdsWith(tasks, f))
    {
      IdsWithAreSharers(tasks, f);
    }
    var byFingerprint: seq<Cluster> := [];
    for k := 0 to |tasks|
      invariant Buckets(tasks[..k], byFingerprint) && InOrder(tasks[..k], byFingerprint)
    {
      byFingerprint := AddTask(tasks, k, tasks[k], byFingerprint);
    }
    assert tasks[..|tasks|] == tasks;
    AtLeastInOrder(tasks, byFingerprint, min);
    SortKeepsTies(tasks, AtLeast(byFingerprint, min));
    clusters := SortedByCount(AtLeast(byFingerprint, min));
    forall f | CountWith(tasks, f) >= min
      ensures Cluster(f, CountWith(tasks, f), IdsWith(tasks, f)) in clusters
    {
      assert HasCluster(byFingerprint, f);
      var i :| 0 <= i < |byFingerprint| && byFingerprint[i].fingerprint == f;
      assert byFingerprint[i] in byFingerprint;
    }
  }

  // ----- reporting

  /** The size a fingerprint was last reported at. */
  type State = map<string, nat>

  predicate ShouldReport(count: nat, prior: Option<nat>) {
    prior.None? || count >= prior.value * 2 || count >= prior.value + 5
  }

  function Prior(state: State, f: string): Option<nat> {
    if f in state then Some(state[f]) else None
  }

  function LastOf(count: nat, prior: Option<nat>): Option<nat> {
    if ShouldReport(count, prior) then Some(count) else prior
  }

  /** What one sweep leaves for a fingerprint that `count` tasks share. */
  function LastAfter(min: nat, prior: Option<nat>, count: nat): Option<nat> {
    if count >= min then LastOf(count, prior) else prior
  }

  ghost predicate Reported(clusters: seq<Cluster>, state: State, f: string, n: nat) {
    exists j :: 0 <= j < |clusters| && clusters[j].fingerprint == f && clusters[j].count == n
                && ShouldReport(n, Prior(state, f))
  }

  /** What the sweep's loop over `clusters` leaves. */
  ghost predicate ReportedAll(clusters: seq<Cluster>, state: State, state': State, reported: seq<(string, nat)>) {
    && (forall f: string, n: nat :: (f, n) in reported <==> Reported(clusters, state, f, n))
    && (forall f :: !HasCluster(clusters, f) ==> Prior(state', f) == Prior(state, f))
    && (forall j :: 0 <= j < |clusters| ==>
        Prior(state', clusters[j].fingerprint) == LastOf(clusters[j].count, Prior(state, clusters[j].fingerprint)))
  }

  /** Each fingerprint once, the largest cluster first. */
  ghost predicate OnceEach(reported: seq<(string, nat)>) {
    forall i, j :: 0 <= i < j < |reported| ==> reported[i].0 != reported[j].0 && reported[i].1 >= reported[j].1
  }

  lemma StaysOnceEach(clusters: seq<Cluster>, k: nat, state: State, state0: State, reported: seq<(string, nat)>)
    requires Distinct(clusters) && LargestFirst(clusters) && k < |clusters|
    requires ReportedAll(clusters[..k], state, state0, reported) && OnceEach(reported)
    ensures OnceEach(reported + [(clusters[k].fingerprint, clusters[k].count)])
  {
    forall i | 0 <= i < |reported|
      ensures reported[i].0 != clusters[k].fingerprint && reported[i].1 >= clusters[k].count
    {
      assert (reported[i].0, reported[i].1) in reported;
      var j :| 0 <= j < k && clusters[..k][j].fingerprint == reported[i].0 && clusters[..k][j].count == reported[i].1;
      assert clusters[j] == clusters[..k][j];
    }
  }

  method ReportClusters(clusters: seq<Cluster>, state: State) returns (state': State, reported: seq<(string, nat)>)
    requires Distinct(clusters) && LargestFirst(clusters)
    ensures ReportedAll(clusters, state, state', reported) && OnceEach(reported)
  {
    state', reported := state, [];
    for k := 0 to |clusters|
      invariant ReportedAll(clusters[..k], state, state', reported) && OnceEach(reported)
    {
      var cluster := clusters[k];
      ghost var state0, reported0 := state', reported;
      StaysOnceEach(clusters, k, state, state', reported);
      if ShouldReport(cluster.count, Prior(state', cluster.fingerprint)) {
        reported := reported + [(cluster.fingerprint, cluster.count)];
        state' := state'[cluster.fingerprint := cluster.count];
      }
      OneMoreReport(clusters, k, state, state0, reported0, state', reported);
    }
    assert clusters[..|clusters|] == clusters;
  }

  lemma OneMoreReport(clusters: seq<Cluster>, k: nat, state: State, state0: State, reported0: seq<(string, nat)>,
                      state': State, reported: seq<(string, nat)>)
    requires Distinct(clusters) && k < |clusters| && ReportedAll(clusters[..k], state, state0, reported0)
    requires var c := clusters[k];
             if ShouldReport(c.count, Prior(state0, c.fingerprint))
             then reported == reported0 + [(c.fingerprint, c.count)] && state' == state0[c.fingerprint := c.count]
             else reported == reported0 && state' == state0
    ensures ReportedAll(clusters[..k + 1], state, state', reported)
  {
    var a, b, c := clusters[..k], clusters[..k + 1], clusters[k];
    OneMoreCluster(clusters, k, state);
    assert !HasCluster(a, c.fingerprint);
    assert Prior(state0, c.fingerprint) == Prior(state, c.fingerprint);
    forall j | 0 <= j < |b|
      ensures Prior(state', b[j].fingerprint) == LastOf(b[j].count, Prior(state, b[j].fingerprint))
    {
      assert j < k ==> b[j] == a[j] && a[j].fingerprint != c.fingerprint;
    }
    forall f: string, n: nat
      ensures (f, n) in reported <==> Reported(b, state, f, n)
    {
      assert (f, n) in reported0 <==> Reported(a, state, f, n);
    }
  }

  lemma OneMoreCluster(clusters: seq<Cluster>, k: nat, state: State)
    requires k < |clusters|
    ensures forall f: string, n: nat :: Reported(clusters[..k + 1], state, f, n) <==>
              Reported(clusters[..k], state, f, n)
                  || (f == clusters[k].fingerprint && n == clusters[k].count && ShouldReport(n, Prior(state, f)))
    ensures forall f :: HasCluster(clusters[..k + 1], f) <==>
              HasCluster(clusters[..k], f) || f == clusters[k].fingerprint
  {
    var a, b := clusters[..k], clusters[..k + 1];
    assert b[k] == clusters[k] && forall j :: 0 <= j < k ==> a[j] == b[j];
    forall f: string, n: nat
      ensures Reported(a, state, f, n) ==> Reported(b, state, f, n)
      ensures HasCluster(a, f) ==> HasCluster(b, f)
    {
      if HasCluster(a, f) {
        var j :| 0 <= j < |a| && a[j].fingerprint == f;
        assert b[j].fingerprint == f;
      }
      if Reported(a, state, f, n) {
        var j :| 0 <= j < |a| && a[j].fingerprint == f && a[j].count == n && ShouldReport(n, Prior(state, f));
        assert b[j].fingerprint == f && b[j].count == n;
      }
    }
  }

  /** What a sweep leaves and reports. */
  ghost predicate Swept(tasks: seq<Blocked>, state: State, min: nat, state': State, reported: seq<(string, nat)>) {
    && (forall f :: Prior(state', f) == LastAfter(min, Prior(state, f), CountWith(tasks, f)))
    && forall f: string, n: nat :: (f, n) in reported <==>
          n == CountWith(tasks, f) >= min && ShouldReport(n, Prior(state, f))
  }

  /** The sweep: each cluster is reported, and its size remembered, when it is new or has grown. */
  method RunBlockedClusterSweep(tasks: seq<Blocked>, state: State, min: nat)
      returns (state': State, reported: seq<(string, nat)>)
    requires min > 0
    ensures Swept(tasks, state, min, state', reported) && OnceEach(reported)
  {
    var clusters := FindBlockedClusters(tasks, min);
    state', reported := ReportClusters(clusters, state);
    forall f
      ensures HasCluster(clusters, f) <==> CountWith(tasks, f) >= min
    {
      if CountWith(tasks, f) >= min {
        var c := Cluster(f, CountWith(tasks, f), IdsWith(tasks, f));
        assert c in clusters;
      }
      if HasCluster(clusters, f) {
        var j :| 0 <= j < |clusters| && clusters[j].fingerprint == f;
        assert clusters[j] in clusters;
      }
    }
    forall f
      ensures Prior(state', f) == LastAfter(min, Prior(state, f), CountWith(tasks, f))
      ensures forall n: nat :: Reported(clusters, state, f, n) <==>
                n == CountWith(tasks, f) >= min && ShouldReport(n, Prior(state, f))
    {
      forall j | 0 <= j < |clusters| && clusters[j].fingerprint == f
        ensures clusters[j].count == CountWith(tasks, f)
      {
        assert clusters[j] in clusters;
      }
      if HasCluster(clusters, f) {
        var j :| 0 <= j < |clusters| && clusters[j].fingerprint == f;
        assert clusters[j].count == CountWith(tasks, f);
      }
    }
  }

  /** After every sweep no cluster has reached double its last reported size, or five more. */
  lemma NoUnreportedGrowth(min: nat, prior: Option<nat>, count: nat)
    requires count >= min > 0
    ensures LastAfter(min, prior, count).Some?
    ensures count < 2 * LastAfter(min, prior, count).value && count < LastAfter(min, prior, count).value + 5
  {
  }

  /** One fingerprint over many sweeps: the sizes it is reported at. */
  function Reports(min: nat, prior: Option<nat>, counts: seq<nat>): seq<nat>
    decreases |counts|
  {
    if counts == [] then []
    else
      (if counts[0] >= min && ShouldReport(counts[0], prior) then [counts[0]] else [])
      + Reports(min, LastAfter(min, prior, counts[0]), counts[1..])
  }

  /** The least size of the k-th report (from 0) when the first is at least `min`. */
  function Threshold(min: nat, k: nat): nat {
    if k == 0 then min
    else if Threshold(min, k - 1) < 5 then 2 * Threshold(min, k - 1) else Threshold(min, k - 1) + 5
  }

  lemma {:induction false} ReportsGrow(min: nat, prior: Option<nat>, counts: seq<nat>)
    ensures forall k :: 0 <= k < |Reports(min, prior, counts)| ==>
              Reports(min, prior, counts)[k] >= min && Reports(min, prior, counts)[k] in counts
    ensures prior.Some? && Reports(min, prior, counts) != [] ==> ShouldReport(Reports(min, prior, counts)[0], prior)
    ensures forall k :: 0 < k < |Reports(min, prior, counts)| ==>
              ShouldReport(Reports(min, prior, counts)[k], Some(Reports(min, prior, counts)[k - 1]))
    decreases |counts|
  {
    if counts != [] {
      ReportsGrow(min, LastAfter(min, prior, counts[0]), counts[1..]);
    }
  }

  lemma {:induction false} KthReport(min: nat, counts: seq<nat>, k: nat)
    requires min >= 1 && k < |Reports(min, None, counts)|
    ensures Reports(min, None, counts)[k] >= Threshold(min, k)
    ensures k > 0 ==> Reports(min, None, counts)[k - 1] < Reports(min, None, counts)[k]
    decreases k
  {
    ReportsGrow(min, None, counts);
    if k > 0 {
      KthReport(min, counts, k - 1);
    }
  }

  lemma {:induction false} ThresholdIsLinear(min: nat, k: nat)
    requires min >= 3
    ensures Threshold(min, k) >= 5 * (k + 1) - 4
    decreases k
  {
    if k > 0 {
      ThresholdIsLinear(min, k - 1);
      assert k == 1 ==> Threshold(min, 0) == min;
    }
  }

  /** The throttle, over any run of sweeps with the default minimum of three (or more): the sizes
      reported strictly increase, the k-th is at least 5k - 4, so a cluster that never exceeds M
      tasks is reported at most (M + 4) / 5 times. */
  lemma ReportsAreThrottled(min: nat, counts: seq<nat>, most: nat)
    requires min >= 3 && forall k :: 0 <= k < |counts| ==> counts[k] <= most
    ensures forall k :: 0 < k < |Reports(min, None, counts)| ==>
              Reports(min, None, counts)[k - 1] < Reports(min, None, counts)[k]
    ensures forall k :: 1 <= k <= |Reports(min, None, counts)| ==> Reports(min, None, counts)[k - 1] >= 5 * k - 4
    ensures |Reports(min, None, counts)| <= (most + 4) / 5
  {
    var r := Reports(min, None, counts);
    forall k | 0 <= k < |r|
      ensures k > 0 ==> r[k - 1] < r[k]
      ensures r[k] >= 5 * (k + 1) - 4
    {
      KthReport(min, counts, k);
      ThresholdIsLinear(min, k);
    }
    if r != [] {
      ReportsGrow(min, None, counts);
      assert r[|r| - 1] in counts;
    }
  }

  lemma {:induction false} SlowestGrowth(min: nat, n: nat, from: nat) returns (counts: seq<nat>)
    requires min >= 1 && from <= n
    ensures |counts| == n - from && forall k :: 0 <= k < |counts| ==> counts[k] == Threshold(min, from + k)
    ensures Reports(min, if from == 0 then None else Some(Threshold(min, from - 1)), counts) == counts
    decreases n - from
  {
    ThresholdPositive(min, from);
    if from < n {
      var rest := SlowestGrowth(min, n, from + 1);
      counts := [Threshold(min, from)] + rest;
      assert counts[1..] == rest;
      forall k | 0 <= k < |counts|
        ensures counts[k] == Threshold(min, from + k)
      {
        assert k > 0 ==> counts[k] == rest[k - 1] == Threshold(min, from + 1 + (k - 1));
      }
    } else {
      counts := [];
    }
  }

  lemma {:induction false} ThresholdPositive(min: nat, k: nat)
    requires min >= 1
    ensures Threshold(min, k) >= min
    decreases k
  {
    if k > 0 {
      ThresholdPositive(min, k - 1);
    }
  }

  /** One sweep of a run: what it found in blocked/, and what it reported. */
  datatype Round = Round(tasks: seq<Blocked>, reported: seq<(string, nat)>)

  /** A run of sweeps, each starting from the state the one before it saved. */
  ghost predicate SweepRun(min: nat, states: seq<State>, rounds: seq<Round>) {
    && |states| == |rounds| + 1
    && forall k :: 0 <= k < |rounds| ==> Swept(rounds[k].tasks, states[k], min, states[k + 1], rounds[k].reported)
  }

  function Counts(rounds: seq<Round>, f: string): seq<nat> {
    if rounds == [] then [] else [CountWith(rounds[0].tasks, f)] + Counts(rounds[1..], f)
  }

  /** The sizes at which the run reported fingerprint `f`. */
  function ReportedSizes(rounds: seq<Round>, f: string): seq<nat> {
    if rounds == [] then []
    else
      var n := CountWith(rounds[0].tasks, f);
      (if (f, n) in rounds[0].reported then [n] else []) + ReportedSizes(rounds[1..], f)
  }

  lemma {:induction false} RunReports(min: nat, states: seq<State>, rounds: seq<Round>, f: string)
    requires SweepRun(min, states, rounds)
    ensures ReportedSizes(rounds, f) == Reports(min, Prior(states[0], f), Counts(rounds, f))
    decreases |rounds|
  {
    if rounds != [] {
      assert forall k :: 0 <= k < |rounds| - 1 ==> rounds[1..][k] == rounds[k + 1] && states[1..][k] == states[k + 1];
      RunReports(min, states[1..], rounds[1..], f);
      var n := CountWith(rounds[0].tasks, f);
      assert Swept(rounds[0].tasks, states[0], min, states[1], rounds[0].reported);
      assert Counts(rounds, f)[0] == n && Counts(rounds, f)[1..] == Counts(rounds[1..], f);
    }
  }

  lemma {:induction false} CountsAreBounded(rounds: seq<Round>, f: string, most: nat)
    requires forall k :: 0 <= k < |rounds| ==> CountWith(rounds[k].tasks, f) <= most
    ensures forall k :: 0 <= k < |Counts(rounds, f)| ==> Counts(rounds, f)[k] <= most
    decreases |rounds|
  {
    if rounds != [] {
      assert forall k :: 0 <= k < |rounds| - 1 ==> rounds[1..][k] == rounds[k + 1];
      CountsAreBounded(rounds[1..], f, most);
    }
  }

  /** The throttle over whole runs of the sweep: the sizes at which one fingerprint is reported
      strictly increase, the k-th is at least 5k - 4, and while it is shared by at most M tasks it is
      reported at most (M + 4) / 5 times. */
  lemma SweepsAreThrottled(min: nat, states: seq<State>, rounds: seq<Round>, f: string, most: nat)
    requires min >= 3 && SweepRun(min, states, rounds) && f !in states[0]
    requires forall k :: 0 <= k < |rounds| ==> CountWith(rounds[k].tasks, f) <= most
    ensures forall k :: 0 < k < |ReportedSizes(rounds, f)| ==>
              ReportedSizes(rounds, f)[k - 1] < ReportedSizes(rounds, f)[k]
    ensures forall k :: 1 <= k <= |ReportedSizes(rounds, f)| ==> ReportedSizes(rounds, f)[k - 1] >= 5 * k - 4
    ensures |ReportedSizes(rounds, f)| <= (most + 4) / 5
  {
    RunReports(min, states, rounds, f);
    CountsAreBounded(rounds, f, most);
    ReportsAreThrottled(min, Counts(rounds, f), most);
  }

  /** The bound is attained: a cluster can grow so slowly that every report comes at its threshold. */
  lemma ThresholdsAreAttained(min: nat, n: nat)
    requires min >= 1
    ensures exists counts :: |Reports(min, None, counts)| == n && forall k :: 0 <= k < n ==>
              Reports(min, None, counts)[k] == Threshold(min, k)
  {
    var counts := SlowestGrowth(min, n, 0);
    assert |Reports(min, None, counts)| == n;
  }
}
