/** The import graph and its per-file cache (python/graph_edge_resolution.py:45-299). */
module ImportGraph {
  import opened Wrappers

  type Path = string

  /** What one import statement asks for. The pattern that finds it, and the path arithmetic that
      turns it into candidate paths, are not modelled. */
  datatype Spec =
    | Tried(candidates: seq<Path>) // the first candidate that is a file: script, Python, template and Zig imports
    | Named(direct: Path)          // a Lua include: this very path, else the one source file of that name

  datatype Stamp = Stamp(mtime: real, size: nat)

  /** One file as a build finds it: `None` where `stat` or `read_text` raises. */
  datatype File = File(stamp: Option<Stamp>, specs: Option<seq<Spec>>)

  type Tree = map<Path, File>

  datatype Entry = Entry(stamp: Stamp, edges: seq<Path>)

  type Cache = map<Path, Entry>

  /** The settings of a project: which paths the walk keeps, and a path's last component. */
  datatype Settings = Settings(source: Path -> bool, name: Path -> string)

  function Sources(present: set<Path>, s: Settings): set<Path> {
    set p | p in present && s.source(p)
  }

  lemma OnlyElement(ps: set<Path>)
    requires |ps| == 1
    ensures exists p :: ps == {p}
  {
    var p :| p in ps;
    assert |ps - {p}| == 0;
    assert ps == {p};
  }

  function FirstPresent(candidates: seq<Path>, present: set<Path>): Option<Path> {
    if candidates == [] then None
    else if candidates[0] in present then Some(candidates[0])
    else FirstPresent(candidates[1..], present)
  }

  function Resolve(spec: Spec, present: set<Path>, s: Settings): Option<Path> {
    match spec
    case Tried(candidates) => FirstPresent(candidates, present)
    case Named(direct) =>
      if direct in Sources(present, s) then Some(direct)
      else
        var matches := set p | p in present && s.source(p) && s.name(p) == s.name(direct);
        if |matches| != 1 then None
        else
          OnlyElement(matches);
          var p :| matches == {p};
          assert p in matches;
          Some(p)
  }

  /** The edge an import statement of `f` stands for: its target, if that is another source file. */
  function Target(f: Path, spec: Spec, present: set<Path>, s: Settings): (r: Option<Path>)
    ensures r.Some? ==> r.value in Sources(present, s) && r.value != f
  {
    var t := Resolve(spec, present, s);
    if t.Some? && t.value in Sources(present, s) && t.value != f then t else None
  }

  ghost predicate Imports(f: Path, specs: seq<Spec>, present: set<Path>, s: Settings, to: Path) {
    exists k :: 0 <= k < |specs| && Target(f, specs[k], present, s) == Some(to)
  }

  /** The targets of the import statements in `specs`, in order. */
  function Edges(f: Path, specs: seq<Spec>, present: set<Path>, s: Settings): seq<Path> {
    if specs == [] then []
    else
      var t := Target(f, specs[|specs| - 1], present, s);
      Edges(f, specs[..|specs| - 1], present, s) + (if t.Some? then [t.value] else [])
  }

  method ExtractEdges(f: Path, specs: seq<Spec>, present: set<Path>, s: Settings) returns (edges: seq<Path>)
    ensures edges == Edges(f, specs, present, s)
  {
    edges := [];
    for k := 0 to |specs|
      invariant edges == Edges(f, specs[..k], present, s)
    {
      assert specs[..k + 1][..k] == specs[..k];
      var target := Target(f, specs[k], present, s);
      if target.Some? {
        edges := edges + [target.value];
      }
    }
    assert specs[..|specs|] == specs;
  }

  /** Exactly the other source files that some import statement resolves to. */
  lemma {:induction false} EdgesAreImports(f: Path, specs: seq<Spec>, present: set<Path>, s: Settings)
    ensures forall to :: to in Edges(f, specs, present, s) <==> Imports(f, specs, present, s, to)
    decreases |specs|
  {
    if specs != [] {
      var n := |specs| - 1;
      EdgesAreImports(f, specs[..n], present, s);
      forall to
        ensures Imports(f, specs, present, s, to) <==>
                  Imports(f, specs[..n], present, s, to) || Target(f, specs[n], present, s) == Some(to)
      {
        if Imports(f, specs[..n], present, s, to) {
          var k :| 0 <= k < n && Target(f, specs[..n][k], present, s) == Some(to);
          assert specs[k] == specs[..n][k];
        }
        if Imports(f, specs, present, s, to) {
          var k :| 0 <= k < |specs| && Target(f, specs[k], present, s) == Some(to);
          assert k < n ==> specs[..n][k] == specs[k];
        }
      }
    }
  }

  /** What one import statement of `f` leads to: of the paths it tries the first that exists, or for a
      Lua include the path itself, else the only source file of that name -- if that is another
      source file. */
  ghost predicate LeadsTo(f: Path, spec: Spec, present: set<Path>, s: Settings, to: Path) {
    && to in present && s.source(to) && to != f
    && match spec
       case Tried(candidates) =>
         exists k :: FirstAt(candidates, present, k) && candidates[k] == to
       case Named(direct) =>
         || to == direct
         || (&& !(direct in present && s.source(direct)) && s.name(to) == s.name(direct)
             && forall p :: p in present && s.source(p) && s.name(p) == s.name(direct) ==> p == to)
  }

  ghost predicate FirstAt(candidates: seq<Path>, present: set<Path>, k: int) {
    && 0 <= k < |candidates| && candidates[k] in present
    && forall j :: 0 <= j < k ==> candidates[j] !in present
  }

  lemma FirstAtInRest(candidates: seq<Path>, present: set<Path>, k: int)
    requires candidates != [] && candidates[0] !in present
    ensures FirstAt(candidates, present, k) <==> FirstAt(candidates[1..], present, k - 1)
  {
    assert forall j :: 0 <= j < |candidates| - 1 ==> candidates[1..][j] == candidates[j + 1];
    if FirstAt(candidates[1..], present, k - 1) {
      assert forall j :: 0 < j < k ==> candidates[j] == candidates[1..][j - 1];
    }
  }

  lemma {:induction false} FirstPresentIff(candidates: seq<Path>, present: set<Path>, to: Path)
    ensures FirstPresent(candidates, present) == Some(to) <==>
              exists k :: FirstAt(candidates, present, k) && candidates[k] == to
    decreases |candidates|
  {
    if candidates != [] {
      if candidates[0] in present {
        assert FirstAt(candidates, present, 0);
      } else {
        FirstPresentIff(candidates[1..], present, to);
        if k :| FirstAt(candidates[1..], present, k) && candidates[1..][k] == to {
          FirstAtInRest(candidates, present, k + 1);
          assert FirstAt(candidates, present, k + 1);
        }
        if k :| FirstAt(candidates, present, k) && candidates[k] == to {
          FirstAtInRest(candidates, present, k);
        }
      }
    }
  }

  lemma OneOfName(direct: Path, present: set<Path>, s: Settings, to: Path)
    requires to in present && s.source(to) && s.name(to) == s.name(direct)
    ensures |Namesakes(direct, present, s)| == 1 <==>
              forall p :: p in present && s.source(p) && s.name(p) == s.name(direct) ==> p == to
  {
    var names := Namesakes(direct, present, s);
    assert to in names && forall p :: p in present && s.source(p) && s.name(p) == s.name(direct) <==> p in names;
    if |names| == 1 {
      OnlyElement(names);
      var p :| names == {p};
      assert p == to;
    }
    if forall p :: p in present && s.source(p) && s.name(p) == s.name(direct) ==> p == to {
      assert names == {to};
    }
  }

  lemma TargetIff(f: Path, spec: Spec, present: set<Path>, s: Settings, to: Path)
    ensures Target(f, spec, present, s) == Some(to) <==> LeadsTo(f, spec, present, s, to)
  {
    match spec
    case Tried(candidates) =>
      FirstPresentIff(candidates, present, to);
    case Named(direct) =>
      NamedResolution(direct, present, s);
      if to in present && s.source(to) && s.name(to) == s.name(direct) {
        OneOfName(direct, present, s, to);
      }
      var r := Resolve(spec, present, s);
      assert r.Some? && direct !in Sources(present, s) ==> r.value in Namesakes(direct, present, s);
      assert to in Namesakes(direct, present, s) && r.Some? && direct !in Sources(present, s) ==>
          Namesakes(direct, present, s) == {r.value};
  }

  // ----- one build

  predicate Hit(f: Path, file: File, cache: Cache) {
    f in cache && file.stamp == Some(cache[f].stamp)
  }

  /** The edges one file contributes. */
  function FileEdges(f: Path, file: File, cache: Cache, present: set<Path>, s: Settings): seq<Path> {
    if Hit(f, file, cache) then cache[f].edges
    else if file.stamp.Some? && file.specs.Some? then Edges(f, file.specs.value, present, s)
    else []
  }

  /** What the cache holds for the file afterwards. A file that cannot be read keeps its entry. */
  function FileEntry(f: Path, file: File, cache: Cache, present: set<Path>, s: Settings): Option<Entry> {
    if !Hit(f, file, cache) && file.stamp.Some? && file.specs.Some?
    then Some(Entry(file.stamp.value, Edges(f, file.specs.value, present, s)))
    else if f in cache then Some(cache[f])
    else None
  }

  function CacheAfter(tree: Tree, cache: Cache, s: Settings): Cache {
    map f | f in tree.Keys && s.source(f) && FileEntry(f, tree[f], cache, tree.Keys, s).Some?
      :: FileEntry(f, tree[f], cache, tree.Keys, s).value
  }

  /** An undirected graph: `edges` holds a pair in both orders. */
  datatype Graph = Graph(nodes: set<Path>, edges: set<(Path, Path)>)

  ghost predicate Linked(tree: Tree, cache: Cache, s: Settings, a: Path, b: Path) {
    && a in Sources(tree.Keys, s) && b in Sources(tree.Keys, s)
    && (b in FileEdges(a, tree[a], cache, tree.Keys, s) || a in FileEdges(b, tree[b], cache, tree.Keys, s))
  }

  /** The nodes and edges of a build of `tree` that starts from `cache`. */
  ghost predicate IsGraph(g: Graph, tree: Tree, cache: Cache, s: Settings) {
    && g.nodes == Sources(tree.Keys, s)
    && forall a, b :: (a, b) in g.edges <==> Linked(tree, cache, s, a, b)
  }

  /** The links whose importing side is among `done`. */
  ghost predicate LinkedFrom(done: set<Path>, tree: Tree, cache: Cache, s: Settings, a: Path, b: Path) {
    && a in Sources(tree.Keys, s) && b in Sources(tree.Keys, s)
    && ((a in done && b in FileEdges(a, tree[a], cache, tree.Keys, s))
        || (b in done && a in FileEdges(b, tree[b], cache, tree.Keys, s)))
  }

  ghost predicate EdgesFrom(done: set<Path>, tree: Tree, cache: Cache, s: Settings, edges: set<(Path, Path)>) {
    forall a, b :: (a, b) in edges <==> LinkedFrom(done, tree, cache, s, a, b)
  }

  ghost predicate AddedTo(edges: set<(Path, Path)>, f: Path, targets: seq<Path>, nodes: set<Path>,
                          r: set<(Path, Path)>) {
    forall a, b :: (a, b) in r <==>
        (a, b) in edges || (a == f && b in nodes && b in targets) || (b == f && a in nodes && a in targets)
  }

  lemma EdgesOfOneMore(done: set<Path>, tree: Tree, cache: Cache, s: Settings, edges: set<(Path, Path)>, f: Path,
                       more: set<(Path, Path)>)
    requires EdgesFrom(done, tree, cache, s, edges) && f in Sources(tree.Keys, s)
    requires AddedTo(edges, f, FileEdges(f, tree[f], cache, tree.Keys, s), Sources(tree.Keys, s), more)
    ensures EdgesFrom(done + {f}, tree, cache, s, more)
  {
    forall a, b
      ensures (a, b) in more <==> LinkedFrom(done + {f}, tree, cache, s, a, b)
    {
      assert (a, b) in edges <==> LinkedFrom(done, tree, cache, s, a, b);
    }
  }

  method AddEdges(f: Path, targets: seq<Path>, nodes: set<Path>, edges: set<(Path, Path)>)
      returns (r: set<(Path, Path)>)
    ensures AddedTo(edges, f, targets, nodes, r)
  {
    r := edges;
    for k := 0 to |targets|
      invariant AddedTo(edges, f, targets[..k], nodes, r)
    {
      assert targets[..k + 1] == targets[..k] + [targets[k]];
      if targets[k] in nodes {
        r := r + {(f, targets[k]), (targets[k], f)};
      }
    }
    assert targets[..|targets|] == targets;
  }

  class FileCache {
    var files: Cache

    constructor ()
      ensures files == map[]
    {
      files := map[];
    }
  }

  /** One file of the loop: its edges, from the cache where its stamp matches, else from its text. */
  method EdgesForFile(f: Path, file: File, present: set<Path>, s: Settings, fileCache: FileCache?, ghost was: Cache)
      returns (edges: seq<Path>)
    requires fileCache == null ==> was == map[]
    requires fileCache != null ==> Lookup(fileCache.files, f) == Lookup(was, f)
    modifies fileCache
    ensures edges == FileEdges(f, file, was, present, s)
    ensures fileCache != null ==> Lookup(fileCache.files, f) == FileEntry(f, file, was, present, s)
    ensures fileCache != null ==> forall g :: g != f ==> Lookup(fileCache.files, g) == Lookup(old(fileCache.files), g)
  {
    edges := [];
    if file.stamp.Some? {
      if fileCache != null && f in fileCache.files && file.stamp == Some(fileCache.files[f].stamp) {
        edges := fileCache.files[f].edges;
      } else if file.specs.Some? {
        edges := ExtractEdges(f, file.specs.value, present, s);
        if fileCache != null {
          fileCache.files := fileCache.files[f := Entry(file.stamp.value, edges)];
        }
      }
    }
  }

  /** The cache while the files of `done` have been handled. */
  ghost predicate Handled(done: set<Path>, tree: Tree, was: Cache, s: Settings, files: Cache) {
    && (forall f {:trigger Lookup(files, f)} :: f !in done ==> Lookup(files, f) == Lookup(was, f))
    && (forall f {:trigger Lookup(files, f)} :: f in done && f in tree ==>
        Lookup(files, f) == FileEntry(f, tree[f], was, tree.Keys, s))
  }

  lemma HandledOneMore(done: set<Path>, tree: Tree, was: Cache, s: Settings, files0: Cache, f: Path, files: Cache)
    requires Handled(done, tree, was, s, files0) && f in tree && f !in done
    requires Lookup(files, f) == FileEntry(f, tree[f], was, tree.Keys, s)
    requires forall g :: g != f ==> Lookup(files, g) == Lookup(files0, g)
    ensures Handled(done + {f}, tree, was, s, files)
  {
  }

  lemma PrunedCache(tree: Tree, was: Cache, s: Settings, files: Cache)
    requires Handled(Sources(tree.Keys, s), tree, was, s, files)
    ensures (map f | f in files && f in Sources(tree.Keys, s) :: files[f]) == CacheAfter(tree, was, s)
  {
    var kept := map f | f in files && f in Sources(tree.Keys, s) :: files[f];
    forall f
      ensures Lookup(kept, f) == Lookup(CacheAfter(tree, was, s), f)
    {
      assert f in Sources(tree.Keys, s) ==> Lookup(files, f) == FileEntry(f, tree[f], was, tree.Keys, s);
    }
    SameLookups(kept, CacheAfter(tree, was, s));
  }

  lemma SameLookups(a: Cache, b: Cache)
    requires forall f :: Lookup(a, f) == Lookup(b, f)
    ensures a == b
  {
    assert forall f :: f in a ==> Lookup(a, f) == Some(a[f]) && f in b;
    assert forall f :: f in b ==> Lookup(b, f) == Some(b[f]) && f in a;
  }

  /** The body of the loop. */
  method OneFile(tree: Tree, s: Settings, fileCache: FileCache?, ghost was: Cache, ghost done: set<Path>,
                 fileSet: set<Path>, f: Path, edges: set<(Path, Path)>)
    returns (more: set<(Path, Path)>)
    requires fileSet == Sources(tree.Keys, s) && f in fileSet && f !in done
    requires fileCache == null ==> was == map[]
    requires EdgesFrom(done, tree, was, s, edges)
    requires fileCache != null ==> Handled(done, tree, was, s, fileCache.files)
    modifies fileCache
    ensures EdgesFrom(done + {f}, tree, was, s, more)
    ensures fileCache != null ==> Handled(done + {f}, tree, was, s, fileCache.files)
  {
    var found := EdgesForFile(f, tree[f], tree.Keys, s, fileCache, was);
    if fileCache != null {
      HandledOneMore(done, tree, was, s, old(fileCache.files), f, fileCache.files);
    }
    more := AddEdges(f, found, fileSet, edges);
    EdgesOfOneMore(done, tree, was, s, edges, f, more);
  }

  lemma AllFilesDone(tree: Tree, cache: Cache, s: Settings, edges: set<(Path, Path)>)
    requires EdgesFrom(Sources(tree.Keys, s), tree, cache, s, edges)
    ensures IsGraph(Graph(Sources(tree.Keys, s), edges), tree, cache, s)
  {
  }

  lemma NothingHandled(tree: Tree, cache: Cache, s: Settings)
    ensures EdgesFrom({}, tree, cache, s, {}) && Handled({}, tree, cache, s, cache)
  {
  }

  method BuildImportGraph(tree: Tree, s: Settings, fileCache: FileCache?) returns (graph: Graph)
    modifies fileCache
    ensures IsGraph(graph, tree, if fileCache == null then map[] else old(fileCache.files), s)
    ensures fileCache != null ==> fileCache.files == CacheAfter(tree, old(fileCache.files), s)
  {
    ghost var was: Cache := if fileCache == null then map[] else fileCache.files;
    var fileSet := Sources(tree.Keys, s);
    var edges: set<(Path, Path)> := {};
    var todo := fileSet;
    ghost var done: set<Path> := {};
    NothingHandled(tree, was, s);
    while todo != {}
      invariant todo !! done && todo + done == fileSet
      invariant EdgesFrom(done, tree, was, s, edges)
      invariant fileCache != null ==> Handled(done, tree, was, s, fileCache.files)
      decreases |todo|
    {
      var f :| f in todo;
      assert f in fileSet;
      edges := OneFile(tree, s, fileCache, was, done, fileSet, f, edges);
      todo, done := todo - {f}, done + {f};
    }
    assert done == fileSet;
    graph := Graph(fileSet, edges);
    AllFilesDone(tree, was, s, edges);
    if fileCache != null {
      PrunedCache(tree, was, s, fileCache.files);
      fileCache.files := map f | f in fileCache.files && f in fileSet :: fileCache.files[f];
    }
  }

  function Lookup(cache: Cache, f: Path): Option<Entry> {
    if f in cache then Some(cache[f]) else None
  }

  // ----- runs of builds

  /** The cache after the builds of `trees`, from an empty one. */
  function CacheOver(trees: seq<Tree>, s: Settings): Cache {
    if trees == [] then map[] else CacheAfter(trees[|trees| - 1], CacheOver(trees[..|trees| - 1], s), s)
  }

  lemma {:induction false} EntriesAreSane(trees: seq<Tree>, s: Settings)
    ensures forall f :: f in CacheOver(trees, s) ==> f !in CacheOver(trees, s)[f].edges
    decreases |trees|
  {
    if trees != [] {
      var n := |trees| - 1;
      EntriesAreSane(trees[..n], s);
      forall f | f in CacheOver(trees, s)
        ensures f !in CacheOver(trees, s)[f].edges
      {
        var file := trees[n][f];
        if file.specs.Some? {
          EdgesAreImports(f, file.specs.value, trees[n].Keys, s);
        }
      }
    }
  }

  /** Some import statement of `a` leads to `b`. */
  ghost predicate Reads(tree: Tree, s: Settings, a: Path, b: Path) {
    && a in tree && tree[a].stamp.Some? && tree[a].specs.Some?
    && exists k :: 0 <= k < |tree[a].specs.value| && LeadsTo(a, tree[a].specs.value[k], tree.Keys, s, b)
  }

  /** A build without a cache joins two source files exactly when one imports the other. */
  lemma ColdBuildIs(tree: Tree, s: Settings, a: Path, b: Path)
    ensures Linked(tree, map[], s, a, b) <==>
              a in tree && b in tree && s.source(a) && s.source(b) && (Reads(tree, s, a, b) || Reads(tree, s, b, a))
  {
    if a in tree && b in tree {
      ColdEdgesAre(tree, s, a, b);
      ColdEdgesAre(tree, s, b, a);
    }
  }

  lemma ColdEdgesAre(tree: Tree, s: Settings, a: Path, b: Path)
    requires a in tree
    ensures b in FileEdges(a, tree[a], map[], tree.Keys, s) <==> Reads(tree, s, a, b)
  {
    if tree[a].stamp.Some? && tree[a].specs.Some? {
      var specs := tree[a].specs.value;
      EdgesAreImports(a, specs, tree.Keys, s);
      forall k | 0 <= k < |specs|
        ensures Target(a, specs[k], tree.Keys, s) == Some(b) <==> LeadsTo(a, specs[k], tree.Keys, s, b)
      {
        TargetIff(a, specs[k], tree.Keys, s, b);
      }
    }
  }

  /** After any additions, removals and edits, every edge of the next build joins two different
      files that exist, and the cache holds entries of existing files only. */
  lemma EdgesStayLive(trees: seq<Tree>, tree: Tree, s: Settings, a: Path, b: Path)
    ensures Linked(tree, CacheOver(trees, s), s, a, b) ==>
              a in tree && b in tree && a != b && s.source(a) && s.source(b)
    ensures CacheOver(trees + [tree], s).Keys <= Sources(tree.Keys, s)
  {
    assert (trees + [tree])[..|trees|] == trees;
    EntriesAreSane(trees, s);
    if a == b && a in tree && tree[a].specs.Some? {
      EdgesAreImports(a, tree[a].specs.value, tree.Keys, s);
    }
  }

  predicate Readable(file: File) {
    file.stamp.Some? && file.specs.Some?
  }

  /** The build whose reading of `f` the cache holds: it re-reads the file when there is no entry or
      the stamp has changed. A build without the file drops the entry. */
  ghost function Origin(trees: seq<Tree>, s: Settings, f: Path): (r: Option<nat>)
    ensures r.Some? ==> r.value < |trees| && f in trees[r.value] && Readable(trees[r.value][f])
    decreases |trees|
  {
    if trees == [] then None
    else
      var n := |trees| - 1;
      var o := Origin(trees[..n], s, f);
      if f !in trees[n] || !s.source(f) then None
      else if Readable(trees[n][f]) && (o.None? || trees[o.value][f].stamp != trees[n][f].stamp) then Some(n)
      else o
  }

  /** The entry of every file, over any history of additions, removals and edits. */
  lemma {:induction false} EntryIsOrigin(trees: seq<Tree>, s: Settings, f: Path)
    ensures Lookup(CacheOver(trees, s), f) ==
              match Origin(trees, s, f)
              case None => None
              case Some(o) => Some(Entry(trees[o][f].stamp.value, Edges(f, trees[o][f].specs.value, trees[o].Keys, s)))
    decreases |trees|
  {
    if trees != [] {
      var n := |trees| - 1;
      EntryIsOrigin(trees[..n], s, f);
      var before := CacheOver(trees[..n], s);
      assert f in trees[n] && s.source(f) ==>
          Lookup(CacheOver(trees, s), f) == FileEntry(f, trees[n][f], before, trees[n].Keys, s);
    }
  }

  /** The latest build that could read `f`, unless a later one was without it. */
  ghost function LastRead(trees: seq<Tree>, f: Path): (r: Option<nat>)
    ensures r.Some? ==> r.value < |trees| && f in trees[r.value] && Readable(trees[r.value][f])
    decreases |trees|
  {
    if trees == [] || f !in trees[|trees| - 1] then None
    else if Readable(trees[|trees| - 1][f]) then Some(|trees| - 1)
    else LastRead(trees[..|trees| - 1], f)
  }

  /** Every edit of `f` changes its time or size: two successive readings at one stamp agree. */
  ghost predicate EditsShow(trees: seq<Tree>, f: Path)
    decreases |trees|
  {
    trees != [] ==>
      var n := |trees| - 1;
      && EditsShow(trees[..n], f)
      && (f in trees[n] && Readable(trees[n][f]) ==> ShowsIn(trees[..n], trees[n], f))
  }

  /** The same for a build that follows. Text that can no longer be read counts as changed. */
  ghost predicate ShowsIn(trees: seq<Tree>, tree: Tree, f: Path)
    requires f in tree
  {
    LastRead(trees, f).Some? && trees[LastRead(trees, f).value][f].stamp == tree[f].stamp ==>
      trees[LastRead(trees, f).value][f].specs == tree[f].specs
  }

  /** Then the entry holds the text that was read last, however often it changed in between. */
  lemma {:induction false} OriginIsLastRead(trees: seq<Tree>, s: Settings, f: Path)
    requires s.source(f) && EditsShow(trees, f)
    ensures Origin(trees, s, f).Some? <==> LastRead(trees, f).Some?
    ensures Origin(trees, s, f).Some? ==> trees[Origin(trees, s, f).value][f] == trees[LastRead(trees, f).value][f]
    decreases |trees|
  {
    if trees != [] {
      OriginIsLastRead(trees[..|trees| - 1], s, f);
    }
  }

  ghost predicate AllEditsShow(trees: seq<Tree>, tree: Tree) {
    forall f :: f in tree ==> EditsShow(trees, f) && ShowsIn(trees, tree, f)
  }

  ghost predicate SameFiles(trees: seq<Tree>, present: set<Path>) {
    forall i :: 0 <= i < |trees| ==> trees[i].Keys == present
  }

  /** The point of the cache: while the set of files stays the same and every edit changes a
      file's time or size, each build gives the edges that a build without a cache gives. */
  lemma CachedBuildIsColdBuild(trees: seq<Tree>, tree: Tree, s: Settings, a: Path, b: Path)
    requires SameFiles(trees, tree.Keys) && AllEditsShow(trees, tree)
    ensures Linked(tree, CacheOver(trees, s), s, a, b) <==> Linked(tree, map[], s, a, b)
  {
    forall f, o: nat | f in Sources(tree.Keys, s) && Origin(trees, s, f) == Some(o)
      ensures AllKept(f, trees[o][f].specs.value, trees[o].Keys, tree.Keys, s)
    {
      SameSetIsKept(f, trees[o][f].specs.value, tree.Keys, s);
    }
    CachedBuildIsRight(trees, tree, s, a, b);
  }

  // ----- when the set of files changes

  /** What reusing an entry made of the same text in `before` contributes to a build in `now`. */
  function Reused(f: Path, spec: Spec, before: set<Path>, now: set<Path>, s: Settings): Option<Path> {
    var t := Target(f, spec, before, s);
    if t.Some? && t.value in Sources(now, s) then t else None
  }

  /** Every candidate that came or went stands behind one that stayed. */
  ghost predicate SameFirst(candidates: seq<Path>, before: set<Path>, now: set<Path>) {
    forall k :: 0 <= k < |candidates| && (candidates[k] in before <==> candidates[k] !in now) ==>
      exists j :: 0 <= j < k && candidates[j] in before && candidates[j] in now
  }

  function Namesakes(path: Path, present: set<Path>, s: Settings): set<Path> {
    set p | p in present && s.source(p) && s.name(p) == s.name(path)
  }

  /** The very path stayed; or it never was there and the one namesake is the same, if there is one. */
  predicate SameNamesake(direct: Path, before: set<Path>, now: set<Path>, s: Settings) {
    || (direct in Sources(before, s) && direct in Sources(now, s))
    || (direct !in Sources(before, s) && direct !in Sources(now, s)
        && (Namesakes(direct, before, s) == Namesakes(direct, now, s)
            || (|Namesakes(direct, before, s)| != 1 && |Namesakes(direct, now, s)| != 1)))
  }

  ghost predicate SameResolution(spec: Spec, before: set<Path>, now: set<Path>, s: Settings) {
    match spec
    case Tried(candidates) => SameFirst(candidates, before, now)
    case Named(direct) => SameNamesake(direct, before, now, s)
  }

  /** The result is an edge of a build in `now`. */
  predicate Links(f: Path, result: Option<Path>, now: set<Path>, s: Settings) {
    result.Some? && result.value in Sources(now, s) && result.value != f
  }

  /** The statement resolves as it did, or neither result, old or new, is another source file now. */
  ghost predicate Kept(f: Path, spec: Spec, before: set<Path>, now: set<Path>, s: Settings) {
    || SameResolution(spec, before, now, s)
    || (!Links(f, Resolve(spec, before, s), now, s) && !Links(f, Resolve(spec, now, s), now, s))
  }

  lemma {:induction false} SameFirstIff(candidates: seq<Path>, before: set<Path>, now: set<Path>)
    ensures FirstPresent(candidates, before) == FirstPresent(candidates, now) <==> SameFirst(candidates, before, now)
    decreases |candidates|
  {
    if candidates != [] {
      var c, rest := candidates[0], candidates[1..];
      SameFirstIff(rest, before, now);
      FirstIsCandidate(rest, before);
      FirstIsCandidate(rest, now);
      if c in before && c in now {
      } else if c !in before && c !in now {
        assert forall k :: 0 <= k < |rest| ==> rest[k] == candidates[k + 1];
        if SameFirst(rest, before, now) {
          forall k | 0 <= k < |candidates| && (candidates[k] in before <==> candidates[k] !in now)
            ensures exists j :: 0 <= j < k && candidates[j] in before && candidates[j] in now
          {
            var j :| 0 <= j < k - 1 && rest[j] in before && rest[j] in now;
            assert candidates[j + 1] == rest[j];
          }
        }
        if SameFirst(candidates, before, now) {
          forall k | 0 <= k < |rest| && (rest[k] in before <==> rest[k] !in now)
            ensures exists j :: 0 <= j < k && rest[j] in before && rest[j] in now
          {
            assert candidates[k + 1] == rest[k];
            var j :| 0 <= j < k + 1 && candidates[j] in before && candidates[j] in now;
            assert rest[j - 1] == candidates[j];
          }
        }
      } else {
        assert candidates[0] in before <==> candidates[0] !in now;
      }
    }
  }

  lemma {:induction false} FirstIsCandidate(candidates: seq<Path>, present: set<Path>)
    ensures FirstPresent(candidates, present).Some? ==> FirstPresent(candidates, present).value in present
    decreases |candidates|
  {
    if candidates != [] {
      FirstIsCandidate(candidates[1..], present);
    }
  }

  lemma NamedResolution(direct: Path, present: set<Path>, s: Settings)
    ensures var r := Resolve(Named(direct), present, s);
            && (direct in Sources(present, s) ==> r == Some(direct))
            && (direct !in Sources(present, s) && |Namesakes(direct, present, s)| != 1 ==> r == None)
            && (direct !in Sources(present, s) && |Namesakes(direct, present, s)| == 1 ==>
                r.Some? && Namesakes(direct, present, s) == {r.value})
  {
    assert Namesakes(direct, present, s) == set p | p in present && s.source(p) && s.name(p) == s.name(direct);
  }

  lemma SameResolutionIff(spec: Spec, before: set<Path>, now: set<Path>, s: Settings)
    ensures Resolve(spec, before, s) == Resolve(spec, now, s) <==> SameResolution(spec, before, now, s)
  {
    match spec
    case Tried(candidates) =>
      SameFirstIff(candidates, before, now);
    case Named(direct) =>
      NamedResolution(direct, before, s);
      NamedResolution(direct, now, s);
      var r, r' := Resolve(spec, before, s), Resolve(spec, now, s);
      assert r.Some? && direct !in Sources(before, s) ==> r.value in Namesakes(direct, before, s);
      assert r'.Some? && direct !in Sources(now, s) ==> r'.value in Namesakes(direct, now, s);
  }

  lemma ResolvesToPresent(spec: Spec, present: set<Path>, s: Settings)
    ensures Resolve(spec, present, s).Some? ==> Resolve(spec, present, s).value in present
  {
    match spec
    case Tried(candidates) =>
      FirstIsCandidate(candidates, present);
    case Named(direct) =>
      NamedResolution(direct, present, s);
      var r := Resolve(spec, present, s);
      assert r.Some? && direct !in Sources(present, s) ==> r.value in Namesakes(direct, present, s);
  }

  /** The comment above the cache says that files added or removed only decide which extracted
      targets are still valid. For one import statement of an untouched file, dropping the targets
      that are gone gives the right edge if and only if no candidate came or went in front of the
      one it resolved to, or neither its old nor its new result is an edge anyway. */
  lemma ReuseIsRightIff(f: Path, spec: Spec, before: set<Path>, now: set<Path>, s: Settings)
    ensures Reused(f, spec, before, now, s) == Target(f, spec, now, s) <==> Kept(f, spec, before, now, s)
  {
    SameResolutionIff(spec, before, now, s);
    ResolvesToPresent(spec, before, s);
    ResolvesToPresent(spec, now, s);
  }

  ghost predicate ReusedByAnother(f: Path, specs: seq<Spec>, before: set<Path>, now: set<Path>, s: Settings, to: Path) {
    exists j :: 0 <= j < |specs| && Reused(f, specs[j], before, now, s) == Some(to)
  }

  /** What the k-th statement loses another one still gives, and what it wrongly keeps another one
      rightly gives. */
  ghost predicate MadeUp(f: Path, specs: seq<Spec>, before: set<Path>, now: set<Path>, s: Settings, k: nat)
    requires k < |specs|
  {
    && (Target(f, specs[k], now, s).Some? ==>
        ReusedByAnother(f, specs, before, now, s, Target(f, specs[k], now, s).value))
    && (Reused(f, specs[k], before, now, s).Some? ==>
        Imports(f, specs, now, s, Reused(f, specs[k], before, now, s).value))
  }

  ghost predicate AllKept(f: Path, specs: seq<Spec>, before: set<Path>, now: set<Path>, s: Settings) {
    forall k: nat :: k < |specs| ==> Kept(f, specs[k], before, now, s) || MadeUp(f, specs, before, now, s, k)
  }

  /** The edges of a whole file: reusing the entry is right if and only if every statement is kept or
      made up for by the others. */
  lemma FileReuseIsRightIff(f: Path, specs: seq<Spec>, before: set<Path>, now: set<Path>, s: Settings)
    ensures (forall to :: to in Sources(now, s) ==>
             (to in Edges(f, specs, before, s) <==> to in Edges(f, specs, now, s)))
       <==> AllKept(f, specs, before, now, s)
  {
    EdgesAreImports(f, specs, before, s);
    EdgesAreImports(f, specs, now, s);
    forall k | 0 <= k < |specs|
      ensures Reused(f, specs[k], before, now, s) == Target(f, specs[k], now, s) <==> Kept(f, specs[k], before, now, s)
    {
      ReuseIsRightIff(f, specs[k], before, now, s);
    }
    if AllKept(f, specs, before, now, s) {
      KeptMeansSameEdges(f, specs, before, now, s);
    }
    if forall to :: to in Sources(now, s) ==> (to in Edges(f, specs, before, s) <==> to in Edges(f, specs, now, s)) {
      forall k: nat | k < |specs|
        ensures MadeUp(f, specs, before, now, s, k)
      {
        SameEdgesMakeUp(f, specs, before, now, s, k);
      }
    }
  }

  lemma ReusedIsTarget(f: Path, spec: Spec, before: set<Path>, now: set<Path>, s: Settings)
    ensures Reused(f, spec, before, now, s).Some? ==> Target(f, spec, before, s) == Reused(f, spec, before, now, s)
  {
  }

  lemma KeptMeansSameEdges(f: Path, specs: seq<Spec>, before: set<Path>, now: set<Path>, s: Settings)
    requires AllKept(f, specs, before, now, s)
    ensures forall to :: to in Sources(now, s) ==> (Imports(f, specs, before, s, to) <==> Imports(f, specs, now, s, to))
  {
    forall to | to in Sources(now, s)
      ensures Imports(f, specs, before, s, to) <==> Imports(f, specs, now, s, to)
    {
      if Imports(f, specs, before, s, to) {
        var k: nat :| k < |specs| && Target(f, specs[k], before, s) == Some(to);
        ReuseIsRightIff(f, specs[k], before, now, s);
        assert Reused(f, specs[k], before, now, s) == Some(to);
      }
      if Imports(f, specs, now, s, to) {
        var k: nat :| k < |specs| && Target(f, specs[k], now, s) == Some(to);
        ReuseIsRightIff(f, specs[k], before, now, s);
        assert ReusedByAnother(f, specs, before, now, s, to);
        var j :| 0 <= j < |specs| && Reused(f, specs[j], before, now, s) == Some(to);
        ReusedIsTarget(f, specs[j], before, now, s);
      }
    }
  }

  lemma SameEdgesMakeUp(f: Path, specs: seq<Spec>, before: set<Path>, now: set<Path>, s: Settings, k: nat)
    requires forall to :: to in Sources(now, s) ==>
              (to in Edges(f, specs, before, s) <==> to in Edges(f, specs, now, s))
    requires k < |specs|
    ensures MadeUp(f, specs, before, now, s, k)
  {
    EdgesAreImports(f, specs, before, s);
    EdgesAreImports(f, specs, now, s);
    var lost, held := Target(f, specs[k], now, s), Reused(f, specs[k], before, now, s);
    if lost.Some? {
      assert Imports(f, specs, now, s, lost.value);
      var j :| 0 <= j < |specs| && Target(f, specs[j], before, s) == lost;
      assert Reused(f, specs[j], before, now, s) == lost;
    }
    if held.Some? {
      assert Imports(f, specs, before, s, held.value);
    }
  }

  lemma SameSetIsKept(f: Path, specs: seq<Spec>, present: set<Path>, s: Settings)
    ensures AllKept(f, specs, present, present, s)
  {
    forall k: nat | k < |specs|
      ensures Kept(f, specs[k], present, present, s)
    {
      SameResolutionIff(specs[k], present, present, s);
    }
  }

  /** Builds with files added and removed in between: a build from the cache is right for every file
      whose statements are kept since the build that read it. */
  lemma CachedBuildIsRight(trees: seq<Tree>, tree: Tree, s: Settings, a: Path, b: Path)
    requires AllEditsShow(trees, tree)
    requires forall f, o: nat :: f in Sources(tree.Keys, s) && Origin(trees, s, f) == Some(o) ==>
               AllKept(f, trees[o][f].specs.value, trees[o].Keys, tree.Keys, s)
    ensures Linked(tree, CacheOver(trees, s), s, a, b) <==> Linked(tree, map[], s, a, b)
  {
    forall f, to | f in Sources(tree.Keys, s) && to in Sources(tree.Keys, s)
      ensures to in FileEdges(f, tree[f], CacheOver(trees, s), tree.Keys, s) <==>
                to in FileEdges(f, tree[f], map[], tree.Keys, s)
    {
      FileOfBuildIsRight(trees, tree, s, f, to);
    }
  }

  lemma FileOfBuildIsRight(trees: seq<Tree>, tree: Tree, s: Settings, f: Path, to: Path)
    requires f in Sources(tree.Keys, s) && to in Sources(tree.Keys, s) && EditsShow(trees, f) && ShowsIn(trees, tree, f)
    requires forall o: nat :: Origin(trees, s, f) == Some(o) ==>
              AllKept(f, trees[o][f].specs.value, trees[o].Keys, tree.Keys, s)
    ensures to in FileEdges(f, tree[f], CacheOver(trees, s), tree.Keys, s) <==>
              to in FileEdges(f, tree[f], map[], tree.Keys, s)
  {
    EntryIsOrigin(trees, s, f);
    var cache := CacheOver(trees, s);
    assert Lookup(cache, f) == if f in cache then Some(cache[f]) else None;
    if Hit(f, tree[f], cache) {
      OriginIsLastRead(trees, s, f);
      var o := Origin(trees, s, f).value;
      FileReuseIsRightIff(f, trees[o][f].specs.value, trees[o].Keys, tree.Keys, s);
    }
  }

  lemma FirstOfTwo(p: Path, q: Path, present: set<Path>)
    ensures FirstPresent([p, q], present) == if p in present then Some(p) else if q in present then Some(q) else None
  {
    assert FirstPresent([], present) == None;
    assert [q][1..] == [];
    assert FirstPresent([q], present) == if q in present then Some(q) else None;
    assert [p, q][1..] == [q];
  }

  /** The extensions a script import tries are a Python set, whose order may differ from process to
      process: two candidates resolve alike in either order unless both are there. */
  lemma ExtensionOrderDecidesIff(p: Path, q: Path, present: set<Path>)
    requires p != q
    ensures FirstPresent([p, q], present) == FirstPresent([q, p], present) <==> !(p in present && q in present)
  {
    FirstOfTwo(p, q, present);
    FirstOfTwo(q, p, present);
  }

  /** `m.js` holds an import of `./u`. Of its candidates only these two occur in the trees below,
      tried in this order. */
  function Importer(): File {
    File(Some(Stamp(1.0, 10)), Some([Tried(["u.js", "u.ts"])]))
  }

  function Plain(): File {
    File(Some(Stamp(1.0, 20)), Some([]))
  }

  lemma ImporterEdges(present: set<Path>, s: Settings)
    requires "m.js" in present && (forall p :: s.source(p))
    ensures Edges("m.js", Importer().specs.value, present, s)
         == (if "u.js" in present then ["u.js"] else if "u.ts" in present then ["u.ts"] else [])
  {
    var specs := Importer().specs.value;
    FirstOfTwo("u.js", "u.ts", present);
    assert specs[..0] == [];
    assert Edges("m.js", specs[..0], present, s) == [];
    assert specs[0] == Tried(["u.js", "u.ts"]);
  }

  /** With a whole build: both when `u.ts` is added and when `u.js` is removed the untouched
      importer keeps its old entry, and the edge that a build without a cache finds is missing. */
  lemma ChangedFileSetLosesEdge(s: Settings)
    requires (forall p :: s.source(p))
    ensures var before: Tree := map["m.js" := Importer(), "a.js" := Plain()];
            var now: Tree := before["u.ts" := Plain()];
            Linked(now, map[], s, "m.js", "u.ts") && !Linked(now, CacheOver([before], s), s, "m.js", "u.ts")
    ensures var before: Tree := map["m.js" := Importer(), "u.js" := Plain(), "u.ts" := Plain()];
            var now: Tree := map["m.js" := Importer(), "u.ts" := Plain()];
            Linked(now, map[], s, "m.js", "u.ts") && !Linked(now, CacheOver([before], s), s, "m.js", "u.ts")
  {
    var added: Tree := map["m.js" := Importer(), "a.js" := Plain()];
    EdgeIsLost(added, added["u.ts" := Plain()], s);
    var removed: Tree := map["m.js" := Importer(), "u.js" := Plain(), "u.ts" := Plain()];
    EdgeIsLost(removed, map["m.js" := Importer(), "u.ts" := Plain()], s);
  }

  lemma EdgeIsLost(before: Tree, now: Tree, s: Settings)
    requires (forall p :: s.source(p))
    requires "m.js" in before && before["m.js"] == Importer() && ("u.js" in before || "u.ts" !in before)
    requires "m.js" in now && now["m.js"] == Importer() && "u.ts" in now && now["u.ts"] == Plain() && "u.js" !in now
    requires "u.ts" in before ==> before["u.ts"] == Plain()
    ensures Linked(now, map[], s, "m.js", "u.ts") && !Linked(now, CacheOver([before], s), s, "m.js", "u.ts")
  {
    ImporterEdges(before.Keys, s);
    ImporterEdges(now.Keys, s);
    assert [before][..0] == [];
    assert CacheOver([before], s) == CacheAfter(before, map[], s);
    assert "m.js" in CacheOver([before], s);
    assert Edges("u.ts", [], now.Keys, s) == [];
    assert Edges("u.ts", [], before.Keys, s) == [];
  }
}
