/** The queue directories as the sweeps see them, with the operations of Node's fs they use. */
module Spool {
  import opened Queue

  class QueueDir {
    var files: Files

    constructor (files: Files)
      ensures this.files == files
    {
      this.files := files;
    }

    /** `fs.readdirSync(dir)`, in whatever order. */
    method ReadDir(dir: Dir) returns (names: seq<Name>)
      ensures Listing(files, dir, names)
    {
      names := [];
      var left := set k | k in files && k.dir == dir :: k.name;
      while left != {}
        invariant Distinct(names)
        invariant forall n :: n in names ==> n !in left
        invariant forall n :: Key(dir, n) in files <==> n in names || n in left
        decreases left
      {
        var n :| n in left;
        left := left - {n};
        names := names + [n];
      }
    }

    /** `fs.writeFileSync` over the file in its place. `false` when it throws. */
    method Put(dir: Dir, name: Name, task: Task, limit: Limit) returns (ok: bool)
      modifies this
      ensures ok <==> limit.ops > 0
      ensures files == OneFile(old(files), dir, name, Rewrite(task), limit)
    {
      if limit.ops == 0 {
        return false;
      }
      files := files[Key(dir, name) := Good(task)];
      return true;
    }

    /** `fs.writeFileSync` at the destination, then `fs.unlinkSync`. `false` when either throws. */
    method Move(src: Dir, name: Name, dest: Dir, task: Task, limit: Limit) returns (ok: bool)
      modifies this
      ensures ok <==> limit.ops > 1
      ensures files == OneFile(old(files), src, name, MoveTo(dest, task), limit)
    {
      if limit.ops == 0 {
        return false;
      }
      files := files[Key(dest, name) := Good(task)];
      if limit.ops == 1 {
        return false;
      }
      files := files - {Key(src, name)};
      return true;
    }
  }

  ghost predicate Listing(files: Files, dir: Dir, names: seq<Name>) {
    Distinct(names) && forall n :: n in names <==> Key(dir, n) in files
  }

  /** One more file handled. */
  lemma SweepStep(files0: Files, src: Dir, names: seq<Name>, k: nat, action: Name -> Action, limit: Name -> Limit)
    requires Distinct(names) && k < |names|
    ensures SameFor(Replay(files0, SweepOps(src, names[..k], action, limit)), files0, names[k])
    ensures Replay(files0, SweepOps(src, names[..k + 1], action, limit))
         == OneFile(Replay(files0, SweepOps(src, names[..k], action, limit)), src, names[k], action(names[k]),
                    limit(names[k]))
  {
    SweepOnOthers(files0, src, names[..k], action, limit, names[k]);
    assert names[..k + 1] == names[..k] + [names[k]];
    SweepOpsAppend(src, names[..k], [names[k]], action, limit);
    var ops := OpsOf(src, names[k], action(names[k]), limit(names[k]));
    assert [names[k]][1..] == [];
    assert SweepOps(src, [names[k]], action, limit) == ops + [] == ops;
    ReplayAppend(files0, SweepOps(src, names[..k], action, limit), ops);
    ReplayOneFile(Replay(files0, SweepOps(src, names[..k], action, limit)), src, names[k], action(names[k]),
                  limit(names[k]));
  }
}
