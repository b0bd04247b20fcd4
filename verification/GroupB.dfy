/** The Group B applier (src/apply-group-b.js:46-178): a batch of create, edit and delete items
    applied to the file tree one by one, undone in reverse when a later item fails. */
module GroupB {
  import opened Wrappers
  import opened Utf
  import EditMatch

  /** File contents are bytes; a JSON value, and a file once read, is text. */
  type Text = seq<Unit>
  type Files = map<string, seq<Byte>>

  /** One element of the parsed JSON. A missing `file`, `content`, `find` or `replace` is empty. */
  datatype Item =
    | Change(mode: string, file: string, content: Text, find: Text, replacement: Text)
    | NotAnObject

  datatype Response = InvalidJson | Single(item: Item) | Batch(items: seq<Item>)

  /** `resolveInRepo`: where a relative path lands. Several spellings may land on one path. */
  datatype Location = MissingPath | OutsideRepo | Inside(path: string)

  /** `pathOf` is path resolution against the repository root; `killSwitch` is the marker file
      queue/.delete-mode-disabled, which may itself lie inside the tree the batch edits; `toString`
      is what `readFileSync(path, 'utf8')` makes of a file's bytes. */
  datatype Env = Env(pathOf: string -> Location, killSwitch: string, toString: seq<Byte> -> Text)

  datatype ItemError =
    | BadPath | MissingOrOutside | AlreadyExists | DoesNotExist
    | BadEdit(why: EditMatch.EditError) | DeleteDisabled | UnknownMode

  datatype BatchError = Unparsable | EmptyBatch | ItemFailed(index: nat, why: ItemError, failedReverts: int)

  /** How to undo one applied item. */
  datatype Inverse = Absent(path: string) | Restore(path: string, content: Text)

  /** What one item means: the file tree after it, or why it is refused. */
  function Meaning(env: Env, item: Item, files: Files): Result<Files, ItemError> {
    if item.NotAnObject? then Err(BadPath)
    else if !env.pathOf(item.file).Inside? then Err(MissingOrOutside)
    else
      var path := env.pathOf(item.file).path;
      if item.mode == "create" then
        if path in files then Err(AlreadyExists) else Ok(files[path := FromString(item.content)])
      else if item.mode == "edit" then
        if path !in files then Err(DoesNotExist)
        else
          match EditMatch.Edit(env.toString(files[path]), item.find, item.replacement)
          case Err(why) => Err(BadEdit(why))
          case Ok(text) => Ok(files[path := FromString(text)])
      else if item.mode == "delete" then
        if env.killSwitch in files then Err(DeleteDisabled)
        else if path !in files then Err(DoesNotExist)
        else Ok(files - {path})
      else Err(UnknownMode)
  }

  /** The item has been carried out: what it leaves in the tree. */
  ghost predicate Applied(env: Env, item: Item, before: Files, after: Files) {
    && item.Change? && env.pathOf(item.file).Inside?
    && var path := env.pathOf(item.file).path;
    || (item.mode == "create" && path !in before && after == before[path := FromString(item.content)])
    || (item.mode == "edit" && path in before && EditedFile(env, item, path, before, after))
    || (item.mode == "delete" && path in before && env.killSwitch !in before && after == before - {path})
  }

  /** The file's text with its one occurrence of `find` replaced has been written back. */
  ghost predicate EditedFile(env: Env, item: Item, path: string, before: Files, after: Files)
    requires item.Change? && path in before
  {
    exists text :: Rewrites(env, item, before[path], text) && after == before[path := FromString(text)]
  }

  ghost predicate Rewrites(env: Env, item: Item, bytes: seq<Byte>, text: Text)
    requires item.Change?
  {
    EditMatch.Replaces(env.toString(bytes), item.find, item.replacement, text)
  }

  /** Each refusal, by the item and the tree. */
  ghost predicate Refused(env: Env, item: Item, files: Files, why: ItemError) {
    if item.NotAnObject? then why == BadPath
    else if !env.pathOf(item.file).Inside? then why == MissingOrOutside
    else RefusedAtPath(env, item, env.pathOf(item.file).path, files, why)
  }

  ghost predicate RefusedAtPath(env: Env, item: Item, path: string, files: Files, why: ItemError)
    requires item.Change?
  {
    match why
    case AlreadyExists => item.mode == "create" && path in files
    case DoesNotExist =>
      path !in files && (item.mode == "edit" || (item.mode == "delete" && env.killSwitch !in files))
    case BadEdit(e) => item.mode == "edit" && path in files && EditRefused(env.toString(files[path]), item.find, e)
    case DeleteDisabled => item.mode == "delete" && env.killSwitch in files
    case UnknownMode => item.mode != "create" && item.mode != "edit" && item.mode != "delete"
    case _ => false
  }

  /** `find` is empty or absent; or it occurs at two places apart, and their number is reported. */
  ghost predicate EditRefused(text: Text, find: Text, why: EditMatch.EditError) {
    match why
    case FindNotFound => find == [] || forall i :: !EditMatch.OccursAt(text, find, i)
    case Ambiguous(n) => EditMatch.TwicePresent(text, find) && n == EditMatch.SplitCount(text, find, 0)
  }

  lemma EditsAreRewrites(env: Env, item: Item, bytes: seq<Byte>)
    requires item.Change?
    ensures forall text ::
              EditMatch.Edit(env.toString(bytes), item.find, item.replacement) == Ok(text) <==>
              Rewrites(env, item, bytes, text)
    ensures forall why ::
              EditMatch.Edit(env.toString(bytes), item.find, item.replacement) == Err(why) <==>
              EditRefused(env.toString(bytes), item.find, why)
  {
    EditMatch.EditRefusedIff(env.toString(bytes), item.find, item.replacement);
    forall text
      ensures EditMatch.Edit(env.toString(bytes), item.find, item.replacement) == Ok(text) <==>
              Rewrites(env, item, bytes, text)
    {
      EditMatch.EditReplacesLeftmost(env.toString(bytes), item.find, item.replacement, text);
    }
  }

  /** An item is carried out, or refused for the one reason that holds. */
  lemma MeaningIsApplied(env: Env, item: Item, files: Files)
    ensures forall after :: Meaning(env, item, files) == Ok(after) <==> Applied(env, item, files, after)
    ensures forall why :: Meaning(env, item, files) == Err(why) <==> Refused(env, item, files, why)
  {
    if item.Change? && env.pathOf(item.file).Inside? {
      var path := env.pathOf(item.file).path;
      if path in files && item.mode == "edit" {
        EditsAreRewrites(env, item, files[path]);
        var edited := EditMatch.Edit(env.toString(files[path]), item.find, item.replacement);
        forall after
          ensures EditedFile(env, item, path, files, after) <==>
                  edited.Ok? && after == files[path := FromString(edited.value)]
        {
          assert edited.Ok? ==> Rewrites(env, item, files[path], edited.value);
        }
      }
    }
  }

  /** The meaning of a batch: its items' meanings, one after another. */
  function BatchMeaning(env: Env, items: seq<Item>, files: Files): Result<Files, ItemError>
    decreases |items|
  {
    if items == [] then Ok(files)
    else
      var init := BatchMeaning(env, items[..|items| - 1], files);
      if init.Err? then init else Meaning(env, items[|items| - 1], init.value)
  }

  /** The trees the batch goes through, each item carried out on the one before. */
  ghost predicate IsTrail(env: Env, items: seq<Item>, trail: seq<Files>) {
    |trail| == |items| + 1 && forall k :: 0 <= k < |items| ==> Applied(env, items[k], trail[k], trail[k + 1])
  }

  ghost predicate AllApplied(env: Env, items: seq<Item>, before: Files, after: Files) {
    exists trail :: IsTrail(env, items, trail) && trail[0] == before && trail[|items|] == after
  }

  /** A batch succeeds if and only if its items can be carried out one after another. */
  lemma {:induction false} BatchIsAllApplied(env: Env, items: seq<Item>, before: Files, after: Files)
    ensures BatchMeaning(env, items, before) == Ok(after) <==> AllApplied(env, items, before, after)
    decreases |items|
  {
    if items == [] {
      assert before == after ==> IsTrail(env, items, [before]) && [before][0] == before;
    } else {
      var init, last := items[..|items| - 1], items[|items| - 1];
      if BatchMeaning(env, items, before) == Ok(after) {
        var mid := BatchMeaning(env, init, before).value;
        BatchIsAllApplied(env, init, before, mid);
        MeaningIsApplied(env, last, mid);
        AppliedLast(env, items, before, mid, after);
      }
      if AllApplied(env, items, before, after) {
        var mid := BeforeLast(env, items, before, after);
        BatchIsAllApplied(env, init, before, mid);
        MeaningIsApplied(env, last, mid);
      }
    }
  }

  lemma AppliedLast(env: Env, items: seq<Item>, before: Files, mid: Files, after: Files)
    requires items != [] && AllApplied(env, items[..|items| - 1], before, mid)
    requires Applied(env, items[|items| - 1], mid, after)
    ensures AllApplied(env, items, before, after)
  {
    var n := |items| - 1;
    var trail :| IsTrail(env, items[..n], trail) && trail[0] == before && trail[n] == mid;
    LongerTrail(env, items, trail, after);
  }

  lemma BeforeLast(env: Env, items: seq<Item>, before: Files, after: Files) returns (mid: Files)
    requires items != [] && AllApplied(env, items, before, after)
    ensures AllApplied(env, items[..|items| - 1], before, mid) && Applied(env, items[|items| - 1], mid, after)
  {
    var trail :| IsTrail(env, items, trail) && trail[0] == before && trail[|items|] == after;
    ShorterTrail(env, items, trail);
    mid := trail[|items| - 1];
  }

  lemma LongerTrail(env: Env, items: seq<Item>, trail: seq<Files>, after: Files)
    requires items != [] && IsTrail(env, items[..|items| - 1], trail)
    requires Applied(env, items[|items| - 1], trail[|items| - 1], after)
    ensures IsTrail(env, items, trail + [after])
  {
    var n, longer := |items| - 1, trail + [after];
    forall k | 0 <= k < |items|
      ensures Applied(env, items[k], longer[k], longer[k + 1])
    {
      if k < n {
        assert Applied(env, items[..n][k], trail[k], trail[k + 1]);
      }
    }
  }

  lemma ShorterTrail(env: Env, items: seq<Item>, trail: seq<Files>)
    requires items != [] && IsTrail(env, items, trail)
    ensures IsTrail(env, items[..|items| - 1], trail[..|items|])
  {
    var n := |items| - 1;
    forall k | 0 <= k < n
      ensures Applied(env, items[..n][k], trail[..n + 1][k], trail[..n + 1][k + 1])
    {
      assert Applied(env, items[k], trail[k], trail[k + 1]);
    }
  }

  /** The items before the reported one can be carried out, and it is refused for the reason given. */
  ghost predicate StopsAt(env: Env, items: seq<Item>, before: Files, error: BatchError) {
    && error.ItemFailed? && error.index < |items|
    && exists mid :: RefusesAfter(env, items[..error.index], items[error.index], before, mid, error.why)
  }

  ghost predicate RefusesAfter(env: Env, init: seq<Item>, item: Item, before: Files, mid: Files, why: ItemError) {
    AllApplied(env, init, before, mid) && Refused(env, item, mid, why)
  }

  lemma FailureStopsAt(env: Env, items: seq<Item>, before: Files, error: BatchError)
    requires error.ItemFailed? && FailsAt(env, items, before, error)
    ensures StopsAt(env, items, before, error)
  {
    BatchMeaningStep(env, items, error.index, before);
    var init, item := items[..error.index], items[error.index];
    var mid := BatchMeaning(env, init, before).value;
    RefusalIsMeant(env, init, item, before, mid, error.why);
    assert RefusesAfter(env, init, item, before, mid, error.why);
  }

  lemma RefusalIsMeant(env: Env, init: seq<Item>, item: Item, before: Files, mid: Files, why: ItemError)
    requires BatchMeaning(env, init, before) == Ok(mid) && Meaning(env, item, mid) == Err(why)
    ensures RefusesAfter(env, init, item, before, mid, why)
  {
    BatchIsAllApplied(env, init, before, mid);
    MeaningIsApplied(env, item, mid);
  }

  lemma BatchMeaningStep(env: Env, items: seq<Item>, k: nat, files: Files)
    requires k < |items|
    requires BatchMeaning(env, items[..k], files).Ok?
    ensures BatchMeaning(env, items[..k + 1], files)
              == Meaning(env, items[k], BatchMeaning(env, items[..k], files).value)
  {
    BatchMeaningOf(env, items[..k + 1], items[..k], items[k], files);
  }

  lemma BatchMeaningOf(env: Env, items: seq<Item>, init: seq<Item>, last: Item, files: Files)
    requires items == init + [last]
    ensures BatchMeaning(env, items, files) ==
              if BatchMeaning(env, init, files).Err? then BatchMeaning(env, init, files)
              else Meaning(env, last, BatchMeaning(env, init, files).value)
  {
    assert items[..|items| - 1] == init;
  }

  lemma FileNamesStep(items: seq<Item>, k: nat)
    requires k < |items|
    ensures FileNames(items[..k + 1]) == FileNames(items[..k]) + [if items[k].Change? then items[k].file else ""]
  {
  }

  /** The `files` list a successful batch reports. */
  function FileNames(items: seq<Item>): seq<string> {
    seq(|items|, k requires 0 <= k < |items| => if items[k].Change? then items[k].file else "")
  }

  /** The reported failure is the first item that its predecessors' result refuses, with its reason,
      and nothing in the rollback failed. */
  ghost predicate FailsAt(env: Env, items: seq<Item>, files: Files, error: BatchError)
    requires error.ItemFailed?
  {
    && error.index < |items|
    && error.failedReverts == 0
    && BatchMeaning(env, items[..error.index], files).Ok?
    && BatchMeaning(env, items[..error.index + 1], files) == Err(error.why)
  }

  function Items(response: Response): seq<Item>
    requires !response.InvalidJson?
  {
    if response.Single? then [response.item] else response.items
  }

  /** Undoing on values; `None` when the file to unlink is not there. */
  function Undo(inverse: Inverse, files: Files): Option<Files> {
    match inverse
    case Absent(path) => if path in files then Some(files - {path}) else None
    case Restore(path, content) => Some(files[path := FromString(content)])
  }

  // ----- what a rollback restores

  /** The bytes of a file that was read as text and written back. */
  function Recoded(env: Env, bytes: seq<Byte>): seq<Byte> {
    FromString(env.toString(bytes))
  }

  /** The tree with the files at `paths` read as text and written back. */
  function Restored(env: Env, files: Files, paths: set<string>): Files {
    map p | p in files :: if p in paths then Recoded(env, files[p]) else files[p]
  }

  /** The inverse was captured for a change of one path that took `before` to `after`. */
  ghost predicate Captured(env: Env, inverse: Inverse, before: Files, after: Files) {
    && after - {inverse.path} == before - {inverse.path}
    && match inverse
       case Absent(path) => path !in before && path in after
       case Restore(path, content) => path in before && content == env.toString(before[path])
  }

  ghost function PathsFrom(inverses: seq<Inverse>, k: nat): set<string> {
    set j | k <= j < |inverses| :: inverses[j].path
  }

  /** The paths of the first `n` items. */
  ghost function Touched(env: Env, items: seq<Item>, n: nat): set<string>
    requires n <= |items|
  {
    set j | 0 <= j < n && items[j].Change? && env.pathOf(items[j].file).Inside? :: env.pathOf(items[j].file).path
  }

  /** Undoing one more item, where those after it have been undone already. */
  lemma UndoStep(env: Env, inverses: seq<Inverse>, k: nat, before: Files, after: Files, files: Files)
    requires k < |inverses| && Captured(env, inverses[k], before, after)
    requires files == Restored(env, after, PathsFrom(inverses, k + 1))
    ensures Undo(inverses[k], files) == Some(Restored(env, before, PathsFrom(inverses, k)))
  {
    var path, later := inverses[k].path, PathsFrom(inverses, k + 1);
    assert PathsFrom(inverses, k) == later + {path};
    UndoOne(env, inverses[k], later, before, after);
  }

  lemma UndoOne(env: Env, inverse: Inverse, later: set<string>, before: Files, after: Files)
    requires Captured(env, inverse, before, after)
    ensures Undo(inverse, Restored(env, after, later)) == Some(Restored(env, before, later + {inverse.path}))
  {
    var path, files, want := inverse.path, Restored(env, after, later), Restored(env, before, later + {inverse.path});
    forall p | p != path
      ensures p in after <==> p in before
      ensures p in after ==> after[p] == before[p]
    {
      assert p in after <==> p in after - {path};
      assert p in before <==> p in before - {path};
      assert p in before ==> (before - {path})[p] == before[p] && (after - {path})[p] == after[p];
    }
    match inverse
    case Absent(_) =>
      assert files - {path} == want;
    case Restore(_, content) =>
      assert files[path := FromString(content)] == want;
  }

  /** The state of the loop after the first `k` items; `trail` holds the trees they went through. */
  ghost predicate InBatch(env: Env, items: seq<Item>, k: nat, files0: Files, files: Files, inverses: seq<Inverse>,
                          trail: seq<Files>)
    requires k <= |items|
  {
    && |inverses| == k && |trail| == k + 1
    && trail[0] == files0 && trail[k] == files
    && BatchMeaning(env, items[..k], files0) == Ok(files)
    && (forall j :: 0 <= j < k ==> Captured(env, inverses[j], trail[j], trail[j + 1]))
    && (forall j :: 0 <= j < k ==> items[j].Change? && env.pathOf(items[j].file) == Inside(inverses[j].path))
  }

  lemma OneMoreItem(env: Env, items: seq<Item>, k: nat, files0: Files, files: Files, inverses: seq<Inverse>,
                    trail: seq<Files>, files': Files, inverse: Inverse)
    requires k < |items| && InBatch(env, items, k, files0, files, inverses, trail)
    requires Meaning(env, items[k], files) == Ok(files') && Captured(env, inverse, files, files')
    requires items[k].Change? && env.pathOf(items[k].file) == Inside(inverse.path)
    ensures InBatch(env, items, k + 1, files0, files', inverses + [inverse], trail + [files'])
  {
    BatchMeaningStep(env, items, k, files0);
    var inverses', trail' := inverses + [inverse], trail + [files'];
    forall j | 0 <= j < k + 1
      ensures Captured(env, inverses'[j], trail'[j], trail'[j + 1])
      ensures items[j].Change? && env.pathOf(items[j].file) == Inside(inverses'[j].path)
    {
      if j < k {
        assert inverses'[j] == inverses[j] && trail'[j] == trail[j] && trail'[j + 1] == trail[j + 1];
      }
    }
  }

  lemma TouchedByInverses(env: Env, items: seq<Item>, k: nat, files0: Files, files: Files, inverses: seq<Inverse>,
                          trail: seq<Files>)
    requires k <= |items| && InBatch(env, items, k, files0, files, inverses, trail)
    ensures PathsFrom(inverses, 0) == Touched(env, items, k)
  {
  }

  /** The working tree a batch runs on. */
  class Repo {
    const env: Env
    var files: Files

    constructor (env: Env, files: Files)
      ensures this.env == env && this.files == files
    {
      this.env, this.files := env, files;
    }

    method ApplyOneChange(item: Item) returns (r: Result<Inverse, ItemError>)
      modifies this
      ensures r.Ok? ==> Applied(env, item, old(files), files)
      ensures forall why :: r == Err(why) <==> Refused(env, item, old(files), why)
      ensures r.Err? ==> files == old(files) && Meaning(env, item, old(files)) == Err(r.error)
      ensures r.Ok? ==> Meaning(env, item, old(files)) == Ok(files)
      ensures r.Ok? ==>
                item.Change? && env.pathOf(item.file) == Inside(r.value.path)
                && Captured(env, r.value, old(files), files)
    {
      MeaningIsApplied(env, item, files);
      if item.NotAnObject? {
        return Err(BadPath);
      }
      if !env.pathOf(item.file).Inside? {
        return Err(MissingOrOutside);
      }
      var path := env.pathOf(item.file).path;
      if item.mode == "create" {
        if path in files {
          return Err(AlreadyExists);
        }
        files := files[path := FromString(item.content)];
        assert files - {path} == old(files) - {path};
        return Ok(Absent(path));
      }
      if item.mode == "edit" {
        if path !in files {
          return Err(DoesNotExist);
        }
        var text := env.toString(files[path]);
        var edited := EditMatch.Edit(text, item.find, item.replacement);
        if edited.Err? {
          return Err(BadEdit(edited.error));
        }
        files := files[path := FromString(edited.value)];
        assert files - {path} == old(files) - {path};
        return Ok(Restore(path, text));
      }
      if item.mode == "delete" {
        if env.killSwitch in files {
          return Err(DeleteDisabled);
        }
        if path !in files {
          return Err(DoesNotExist);
        }
        var text := env.toString(files[path]);
        files := files - {path};
        assert files - {path} == old(files) - {path};
        return Ok(Restore(path, text));
      }
      return Err(UnknownMode);
    }

    method RevertOne(inverse: Inverse) returns (ok: bool)
      modifies this
      ensures ok <==> Undo(inverse, old(files)).Some?
      ensures files == if ok then Undo(inverse, old(files)).value else old(files)
      ensures forall before, after, later ::
                Captured(env, inverse, before, after) && old(files) == Restored(env, after, later) ==>
                ok && files == Restored(env, before, later + {inverse.path})
    {
      forall before, after, later | Captured(env, inverse, before, after) && files == Restored(env, after, later)
        ensures Undo(inverse, files) == Some(Restored(env, before, later + {inverse.path}))
      {
        UndoOne(env, inverse, later, before, after);
      }
      if inverse.Absent? {
        if inverse.path !in files {
          return false;
        }
        files := files - {inverse.path};
      } else {
        files := files[inverse.path := FromString(inverse.content)];
      }
      return true;
    }

    /** Unwinds `inverses`, last applied first. `trail` holds the tree before each of them. */
    method Unwind(inverses: seq<Inverse>, ghost trail: seq<Files>) returns (failedReverts: int)
      requires |trail| == |inverses| + 1 && files == trail[|inverses|]
      requires forall k :: 0 <= k < |inverses| ==> Captured(env, inverses[k], trail[k], trail[k + 1])
      modifies this
      ensures files == Restored(env, trail[0], PathsFrom(inverses, 0))
      ensures failedReverts == 0
    {
      failedReverts := 0;
      var k := |inverses|;
      while k > 0
        invariant 0 <= k <= |inverses|
        invariant files == Restored(env, trail[k], PathsFrom(inverses, k)) && failedReverts == 0
      {
        k := k - 1;
        UndoStep(env, inverses, k, trail[k], trail[k + 1], files);
        var ok := RevertOne(inverses[k]);
        if !ok {
          failedReverts := failedReverts + 1;
        }
      }
    }

    /** The loop over the parsed items, with the rollback on the first failure. */
    method ApplyItems(items: seq<Item>) returns (r: Result<seq<string>, BatchError>)
      modifies this
      ensures r.Ok? ==> BatchMeaning(env, items, old(files)) == Ok(files) && r.value == FileNames(items)
      ensures r.Err? ==> r.error.ItemFailed? && FailsAt(env, items, old(files), r.error)
      ensures r.Err? ==> files == Restored(env, old(files), Touched(env, items, r.error.index))
    {
      var applied: seq<string> := [];
      var inverses: seq<Inverse> := [];
      ghost var trail := [files];
      var k := 0;
      while k < |items|
        invariant 0 <= k <= |items|
        invariant InBatch(env, items, k, old(files), files, inverses, trail)
        invariant applied == FileNames(items[..k])
      {
        BatchMeaningStep(env, items, k, old(files));
        FileNamesStep(items, k);
        ghost var before := files;
        var result := ApplyOneChange(items[k]);
        if result.Err? {
          TouchedByInverses(env, items, k, old(files), files, inverses, trail);
          var failed := Unwind(inverses, trail);
          return Err(ItemFailed(k, result.error, failed));
        }
        OneMoreItem(env, items, k, old(files), before, inverses, trail, files, result.value);
        applied := applied + [if items[k].Change? then items[k].file else ""];
        inverses := inverses + [result.value];
        trail := trail + [files];
        k := k + 1;
      }
      assert items[..k] == items;
      return Ok(applied);
    }

    /** All or nothing, exactly: a batch that succeeds has its meaning; one that fails anywhere is
        rolled back, whatever paths its items share. The rollback never fails, and leaves the tree
        as it was but for the files that the items before the failing one edited or deleted, which
        have been read as text and written back. */
    method ApplyGroupB(response: Response) returns (r: Result<seq<string>, BatchError>)
      modifies this
      ensures r.Err? && !r.error.ItemFailed? ==> files == old(files)
      ensures r.Ok? ==> !response.InvalidJson? && Items(response) != []
      ensures r.Ok? ==> AllApplied(env, Items(response), old(files), files)
      ensures r.Ok? ==> BatchMeaning(env, Items(response), old(files)) == Ok(files)
      ensures r.Ok? ==> r.value == FileNames(Items(response))
      ensures r == Err(Unparsable) <==> response.InvalidJson?
      ensures r == Err(EmptyBatch) <==> !response.InvalidJson? && Items(response) == []
      ensures r.Err? && r.error.ItemFailed? ==>
                && !response.InvalidJson? && FailsAt(env, Items(response), old(files), r.error)
                && StopsAt(env, Items(response), old(files), r.error)
                && files == Restored(env, old(files), Touched(env, Items(response), r.error.index))
    {
      if response.InvalidJson? {
        return Err(Unparsable);
      }
      var items := if response.Single? then [response.item] else response.items;
      if |items| == 0 {
        return Err(EmptyBatch);
      }
      r := ApplyItems(items);
      if r.Ok? {
        BatchIsAllApplied(env, items, old(files), files);
      } else {
        FailureStopsAt(env, items, old(files), r.error);
      }
    }
  }

  /** The comment on the inverses promises "the exact prior bytes". So it is, if and only if every
      existing file that an item before the failing one touched is well-formed UTF-8. */
  lemma RollbackIsExactIff(env: Env, files: Files, touched: set<string>)
    requires DecodesUtf8(env.toString)
    ensures Restored(env, files, touched) == files <==> forall p :: p in touched && p in files ==> IsUtf8(files[p])
  {
    var after := Restored(env, files, touched);
    forall p | p in touched && p in files
      ensures after[p] == files[p] <==> IsUtf8(files[p])
    {
      RecodedIffUtf8(env.toString, files[p]);
    }
    assert forall p :: p in files && p !in touched ==> after[p] == files[p];
    if forall p :: p in touched && p in files ==> IsUtf8(files[p]) {
      assert forall p :: p in files ==> after[p] == files[p];
    }
  }

  /** A lone continuation byte is not UTF-8, so deleting such a file and then failing changes it. */
  lemma RollbackChangesBinaryFile(env: Env, files: Files, file: string)
    requires DecodesUtf8(env.toString) && env.pathOf(file).Inside? && env.killSwitch !in files
    requires env.pathOf(file).path in files && files[env.pathOf(file).path] == [0x80]
    ensures var items := [Change("delete", file, [], [], []), NotAnObject];
            && FailsAt(env, items, files, ItemFailed(1, BadPath, 0))
            && Restored(env, files, Touched(env, items, 1)) != files
  {
    var delete := Change("delete", file, [], [], []);
    var items := [delete, NotAnObject];
    assert items[..1] == [delete] && [delete][..0] == [] && items[..2] == items;
    assert BatchMeaning(env, [delete], files) == Ok(files - {env.pathOf(file).path});
    assert items[0] == delete && env.pathOf(file).path in Touched(env, items, 1);
    LoneContinuationByte();
    RollbackIsExactIff(env, files, Touched(env, items, 1));
  }

  /** Item k is refused by the tree its predecessors leave. */
  ghost predicate RefusedAt(env: Env, items: seq<Item>, files: Files, k: int) {
    && 0 <= k < |items|
    && BatchMeaning(env, items[..k], files).Ok?
    && Meaning(env, items[k], BatchMeaning(env, items[..k], files).value).Err?
  }

  lemma {:induction false} RefusedMeansFailed(env: Env, items: seq<Item>, files: Files, k: nat)
    requires RefusedAt(env, items, files, k)
    ensures BatchMeaning(env, items, files).Err?
    decreases |items|
  {
    var n := |items| - 1;
    BatchMeaningOf(env, items, items[..n], items[n], files);
    if k < n {
      var init := items[..n];
      assert init[..k] == items[..k] && init[k] == items[k];
      RefusedMeansFailed(env, init, files, k);
    }
  }

  lemma {:induction false} FailedMeansRefused(env: Env, items: seq<Item>, files: Files) returns (k: nat)
    requires BatchMeaning(env, items, files).Err?
    ensures RefusedAt(env, items, files, k)
    decreases |items|
  {
    k := |items| - 1;
    if BatchMeaning(env, items[..k], files).Err? {
      var n := k;
      k := FailedMeansRefused(env, items[..n], files);
      assert items[..n][..k] == items[..k];
    }
  }

  /** A batch succeeds or fails as a whole; the first failing item decides. */
  lemma FailureIsFirstFailure(env: Env, items: seq<Item>, files: Files)
    ensures BatchMeaning(env, items, files).Err? <==> exists k: nat :: RefusedAt(env, items, files, k)
  {
    if BatchMeaning(env, items, files).Err? {
      var k := FailedMeansRefused(env, items, files);
    }
    forall k: nat | RefusedAt(env, items, files, k)
      ensures BatchMeaning(env, items, files).Err?
    {
      RefusedMeansFailed(env, items, files, k);
    }
  }

  ghost predicate Names(env: Env, items: seq<Item>, path: string) {
    exists k :: 0 <= k < |items| && !items[k].NotAnObject? && env.pathOf(items[k].file) == Inside(path)
  }

  /** Files no item names come through a successful batch untouched. */
  lemma {:induction false} UnnamedFilesUntouched(env: Env, items: seq<Item>, files: Files, path: string)
    requires BatchMeaning(env, items, files).Ok?
    requires !Names(env, items, path)
    ensures path in files <==> path in BatchMeaning(env, items, files).value
    ensures path in files ==> BatchMeaning(env, items, files).value[path] == files[path]
    decreases |items|
  {
    if items != [] {
      var n := |items| - 1;
      assert forall k :: 0 <= k < n ==> items[..n][k] == items[k];
      UnnamedFilesUntouched(env, items[..n], files, path);
      assert !(0 <= n < |items| && !items[n].NotAnObject? && env.pathOf(items[n].file) == Inside(path));
    }
  }

  /** `batchContainsDeleteMode`, the look-ahead that decides whether a human must confirm first
      (src/apply-group-b.js:35-45). */
  predicate BatchContainsDeleteMode(response: Response) {
    && !response.InvalidJson?
    && exists k :: 0 <= k < |Items(response)| && Items(response)[k].Change? && Items(response)[k].mode == "delete"
  }

  /** A response that does not parse, or without a delete item, is not held up. */
  lemma OnlyDeletesAreHeld(response: Response)
    ensures BatchContainsDeleteMode(response) <==>
              response != InvalidJson && exists item :: item in Items(response) && item.Change? && item.mode == "delete"
  {
    if BatchContainsDeleteMode(response) {
      var k :| 0 <= k < |Items(response)| && Items(response)[k].Change? && Items(response)[k].mode == "delete";
      assert Items(response)[k] in Items(response);
    }
  }

  lemma {:induction false} NoDeleteItemKeepsFiles(env: Env, items: seq<Item>, files: Files)
    requires BatchMeaning(env, items, files).Ok?
    requires forall k :: 0 <= k < |items| ==> items[k].Change? ==> items[k].mode != "delete"
    ensures files.Keys <= BatchMeaning(env, items, files).value.Keys
    decreases |items|
  {
    if items != [] {
      var n := |items| - 1;
      assert forall k :: 0 <= k < n ==> items[..n][k] == items[k];
      NoDeleteItemKeepsFiles(env, items[..n], files);
    }
  }

  /** The gate is sound: a batch it lets through unconfirmed never removes an existing file. */
  lemma UnconfirmedBatchRemovesNothing(env: Env, response: Response, files: Files)
    requires !response.InvalidJson? && !BatchContainsDeleteMode(response)
    requires BatchMeaning(env, Items(response), files).Ok?
    ensures files.Keys <= BatchMeaning(env, Items(response), files).value.Keys
  {
    NoDeleteItemKeepsFiles(env, Items(response), files);
  }

  /** One path may be created, edited and deleted in a single batch, and that changes nothing. */
  lemma CreateEditDeleteIsIdentity(env: Env, files: Files, file: string, content: Text, find: Text, replacement: Text)
    requires env.pathOf(file).Inside? && env.pathOf(file).path !in files
    requires env.killSwitch !in files && env.killSwitch != env.pathOf(file).path
    requires EditMatch.Edit(env.toString(FromString(content)), find, replacement).Ok?
    ensures var batch := [Change("create", file, content, [], []), Change("edit", file, [], find, replacement),
                          Change("delete", file, [], [], [])];
            BatchMeaning(env, batch, files) == Ok(files)
  {
    var create, edit, delete :=
      Change("create", file, content, [], []), Change("edit", file, [], find, replacement),
          Change("delete", file, [], [], []);
    var all := [create, edit, delete];
    assert all[..2] == [create, edit] && [create, edit][..1] == [create] && [create][..0] == [];
    var path := env.pathOf(file).path;
    assert BatchMeaning(env, [create], files) == Ok(files[path := FromString(content)]);
    var edited := FromString(EditMatch.Edit(env.toString(FromString(content)), find, replacement).value);
    assert BatchMeaning(env, [create, edit], files) == Ok(files[path := FromString(content)][path := edited]);
    assert files[path := FromString(content)][path := edited] - {path} == files;
  }

  /** Creating the kill-switch marker and then deleting is refused, so the whole batch is undone. */
  lemma KillSwitchCreatedByBatchStopsIt(env: Env, files: Files, marker: string, file: string)
    requires env.pathOf(marker) == Inside(env.killSwitch) && env.killSwitch !in files
    requires env.pathOf(file).Inside?
    ensures BatchMeaning(env, [Change("create", marker, [], [], []), Change("delete", file, [], [], [])], files)
              == Err(DeleteDisabled)
  {
    var create, delete := Change("create", marker, [], [], []), Change("delete", file, [], [], []);
    assert [create, delete][..1] == [create] && [create][..0] == [];
    assert BatchMeaning(env, [create], files) == Ok(files[env.killSwitch := FromString([])]);
  }
}
