/** The match rule of a Group B edit (src/apply-group-b.js:73-101): `find` is counted with
    `text.split(find)`, one match is required, and the first occurrence is replaced. */
module EditMatch {
  import opened Wrappers

  datatype EditError = FindNotFound | Ambiguous(matches: nat)

  ghost predicate OccursAt<T>(text: seq<T>, find: seq<T>, i: int) {
    0 <= i <= |text| - |find| && text[i..i + |find|] == find
  }

  /** The positions in `at` hold occurrences of `find`, left to right, none overlapping the next. */
  ghost predicate DisjointOccurrences<T>(text: seq<T>, find: seq<T>, at: seq<int>) {
    && (forall k :: 0 <= k < |at| ==> OccursAt(text, find, at[k]))
    && (forall k, l :: 0 <= k < l < |at| ==> at[k] + |find| <= at[l])
  }

  /** `text.indexOf(find, from)`. */
  function NextMatch<T(==)>(text: seq<T>, find: seq<T>, from: nat): (r: Option<nat>)
    ensures r.Some? ==> from <= r.value && OccursAt(text, find, r.value)
    ensures forall j :: from <= j && (r.Some? ==> j < r.value) ==> !OccursAt(text, find, j)
    decreases |text| - from
  {
    if from + |find| > |text| then None
    else if text[from..from + |find|] == find then Some(from)
    else NextMatch(text, find, from + 1)
  }

  /** `text.slice(from).split(find).length - 1`. */
  function SplitCount<T(==)>(text: seq<T>, find: seq<T>, from: nat): nat
    requires find != []
    decreases |text| - from
  {
    match NextMatch(text, find, from)
    case None => 0
    case Some(i) => 1 + SplitCount(text, find, i + |find|)
  }

  /** The positions at which `split` cuts. */
  ghost function SplitPositions<T>(text: seq<T>, find: seq<T>, from: nat): (at: seq<int>)
    requires find != []
    ensures |at| == SplitCount(text, find, from)
    ensures DisjointOccurrences(text, find, at)
    ensures forall k :: 0 <= k < |at| ==> from <= at[k]
    decreases |text| - from
  {
    match NextMatch(text, find, from)
    case None => []
    case Some(i) => [i] + SplitPositions(text, find, i + |find|)
  }

  lemma RestIsDisjoint<T>(text: seq<T>, find: seq<T>, at: seq<int>, i: int)
    requires DisjointOccurrences(text, find, at) && at != [] && i <= at[0]
    ensures DisjointOccurrences(text, find, at[1..]) && forall k :: 0 <= k < |at| - 1 ==> i + |find| <= at[1..][k]
  {
    var rest := at[1..];
    forall k | 0 <= k < |rest|
      ensures OccursAt(text, find, rest[k]) && i + |find| <= rest[k]
    {
      assert at[0] + |find| <= at[k + 1] && OccursAt(text, find, at[k + 1]);
    }
    forall k, l | 0 <= k < l < |rest|
      ensures rest[k] + |find| <= rest[l]
    {
      assert at[k + 1] + |find| <= at[l + 1];
    }
  }

  lemma {:induction false} SplitDominates<T>(text: seq<T>, find: seq<T>, from: nat, at: seq<int>)
    requires find != []
    requires DisjointOccurrences(text, find, at)
    requires forall k :: 0 <= k < |at| ==> from <= at[k]
    ensures |at| <= SplitCount(text, find, from)
    decreases |at|
  {
    if at != [] {
      assert OccursAt(text, find, at[0]);
      var i := NextMatch(text, find, from).value;
      RestIsDisjoint(text, find, at, i);
      SplitDominates(text, find, i + |find|, at[1..]);
    }
  }

  /** The greedy count is the largest number of pairwise disjoint occurrences. */
  lemma SplitCountIsMaximal<T>(text: seq<T>, find: seq<T>)
    requires find != []
    ensures exists at :: DisjointOccurrences(text, find, at) && |at| == SplitCount(text, find, 0)
    ensures forall at :: DisjointOccurrences(text, find, at) ==> |at| <= SplitCount(text, find, 0)
  {
    var greedy := SplitPositions(text, find, 0);
    assert DisjointOccurrences(text, find, greedy) && |greedy| == SplitCount(text, find, 0);
    forall at | DisjointOccurrences(text, find, at)
      ensures |at| <= SplitCount(text, find, 0)
    {
      assert forall k :: 0 <= k < |at| ==> OccursAt(text, find, at[k]);
      SplitDominates(text, find, 0, at);
    }
  }

  /** `mode: 'edit'` on the text of an existing file. */
  function Edit<T(==)>(text: seq<T>, find: seq<T>, replacement: seq<T>): Result<seq<T>, EditError> {
    var count := if find == [] then 0 else SplitCount(text, find, 0);
    if count == 0 then Err(FindNotFound)
    else if count > 1 then Err(Ambiguous(count))
    else
      var i := NextMatch(text, find, 0).value;
      Ok(text[..i] + replacement + text[i + |find|..])
  }

  /** An edit is accepted exactly when `find` is non-empty and occurs, but not twice disjointly. */
  lemma EditAcceptedIff<T>(text: seq<T>, find: seq<T>, replacement: seq<T>)
    ensures Edit(text, find, replacement).Ok? <==>
            && find != []
            && (exists i :: OccursAt(text, find, i))
            && (forall i, j :: OccursAt(text, find, i) && OccursAt(text, find, j) && i <= j ==> j < i + |find|)
  {
    if find != [] {
      var greedy := SplitPositions(text, find, 0);
      if SplitCount(text, find, 0) >= 1 {
        assert OccursAt(text, find, greedy[0]);
      }
      if SplitCount(text, find, 0) >= 2 {
        assert OccursAt(text, find, greedy[1]) && greedy[0] + |find| <= greedy[1];
      }
      forall i, j | OccursAt(text, find, i) && OccursAt(text, find, j) && i + |find| <= j
        ensures SplitCount(text, find, 0) >= 2
      {
        SplitDominates(text, find, 0, [i, j]);
      }
      forall i | OccursAt(text, find, i)
        ensures SplitCount(text, find, 0) >= 1
      {
        SplitDominates(text, find, 0, [i]);
      }
    }
  }

  /** `result` is `text` with one occurrence of `find` replaced; no other is disjoint from it. */
  ghost predicate Replaces<T(!new)>(text: seq<T>, find: seq<T>, replacement: seq<T>, result: seq<T>) {
    exists before, after :: ReplacesAt(text, find, replacement, result, before, after)
  }

  ghost predicate ReplacesAt<T>(text: seq<T>, find: seq<T>, replacement: seq<T>, result: seq<T>, before: seq<T>,
                                after: seq<T>) {
    && find != [] && text == before + find + after && result == before + replacement + after
    && forall j :: 0 <= j < |before| || |before| + |find| <= j ==> !OccursAt(text, find, j)
  }

  /** What an accepted edit writes: the text around the leftmost occurrence is kept, only the
      occurrence itself becomes `replacement`, and no occurrence disjoint from it existed. Nothing
      else is accepted. */
  lemma EditReplacesLeftmost<T(!new)>(text: seq<T>, find: seq<T>, replacement: seq<T>, result: seq<T>)
    ensures Edit(text, find, replacement) == Ok(result) <==> Replaces(text, find, replacement, result)
  {
    EditAcceptedIff(text, find, replacement);
    if Edit(text, find, replacement) == Ok(result) {
      var i := NextMatch(text, find, 0).value;
      var before, after := text[..i], text[i + |find|..];
      assert text == before + find + after;
      assert OccursAt(text, find, i);
      assert ReplacesAt(text, find, replacement, result, before, after);
    }
    if Replaces(text, find, replacement, result) {
      var before, after :| ReplacesAt(text, find, replacement, result, before, after);
      OnlyPlace(text, find, before, after);
      assert text[..|before|] == before && text[|before| + |find|..] == after;
    }
  }

  /** Where an edit is accepted there is one place for it. */
  lemma OnlyPlace<T>(text: seq<T>, find: seq<T>, before: seq<T>, after: seq<T>)
    requires find != [] && text == before + find + after
    requires forall j :: 0 <= j < |before| || |before| + |find| <= j ==> !OccursAt(text, find, j)
    ensures Edit(text, find, []).Ok? && NextMatch(text, find, 0) == Some(|before|)
  {
    assert text[|before|..|before| + |find|] == find;
    assert OccursAt(text, find, |before|);
    EditAcceptedIff(text, find, []);
  }

  /** `find` occurs at two places that do not overlap. */
  ghost predicate TwicePresent<T>(text: seq<T>, find: seq<T>) {
    find != [] && exists i, j :: OccursAt(text, find, i) && OccursAt(text, find, j) && i + |find| <= j
  }

  lemma PresentIffCounted<T>(text: seq<T>, find: seq<T>)
    requires find != []
    ensures SplitCount(text, find, 0) >= 1 <==> exists i :: OccursAt(text, find, i)
  {
    var greedy := SplitPositions(text, find, 0);
    if greedy != [] {
      assert OccursAt(text, find, greedy[0]);
    }
    if i :| OccursAt(text, find, i) {
      SplitDominates(text, find, 0, [i]);
    }
  }

  lemma TwicePresentIffCounted<T>(text: seq<T>, find: seq<T>)
    requires find != []
    ensures SplitCount(text, find, 0) >= 2 <==> TwicePresent(text, find)
  {
    var greedy := SplitPositions(text, find, 0);
    if |greedy| >= 2 {
      assert OccursAt(text, find, greedy[0]) && OccursAt(text, find, greedy[1]) && greedy[0] + |find| <= greedy[1];
    }
    if i, j :| OccursAt(text, find, i) && OccursAt(text, find, j) && i + |find| <= j {
      SplitDominates(text, find, 0, [i, j]);
    }
  }

  /** Why an edit is refused; the number reported is that of `SplitCountIsMaximal`. */
  lemma EditRefusedIff<T>(text: seq<T>, find: seq<T>, replacement: seq<T>)
    ensures Edit(text, find, replacement) == Err(FindNotFound) <==> find == [] || forall i :: !OccursAt(text, find, i)
    ensures forall n: nat :: Edit(text, find, replacement) == Err(Ambiguous(n)) <==>
              TwicePresent(text, find) && n == SplitCount(text, find, 0)
  {
    if find != [] {
      PresentIffCounted(text, find);
      TwicePresentIffCounted(text, find);
    }
  }

  /** `find` overlaps a shifted copy of itself. */
  ghost predicate Bordered<T>(find: seq<T>) {
    exists b :: 0 < b < |find| && find[..b] == find[|find| - b..]
  }

  ghost predicate UniqueOccurrence<T>(text: seq<T>, find: seq<T>) {
    exists i :: OccursAt(text, find, i) && forall j :: OccursAt(text, find, j) ==> j == i
  }

  lemma OverlapIsBorder<T>(text: seq<T>, find: seq<T>, i: int, j: int)
    requires OccursAt(text, find, i) && OccursAt(text, find, j) && i < j < i + |find|
    ensures Bordered(find)
  {
    var b := i + |find| - j;
    assert find[..b] == text[j..i + |find|] by {
      assert text[j..j + |find|][..b] == text[j..j + b];
    }
    assert find[|find| - b..] == text[j..i + |find|] by {
      assert text[i..i + |find|][j - i..] == text[j..i + |find|];
    }
  }

  /** Two overlapping copies of a bordered `find` are still counted as one match. */
  lemma BorderHidesSecondOccurrence<T>(find: seq<T>, b: int) returns (text: seq<T>)
    requires 0 < b < |find| && find[..b] == find[|find| - b..]
    ensures SplitCount(text, find, 0) == 1
    ensures !UniqueOccurrence(text, find)
  {
    text := find + find[b..];
    assert text[0..|find|] == find;
    assert OccursAt(text, find, 0);
    var j := |find| - b;
    assert text[j..j + |find|] == find[j..] + find[b..] == find;
    assert OccursAt(text, find, j);
    SplitDominates(text, find, 0, [0]);
    var greedy := SplitPositions(text, find, 0);
    assert |greedy| < 2;
  }

  /** The rule the file's header states -- an edit only proceeds on a unique match -- holds of
      every text exactly for those `find` texts that do not overlap themselves. */
  lemma AcceptedEditsAreUniqueIffUnbordered<T>(find: seq<T>)
    requires find != []
    ensures !Bordered(find) <==>
            forall text, replacement :: Edit(text, find, replacement).Ok? ==> UniqueOccurrence(text, find)
  {
    if Bordered(find) {
      var b :| 0 < b < |find| && find[..b] == find[|find| - b..];
      var text := BorderHidesSecondOccurrence(find, b);
      assert Edit(text, find, []).Ok?;
    } else {
      forall text, replacement | Edit(text, find, replacement).Ok?
        ensures UniqueOccurrence(text, find)
      {
        EditAcceptedIff(text, find, replacement);
        var i :| OccursAt(text, find, i);
        forall j | OccursAt(text, find, j)
          ensures j == i
        {
          if i < j {
            OverlapIsBorder(text, find, i, j);
          } else if j < i {
            OverlapIsBorder(text, find, j, i);
          }
        }
      }
    }
  }
}
