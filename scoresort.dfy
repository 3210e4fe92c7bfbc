/** applySortScore (main.go:244-249): a stable sort of the slice by ascending score. */
module ScoreSort {
  import opened Sorting
  import opened Files
  import opened Snapshots

  function ScoreOf(s: Snap): int { s.score }

  function IntLess(a: int, b: int): bool { a < b }

  lemma IntLessIsStrictWeakOrder()
    ensures StrictWeakOrder(IntLess)
  {
  }

  /** What the score sort produces: the records in ascending score order, each
      one kept, and records with equal scores in their input order. */
  lemma {:induction false} ScoreSorted(s: seq<Snap>, score: int)
    ensures var r := InsertionSort(s, ScoreOf, IntLess);
            multiset(r) == multiset(s)
            && (forall l, k :: 0 <= l < k < |r| ==> r[l].score <= r[k].score)
            && Filter(r, ScoreOf, IntLess, score) == Filter(s, ScoreOf, IntLess, score)
  {
    IntLessIsStrictWeakOrder();
    InsertionSortSorted(s, ScoreOf, IntLess);
    InsertionSortStable(s, ScoreOf, IntLess, score);
  }

  /** The inner loop of the insertion sort: `a[i]` moves left past every earlier
      record with a higher score and stops at `j`. `t` and `x` are the snapshots
      of `a[..i]` and `a[i]`; `s` is any sequence of snapshots whose scores are
      current, and they stay current since no score changes. */
  method SiftScore(a: array<File>, i: int, ghost t: seq<Snap>, ghost x: Snap, ghost s: seq<Snap>)
    returns (j: int)
    requires 0 <= i < a.Length
    requires a[..i] == FilesOf(t) && a[i] == x.file
    requires forall k :: 0 <= k < |t| ==> t[k].file.score == t[k].score
    requires x.file.score == x.score
    requires forall k :: 0 <= k < |s| ==> s[k].file.score == s[k].score
    modifies a
    ensures 0 <= j <= i
    ensures a[..] == Rotate(old(a[..]), j, i)
    ensures j == 0 || !IntLess(ScoreOf(x), ScoreOf(t[j - 1]))
    ensures forall m :: j <= m < i ==> IntLess(ScoreOf(x), ScoreOf(t[m]))
    ensures forall k :: 0 <= k < |s| ==> s[k].file.score == s[k].score
  {
    ghost var g := a[..];
    j := i;
    RotateStart(g, i);
    while j > 0 && a[j].score < a[j - 1].score
      invariant 0 <= j <= i && a[..] == Rotate(g, j, i)
      invariant forall m :: j <= m < i ==> x.score < t[m].score
      invariant forall k :: 0 <= k < |s| ==> s[k].file.score == s[k].score
    {
      RotateStep(g, j, i);
      assert g[j - 1] == t[j - 1].file && g[i] == x.file;
      a[j], a[j - 1] := a[j - 1], a[j];
      j := j - 1;
    }
    if j > 0 {
      RotateStep(g, j, i);
      assert g[j - 1] == t[j - 1].file;
    }
  }

  /** The sorted prefix is a permutation of the input's prefix, so its scores
      are current too, and the array holds its records before `s[i]`. */
  lemma ScoreSiftInput(g: seq<File>, s: seq<Snap>, t: seq<Snap>, i: nat)
    requires i < |s| && t == InsertionSort(s[..i], ScoreOf, IntLess)
    requires g == FilesOf(t) + FilesOf(s[i..])
    requires forall k :: 0 <= k < |s| ==> s[k].file.score == s[k].score
    ensures |t| == i && g[..i] == FilesOf(t) && g[i] == s[i].file
    ensures forall m :: 0 <= m < i ==> t[m].file.score == t[m].score
  {
    forall m | 0 <= m < i
      ensures t[m].file.score == t[m].score
    {
      assert t[m] in multiset(s[..i]);
    }
    assert FilesOf(s[i..])[0] == s[i].file;
  }

  /** Where the inner loop stopped, in terms of the specification: the next
      prefix of the sort. */
  lemma ScoreShape(s: seq<Snap>, t: seq<Snap>, i: nat, j: nat)
    requires j <= i < |s| && t == InsertionSort(s[..i], ScoreOf, IntLess)
    requires j == 0 || !IntLess(ScoreOf(s[i]), ScoreOf(t[j - 1]))
    requires forall m :: j <= m < i ==> IntLess(ScoreOf(s[i]), ScoreOf(t[m]))
    ensures Rotate(FilesOf(t) + FilesOf(s[i..]), j, i)
            == FilesOf(InsertionSort(s[..i + 1], ScoreOf, IntLess)) + FilesOf(s[i + 1..])
  {
    assert FilesOf(s[i..]) == [s[i].file] + FilesOf(s[i + 1..]);
    assert FilesOf(t) + FilesOf(s[i..]) == FilesOf(t) + [s[i].file] + FilesOf(s[i + 1..]);
    StepShape(s, i, j, ScoreOf, IntLess);
  }

  /** One step of the outer loop: the first `i + 1` records end up in the order
      the specification gives them. */
  method SortScoreStep(a: array<File>, i: int, ghost s: seq<Snap>)
    requires 0 <= i < a.Length == |s|
    requires a[..] == FilesOf(InsertionSort(s[..i], ScoreOf, IntLess)) + FilesOf(s[i..])
    requires forall k :: 0 <= k < |s| ==> s[k].file.score == s[k].score
    modifies a
    ensures a[..] == FilesOf(InsertionSort(s[..i + 1], ScoreOf, IntLess)) + FilesOf(s[i + 1..])
    ensures forall k :: 0 <= k < |s| ==> s[k].file.score == s[k].score
  {
    ghost var t := InsertionSort(s[..i], ScoreOf, IntLess);
    ghost var g := a[..];
    ScoreSiftInput(g, s, t, i);
    var j := SiftScore(a, i, t, s[i], s);
    ScoreShape(s, t, i, j);
  }

  /** The outer loop of the insertion sort over the records of `s`. */
  method SortScoreLoop(a: array<File>, ghost s: seq<Snap>)
    requires a[..] == FilesOf(s)
    requires forall k :: 0 <= k < |s| ==> s[k].file.score == s[k].score
    modifies a
    ensures a[..] == FilesOf(InsertionSort(s, ScoreOf, IntLess))
    ensures forall k :: 0 <= k < |s| ==> s[k].file.score == s[k].score
  {
    SortBounds(s, ScoreOf, IntLess);
    var i := 0;
    while i < a.Length
      invariant 0 <= i <= a.Length == |s|
      invariant a[..] == FilesOf(InsertionSort(s[..i], ScoreOf, IntLess)) + FilesOf(s[i..])
      invariant forall k :: 0 <= k < |s| ==> s[k].file.score == s[k].score
    {
      SortScoreStep(a, i, s);
      i := i + 1;
    }
  }

  /** The records of the score sort of current snapshots: the same records, in
      ascending order of their scores. */
  lemma SortedRecords(s: seq<Snap>)
    requires forall k :: 0 <= k < |s| ==> s[k].file.score == s[k].score
    ensures var fs := FilesOf(InsertionSort(s, ScoreOf, IntLess));
            multiset(fs) == multiset(FilesOf(s))
            && forall l, k :: 0 <= l < k < |fs| ==> fs[l].score <= fs[k].score
  {
    var r := InsertionSort(s, ScoreOf, IntLess);
    ScoreSorted(s, 0);
    FilesOfPermuted(r, s);
    forall m | 0 <= m < |r|
      ensures r[m].file.score == r[m].score
    {
      assert r[m] in multiset(s);
    }
  }

  /** applySortScore: the records end up in the order of the stable score sort
      of their snapshots (ScoreSorted says what that order is): the same
      records, in ascending order of score. */
  method SortScore(a: array<File>)
    modifies a
    ensures a[..] == FilesOf(InsertionSort(old(Snaps(a[..])), ScoreOf, IntLess))
    ensures multiset(a[..]) == multiset(old(a[..]))
    ensures forall l, k :: 0 <= l < k < a.Length ==> a[l].score <= a[k].score
  {
    ghost var s := Snaps(a[..]);
    SnapsOfFiles(a[..]);
    SortScoreLoop(a, s);
    SortedRecords(s);
  }
}
