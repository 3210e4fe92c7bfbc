/** The ranking pipeline of `main` (main.go:93-120): the stages applied in order
    to the scanned records, each stage as modelled in its own module. The
    methods follow the records through the slice; Ranked says on snapshots
    what they end up as, and RankedShape what that result looks like. */
module Pipeline {
  import opened Sorting
  import opened Files
  import opened Rules
  import opened Configs
  import opened Snapshots
  import opened ScoreSort
  import opened PreSorting
  import opened Ranking

  // The pipeline on snapshots

  /** HideNegative (main.go:105-107): the leading negatives dropped when set. */
  function Kept(s: seq<Snap>, hideNegative: bool): seq<Snap> {
    if hideNegative then DropNegatives(s) else s
  }

  /** ScoreDirs (main.go:109-113): directory totals added and the score sort
      run again when set. */
  function Rescored(s: seq<Snap>, scoreDirs: bool): seq<Snap> {
    if scoreDirs then InsertionSort(DirsApplied(s), ScoreOf, IntLess) else s
  }

  /** Reverse (main.go:115-120): the order reversed when set. */
  function Oriented(s: seq<Snap>, reverse: bool): seq<Snap> {
    if reverse then Reversed(s) else s
  }

  /** The stages after the first score sort (main.go:105-120). */
  function Finished(s: seq<Snap>, config: Config, scoreDirs: bool): seq<Snap> {
    Oriented(Rescored(Kept(s, config.hideNegative), scoreDirs), config.reverse)
  }

  /** The presort, the rule scores and the score sort (main.go:93-95). */
  function SortedByScore(s: seq<Snap>, config: Config): seq<Snap> {
    InsertionSort(RulesApplied(InsertionSort(s, EntryOf, PreLt(config.presort)), config.rules), ScoreOf, IntLess)
  }

  /** main's ranking (main.go:93-120) of the scanned records' snapshots. */
  function Ranked(s: seq<Snap>, config: Config, scoreDirs: bool): seq<Snap> {
    Finished(SortedByScore(s, config), config, scoreDirs)
  }

  predicate AscendingSnaps(s: seq<Snap>) {
    forall l, k :: 0 <= l < k < |s| ==> s[l].score <= s[k].score
  }

  predicate DescendingSnaps(s: seq<Snap>) {
    forall l, k :: 0 <= l < k < |s| ==> s[l].score >= s[k].score
  }

  predicate NonNegative(s: seq<Snap>) {
    forall k :: 0 <= k < |s| ==> s[k].score >= 0
  }

  // What the stages do to the records and the order

  /** Changing scores keeps the records. */
  lemma RescoredFiles(s: seq<Snap>, rules: seq<Rule>)
    ensures FilesOf(RulesApplied(s, rules)) == FilesOf(s)
    ensures FilesOf(DirsApplied(s)) == FilesOf(s)
  {
  }

  /** removeNegative keeps a suffix: the records after the leading run of
      negative scores. */
  lemma {:induction false} DropNegativesSuffix(s: seq<Snap>)
    ensures |DropNegatives(s)| <= |s|
    ensures DropNegatives(s) == s[|s| - |DropNegatives(s)|..]
    ensures forall k :: 0 <= k < |s| - |DropNegatives(s)| ==> s[k].score < 0
    ensures DropNegatives(s) != [] ==> DropNegatives(s)[0].score >= 0
  {
    if s != [] && s[0].score < 0 {
      DropNegativesSuffix(s[1..]);
      assert s[1..][|s| - 1 - |DropNegatives(s)|..] == s[|s| - |DropNegatives(s)|..];
    }
  }

  /** On ascending scores, dropping the leading negatives keeps some of the
      records, in ascending order, none of them negative. */
  lemma DropNegativesShape(s: seq<Snap>)
    requires AscendingSnaps(s)
    ensures multiset(FilesOf(DropNegatives(s))) <= multiset(FilesOf(s))
    ensures AscendingSnaps(DropNegatives(s))
    ensures NonNegative(DropNegatives(s))
  {
    DropNegativesSuffix(s);
    var d := DropNegatives(s);
    var start := |s| - |d|;
    assert s == s[..start] + d;
    FilesOfConcat(s[..start], d);
    forall k | 0 <= k < |d|
      ensures d[k].score >= 0
    {
      assert s[start].score <= s[start + k].score;
    }
  }

  /** A directory total over non-negative scores is not negative. */
  lemma {:induction false} DirTotalNonNegative(s: seq<Snap>, b: string)
    requires NonNegative(s)
    ensures DirTotal(s, b) >= 0
  {
    if s != [] {
      DirTotalNonNegative(s[..|s| - 1], b);
    }
  }

  /** Adding directory totals to non-negative scores leaves them non-negative. */
  lemma DirsAppliedNonNegative(s: seq<Snap>)
    requires NonNegative(s)
    ensures NonNegative(DirsApplied(s))
  {
    forall k | 0 <= k < |s|
      ensures DirsApplied(s)[k].score >= 0
    {
      DirTotalNonNegative(s, Base(s[k].path));
    }
  }

  /** The score sort keeps the records and sorts them ascending; it keeps
      every score non-negative if it was. */
  lemma ScoreSortShape(s: seq<Snap>)
    ensures multiset(FilesOf(InsertionSort(s, ScoreOf, IntLess))) == multiset(FilesOf(s))
    ensures AscendingSnaps(InsertionSort(s, ScoreOf, IntLess))
    ensures NonNegative(s) ==> NonNegative(InsertionSort(s, ScoreOf, IntLess))
  {
    var r := InsertionSort(s, ScoreOf, IntLess);
    ScoreSorted(s, 0);
    FilesOfPermuted(r, s);
    if NonNegative(s) {
      forall k | 0 <= k < |r|
        ensures r[k].score >= 0
      {
        assert r[k] in multiset(s);
      }
    }
  }

  /** Reversal keeps the elements. */
  lemma {:induction false} ReversedPermutes<T>(s: seq<T>)
    ensures multiset(Reversed(s)) == multiset(s)
  {
    if s != [] {
      ReversedPermutes(s[..|s| - 1]);
      assert s == s[..|s| - 1] + [s[|s| - 1]];
    }
  }

  /** Reversal keeps the records, turns ascending scores into descending ones,
      and keeps every score non-negative if it was. */
  lemma ReversedShape(s: seq<Snap>)
    ensures multiset(FilesOf(Reversed(s))) == multiset(FilesOf(s))
    ensures AscendingSnaps(s) ==> DescendingSnaps(Reversed(s))
    ensures NonNegative(s) ==> NonNegative(Reversed(s))
  {
    ReversedPermutes(s);
    FilesOfPermuted(Reversed(s), s);
    forall l, k | 0 <= l < k < |s| && AscendingSnaps(s)
      ensures Reversed(s)[l].score >= Reversed(s)[k].score
    {
      ReversedAt(s, l);
      ReversedAt(s, k);
    }
    forall k | 0 <= k < |s| && NonNegative(s)
      ensures Reversed(s)[k].score >= 0
    {
      ReversedAt(s, k);
    }
  }

  /** What the stages after the first score sort leave of ascending snapshots:
      some of the records, all of them unless negatives are hidden, in
      ascending score order, or descending when reversed; and when negatives
      are hidden, no negative score, even after the directory totals. */
  lemma FinishedShape(s: seq<Snap>, config: Config, scoreDirs: bool)
    requires AscendingSnaps(s)
    ensures var r := Finished(s, config, scoreDirs);
            && multiset(FilesOf(r)) <= multiset(FilesOf(s))
            && (!config.hideNegative ==> multiset(FilesOf(r)) == multiset(FilesOf(s)))
            && (!config.reverse ==> AscendingSnaps(r))
            && (config.reverse ==> DescendingSnaps(r))
            && (config.hideNegative ==> NonNegative(r))
  {
    var kept := Kept(s, config.hideNegative);
    if config.hideNegative {
      DropNegativesShape(s);
    }
    var dirs := Rescored(kept, scoreDirs);
    if scoreDirs {
      RescoredFiles(kept, []);
      ScoreSortShape(DirsApplied(kept));
      if config.hideNegative {
        DirsAppliedNonNegative(kept);
      }
    }
    assert multiset(FilesOf(dirs)) == multiset(FilesOf(kept));
    assert AscendingSnaps(dirs);
    assert config.hideNegative ==> NonNegative(dirs);
    if config.reverse {
      ReversedShape(dirs);
    }
  }

  /** What main's ranking yields: some of the scanned records, all of them
      unless negatives are hidden, in ascending order of their final scores or
      descending when reversed, and no negative score when negatives are hidden. */
  lemma RankedShape(s: seq<Snap>, config: Config, scoreDirs: bool)
    ensures var r := Ranked(s, config, scoreDirs);
            && multiset(FilesOf(r)) <= multiset(FilesOf(s))
            && (!config.hideNegative ==> multiset(FilesOf(r)) == multiset(FilesOf(s)))
            && (!config.reverse ==> AscendingSnaps(r))
            && (config.reverse ==> DescendingSnaps(r))
            && (config.hideNegative ==> NonNegative(r))
  {
    var pre := InsertionSort(s, EntryOf, PreLt(config.presort));
    FilesOfPermuted(pre, s);
    RescoredFiles(pre, config.rules);
    ScoreSortShape(RulesApplied(pre, config.rules));
    FinishedShape(SortedByScore(s, config), config, scoreDirs);
  }

  /** With the presort, rule scores and score sort alone, the records scored
      equal keep the order the presort gave them. */
  lemma SortedByScoreStable(s: seq<Snap>, config: Config, score: int)
    ensures Filter(SortedByScore(s, config), ScoreOf, IntLess, score)
            == Filter(RulesApplied(InsertionSort(s, EntryOf, PreLt(config.presort)), config.rules), ScoreOf, IntLess, score)
  {
    ScoreSorted(RulesApplied(InsertionSort(s, EntryOf, PreLt(config.presort)), config.rules), score);
  }

  /** With distinct records, as the scanner creates them, each record of the
      scored and sorted slice carries its own score plus exactly the scores of
      the rules it passes. */
  lemma SortedByScoreGains(s: seq<Snap>, config: Config, k: nat)
    requires forall l, m :: 0 <= l < m < |s| ==> s[l].file != s[m].file
    requires k < |s|
    ensures exists m :: 0 <= m < |s| && SortedByScore(s, config)[m].file == s[k].file
              && SortedByScore(s, config)[m].score == s[k].score + Gain(config.rules, s[k].path, s[k].binary, s[k].depth)
  {
    var pre := InsertionSort(s, EntryOf, PreLt(config.presort));
    var scored := RulesApplied(pre, config.rules);
    var j := PermutedGain(s, pre, config.rules, k);
    assert scored[j] in multiset(SortedByScore(s, config));
  }

  /** The rule stage after any reordering of distinct records: the record at
      `k` sits at some `j` of the reordered slice, with its gain added. */
  lemma PermutedGain(s: seq<Snap>, pre: seq<Snap>, rules: seq<Rule>, k: nat) returns (j: nat)
    requires forall l, m :: 0 <= l < m < |s| ==> s[l].file != s[m].file
    requires multiset(pre) == multiset(s) && k < |s|
    ensures j < |pre| && RulesApplied(pre, rules)[j].file == s[k].file
    ensures RulesApplied(pre, rules)[j].score == s[k].score + Gain(rules, s[k].path, s[k].binary, s[k].depth)
  {
    assert s[k] in multiset(pre);
    j :| 0 <= j < |pre| && pre[j] == s[k];
    FilesOfPermuted(pre, s);
    DistinctOccursOnce(FilesOf(s), k);
    OccurrencesCount(FilesOf(s), s[k].file);
    OccurrencesCount(FilesOf(pre), s[k].file);
  }

  /** Occurrences counts the multiplicity of a record in the slice. */
  lemma {:induction false} OccurrencesCount(fs: seq<File>, f: File)
    ensures Occurrences(fs, f) == multiset(fs)[f]
  {
    if fs != [] {
      OccurrencesCount(fs[..|fs| - 1], f);
      assert fs == fs[..|fs| - 1] + [fs[|fs| - 1]];
    }
  }

  // The stages on the slice

  /** After the presort has only filled depth caches, the records it left
      in the order of the sorted snapshots `r` have exactly those snapshots,
      and each of them was one of the records before. */
  twostate lemma PreSorted(new fs: seq<File>, s0: seq<Snap>, new r: seq<Snap>)
    requires fs == FilesOf(r) && multiset(r) == multiset(s0)
    requires forall k :: 0 <= k < |s0| ==> old(Live(s0[k])) && Current(s0[k])
    requires forall f :: f in FilesOf(s0) ==> f.score == old(f.score) && f.binary == old(f.binary)
    ensures Snaps(fs) == r
    ensures forall m :: 0 <= m < |fs| ==> fs[m] in FilesOf(s0)
  {
    FilesOfPermuted(r, s0);
    assert forall m :: 0 <= m < |fs| ==> fs[m] in multiset(FilesOf(s0));
    forall k | 0 <= k < |s0|
      ensures Live(s0[k])
    {
      assert FilesOf(s0)[k] == s0[k].file;
    }
    SnapsOfLive(fs, r, s0);
  }

  /** PreSortFiles, with what its frame leaves alone spelled out: only depth
      caches change, so every record keeps its score and binary flag. */
  method PreSortKeeping(a: array<File>, ps: seq<PreSort>) returns (panicked: bool)
    modifies a, (set f: File | f in a[..])`depth
    ensures panicked == SortPanics(old(Snaps(a[..])), EntryOf, PreLt(ps), PreBad(ps))
    ensures !panicked ==> a[..] == FilesOf(InsertionSort(old(Snaps(a[..])), EntryOf, PreLt(ps)))
    ensures forall k :: 0 <= k < |old(Snaps(a[..]))| ==> Current(old(Snaps(a[..]))[k])
    ensures forall f :: f in old(a[..]) ==> f.score == old(f.score) && f.binary == old(f.binary)
  {
    panicked := PreSortFiles(a, ps);
  }

  /** applyPreSort (main.go:93): unless it panics, the records in the order of
      the stable presort of their snapshots, each still as it was. */
  method PreSortStage(a: array<File>, ps: seq<PreSort>) returns (panicked: bool)
    modifies a, (set f: File | f in a[..])`depth
    ensures panicked == SortPanics(old(Snaps(a[..])), EntryOf, PreLt(ps), PreBad(ps))
    ensures !panicked ==> Snaps(a[..]) == InsertionSort(old(Snaps(a[..])), EntryOf, PreLt(ps))
    ensures !panicked ==> forall m :: 0 <= m < a.Length ==> a[m] in old(a[..])
  {
    ghost var s0 := Snaps(a[..]);
    SnapsOfFiles(a[..]);
    SnapsLive(a[..]);
    panicked := PreSortKeeping(a, ps);
    if !panicked {
      PreSorted(a[..], s0, InsertionSort(s0, EntryOf, PreLt(ps)));
    }
  }

  /** applySortScore (main.go:95, :112): the records in the order of the stable
      score sort of their snapshots, each still as it was. */
  method SortScoreStage(a: array<File>)
    modifies a
    ensures Snaps(a[..]) == InsertionSort(old(Snaps(a[..])), ScoreOf, IntLess)
  {
    ghost var s0 := Snaps(a[..]);
    SnapsLive(a[..]);
    SortScore(a);
    StillLive(s0);
    SnapsOfLive(a[..], InsertionSort(s0, ScoreOf, IntLess), s0);
  }

  /** applyRules (main.go:94) read back from the slice: the snapshots RulesApplied gives. */
  method RulesStage(a: array<File>, rules: seq<Rule>)
    modifies (set f: File | f in a[..])`score, (set f: File | f in a[..])`depth
    ensures Snaps(a[..]) == RulesApplied(old(Snaps(a[..])), rules)
  {
    ghost var s0 := Snaps(a[..]);
    SnapsOfFiles(a[..]);
    ApplyRules(a, rules);
    ghost var s1 := RulesApplied(s0, rules);
    forall k | 0 <= k < a.Length
      ensures Snaps(a[..])[k] == s1[k]
    {
    }
  }

  /** The first three stages (main.go:93-95): unless the presort panics, the
      records end up as SortedByScore says. */
  method SortStages(a: array<File>, config: Config) returns (panicked: bool)
    modifies a, (set f: File | f in a[..])`score, (set f: File | f in a[..])`depth
    ensures panicked == SortPanics(old(Snaps(a[..])), EntryOf, PreLt(config.presort), PreBad(config.presort))
    ensures !panicked ==> Snaps(a[..]) == SortedByScore(old(Snaps(a[..])), config)
  {
    panicked := PreSortStage(a, config.presort);
    if !panicked {
      RulesStage(a, config.rules);
      SortScoreStage(a);
    }
  }

  /** The suffix removeNegative keeps has the snapshots DropNegatives gives. */
  lemma CutAt(fs: seq<File>, start: nat)
    requires start <= |fs|
    requires forall k :: 0 <= k < start ==> fs[k].score < 0
    requires start < |fs| ==> fs[start].score >= 0
    ensures Snaps(fs[start..]) == DropNegatives(Snaps(fs))
  {
    SnapsSuffix(fs, start);
    DropNegativesAt(Snaps(fs), start);
  }

  /** HideNegative (main.go:105-107): the records after the leading run of
      negative scores, in a new slice. */
  method HideNegatives(a: array<File>) returns (out: array<File>)
    ensures fresh(out)
    ensures Snaps(out[..]) == DropNegatives(Snaps(a[..]))
    ensures forall m :: 0 <= m < out.Length ==> out[m] in a[..]
  {
    var start := RemoveNegative(a);
    out := CopySuffix(a, start);
    CutAt(a[..], start);
  }

  /** The kept part of the slice as a slice of its own. */
  method CopySuffix(a: array<File>, start: int) returns (out: array<File>)
    requires 0 <= start <= a.Length
    ensures fresh(out)
    ensures out[..] == a[start..]
  {
    var kept := a[start..];
    out := new File[|kept|](k requires 0 <= k < |kept| => kept[k]);
    assert out[..] == kept;
  }

  /** applyScoreDirs (main.go:110) read back from the slice: the snapshots DirsApplied gives. */
  method DirsStage(a: array<File>)
    modifies (set f: File | f in a[..])`score
    ensures Snaps(a[..]) == DirsApplied(old(Snaps(a[..])))
  {
    ghost var s0 := Snaps(a[..]);
    SnapsOfFiles(a[..]);
    ApplyScoreDirs(a);
    ghost var s1 := DirsApplied(s0);
    forall k | 0 <= k < a.Length
      ensures Snaps(a[..])[k] == s1[k]
    {
    }
  }

  /** Reverse (main.go:115-120): element n-1-i at position i, read back as
      the reversal of the snapshots. */
  method ReverseStage(a: array<File>)
    modifies a
    ensures forall k :: 0 <= k < a.Length ==> a[k] == old(a[a.Length - 1 - k])
    ensures Snaps(a[..]) == Reversed(old(Snaps(a[..])))
  {
    ghost var before := a[..];
    ghost var after := Reversed(before);
    SnapsReversed(before);
    ReverseFiles(a);
    forall k | 0 <= k < a.Length
      ensures a[k] == before[a.Length - 1 - k]
    {
      ReversedAt(before, k);
    }
    SnapsUnchanged(after);
  }

  /** ScoreDirs (main.go:109-113) on the slice: the records end up as Rescored says. */
  method RescoreStage(a: array<File>, scoreDirs: bool)
    modifies a, (set f: File | f in a[..])`score
    ensures Snaps(a[..]) == Rescored(old(Snaps(a[..])), scoreDirs)
  {
    if scoreDirs {
      DirsStage(a);
      SortScoreStage(a);
    }
  }

  /** Reverse (main.go:115-120) on the slice: the records end up as Oriented says. */
  method OrientStage(a: array<File>, reverse: bool)
    modifies a
    ensures Snaps(a[..]) == Oriented(old(Snaps(a[..])), reverse)
  {
    if reverse {
      ReverseStage(a);
    }
  }

  /** The stages after the first score sort (main.go:105-120): the records end
      up as Finished says. */
  method Finish(a: array<File>, config: Config, scoreDirs: bool) returns (out: array<File>)
    modifies a, (set f: File | f in a[..])`score
    ensures Snaps(out[..]) == Finished(old(Snaps(a[..])), config, scoreDirs)
  {
    out := a;
    if config.hideNegative {
      out := HideNegatives(a);
    }
    RescoreStage(out, scoreDirs);
    OrientStage(out, config.reverse);
  }

  /** The order and signs of snapshots are those of the records in the slice. */
  lemma SnapsShape(fs: seq<File>)
    ensures multiset(FilesOf(Snaps(fs))) == multiset(fs)
    ensures AscendingSnaps(Snaps(fs)) ==> forall l, k :: 0 <= l < k < |fs| ==> fs[l].score <= fs[k].score
    ensures DescendingSnaps(Snaps(fs)) ==> forall l, k :: 0 <= l < k < |fs| ==> fs[l].score >= fs[k].score
    ensures NonNegative(Snaps(fs)) ==> forall k :: 0 <= k < |fs| ==> fs[k].score >= 0
  {
    SnapsOfFiles(fs);
  }

  /** SnapsShape for the records of an array. */
  lemma ArrayShape(a: array<File>)
    ensures AscendingSnaps(Snaps(a[..])) ==> forall l, k :: 0 <= l < k < a.Length ==> a[l].score <= a[k].score
    ensures DescendingSnaps(Snaps(a[..])) ==> forall l, k :: 0 <= l < k < a.Length ==> a[l].score >= a[k].score
    ensures NonNegative(Snaps(a[..])) ==> forall k :: 0 <= k < a.Length ==> a[k].score >= 0
  {
    SnapsShape(a[..]);
  }

  /** The presort, rule scores and score sort keep the records. */
  lemma SortedByScoreFiles(s: seq<Snap>, config: Config)
    ensures multiset(FilesOf(SortedByScore(s, config))) == multiset(FilesOf(s))
  {
    var pre := InsertionSort(s, EntryOf, PreLt(config.presort));
    FilesOfPermuted(pre, s);
    RescoredFiles(pre, config.rules);
    ScoreSortShape(RulesApplied(pre, config.rules));
  }

  /** What Ranked and RankedShape say about the records in the slice `out`
      the ranking of the records `input` leaves. */
  lemma RankedSlice(out: array<File>, input: seq<File>, s0: seq<Snap>, config: Config, scoreDirs: bool)
    requires FilesOf(s0) == input
    requires Snaps(out[..]) == Ranked(s0, config, scoreDirs)
    ensures multiset(out[..]) <= multiset(input)
    ensures !config.hideNegative ==> multiset(out[..]) == multiset(input)
    ensures !config.reverse ==> forall l, k :: 0 <= l < k < out.Length ==> out[l].score <= out[k].score
    ensures config.reverse ==> forall l, k :: 0 <= l < k < out.Length ==> out[l].score >= out[k].score
    ensures config.hideNegative ==> forall k :: 0 <= k < out.Length ==> out[k].score >= 0
  {
    RankedShape(s0, config, scoreDirs);
    SnapsShape(out[..]);
    ArrayShape(out);
  }

  /** The stages of main (main.go:93-120) in order: the presort's panic ends
      the program; otherwise the records end up as Ranked says. */
  method RankStages(a: array<File>, config: Config, scoreDirs: bool) returns (panicked: bool, out: array<File>)
    modifies a, (set f: File | f in a[..])`score, (set f: File | f in a[..])`depth
    ensures panicked == SortPanics(old(Snaps(a[..])), EntryOf, PreLt(config.presort), PreBad(config.presort))
    ensures !panicked ==> Snaps(out[..]) == Ranked(old(Snaps(a[..])), config, scoreDirs)
  {
    ghost var input := a[..];
    ghost var s0 := Snaps(a[..]);
    SnapsOfFiles(a[..]);
    panicked := SortStages(a, config);
    out := a;
    if !panicked {
      assert forall f :: f in a[..] ==> f in input by {
        SortedByScoreFiles(s0, config);
        SnapsShape(a[..]);
        assert forall f :: f in a[..] ==> f in multiset(a[..]);
      }
      out := Finish(a, config, scoreDirs);
    }
  }

  /** main's ranking of the scanned records `a` under `config`; `scoreDirs` is
      the ScoreDirs option. The presort's panic ends the program; otherwise the
      records end up as Ranked says: some of the input records, all of them
      unless negatives are hidden, ordered by their final scores (best last, or
      best first when reversed), none negative when negatives are hidden. */
  method Rank(a: array<File>, config: Config, scoreDirs: bool) returns (panicked: bool, out: array<File>)
    modifies a, (set f: File | f in a[..])`score, (set f: File | f in a[..])`depth
    ensures panicked == SortPanics(old(Snaps(a[..])), EntryOf, PreLt(config.presort), PreBad(config.presort))
    ensures !panicked ==> Snaps(out[..]) == Ranked(old(Snaps(a[..])), config, scoreDirs)
    ensures !panicked ==> multiset(out[..]) <= multiset(old(a[..]))
    ensures !panicked && !config.hideNegative ==> multiset(out[..]) == multiset(old(a[..]))
    ensures !panicked && !config.reverse ==>
              forall l, k :: 0 <= l < k < out.Length ==> out[l].score <= out[k].score
    ensures !panicked && config.reverse ==>
              forall l, k :: 0 <= l < k < out.Length ==> out[l].score >= out[k].score
    ensures !panicked && config.hideNegative ==>
              forall k :: 0 <= k < out.Length ==> out[k].score >= 0
  {
    ghost var input := a[..];
    ghost var s0 := Snaps(a[..]);
    SnapsOfFiles(a[..]);
    panicked, out := RankStages(a, config, scoreDirs);
    if !panicked {
      RankedSlice(out, input, s0, config, scoreDirs);
    }
  }
}
