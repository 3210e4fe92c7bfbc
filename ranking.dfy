/** The ranking stages of main.go that run after the presort: adding rule scores,
    dropping the leading negatives, adding the directory totals and reversing
    the slice, together with the decision whether the scanner must detect
    binary files. */
module Ranking {
  import opened GoStrings
  import opened Sorting
  import opened Files
  import opened Rules
  import opened Snapshots

  /** The number of times `f` occurs in the slice: a record listed twice is
      updated twice. */
  function Occurrences(s: seq<File>, f: File): nat {
    if s == [] then 0 else Occurrences(s[..|s| - 1], f) + (if s[|s| - 1] == f then 1 else 0)
  }

  /** A record that is not listed does not occur. */
  lemma {:induction false} NotListedNever(s: seq<File>, f: File)
    requires f !in s
    ensures Occurrences(s, f) == 0
  {
    if s != [] {
      NotListedNever(s[..|s| - 1], f);
    }
  }

  /** Records the scanner creates are all distinct, and then each stage updates
      every record exactly once. */
  lemma {:induction false} DistinctOccursOnce(s: seq<File>, k: nat)
    requires k < |s|
    requires forall l, m :: 0 <= l < m < |s| ==> s[l] != s[m]
    ensures Occurrences(s, s[k]) == 1
    decreases |s|
  {
    var last := |s| - 1;
    if k == last {
      NotListedNever(s[..last], s[k]);
    } else {
      DistinctOccursOnce(s[..last], k);
    }
  }

  // applyRules (main.go:251-266)

  /** The inner loop of applyRules: every rule the record passes adds its score.
      Pass only fills the depth cache, so the depth the rules see stays the same. */
  method ApplyRulesToFile(f: File, rules: seq<Rule>)
    modifies f`score, f`depth
    ensures f.score == old(f.score) + Gain(rules, f.path, f.binary, old(f.CurrentDepth()))
    ensures f.CurrentDepth() == old(f.CurrentDepth())
  {
    ghost var d := f.CurrentDepth();
    var n := 0;
    while n < |rules|
      invariant 0 <= n <= |rules|
      invariant f.score == old(f.score) + Gain(rules[..n], f.path, f.binary, d)
      invariant f.CurrentDepth() == d
    {
      var ok := Pass(rules[n], f);
      if ok {
        f.score := f.score + rules[n].score;
      }
      assert rules[..n + 1][..n] == rules[..n];
      n := n + 1;
    }
    assert rules[..n] == rules;
  }

  /** The score a map has recorded for a record; 0 for one it does not hold. */
  function Lookup(m: map<File, int>, f: File): int {
    if f in m then m[f] else 0
  }

  /** What a loop over the slice has added to each record after visiting the
      entries snapshotted in `s`, when visiting entry `k` adds `gains[k]` to
      its record. */
  function Accumulated(s: seq<Snap>, gains: seq<int>): map<File, int>
    requires |gains| == |s|
  {
    if s == [] then map[]
    else
      var m := Accumulated(s[..|s| - 1], gains[..|s| - 1]);
      var x := s[|s| - 1];
      m[x.file := Lookup(m, x.file) + gains[|s| - 1]]
  }

  lemma AccumulatedStep(s: seq<Snap>, gains: seq<int>, i: nat)
    requires |gains| == |s| && i < |s|
    ensures Accumulated(s[..i + 1], gains[..i + 1])
            == Accumulated(s[..i], gains[..i])[s[i].file := Lookup(Accumulated(s[..i], gains[..i]), s[i].file) + gains[i]]
  {
    assert s[..i + 1][..i] == s[..i];
    assert gains[..i + 1][..i] == gains[..i];
  }

  lemma OneMore(c: nat, g: int)
    ensures (c + 1) * g == c * g + g
  {
  }

  /** When every entry for record `f` adds `g`, the loop has added `g` once per
      occurrence of `f`. */
  lemma {:induction false} AccumulatedIsProduct(s: seq<Snap>, gains: seq<int>, f: File, g: int)
    requires |gains| == |s|
    requires forall k :: 0 <= k < |s| && s[k].file == f ==> gains[k] == g
    ensures Lookup(Accumulated(s, gains), f) == Occurrences(FilesOf(s), f) * g
  {
    if s != [] {
      var n := |s| - 1;
      AccumulatedIsProduct(s[..n], gains[..n], f, g);
      assert FilesOf(s)[..n] == FilesOf(s[..n]);
      if s[n].file == f {
        OneMore(Occurrences(FilesOf(s[..n]), f), g);
      }
    }
  }

  /** When entries for the same record add the same amount, each record has
      collected its amount once per occurrence. */
  lemma AccumulatedTotals(s: seq<Snap>, gains: seq<int>)
    requires |gains| == |s|
    requires forall k, l :: 0 <= k < |s| && 0 <= l < |s| && s[k].file == s[l].file ==> gains[k] == gains[l]
    ensures forall k :: 0 <= k < |s| ==> Lookup(Accumulated(s, gains), s[k].file) == Occurrences(FilesOf(s), s[k].file) * gains[k]
  {
    forall k | 0 <= k < |s|
      ensures Lookup(Accumulated(s, gains), s[k].file) == Occurrences(FilesOf(s), s[k].file) * gains[k]
    {
      AccumulatedIsProduct(s, gains, s[k].file, gains[k]);
    }
  }

  /** The score applyRules adds to each record of the snapshotted slice. */
  function RuleGains(s: seq<Snap>, rules: seq<Rule>): (gains: seq<int>)
    ensures |gains| == |s|
    ensures forall k :: 0 <= k < |s| ==> gains[k] == Gain(rules, s[k].path, s[k].binary, s[k].depth)
  {
    seq(|s|, k requires 0 <= k < |s| => Gain(rules, s[k].path, s[k].binary, s[k].depth))
  }

  /** applyRules: each record's score grows by the scores of the rules it
      passes, once per time it is listed; the slice itself is not reordered. */
  method ApplyRules(a: array<File>, rules: seq<Rule>)
    modifies (set m | 0 <= m < a.Length :: a[m])`score, (set m | 0 <= m < a.Length :: a[m])`depth
    ensures forall k :: 0 <= k < a.Length ==>
              a[k].score == old(a[k].score)
                            + Occurrences(a[..], a[k]) * Gain(rules, a[k].path, a[k].binary, old(a[k].CurrentDepth()))
    ensures forall k :: 0 <= k < a.Length ==> a[k].CurrentDepth() == old(a[k].CurrentDepth())
  {
    ghost var s := Snaps(a[..]);
    SnapsOfFiles(a[..]);
    ghost var gains := RuleGains(s, rules);
    AccumulatedTotals(s, gains);
    ghost var fs := set m | 0 <= m < a.Length :: a[m];
    ApplyRulesLoop(a, rules, fs, s, gains);
  }

  /** The outer loop of applyRules over the records `fs` of the slice, whose
      snapshots are `s` and whose gains are `gains`. */
  method ApplyRulesLoop(a: array<File>, rules: seq<Rule>, ghost fs: set<File>, ghost s: seq<Snap>, ghost gains: seq<int>)
    requires a[..] == FilesOf(s) && |gains| == |s|
    requires forall k :: 0 <= k < |s| ==> s[k] == SnapOf(a[k]) && a[k] in fs
    requires forall k :: 0 <= k < |s| ==> gains[k] == Gain(rules, s[k].path, s[k].binary, s[k].depth)
    modifies fs`score, fs`depth
    ensures forall k :: 0 <= k < a.Length ==>
              a[k].score == s[k].score + Lookup(Accumulated(s, gains), a[k]) && a[k].CurrentDepth() == s[k].depth
  {
    ghost var added: map<File, int> := map[];
    var i := 0;
    while i < a.Length
      invariant 0 <= i <= a.Length == |s|
      invariant forall k :: 0 <= k < a.Length ==>
                  a[k].score == s[k].score + Lookup(added, a[k]) && a[k].CurrentDepth() == s[k].depth
      invariant added == Accumulated(s[..i], gains[..i])
    {
      ApplyRulesToFile(a[i], rules);
      AccumulatedStep(s, gains, i);
      added := added[a[i] := Lookup(added, a[i]) + gains[i]];
      i := i + 1;
    }
    assert s[..i] == s && gains[..i] == gains;
  }

  /** applyRules on the snapshots of a slice: each entry's score grows by the
      gain of the rules its record passes, once per time the record is listed. */
  function RulesApplied(s: seq<Snap>, rules: seq<Rule>): (r: seq<Snap>)
    ensures |r| == |s|
  {
    seq(|s|, k requires 0 <= k < |s| =>
      s[k].(score := s[k].score + Occurrences(FilesOf(s), s[k].file) * Gain(rules, s[k].path, s[k].binary, s[k].depth)))
  }

  /** With distinct records, as the scanner creates them, applyRules adds to
      each record exactly the scores of the rules it passes. */
  lemma ApplyRulesDistinct(s: seq<Snap>, rules: seq<Rule>, k: nat)
    requires k < |s|
    requires forall l, m :: 0 <= l < m < |s| ==> s[l].file != s[m].file
    ensures RulesApplied(s, rules)[k].score == s[k].score + Gain(rules, s[k].path, s[k].binary, s[k].depth)
  {
    DistinctOccursOnce(FilesOf(s), k);
  }

  // removeNegative (main.go:147-164)

  /** removeNegative: the index where the kept suffix starts. Every record before
      it has a negative score and the record there, if any, does not, so exactly
      the leading run of negative scores is dropped; an empty slice or one whose
      first score is not negative is kept whole. */
  method RemoveNegative(a: array<File>) returns (start: int)
    ensures 0 <= start <= a.Length
    ensures forall k :: 0 <= k < start ==> a[k].score < 0
    ensures start < a.Length ==> a[start].score >= 0
  {
    var last := -1;
    var i := 0;
    while i < a.Length
      invariant 0 <= i <= a.Length && last == i - 1
      invariant forall k :: 0 <= k < i ==> a[k].score < 0
    {
      if a[i].score >= 0 {
        break;
      }
      last := i;
      i := i + 1;
    }
    if last == -1 {
      return 0;
    }
    return last + 1;
  }

  /** The scores are in ascending order, as applySortScore leaves them. */
  predicate Ascending(scores: seq<int>) {
    forall l, k :: 0 <= l < k < |scores| ==> scores[l] <= scores[k]
  }

  /** On scores sorted ascending, cutting off the leading run of negatives keeps
      exactly the records whose score is not negative. */
  lemma RemoveNegativeSorted(scores: seq<int>, start: int)
    requires Ascending(scores)
    requires 0 <= start <= |scores|
    requires forall k :: 0 <= k < start ==> scores[k] < 0
    requires start < |scores| ==> scores[start] >= 0
    ensures forall k :: 0 <= k < |scores| ==> (start <= k <==> scores[k] >= 0)
  {
  }

  /** removeNegative on snapshots: the slice without its leading run of negative scores. */
  function DropNegatives(s: seq<Snap>): seq<Snap> {
    if s != [] && s[0].score < 0 then DropNegatives(s[1..]) else s
  }

  /** The index RemoveNegative returns is where DropNegatives cuts the slice. */
  lemma {:induction false} DropNegativesAt(s: seq<Snap>, start: nat)
    requires start <= |s|
    requires forall k :: 0 <= k < start ==> s[k].score < 0
    requires start < |s| ==> s[start].score >= 0
    ensures DropNegatives(s) == s[start..]
  {
    if start > 0 {
      DropNegativesAt(s[1..], start - 1);
      assert s[1..][start - 1..] == s[start..];
    }
  }

  // applyScoreDirs (main.go:268-299)

  /** getBase: the top-level segment of a path with its slash, or "." for a
      path without a slash; BaseIsIndexPrefix gives it in strings.Index terms. */
  function Base(path: string): string
    decreases |path|
  {
    if path == [] then "."
    else if path[0] == '/' then "/"
    else
      var rest := Base(path[1..]);
      if rest == "." then "." else [path[0]] + rest
  }

  /** getBase as main.go writes it: "." when strings.Index finds no slash,
      otherwise the path up to the first slash with the slash appended. */
  lemma {:induction false} BaseIsIndexPrefix(path: string)
    ensures var i := IndexOf(path, '/');
            Base(path) == if i == -1 then "." else path[..i] + "/"
    decreases |path|
  {
    if path != [] && path[0] != '/' {
      BaseIsIndexPrefix(path[1..]);
      var j := IndexOf(path[1..], '/');
      if j != -1 {
        assert [path[0]] + path[1..][..j] == path[..j + 1];
      }
    }
  }

  /** The base of a path with a slash is the path's prefix up to its first
      slash, that slash included. */
  lemma {:induction false} BaseMeaning(path: string)
    ensures '/' !in path ==> Base(path) == "."
    ensures '/' in path ==> HasPrefix(path, Base(path)) && Base(path) != []
    ensures '/' in path ==> Base(path)[|Base(path)| - 1] == '/' && '/' !in Base(path)[..|Base(path)| - 1]
    decreases |path|
  {
    if path != [] && path[0] != '/' {
      BaseMeaning(path[1..]);
      assert '/' in path <==> '/' in path[1..] by {
        assert path == [path[0]] + path[1..];
      }
      if '/' in path {
        var r := Base(path[1..]);
        assert Base(path) == [path[0]] + r;
        assert path[..|r| + 1] == [path[0]] + path[1..][..|r|];
        assert Base(path)[..|r|] == [path[0]] + r[..|r| - 1];
      }
    } else if path != [] {
      assert path[..1] == "/";
    }
  }

  /** Every path below the top-level directory `dir` has the base `dir/`. */
  lemma BaseOfNested(dir: string, rest: string)
    requires '/' !in dir
    ensures Base(dir + "/" + rest) == dir + "/"
  {
    var path := dir + "/" + rest;
    assert path[..|dir|] == dir;
    IndexOfUnique(path, '/', |dir|);
    BaseIsIndexPrefix(path);
  }

  /** The summed score of the snapshotted records whose base is `b`. */
  function DirTotal(s: seq<Snap>, b: string): int {
    if s == [] then 0
    else DirTotal(s[..|s| - 1], b) + (if Base(s[|s| - 1].path) == b then s[|s| - 1].score else 0)
  }

  lemma {:induction false} DirTotalConcat(s: seq<Snap>, t: seq<Snap>, b: string)
    ensures DirTotal(s + t, b) == DirTotal(s, b) + DirTotal(t, b)
    decreases |t|
  {
    if t != [] {
      DirTotalConcat(s, t[..|t| - 1], b);
      assert (s + t)[..|s + t| - 1] == s + t[..|t| - 1];
      assert (s + t)[|s + t| - 1] == t[|t| - 1];
    } else {
      assert s + t == s;
    }
  }

  /** A directory's total does not depend on the order of the slice, so the
      sort before applyScoreDirs does not change it. */
  lemma {:induction false} DirTotalOrderIndependent(s: seq<Snap>, reordered: seq<Snap>, b: string)
    requires multiset(s) == multiset(reordered)
    ensures DirTotal(s, b) == DirTotal(reordered, b)
    decreases |s|
  {
    if s == [] {
      assert |reordered| == |multiset(reordered)| == 0;
    } else {
      var last := s[|s| - 1];
      assert last in multiset(reordered);
      var j :| 0 <= j < |reordered| && reordered[j] == last;
      var rest := reordered[..j] + reordered[j + 1..];
      assert reordered == reordered[..j] + [last] + reordered[j + 1..];
      assert s == s[..|s| - 1] + [last];
      assert multiset(reordered) == multiset(reordered[..j]) + multiset{last} + multiset(reordered[j + 1..]);
      assert multiset(s) == multiset(s[..|s| - 1]) + multiset{last};
      assert multiset(rest) == multiset(reordered) - multiset{last};
      assert multiset(s[..|s| - 1]) == multiset(s) - multiset{last};
      DirTotalOrderIndependent(s[..|s| - 1], rest, b);
      DirTotalConcat(reordered[..j] + [last], reordered[j + 1..], b);
      DirTotalConcat(reordered[..j], [last], b);
      DirTotalConcat(reordered[..j], reordered[j + 1..], b);
      assert DirTotal([last], b) == DirTotal(s, b) - DirTotal(s[..|s| - 1], b);
    }
  }

  lemma DirTotalStep(s: seq<Snap>, i: nat)
    requires i < |s|
    ensures forall b :: DirTotal(s[..i + 1], b) == DirTotal(s[..i], b) + (if Base(s[i].path) == b then s[i].score else 0)
  {
    assert s[..i + 1][..i] == s[..i];
  }

  /** A base no record has sums to 0. */
  lemma {:induction false} DirTotalAbsent(s: seq<Snap>, b: string)
    requires forall k :: 0 <= k < |s| ==> Base(s[k].path) != b
    ensures DirTotal(s, b) == 0
  {
    if s != [] {
      DirTotalAbsent(s[..|s| - 1], b);
    }
  }

  /** `write`: the first score recorded for a base starts its total, later
      ones are added to it. */
  function Write(dirs: map<string, int>, name: string, score: int): map<string, int> {
    if name !in dirs then dirs[name := score] else dirs[name := dirs[name] + score]
  }

  /** Writing the record at `i` extends the totals of `s[..i]` to `s[..i + 1]`. */
  lemma WriteStep(dirs: map<string, int>, s: seq<Snap>, i: nat)
    requires i < |s|
    requires forall k :: 0 <= k < i ==> Base(s[k].path) in dirs
    requires forall b :: b in dirs ==> dirs[b] == DirTotal(s[..i], b)
    ensures var next := Write(dirs, Base(s[i].path), s[i].score);
            (forall k :: 0 <= k <= i ==> Base(s[k].path) in next)
            && forall b :: b in next ==> next[b] == DirTotal(s[..i + 1], b)
  {
    var name := Base(s[i].path);
    DirTotalStep(s, i);
    if name !in dirs {
      DirTotalAbsent(s[..i], name);
    }
  }

  /** The first loop of applyScoreDirs over a slice whose snapshots are `s`:
      the map holds the base of every listed path, each with the summed score
      of its records. */
  method DirTotals(a: array<File>, ghost s: seq<Snap>) returns (dirs: map<string, int>)
    requires |s| == a.Length
    requires forall k :: 0 <= k < |s| ==> a[k].path == s[k].path && a[k].score == s[k].score
    ensures forall k :: 0 <= k < a.Length ==> Base(a[k].path) in dirs
    ensures forall b :: b in dirs ==> dirs[b] == DirTotal(s, b)
  {
    dirs := map[];
    var i := 0;
    while i < a.Length
      invariant 0 <= i <= a.Length
      invariant forall k :: 0 <= k < i ==> Base(s[k].path) in dirs
      invariant forall b :: b in dirs ==> dirs[b] == DirTotal(s[..i], b)
    {
      WriteStep(dirs, s, i);
      dirs := Write(dirs, Base(a[i].path), a[i].score);
      i := i + 1;
    }
    assert s[..i] == s;
  }

  /** The score applyScoreDirs adds to each record of the snapshotted slice. */
  function DirGains(s: seq<Snap>): (gains: seq<int>)
    ensures |gains| == |s|
    ensures forall k :: 0 <= k < |s| ==> gains[k] == DirTotal(s, Base(s[k].path))
  {
    seq(|s|, k requires 0 <= k < |s| => DirTotal(s, Base(s[k].path)))
  }

  /** applyScoreDirs: every record's score grows by the summed old score of the
      records under its top-level segment, itself included, once per time it is
      listed; the slice itself is not reordered. */
  method ApplyScoreDirs(a: array<File>)
    modifies (set m | 0 <= m < a.Length :: a[m])`score
    ensures forall k :: 0 <= k < a.Length ==>
              a[k].score == old(a[k].score) + Occurrences(a[..], a[k]) * DirTotal(old(Snaps(a[..])), Base(a[k].path))
  {
    ghost var s := Snaps(a[..]);
    SnapsOfFiles(a[..]);
    var dirs := DirTotals(a, s);
    ghost var gains := DirGains(s);
    AccumulatedTotals(s, gains);
    ghost var fs := set m | 0 <= m < a.Length :: a[m];
    AddDirTotals(a, dirs, fs, s, gains);
  }

  /** The body of the second loop of applyScoreDirs: the record's score grows
      by what the map holds for its base, which is `gain`. A base missing from
      the map would read as 0, as a Go map does. */
  method AddDirTotal(f: File, dirs: map<string, int>, ghost gain: int)
    requires Base(f.path) in dirs && dirs[Base(f.path)] == gain
    modifies f`score
    ensures f.score == old(f.score) + gain
  {
    f.score := f.score + if Base(f.path) in dirs then dirs[Base(f.path)] else 0;
  }

  /** The second loop of applyScoreDirs over the records `fs` of the slice,
      whose snapshots are `s`; the map holds `gains[k]` for the base of entry `k`. */
  method AddDirTotals(a: array<File>, dirs: map<string, int>, ghost fs: set<File>, ghost s: seq<Snap>, ghost gains: seq<int>)
    requires a[..] == FilesOf(s) && |gains| == |s|
    requires forall k :: 0 <= k < |s| ==> a[k].score == s[k].score && a[k] in fs
    requires forall k :: 0 <= k < |s| ==> Base(a[k].path) in dirs && dirs[Base(a[k].path)] == gains[k]
    modifies fs`score
    ensures forall k :: 0 <= k < a.Length ==> a[k].score == s[k].score + Lookup(Accumulated(s, gains), a[k])
  {
    ghost var added: map<File, int> := map[];
    var i := 0;
    while i < a.Length
      invariant 0 <= i <= a.Length == |s|
      invariant forall k :: 0 <= k < a.Length ==> a[k].score == s[k].score + Lookup(added, a[k])
      invariant added == Accumulated(s[..i], gains[..i])
    {
      AddDirTotal(a[i], dirs, gains[i]);
      AccumulatedStep(s, gains, i);
      added := added[a[i] := Lookup(added, a[i]) + gains[i]];
      i := i + 1;
    }
    assert s[..i] == s && gains[..i] == gains;
  }

  /** applyScoreDirs on the snapshots of a slice: each entry's score grows by
      the summed old score of the entries with its base, once per time its
      record is listed. */
  function DirsApplied(s: seq<Snap>): (r: seq<Snap>)
    ensures |r| == |s|
  {
    seq(|s|, k requires 0 <= k < |s| =>
      s[k].(score := s[k].score + Occurrences(FilesOf(s), s[k].file) * DirTotal(s, Base(s[k].path))))
  }

  /** Two distinct records under the same top-level segment receive the same
      amount, so applyScoreDirs keeps the difference between their scores. */
  lemma ScoreDirsKeepsDifference(s: seq<Snap>, k: nat, l: nat)
    requires k < |s| && l < |s|
    requires forall m, n :: 0 <= m < n < |s| ==> s[m].file != s[n].file
    requires Base(s[k].path) == Base(s[l].path)
    ensures DirsApplied(s)[k].score - DirsApplied(s)[l].score == s[k].score - s[l].score
  {
    DistinctOccursOnce(FilesOf(s), k);
    DistinctOccursOnce(FilesOf(s), l);
  }

  // The reversal at main.go:115-120

  /** The reversal loop: swaps the ends pairwise from the middle outwards. */
  method ReverseFiles(a: array<File>)
    modifies a
    ensures a[..] == Reversed(old(a[..]))
  {
    var n := a.Length;
    var i := n / 2 - 1;
    while i >= 0
      invariant -1 <= i <= n / 2 - 1
      invariant forall k :: 0 <= k < n ==> a[k] == if i < k < n - 1 - i then old(a[n - 1 - k]) else old(a[k])
    {
      var opp := n - 1 - i;
      a[i], a[opp] := a[opp], a[i];
      i := i - 1;
    }
    forall k | 0 <= k < n
      ensures a[k] == Reversed(old(a[..]))[k]
    {
      ReversedAt(old(a[..]), k);
    }
  }

  // shouldDetectType (main.go:180-186)

  /** Whether the scanner must read each file's contents: some rule filters on
      the binary flag. */
  method ShouldDetectType(rules: seq<Rule>) returns (detect: bool)
    ensures detect <==> exists k :: 0 <= k < |rules| && rules[k].binary.Some?
  {
    detect := false;
    var n := 0;
    while n < |rules|
      invariant 0 <= n <= |rules|
      invariant !detect && forall k :: 0 <= k < n ==> rules[k].binary.None?
    {
      if rules[n].binary.Some? {
        detect := true;
        break;
      }
      n := n + 1;
    }
  }

  /** Skipping detection is safe: when no rule filters on the binary flag, the
      score a file gains does not depend on it. */
  lemma {:induction false} GainIgnoresBinary(rules: seq<Rule>, path: string, b1: bool, b2: bool, depth: int)
    requires forall k :: 0 <= k < |rules| ==> rules[k].binary.None?
    ensures Gain(rules, path, b1, depth) == Gain(rules, path, b2, depth)
  {
    if rules != [] {
      GainIgnoresBinary(rules[..|rules| - 1], path, b1, b2, depth);
    }
  }
}
