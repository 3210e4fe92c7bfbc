/** The values the ranking stages read from the records of a `[]*File` slice.
    A Go `[]*File` is an `array<File>`: the stages reorder the array and update
    the records it points to, so their contracts speak about snapshots taken of
    the records before and after. */
module Snapshots {
  import opened Sorting
  import opened Files

  /** A record together with its current values; `depth` is what Depth returns. */
  datatype Snap = Snap(file: File, path: string, binary: bool, score: int, depth: int)

  function SnapOf(f: File): (r: Snap)
    reads f
    ensures r.file == f && r.path == f.path && r.score == f.score
  {
    Snap(f, f.path, f.binary, f.score, f.CurrentDepth())
  }

  /** The snapshots of every record of a slice, in order. */
  ghost function Snaps(s: seq<File>): (r: seq<Snap>)
    reads set f | f in s
    ensures |r| == |s|
    ensures forall k {:trigger r[k]} :: 0 <= k < |s| ==> r[k] == SnapOf(s[k])
  {
    if s == [] then [] else Snaps(s[..|s| - 1]) + [SnapOf(s[|s| - 1])]
  }

  /** The records a sequence of snapshots was taken of. */
  function FilesOf(s: seq<Snap>): (r: seq<File>)
    ensures |r| == |s|
    ensures forall k {:trigger r[k]} :: 0 <= k < |s| ==> r[k] == s[k].file
  {
    seq(|s|, k requires 0 <= k < |s| => s[k].file)
  }

  /** Snapshots point back to the records they were taken of and hold their values. */
  lemma SnapsOfFiles(fs: seq<File>)
    ensures FilesOf(Snaps(fs)) == fs
    ensures forall k :: 0 <= k < |fs| ==> Snaps(fs)[k].file.score == Snaps(fs)[k].score
    ensures forall k :: 0 <= k < |fs| ==> Snaps(fs)[k].file.path == Snaps(fs)[k].path
    ensures forall k :: 0 <= k < |fs| ==> Snaps(fs)[k].file.CurrentDepth() == Snaps(fs)[k].depth
  {
    var s := Snaps(fs);
    assert forall k :: 0 <= k < |fs| ==> FilesOf(s)[k] == fs[k];
  }

  /** The snapshot still holds every value of its record. */
  predicate Live(x: Snap)
    reads x.file
  {
    SnapOf(x.file) == x
  }

  /** Freshly taken snapshots are live. */
  lemma SnapsLive(fs: seq<File>)
    ensures forall k :: 0 <= k < |fs| ==> Live(Snaps(fs)[k])
  {
  }

  /** Snapshots of records that a step left alone are the ones taken before it. */
  twostate lemma SnapsUnchanged(fs: seq<File>)
    requires forall k :: 0 <= k < |fs| ==> unchanged(fs[k])
    ensures Snaps(fs) == old(Snaps(fs))
  {
    forall k | 0 <= k < |fs|
      ensures Snaps(fs)[k] == old(Snaps(fs))[k]
    {
      var f := fs[k];
      assert f.depth == old(f.depth) && f.path == old(f.path);
      assert f.CurrentDepth() == old(f.CurrentDepth());
    }
  }

  /** Snapshots stay live while their records keep every field. */
  twostate lemma StillLive(s: seq<Snap>)
    requires forall k :: 0 <= k < |s| ==> old(Live(s[k])) && unchanged(s[k].file)
    ensures forall k :: 0 <= k < |s| ==> Live(s[k])
  {
    forall k | 0 <= k < |s|
      ensures Live(s[k])
    {
      var f := s[k].file;
      assert f.depth == old(f.depth) && f.path == old(f.path);
      assert f.CurrentDepth() == old(f.CurrentDepth());
    }
  }

  /** Records laid out in the order of live snapshots have exactly those
      snapshots: a stage's result read back from the slice. */
  lemma SnapsOfLive(fs: seq<File>, r: seq<Snap>, s: seq<Snap>)
    requires fs == FilesOf(r) && multiset(r) == multiset(s)
    requires forall k :: 0 <= k < |s| ==> Live(s[k])
    ensures Snaps(fs) == r
  {
    forall k | 0 <= k < |r|
      ensures Snaps(fs)[k] == r[k]
    {
      assert r[k] in multiset(s);
    }
  }

  /** Snapshots of a suffix are the suffix of the snapshots. */
  lemma SnapsSuffix(fs: seq<File>, start: nat)
    requires start <= |fs|
    ensures Snaps(fs[start..]) == Snaps(fs)[start..]
  {
    assert forall k :: 0 <= k < |fs| - start ==> Snaps(fs[start..])[k] == SnapOf(fs[start + k]);
  }

  /** Functional reversal commutes with taking snapshots. */
  lemma SnapsReversed(fs: seq<File>)
    ensures Snaps(Reversed(fs)) == Reversed(Snaps(fs))
  {
    var u := Snaps(Reversed(fs));
    var v := Reversed(Snaps(fs));
    assert |u| == |v|;
    forall k | 0 <= k < |fs|
      ensures u[k] == v[k]
    {
      ReversedAt(fs, k);
      ReversedAt(Snaps(fs), k);
      assert u[k] == SnapOf(fs[|fs| - 1 - k]);
    }
  }

  lemma FilesOfConcat(u: seq<Snap>, v: seq<Snap>)
    ensures FilesOf(u + v) == FilesOf(u) + FilesOf(v)
  {
  }

  /** Taking out the element at `i`. */
  lemma RemovedAt<T>(r: seq<T>, i: nat)
    requires i < |r|
    ensures multiset(r[..i] + r[i + 1..]) == multiset(r) - multiset{r[i]}
  {
    assert r == r[..i] + ([r[i]] + r[i + 1..]);
  }

  /** Taking out the snapshot at `i` takes out its record. */
  lemma FilesOfRemovedAt(r: seq<Snap>, i: nat)
    requires i < |r|
    ensures multiset(FilesOf(r)) == multiset(FilesOf(r[..i] + r[i + 1..])) + multiset{r[i].file}
  {
    assert r == r[..i] + ([r[i]] + r[i + 1..]);
    FilesOfConcat(r[..i], [r[i]] + r[i + 1..]);
    FilesOfConcat([r[i]], r[i + 1..]);
    FilesOfConcat(r[..i], r[i + 1..]);
    assert FilesOf([r[i]]) == [r[i].file];
  }

  /** Reordering snapshots reorders the records they were taken of. */
  lemma {:induction false} FilesOfPermuted(r: seq<Snap>, s: seq<Snap>)
    requires multiset(r) == multiset(s)
    ensures multiset(FilesOf(r)) == multiset(FilesOf(s))
    decreases |s|
  {
    if s == [] {
      assert |r| == |multiset(r)| == 0;
    } else {
      var n := |s| - 1;
      assert s[n] in multiset(r);
      var i :| 0 <= i < |r| && r[i] == s[n];
      RemovedAt(r, i);
      RemovedAt(s, n);
      assert s[..n] + s[n + 1..] == s[..n];
      FilesOfPermuted(r[..i] + r[i + 1..], s[..n]);
      FilesOfRemovedAt(r, i);
      FilesOfRemovedAt(s, n);
    }
  }

  /** `g[i]` moved to position `j` and `g[j..i]` one place to the right. */
  function Rotate<T>(g: seq<T>, j: nat, i: nat): (r: seq<T>)
    requires j <= i < |g|
    ensures |r| == |g|
  {
    g[..j] + [g[i]] + g[j..i] + g[i + 1..]
  }

  /** Nothing has moved before the inner loop's first step. */
  lemma RotateStart<T>(g: seq<T>, i: nat)
    requires i < |g|
    ensures Rotate(g, i, i) == g
  {
    assert g[..i] + [g[i]] + g[i + 1..] == g;
  }

  /** One swap of the inner loop moves the rotation point one place left. */
  lemma RotateStep<T>(g: seq<T>, j: nat, i: nat)
    requires 0 < j <= i < |g|
    ensures Rotate(g, j, i)[j] == g[i] && Rotate(g, j, i)[j - 1] == g[j - 1]
    ensures Rotate(g, j, i)[j - 1 := g[i]][j := g[j - 1]] == Rotate(g, j - 1, i)
  {
    var b := Rotate(g, j, i)[j - 1 := g[i]][j := g[j - 1]];
    var r := Rotate(g, j - 1, i);
    forall k | 0 <= k < |g|
      ensures b[k] == r[k]
    {
      if k < j - 1 {
      } else if k == j - 1 {
      } else if k == j {
        assert r[k] == g[j - 1..i][0];
      } else if k <= i {
        assert r[k] == g[j - 1..i][k - j];
        assert Rotate(g, j, i)[k] == g[j..i][k - j - 1];
      } else {
        assert r[k] == g[i + 1..][k - i - 1];
        assert Rotate(g, j, i)[k] == g[i + 1..][k - i - 1];
      }
    }
  }

  /** Moving the record after those of `t` to position `j`, as the sorts' inner
      loops do, produces the records of `t` with `x` inserted at `j`. */
  lemma {:induction false} ShiftIn(t: seq<Snap>, x: Snap, rest: seq<File>, j: nat)
    requires j <= |t|
    ensures var g := FilesOf(t) + [x.file] + rest;
            g[..j] + [g[|t|]] + g[j..|t|] + g[|t| + 1..] == FilesOf(t[..j] + [x] + t[j..]) + rest
  {
    var g := FilesOf(t) + [x.file] + rest;
    var lhs := g[..j] + [g[|t|]] + g[j..|t|] + g[|t| + 1..];
    var rhs := FilesOf(t[..j] + [x] + t[j..]) + rest;
    assert |lhs| == |rhs|;
    forall k | 0 <= k < |lhs|
      ensures lhs[k] == rhs[k]
    {
      if k < j {
        assert lhs[k] == g[k] == t[k].file;
        assert rhs[k] == (t[..j] + [x] + t[j..])[k].file;
      } else if k == j {
        assert rhs[k] == (t[..j] + [x] + t[j..])[k].file;
      } else if k <= |t| {
        assert lhs[k] == g[k - 1] == t[k - 1].file;
        assert rhs[k] == (t[..j] + [x] + t[j..])[k].file;
      } else {
        assert lhs[k] == g[k] == rest[k - |t| - 1];
      }
    }
  }

  /** The sorts' outer-loop invariant before the first and after the last step. */
  lemma SortBounds<K>(s: seq<Snap>, key: Snap -> K, lt: (K, K) -> bool)
    ensures FilesOf(InsertionSort(s[..0], key, lt)) + FilesOf(s[0..]) == FilesOf(s)
    ensures FilesOf(InsertionSort(s[..|s|], key, lt)) + FilesOf(s[|s|..])
            == FilesOf(InsertionSort(s, key, lt))
  {
    assert s[..0] == [] && s[0..] == s;
    assert FilesOf([]) == [];
    assert s[..|s|] == s && s[|s|..] == [];
  }

  /** Where the inner loop stops determines the next prefix of the sort's specification. */
  lemma StepShape<K>(s: seq<Snap>, i: nat, j: nat, key: Snap -> K, lt: (K, K) -> bool)
    requires i < |s| && j <= i
    requires j == 0 || !lt(key(s[i]), key(InsertionSort(s[..i], key, lt)[j - 1]))
    requires forall m :: j <= m < i ==> lt(key(s[i]), key(InsertionSort(s[..i], key, lt)[m]))
    ensures var g := FilesOf(InsertionSort(s[..i], key, lt)) + [s[i].file] + FilesOf(s[i + 1..]);
            g[..j] + [g[i]] + g[j..i] + g[i + 1..]
            == FilesOf(InsertionSort(s[..i + 1], key, lt)) + FilesOf(s[i + 1..])
  {
    var t := InsertionSort(s[..i], key, lt);
    ShiftIn(t, s[i], FilesOf(s[i + 1..]), j);
    InsertAt(t, s[i], j, key, lt);
    InsertionSortPrefix(s, i, key, lt);
  }
}
