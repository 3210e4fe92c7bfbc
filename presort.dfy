/** applyPreSort (main.go:208-242): a stable sort by the configured presort
    keys, run before the rules are applied. */
module PreSorting {
  import opened Wrappers
  import opened GoStrings
  import opened Sorting
  import opened Files
  import opened Snapshots
  import opened Configs

  /** What a presort key looks at: the path and the depth Depth reports. */
  datatype Entry = Entry(path: string, depth: int)

  function EntryOf(s: Snap): Entry {
    Entry(s.path, s.depth)
  }

  /** A key LoadConfig has given a flag; any other key makes the comparator panic. */
  predicate Flagged(p: PreSort) {
    p.depth || p.path
  }

  /** Does key `p` alone rank `u` before `v`? Without Reverse a depth key puts
      deeper files first and a path key ascending paths first. */
  predicate KeyBefore(p: PreSort, u: Entry, v: Entry) {
    if p.depth then (if p.reverse then u.depth < v.depth else u.depth > v.depth)
    else if p.path then (if p.reverse then LexLess(v.path, u.path) else LexLess(u.path, v.path))
    else false
  }

  /** Every key has a flag, as after LoadConfig. */
  predicate AllFlagged(ps: seq<PreSort>) {
    forall n :: 0 <= n < |ps| ==> Flagged(ps[n])
  }

  /** No key ranks `u` before `v`. */
  predicate NoneBefore(ps: seq<PreSort>, u: Entry, v: Entry) {
    forall n :: 0 <= n < |ps| ==> !KeyBefore(ps[n], u, v)
  }

  /** The comparator closure: the keys in order, true as soon as one of them ranks
      `u` before `v`, a panic (None) on reaching a key without a flag, and false
      when every key has been tried. PreCompareTrue and PreCompareNone say what it
      answers. */
  function PreCompare(ps: seq<PreSort>, u: Entry, v: Entry): Option<bool> {
    if ps == [] then Some(false)
    else if !Flagged(ps[0]) then None
    else if KeyBefore(ps[0], u, v) then Some(true)
    else PreCompare(ps[1..], u, v)
  }

  /** The comparator says "before" exactly when some key ranks `u` before `v` and
      every key ahead of that one has a flag: any key may decide, not only the first. */
  lemma {:induction false} PreCompareTrue(ps: seq<PreSort>, u: Entry, v: Entry)
    ensures PreCompare(ps, u, v) == Some(true)
            <==> exists n :: 0 <= n < |ps| && KeyBefore(ps[n], u, v) && AllFlagged(ps[..n])
  {
    if ps != [] {
      assert AllFlagged(ps[..0]);
      if Flagged(ps[0]) && !KeyBefore(ps[0], u, v) {
        var tail := ps[1..];
        PreCompareTrue(tail, u, v);
        if exists n :: 0 <= n < |tail| && KeyBefore(tail[n], u, v) && AllFlagged(tail[..n]) {
          var n :| 0 <= n < |tail| && KeyBefore(tail[n], u, v) && AllFlagged(tail[..n]);
          assert ps[..n + 1] == [ps[0]] + tail[..n];
          assert KeyBefore(ps[n + 1], u, v) && AllFlagged(ps[..n + 1]);
        }
        if exists n :: 0 <= n < |ps| && KeyBefore(ps[n], u, v) && AllFlagged(ps[..n]) {
          var n :| 0 <= n < |ps| && KeyBefore(ps[n], u, v) && AllFlagged(ps[..n]);
          assert n != 0;
          assert tail[..n - 1] == ps[..n][1..];
          assert KeyBefore(tail[n - 1], u, v) && AllFlagged(tail[..n - 1]);
        }
      }
      if !Flagged(ps[0]) {
        forall n | 0 < n <= |ps|
          ensures !AllFlagged(ps[..n])
        {
          assert ps[..n][0] == ps[0];
        }
      }
    }
  }

  /** A first key that is flagged and does not rank `u` before `v` moves the
      point where the comparator panics one key on. */
  lemma PanicPointShift(ps: seq<PreSort>, u: Entry, v: Entry)
    requires ps != [] && Flagged(ps[0]) && !KeyBefore(ps[0], u, v)
    ensures (exists n :: 0 <= n < |ps| && !Flagged(ps[n]) && AllFlagged(ps[..n]) && NoneBefore(ps[..n], u, v))
            <==> exists n :: 0 <= n < |ps| - 1 && !Flagged(ps[1..][n]) && AllFlagged(ps[1..][..n]) && NoneBefore(ps[1..][..n], u, v)
  {
    var tail := ps[1..];
    if exists n :: 0 <= n < |tail| && !Flagged(tail[n]) && AllFlagged(tail[..n]) && NoneBefore(tail[..n], u, v) {
      var n :| 0 <= n < |tail| && !Flagged(tail[n]) && AllFlagged(tail[..n]) && NoneBefore(tail[..n], u, v);
      assert ps[..n + 1] == [ps[0]] + tail[..n];
      assert !Flagged(ps[n + 1]) && AllFlagged(ps[..n + 1]) && NoneBefore(ps[..n + 1], u, v);
    }
    if exists n :: 0 <= n < |ps| && !Flagged(ps[n]) && AllFlagged(ps[..n]) && NoneBefore(ps[..n], u, v) {
      var n :| 0 <= n < |ps| && !Flagged(ps[n]) && AllFlagged(ps[..n]) && NoneBefore(ps[..n], u, v);
      assert n != 0;
      assert tail[..n - 1] == ps[..n][1..];
      assert !Flagged(tail[n - 1]) && AllFlagged(tail[..n - 1]) && NoneBefore(tail[..n - 1], u, v);
    }
  }

  /** The comparator panics exactly when it reaches a key without a flag before
      any key has ranked `u` before `v`. */
  lemma {:induction false} PreCompareNone(ps: seq<PreSort>, u: Entry, v: Entry)
    ensures PreCompare(ps, u, v).None?
            <==> exists n :: 0 <= n < |ps| && !Flagged(ps[n]) && AllFlagged(ps[..n]) && NoneBefore(ps[..n], u, v)
  {
    if ps != [] {
      assert AllFlagged(ps[..0]) && NoneBefore(ps[..0], u, v);
      if Flagged(ps[0]) && !KeyBefore(ps[0], u, v) {
        PreCompareNone(ps[1..], u, v);
        PanicPointShift(ps, u, v);
      }
      if Flagged(ps[0]) && KeyBefore(ps[0], u, v) {
        forall n | 0 < n <= |ps|
          ensures !NoneBefore(ps[..n], u, v)
        {
          assert ps[..n][0] == ps[0];
        }
      }
    }
  }

  /** With every key flagged the comparator never panics and says "before"
      exactly when at least one key ranks `u` before `v`. */
  lemma PreCompareFlagged(ps: seq<PreSort>, u: Entry, v: Entry)
    requires AllFlagged(ps)
    ensures PreCompare(ps, u, v) == Some(exists n :: 0 <= n < |ps| && KeyBefore(ps[n], u, v))
  {
    PreCompareTrue(ps, u, v);
    PreCompareNone(ps, u, v);
    forall n | 0 <= n <= |ps|
      ensures AllFlagged(ps[..n])
    {
    }
  }

  /** The order the sort uses, and when its comparison panics. */
  function PreLt(ps: seq<PreSort>): (Entry, Entry) -> bool {
    (u: Entry, v: Entry) => Before(ps, u, v)
  }

  /** The comparator's verdict that `u` ranks before `v`. */
  predicate Before(ps: seq<PreSort>, u: Entry, v: Entry) {
    PreCompare(ps, u, v) == Some(true)
  }

  function PreBad(ps: seq<PreSort>): (Entry, Entry) -> bool {
    (u: Entry, v: Entry) => PreCompare(ps, u, v).None?
  }

  /** The snapshot still describes its record. */
  predicate Current(x: Snap)
    reads x.file
  {
    x.file.path == x.path && x.file.CurrentDepth() == x.depth
  }

  /** The comparator closure applied to `a[i]` and `a[j]`; a depth key calls
      Depth on both records, which fills their caches. */
  method PreLess(a: array<File>, i: int, j: int, ps: seq<PreSort>, ghost u: Snap, ghost v: Snap, ghost s: seq<Snap>)
    returns (r: Option<bool>)
    requires 0 <= i < a.Length && 0 <= j < a.Length
    requires a[i] == u.file && a[j] == v.file && Current(u) && Current(v)
    requires forall k :: 0 <= k < |s| ==> Current(s[k])
    modifies {a[i], a[j]}`depth
    ensures r == PreCompare(ps, EntryOf(u), EntryOf(v))
    ensures forall k :: 0 <= k < |s| ==> Current(s[k])
  {
    var n := 0;
    while n < |ps|
      invariant 0 <= n <= |ps|
      invariant PreCompare(ps, EntryOf(u), EntryOf(v)) == PreCompare(ps[n..], EntryOf(u), EntryOf(v))
      invariant Current(u) && Current(v)
      invariant forall k :: 0 <= k < |s| ==> Current(s[k])
    {
      var p := ps[n];
      assert ps[n..][1..] == ps[n + 1..];
      assert ps[n..][0] == p;
      if p.depth {
        var di := a[i].Depth();
        var dj := a[j].Depth();
        if p.reverse {
          if di < dj {
            return Some(true);
          }
        } else {
          if di > dj {
            return Some(true);
          }
        }
      } else if p.path {
        if p.reverse {
          if LexLess(a[j].path, a[i].path) {
            return Some(true);
          }
        } else {
          if LexLess(a[i].path, a[j].path) {
            return Some(true);
          }
        }
      } else {
        return None;
      }
      n := n + 1;
    }
    return Some(false);
  }

  /** One step of the inner loop: `a[j]` and `a[j - 1]` are compared and swapped
      when the comparator ranks `a[j]` first. */
  method CompareSwap(a: array<File>, j: int, ps: seq<PreSort>, ghost fs: set<File>,
                     ghost u: Snap, ghost v: Snap, ghost s: seq<Snap>)
    returns (c: Option<bool>)
    requires 0 < j < a.Length
    requires a[j] == u.file && a[j - 1] == v.file && Current(u) && Current(v)
    requires forall k :: 0 <= k < |s| ==> Current(s[k])
    requires u.file in fs && v.file in fs
    modifies a, fs`depth
    ensures c == PreCompare(ps, EntryOf(u), EntryOf(v))
    ensures c == Some(true) ==> a[..] == old(a[..])[j - 1 := u.file][j := v.file]
    ensures c != Some(true) ==> a[..] == old(a[..])
    ensures forall k :: 0 <= k < |s| ==> Current(s[k])
  {
    c := PreLess(a, j, j - 1, ps, u, v, s);
    if c == Some(true) {
      a[j], a[j - 1] := a[j - 1], a[j];
    }
  }

  /** The elements the inner loop has moved past leave the outcome to the rest. */
  lemma SiftPast(ps: seq<PreSort>, w: seq<Snap>, i: int, j: int)
    requires 0 <= j <= i < |w|
    requires forall m :: j <= m < i ==> Before(ps, EntryOf(w[i]), EntryOf(w[m]))
    ensures InsertPanics(w, i, w[i], EntryOf, PreLt(ps), PreBad(ps)) == InsertPanics(w, j, w[i], EntryOf, PreLt(ps), PreBad(ps))
  {
    InsertPanicsPast(w, i, j, w[i], EntryOf, PreLt(ps), PreBad(ps));
  }

  /** Inserting `a[i]` into the sorted prefix `a[..i]`: `a[i]` moves left while
      the comparator ranks it before its left neighbour, and stops at `j` when
      the comparator says no or panics. `w` starts with the snapshots of
      `a[..i + 1]`, and every snapshot in it stays current, since Depth only
      fills caches. */
  method SiftPre(a: array<File>, i: int, ps: seq<PreSort>, ghost fs: set<File>, ghost w: seq<Snap>,
                 ghost g: seq<File>)
    returns (j: int, panicked: bool)
    requires 0 <= i < a.Length && i < |w| && g == a[..]
    requires forall m :: 0 <= m <= i ==> g[m] == w[m].file
    requires forall k :: 0 <= k < |w| ==> Current(w[k])
    requires forall k :: 0 <= k < |w| ==> w[k].file in fs
    modifies a, fs`depth
    ensures 0 <= j <= i && a[..] == Rotate(g, j, i)
    ensures forall m :: j <= m < i ==> Before(ps, EntryOf(w[i]), EntryOf(w[m]))
    ensures panicked ==> j > 0 && PreCompare(ps, EntryOf(w[i]), EntryOf(w[j - 1])).None?
    ensures !panicked ==> j == 0 || (PreCompare(ps, EntryOf(w[i]), EntryOf(w[j - 1])).Some?
                                     && !Before(ps, EntryOf(w[i]), EntryOf(w[j - 1])))
    ensures forall k :: 0 <= k < |w| ==> Current(w[k])
  {
    j := i;
    RotateStart(g, i);
    var c: Option<bool> := Some(true);
    while j > 0 && c == Some(true)
      invariant 0 <= j <= i && a[..] == Rotate(g, j, i)
      invariant forall m :: j <= m < i ==> Before(ps, EntryOf(w[i]), EntryOf(w[m]))
      invariant c != Some(true) ==> j > 0 && c == PreCompare(ps, EntryOf(w[i]), EntryOf(w[j - 1]))
      invariant forall k :: 0 <= k < |w| ==> Current(w[k])
      decreases j, if c == Some(true) then 1 else 0
    {
      RotateStep(g, j, i);
      c := CompareSwap(a, j, ps, fs, w[i], w[j - 1], w);
      if c == Some(true) {
        j := j - 1;
      }
    }
    panicked := c.None?;
  }

  /** Whether the inner loop panicked, in terms of the specification. `w` is the
      sequence the inner loop reads: the sorted prefix `t`, then `s[i]`. */
  lemma SiftPanics(ps: seq<PreSort>, s: seq<Snap>, t: seq<Snap>, w: seq<Snap>, i: nat, j: nat, panicked: bool)
    requires j <= i < |s| && |t| == i
    requires w == t + [s[i]] + s
    requires forall m :: j <= m < i ==> Before(ps, EntryOf(w[i]), EntryOf(w[m]))
    requires panicked ==> j > 0 && PreCompare(ps, EntryOf(w[i]), EntryOf(w[j - 1])).None?
    requires !panicked ==> j == 0 || (PreCompare(ps, EntryOf(w[i]), EntryOf(w[j - 1])).Some?
                                      && !Before(ps, EntryOf(w[i]), EntryOf(w[j - 1])))
    ensures panicked == InsertPanics(t, i, s[i], EntryOf, PreLt(ps), PreBad(ps))
  {
    SiftPast(ps, w, i, j);
    assert w[..i] == t && w[i] == s[i];
    InsertPanicsPrefix(w, t, i, s[i], EntryOf, PreLt(ps), PreBad(ps));
  }

  /** The comparator's verdicts on the sequence the inner loop reads, restated on
      the sorted prefix and `s[i]`. */
  lemma SiftVerdicts(ps: seq<PreSort>, s: seq<Snap>, t: seq<Snap>, w: seq<Snap>, i: nat, j: nat)
    requires j <= i < |s| && |t| == i
    requires w == t + [s[i]] + s
    requires forall m :: j <= m < i ==> Before(ps, EntryOf(w[i]), EntryOf(w[m]))
    requires j == 0 || !Before(ps, EntryOf(w[i]), EntryOf(w[j - 1]))
    ensures j == 0 || !PreLt(ps)(EntryOf(s[i]), EntryOf(t[j - 1]))
    ensures forall m :: j <= m < i ==> PreLt(ps)(EntryOf(s[i]), EntryOf(t[m]))
  {
    assert w[i] == s[i];
    assert forall m :: 0 <= m < i ==> w[m] == t[m];
  }

  /** Where the inner loop stopped, in terms of the specification: the next
      prefix of the sort. */
  lemma SiftShape(ps: seq<PreSort>, s: seq<Snap>, t: seq<Snap>, i: nat, j: nat)
    requires j <= i < |s|
    requires t == InsertionSort(s[..i], EntryOf, PreLt(ps))
    requires j == 0 || !PreLt(ps)(EntryOf(s[i]), EntryOf(t[j - 1]))
    requires forall m :: j <= m < i ==> PreLt(ps)(EntryOf(s[i]), EntryOf(t[m]))
    ensures Rotate(FilesOf(t) + FilesOf(s[i..]), j, i) == FilesOf(InsertionSort(s[..i + 1], EntryOf, PreLt(ps))) + FilesOf(s[i + 1..])
  {
    assert FilesOf(s[i..]) == [s[i].file] + FilesOf(s[i + 1..]);
    assert FilesOf(t) + FilesOf(s[i..]) == FilesOf(t) + [s[i].file] + FilesOf(s[i + 1..]);
    StepShape(s, i, j, EntryOf, PreLt(ps));
  }

  /** The snapshots the inner loop reads are current when those of the input
      are, since the sorted prefix is a permutation of the input's prefix. */
  lemma CurrentIntoSift(ps: seq<PreSort>, s: seq<Snap>, t: seq<Snap>, w: seq<Snap>, i: nat, fs: set<File>)
    requires i < |s|
    requires t == InsertionSort(s[..i], EntryOf, PreLt(ps)) && w == t + [s[i]] + s
    requires forall k :: 0 <= k < |s| ==> Current(s[k]) && s[k].file in fs
    ensures forall k :: 0 <= k < |w| ==> Current(w[k]) && w[k].file in fs
  {
    CurrentPermuted(s, t, i, fs);
    forall k | 0 <= k < |w|
      ensures Current(w[k]) && w[k].file in fs
    {
      if k < i {
        assert w[k] == t[k];
      } else if k == i {
        assert w[k] == s[i];
      } else {
        assert w[k] == s[k - i - 1];
      }
    }
  }

  lemma CurrentPermuted(s: seq<Snap>, t: seq<Snap>, i: nat, fs: set<File>)
    requires i <= |s| && multiset(t) == multiset(s[..i])
    requires forall k :: 0 <= k < |s| ==> Current(s[k]) && s[k].file in fs
    ensures forall m :: 0 <= m < |t| ==> Current(t[m]) && t[m].file in fs
  {
    forall m | 0 <= m < |t|
      ensures Current(t[m]) && t[m].file in fs
    {
      assert t[m] in multiset(s[..i]);
      var k :| 0 <= k < i && s[..i][k] == t[m];
      assert s[k] == t[m];
    }
  }

  lemma CurrentFromSift(s: seq<Snap>, t: seq<Snap>, w: seq<Snap>, i: nat)
    requires i < |s| && |t| == i && w == t + [s[i]] + s
    requires forall k :: 0 <= k < |w| ==> Current(w[k])
    ensures forall k :: 0 <= k < |s| ==> Current(s[k])
  {
    forall k | 0 <= k < |s|
      ensures Current(s[k])
    {
      assert s[k] == w[i + 1 + k];
    }
  }

  /** The inner loop reads `a[..i + 1]` as the sorted prefix followed by `s[i]`. */
  lemma SiftInput(x: seq<File>, ps: seq<PreSort>, s: seq<Snap>, t: seq<Snap>, w: seq<Snap>, i: nat)
    requires i < |s|
    requires t == InsertionSort(s[..i], EntryOf, PreLt(ps)) && w == t + [s[i]] + s
    requires x == FilesOf(t) + FilesOf(s[i..])
    ensures forall m :: 0 <= m <= i ==> x[m] == w[m].file
  {
    assert FilesOf(s[i..])[0] == s[i].file;
  }

  /** One step of the outer loop: `a[i]` is inserted into the sorted prefix, or
      the comparator panics on the way. */
  method PreSortStep(a: array<File>, i: int, ps: seq<PreSort>, ghost fs: set<File>, ghost s: seq<Snap>)
    returns (panicked: bool)
    requires 0 <= i < a.Length == |s|
    requires a[..] == FilesOf(InsertionSort(s[..i], EntryOf, PreLt(ps))) + FilesOf(s[i..])
    requires forall k :: 0 <= k < |s| ==> Current(s[k])
    requires forall k :: 0 <= k < |s| ==> s[k].file in fs
    modifies a, fs`depth
    ensures panicked == InsertPanics(InsertionSort(s[..i], EntryOf, PreLt(ps)), i, s[i], EntryOf, PreLt(ps), PreBad(ps))
    ensures !panicked ==> a[..] == FilesOf(InsertionSort(s[..i + 1], EntryOf, PreLt(ps))) + FilesOf(s[i + 1..])
    ensures forall k :: 0 <= k < |s| ==> Current(s[k])
  {
    ghost var t := InsertionSort(s[..i], EntryOf, PreLt(ps));
    ghost var w := t + [s[i]] + s;
    ghost var g := a[..];
    CurrentIntoSift(ps, s, t, w, i, fs);
    SiftInput(g, ps, s, t, w, i);
    var j;
    j, panicked := SiftPre(a, i, ps, fs, w, g);
    CurrentFromSift(s, t, w, i);
    SiftPanics(ps, s, t, w, i, j, panicked);
    if !panicked {
      SiftVerdicts(ps, s, t, w, i, j);
      SiftShape(ps, s, t, i, j);
    }
  }

  /** The outer loop of the insertion sort, over snapshots `s` of the records. */
  method PreSortLoop(a: array<File>, ps: seq<PreSort>, ghost fs: set<File>, ghost s: seq<Snap>)
    returns (panicked: bool)
    requires a[..] == FilesOf(s)
    requires forall k :: 0 <= k < |s| ==> Current(s[k])
    requires forall k :: 0 <= k < |s| ==> s[k].file in fs
    modifies a, fs`depth
    ensures panicked == SortPanics(s, EntryOf, PreLt(ps), PreBad(ps))
    ensures !panicked ==> a[..] == FilesOf(InsertionSort(s, EntryOf, PreLt(ps)))
    ensures forall k :: 0 <= k < |s| ==> Current(s[k])
  {
    SortBounds(s, EntryOf, PreLt(ps));
    panicked := false;
    var i := 0;
    while i < a.Length
      invariant 0 <= i <= a.Length == |s|
      invariant a[..] == FilesOf(InsertionSort(s[..i], EntryOf, PreLt(ps))) + FilesOf(s[i..])
      invariant !SortPanics(s[..i], EntryOf, PreLt(ps), PreBad(ps))
      invariant forall k :: 0 <= k < |s| ==> Current(s[k])
    {
      SortPanicsPrefix(s, i, EntryOf, PreLt(ps), PreBad(ps));
      panicked := PreSortStep(a, i, ps, fs, s);
      if panicked {
        SortPanicsGrows(s, i + 1, EntryOf, PreLt(ps), PreBad(ps));
        return;
      }
      i := i + 1;
    }
    assert s[..i] == s;
  }

  /** applyPreSort: the stable presort. It panics exactly when the insertion sort
      of the snapshots reaches a panicking comparison; otherwise the records end
      up in the order of that sort (PreSortSingleKey says what the order is for
      one key). Depth fills caches but no record's depth, as Depth reports it,
      changes. */
  method PreSortFiles(a: array<File>, ps: seq<PreSort>) returns (panicked: bool)
    modifies a, (set m | 0 <= m < a.Length :: a[m])`depth
    ensures panicked == SortPanics(old(Snaps(a[..])), EntryOf, PreLt(ps), PreBad(ps))
    ensures !panicked ==> a[..] == FilesOf(InsertionSort(old(Snaps(a[..])), EntryOf, PreLt(ps)))
    ensures forall k :: 0 <= k < |old(Snaps(a[..]))| ==> Current(old(Snaps(a[..]))[k])
  {
    ghost var s := Snaps(a[..]);
    ghost var fs := set m | 0 <= m < a.Length :: a[m];
    SnapsOfFiles(a[..]);
    panicked := PreSortLoop(a, ps, fs, s);
  }

  /** With a single flagged key the comparator is that key's order. */
  lemma SingleKeyBefore(p: PreSort, u: Entry, v: Entry)
    requires Flagged(p)
    ensures Before([p], u, v) == KeyBefore(p, u, v)
    ensures PreCompare([p], u, v).Some?
  {
    assert [p][1..] == [];
    assert PreCompare([p][1..], u, v) == Some(false);
  }

  /** A single flagged key orders entries as a stable sort requires. */
  lemma SingleKeyOrder(p: PreSort)
    requires Flagged(p)
    ensures StrictWeakOrder(PreLt([p]))
  {
    var lt := PreLt([p]);
    forall x
      ensures !lt(x, x)
    {
      SingleKeyBefore(p, x, x);
      LexLessIrreflexive(x.path);
    }
    forall x, y, z | lt(x, y) && lt(y, z)
      ensures lt(x, z)
    {
      SingleKeyBefore(p, x, y);
      SingleKeyBefore(p, y, z);
      SingleKeyBefore(p, x, z);
      if !p.depth && p.reverse {
        LexLessTransitive(z.path, y.path, x.path);
      } else if !p.depth {
        LexLessTransitive(x.path, y.path, z.path);
      }
    }
    forall x, y, z | !lt(x, y) && !lt(y, z)
      ensures !lt(x, z)
    {
      SingleKeyBefore(p, x, y);
      SingleKeyBefore(p, y, z);
      SingleKeyBefore(p, x, z);
      if !p.depth && p.reverse {
        LexNotLessTransitive(z.path, y.path, x.path);
      } else if !p.depth {
        LexNotLessTransitive(x.path, y.path, z.path);
      }
    }
  }

  /** The records a single key cannot tell apart: equal depths for a depth key,
      equal paths for a path key. */
  lemma SingleKeyTies(p: PreSort, u: Entry, v: Entry)
    requires Flagged(p)
    ensures p.depth ==> (Equiv(PreLt([p]), u, v) <==> u.depth == v.depth)
    ensures !p.depth ==> (Equiv(PreLt([p]), u, v) <==> u.path == v.path)
  {
    SingleKeyBefore(p, u, v);
    SingleKeyBefore(p, v, u);
    if u.path == v.path {
      LexLessIrreflexive(u.path);
    } else {
      LexLessTotal(u.path, v.path);
    }
  }

  /** applyPreSort with one flagged key never panics and yields a permutation of
      the records in the key's order: deeper files first for depth (shallower
      with Reverse), ascending paths for path (descending with Reverse). Records
      the key ties keep their input order. */
  lemma {:induction false} PreSortSingleKey(s: seq<Snap>, p: PreSort, e: Entry)
    requires Flagged(p)
    ensures !SortPanics(s, EntryOf, PreLt([p]), PreBad([p]))
    ensures var r := InsertionSort(s, EntryOf, PreLt([p]));
            multiset(r) == multiset(s)
            && (p.depth && !p.reverse ==> forall l, k :: 0 <= l < k < |r| ==> r[l].depth >= r[k].depth)
            && (p.depth && p.reverse ==> forall l, k :: 0 <= l < k < |r| ==> r[l].depth <= r[k].depth)
            && (!p.depth && !p.reverse ==> forall l, k :: 0 <= l < k < |r| ==> !LexLess(r[k].path, r[l].path))
            && (!p.depth && p.reverse ==> forall l, k :: 0 <= l < k < |r| ==> !LexLess(r[l].path, r[k].path))
            && Filter(r, EntryOf, PreLt([p]), e) == Filter(s, EntryOf, PreLt([p]), e)
  {
    var r := InsertionSort(s, EntryOf, PreLt([p]));
    SingleKeyOrder(p);
    InsertionSortSorted(s, EntryOf, PreLt([p]));
    InsertionSortStable(s, EntryOf, PreLt([p]), e);
    forall l, k | 0 <= l < k < |r|
      ensures !KeyBefore(p, EntryOf(r[k]), EntryOf(r[l]))
    {
      SingleKeyBefore(p, EntryOf(r[k]), EntryOf(r[l]));
    }
    forall u, v
      ensures !PreBad([p])(u, v)
    {
      SingleKeyBefore(p, u, v);
    }
    NeverBadNeverPanics(s, EntryOf, PreLt([p]), PreBad([p]));
  }

  /** A configuration LoadConfig accepts never makes the presort panic, whatever
      the records: every key has a flag. */
  lemma LoadedNeverPanics(d: Config, s: seq<Snap>)
    requires Loaded(d).Ok?
    ensures var ps := Loaded(d).value.presort;
            AllFlagged(ps) && !SortPanics(s, EntryOf, PreLt(ps), PreBad(ps))
  {
    var ps := Loaded(d).value.presort;
    forall u, v
      ensures !PreBad(ps)(u, v)
    {
      PreCompareFlagged(ps, u, v);
    }
    NeverBadNeverPanics(s, EntryOf, PreLt(ps), PreBad(ps));
  }

  /** A first key with neither flag makes the presort panic as soon as two
      records are compared. */
  lemma UnflaggedPanics(ps: seq<PreSort>, s: seq<Snap>)
    requires ps != [] && !Flagged(ps[0]) && |s| >= 2
    ensures SortPanics(s, EntryOf, PreLt(ps), PreBad(ps))
  {
    AlwaysBadPanics(s, EntryOf, PreLt(ps), PreBad(ps));
  }

  /** With no keys the comparator never says "before", so the presort leaves the
      records where they are. */
  lemma NoKeysKeepOrder(s: seq<Snap>)
    ensures !SortPanics(s, EntryOf, PreLt([]), PreBad([]))
    ensures InsertionSort(s, EntryOf, PreLt([])) == s
  {
    NeverBadNeverPanics(s, EntryOf, PreLt([]), PreBad([]));
    NeverLessKeepsOrder(s, EntryOf, PreLt([]));
  }

  /** With a depth key and then a path key the comparator is not the
      lexicographic order of the two keys: each of two records can rank before
      the other, since any key may say "before". */
  lemma MultiKeyBothBefore()
    ensures var ps := [PreSort("depth", true, false, false), PreSort("path", false, true, false)];
            Before(ps, Entry("a", 1), Entry("b/c", 2)) && Before(ps, Entry("b/c", 2), Entry("a", 1))
  {
    var ps := [PreSort("depth", true, false, false), PreSort("path", false, true, false)];
    assert LexLess("a", "b/c");
    assert ps[1..] == [PreSort("path", false, true, false)];
  }
}
