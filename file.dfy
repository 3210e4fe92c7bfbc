/** The scanned file record and its memoised depth (file.go). */
module Files {
  import opened GoStrings

  /** The depth of a path: its number of segments, one more than its number of separators. */
  function PathDepth(path: string): (d: int)
    ensures d >= 1
    ensures d == multiset(path)['/'] + 1
  {
    CountIsMultiplicity(path, '/');
    Count(path, '/') + 1
  }

  /** The path the scanner gives a directory entry: the root "." is never written out
      (scanner.go:44-48). */
  function JoinPath(dir: string, name: string): string {
    if dir == "." then name else dir + "/" + name
  }

  /** An entry directly under the root has depth 1; one under `dir` is one deeper than `dir`. */
  lemma {:induction false} JoinPathDepth(dir: string, name: string)
    requires '/' !in name
    ensures PathDepth(JoinPath(dir, name)) == if dir == "." then 1 else PathDepth(dir) + 1
  {
    CountIsMultiplicity(name, '/');
    if dir != "." {
      CountConcat(dir + "/", name, '/');
      CountConcat(dir, "/", '/');
    }
  }

  /** A scanned file (file.go:14-20). The modification time is not modelled. */
  class File {
    var path: string
    var binary: bool
    var score: int
    /** The depth cache: 0 until Depth is first called. */
    var depth: int

    /** A record as the scanner builds it (scanner.go:73-86): score 0 and nothing cached. */
    constructor (path: string, binary: bool)
      ensures this.path == path && this.binary == binary
      ensures score == 0 && depth == 0
    {
      this.path := path;
      this.binary := binary;
      score := 0;
      depth := 0;
    }

    /** The value Depth returns when called now: the cached value if there is one. */
    function CurrentDepth(): int
      reads this
    {
      if depth == 0 then PathDepth(path) else depth
    }

    /** The cache is empty or holds the depth of the current path. */
    predicate CacheAgrees()
      reads this
    {
      depth == 0 || depth == PathDepth(path)
    }

    /** File.Depth: computes the depth on the first call and caches it; later calls
        return the cached value without looking at the path again. */
    method Depth() returns (d: int)
      modifies this`depth
      ensures d == old(CurrentDepth())
      ensures depth == d && d != 0
      ensures old(depth) == 0 ==> d == PathDepth(path)
      ensures old(depth) != 0 ==> d == old(depth)
      ensures CurrentDepth() == old(CurrentDepth())
    {
      if depth == 0 {
        depth := Count(path, '/') + 1;
      }
      d := depth;
    }
  }

  /** With a consistent cache, Depth returns the depth of the path, which is at least 1. */
  lemma CurrentDepthOfAgreeingCache(f: File)
    requires f.CacheAgrees()
    ensures f.CurrentDepth() == PathDepth(f.path) >= 1
  {
  }

  /** The cache is keyed only on `depth == 0`: after the path of a file changes, Depth
      still returns the depth of the old path. */
  method StaleCacheExample() returns (before: int, after: int)
    ensures before == 2 && after == 2
    ensures PathDepth("a") == 1
  {
    var f := new File("a/b", false);
    before := f.Depth();
    f.path := "a";
    after := f.Depth();
  }
}
