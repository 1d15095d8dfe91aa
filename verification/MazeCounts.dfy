/** How many entries a generated listing has, and that the generator never repeats itself early. */
module MazeCounts {
  import opened Maze

  function Positive(n: int): nat {
    if n < 0 then 0 else n
  }

  /** A number that a setting with these bounds allows; the lower bound itself when they are the wrong way round. */
  predicate Allowed(n: int, least: int, most: int) {
    if least <= most then least <= n <= most else n == least
  }

  /** Directories first and then files, each directory one level deeper. */
  predicate InTwoParts(g: seq<Node>, dirs: nat, depth: int) {
    && dirs <= |g|
    && (forall i :: 0 <= i < dirs ==> g[i].dir && g[i].mazeDepth == depth + 1)
    && (forall i :: dirs <= i < |g| ==> !g[i].dir)
  }

  lemma {:induction false} DirsAdded(l: Listing, n: int, path: string, depth: int, corpus: seq<string>)
    requires corpus != [] && forall i :: 0 <= i < |l.nodes| ==> l.nodes[i].dir && l.nodes[i].mazeDepth == depth
    ensures var r := AddDirs(l, n, path, depth, corpus).nodes;
            |r| == |l.nodes| + Positive(n) && forall i :: 0 <= i < |r| ==> r[i].dir && r[i].mazeDepth == depth
    decreases n
  {
    hide Pick;
    if n > 0 {
      var (name, next) := Pick(l.state, corpus, l.used, 5);
      var x := DirNode(Joined(path, name), name, depth);
      DirsAdded(Listing(l.nodes + [x], l.used + {name}, next), n - 1, path, depth, corpus);
    }
  }

  lemma {:induction false} FilesAdded(l: Listing, n: int, path: string, corpus: seq<string>, dirs: nat)
    requires corpus != [] && dirs <= |l.nodes| && forall i :: dirs <= i < |l.nodes| ==> !l.nodes[i].dir
    ensures var r := AddFiles(l, n, path, corpus).nodes;
            |r| == |l.nodes| + Positive(n) && l.nodes <= r && forall i :: dirs <= i < |r| ==> !r[i].dir
    decreases n
  {
    hide Pick;
    if n > 0 {
      var (name, next) := Pick(l.state, corpus, l.used, 5);
      var x := FileNode(Joined(path, name), name);
      FilesAdded(Listing(l.nodes + [x], l.used + {name}, next), n - 1, path, corpus, dirs);
    }
  }

  /**
   * Every listing has an allowed number of directories, or none where the depth limit is reached, and behind them an
   * allowed number of files.
   */
  lemma EntryCounts(c: Config, path: string, depth: int) returns (dirs: int, files: int)
    requires c.Valid()
    ensures Allowed(files, c.minFiles, c.maxFiles)
    ensures if c.maxDepth > 0 && depth >= c.maxDepth then dirs == 0 else Allowed(dirs, c.minDirs, c.maxDirs)
    ensures var g := Generated(c, path, depth);
            |g| == Positive(dirs) + Positive(files) && InTwoParts(g, Positive(dirs), depth)
  {
    var (d, s1) := Draw(c.seed(path), c.maxDirs - c.minDirs + 1);
    var (f, s2) := Draw(s1, c.maxFiles - c.minFiles + 1);
    dirs, files := DirCount(c, depth, d), c.minFiles + f;
    hide Draw, AddDirs, AddFiles;
    var start := Listing([], {}, s2);
    DirsAdded(start, dirs, path, depth + 1, c.dirNames);
    var l := AddDirs(start, dirs, path, depth + 1, c.dirNames);
    FilesAdded(l, files, path, c.fileNames, Positive(dirs));
  }

  /** Under the default settings a listing has three to seven directories and two to five files. */
  lemma DefaultCounts(c: Config, path: string, depth: int) returns (dirs: int, files: int)
    requires c.Valid() && c.maxDepth == 0 && c.minDirs == 3 && c.maxDirs == 7 && c.minFiles == 2 && c.maxFiles == 5
    ensures 3 <= dirs <= 7 && 2 <= files <= 5
    ensures |Generated(c, path, depth)| == dirs + files && InTwoParts(Generated(c, path, depth), dirs, depth)
  {
    dirs, files := EntryCounts(c, path, depth);
  }

  // ----- the generator -----

  /** The inverse of the multiplier modulo 2^64. */
  const INVERSE: nat := 13877824140714322085

  /** The generator steps back, so no state is reached from two others. */
  lemma NextStateUndone(x: uint64)
    ensures (NextState(x) + TWO_64 - 1442695040888963407) * INVERSE % TWO_64 == x
  {
    var a, k := 6364136223846793005, (x * 6364136223846793005 + 1442695040888963407) / TWO_64;
    assert NextState(x) == x * a + 1442695040888963407 - k * TWO_64;
    assert a * INVERSE == 1 + QUOTIENT * TWO_64;
    var y := NextState(x) + TWO_64 - 1442695040888963407;
    assert y == x * a + (1 - k) * TWO_64;
    assert y * INVERSE == x * (a * INVERSE) + (1 - k) * INVERSE * TWO_64;
    assert y * INVERSE == x + (x * QUOTIENT + (1 - k) * INVERSE) * TWO_64;
    Multiple(x, x * QUOTIENT + (1 - k) * INVERSE);
  }

  const QUOTIENT: nat := 4787856489426250814

  lemma Multiple(x: uint64, t: int)
    ensures (x + t * TWO_64) % TWO_64 == x
  {
  }

  lemma NextStateInjective(x: uint64, y: uint64)
    requires NextState(x) == NextState(y)
    ensures x == y
  {
    NextStateUndone(x);
    NextStateUndone(y);
    hide NextState;
  }
}
