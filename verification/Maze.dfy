/** The generated part of the virtual filesystem: deterministic listings with distinct names. */
module Maze {
  const TWO_64: nat := 0x1_0000_0000_0000_0000

  type uint64 = x: int | 0 <= x < TWO_64

  // ----- the generator -----

  function NextState(state: uint64): uint64 {
    (state * 6364136223846793005 + 1442695040888963407) % TWO_64
  }

  /** A draw below n, and the state after it; nothing is drawn when there is no choice. */
  function Draw(state: uint64, n: int): (r: (nat, uint64))
    ensures n >= 1 ==> r.0 < n
    ensures n <= 1 ==> r.0 == 0
  {
    if n <= 1 then (0, state) else (NextState(state) % n, NextState(state))
  }

  class Lcg {
    var state: uint64

    constructor (seed: uint64)
      ensures state == seed
    {
      state := seed;
    }

    method Intn(n: int) returns (r: nat)
      modifies this
      ensures (r, state) == Draw(old(state), n)
    {
      if n <= 1 {
        return 0;
      }
      state := (state * 6364136223846793005 + 1442695040888963407) % TWO_64;
      r := state % n;
    }
  }

  // ----- names -----

  function Digit(n: nat): char
    requires n < 10
  {
    "0123456789"[n]
  }

  function Decimal(n: nat): (s: string)
    ensures s != []
  {
    if n < 10 then [Digit(n)] else Decimal(n / 10) + [Digit(n % 10)]
  }

  predicate IsDigit(c: char) {
    c in "0123456789"
  }

  predicate Digits(s: string) {
    forall i :: 0 <= i < |s| ==> IsDigit(s[i])
  }

  lemma {:induction false} DecimalDigits(n: nat)
    ensures Digits(Decimal(n))
  {
    if n >= 10 {
      DecimalDigits(n / 10);
    }
  }

  function Power10(n: nat): nat {
    if n == 0 then 1 else 10 * Power10(n - 1)
  }

  /** A number of at most k digits is less than 10 to the power k. */
  lemma {:induction false} ShortDecimal(n: nat, k: nat)
    requires |Decimal(n)| <= k
    ensures n < Power10(k)
  {
    if n >= 10 {
      ShortDecimal(n / 10, k - 1);
    } else {
      assert Power10(k) == 10 * Power10(k - 1);
      PowerPositive(k - 1);
    }
  }

  lemma {:induction false} PowerPositive(k: nat)
    ensures Power10(k) > 0
  {
    if k > 0 {
      PowerPositive(k - 1);
    }
  }

  /** No name in the set is longer. */
  ghost function Longest(used: set<string>): (n: nat)
    ensures forall s :: s in used ==> |s| <= n
  {
    if used == {} then 0
    else
      var s :| s in used;
      var n := Longest(used - {s});
      if n < |s| then |s| else n
  }

  /** A name that is already used is short, so the number at its end is bounded: the search below must stop. */
  lemma UsedNumberBounded(base: string, i: nat, used: set<string>)
    requires base + Decimal(i) in used
    ensures i < Power10(Longest(used))
  {
    ShortDecimal(i, Longest(used));
  }

  /** The first unused name among corpus words with the numbers i, i + 1, ... at their ends. */
  function PickNumbered(state: uint64, corpus: seq<string>, used: set<string>, i: nat): (string, uint64)
    requires corpus != []
    decreases Power10(Longest(used)) - i
  {
    var (k, next) := Draw(state, |corpus|);
    var name := corpus[k] + Decimal(i);
    if name !in used then (name, next)
    else
      UsedNumberBounded(corpus[k], i, used);
      PickNumbered(next, corpus, used, i + 1)
  }

  /** Up to tries plain words, then numbered ones. */
  function Pick(state: uint64, corpus: seq<string>, used: set<string>, tries: nat): (string, uint64)
    requires corpus != []
    decreases tries
  {
    if tries == 0 then PickNumbered(state, corpus, used, 1)
    else
      var (k, next) := Draw(state, |corpus|);
      if corpus[k] !in used then (corpus[k], next) else Pick(next, corpus, used, tries - 1)
  }

  method PickUnique(rng: Lcg, corpus: seq<string>, used: set<string>) returns (name: string, newUsed: set<string>)
    requires corpus != []
    modifies rng
    ensures (name, rng.state) == Pick(old(rng.state), corpus, used, 5)
    ensures newUsed == used + {name}
  {
    for i := 0 to 5
      invariant Pick(rng.state, corpus, used, 5 - i) == Pick(old(rng.state), corpus, used, 5)
    {
      var k := rng.Intn(|corpus|);
      name := corpus[k];
      if name !in used {
        newUsed := used + {name};
        return;
      }
    }
    var i: nat := 1;
    while true
      invariant PickNumbered(rng.state, corpus, used, i) == Pick(old(rng.state), corpus, used, 5)
      decreases Power10(Longest(used)) - i
    {
      var k := rng.Intn(|corpus|);
      name := corpus[k] + Decimal(i);
      if name !in used {
        newUsed := used + {name};
        return;
      }
      UsedNumberBounded(corpus[k], i, used);
      i := i + 1;
    }
  }

  /** A word of the corpus with a number, or none, behind it. */
  predicate FromCorpus(name: string, corpus: seq<string>) {
    exists k :: 0 <= k < |corpus| && corpus[k] <= name && Digits(name[|corpus[k]|..])
  }

  lemma {:induction false} NumberedIsNew(state: uint64, corpus: seq<string>, used: set<string>, i: nat)
    requires corpus != []
    ensures var name := PickNumbered(state, corpus, used, i).0; name !in used && FromCorpus(name, corpus)
    decreases Power10(Longest(used)) - i
  {
    var (k, next) := Draw(state, |corpus|);
    var name := corpus[k] + Decimal(i);
    if name !in used {
      DecimalDigits(i);
      assert name[|corpus[k]|..] == Decimal(i);
    } else {
      UsedNumberBounded(corpus[k], i, used);
      NumberedIsNew(next, corpus, used, i + 1);
    }
  }

  lemma {:induction false} PickIsNew(state: uint64, corpus: seq<string>, used: set<string>, tries: nat)
    requires corpus != []
    ensures var name := Pick(state, corpus, used, tries).0; name !in used && FromCorpus(name, corpus)
    decreases tries
  {
    if tries == 0 {
      NumberedIsNew(state, corpus, used, 1);
    } else {
      var (k, next) := Draw(state, |corpus|);
      if corpus[k] in used {
        PickIsNew(next, corpus, used, tries - 1);
      } else {
        assert corpus[k][|corpus[k]|..] == [];
      }
    }
  }

  // ----- listings -----

  /** A file or directory; one with a maze path has generated children as well as explicit ones. */
  datatype Node = Node(name: string, dir: bool, mazePath: string, mazeDepth: int, children: seq<Node>)

  /** The settings, the two corpora, and the hash that turns a path into a seed. */
  datatype Config = Config(
    maxDepth: int, minDirs: int, maxDirs: int, minFiles: int, maxFiles: int,
    dirNames: seq<string>, fileNames: seq<string>, seed: string -> uint64)
  {
    predicate Valid() {
      dirNames != [] && fileNames != []
    }
  }

  function Joined(path: string, name: string): string {
    path + "\\" + name
  }

  function DirNode(path: string, name: string, depth: int): Node {
    Node(name, true, path, depth, [])
  }

  function FileNode(path: string, name: string): Node {
    Node(name, false, path, 0, [])
  }

  /** A listing being made: its nodes so far, the names taken and the generator's state. */
  datatype Listing = Listing(nodes: seq<Node>, used: set<string>, state: uint64)

  function AddDirs(l: Listing, n: int, path: string, depth: int, corpus: seq<string>): Listing
    requires corpus != []
    decreases n
  {
    if n <= 0 then l
    else
      var (name, next) := Pick(l.state, corpus, l.used, 5);
      AddDirs(Listing(l.nodes + [DirNode(Joined(path, name), name, depth)], l.used + {name}, next), n - 1, path, depth, corpus)
  }

  function AddFiles(l: Listing, n: int, path: string, corpus: seq<string>): Listing
    requires corpus != []
    decreases n
  {
    if n <= 0 then l
    else
      var (name, next) := Pick(l.state, corpus, l.used, 5);
      AddFiles(Listing(l.nodes + [FileNode(Joined(path, name), name)], l.used + {name}, next), n - 1, path, corpus)
  }

  /** How many directories a level has, unless the depth is used up. */
  function DirCount(c: Config, parentDepth: int, drawn: nat): int {
    if c.maxDepth > 0 && parentDepth + 1 > c.maxDepth then 0 else c.minDirs + drawn
  }

  /** The children of a generated directory: always the same ones for the same path. */
  function Generated(c: Config, path: string, depth: int): seq<Node>
    requires c.Valid()
  {
    var (d, s1) := Draw(c.seed(path), c.maxDirs - c.minDirs + 1);
    var (f, s2) := Draw(s1, c.maxFiles - c.minFiles + 1);
    var dirs := AddDirs(Listing([], {}, s2), DirCount(c, depth, d), path, depth + 1, c.dirNames);
    AddFiles(dirs, c.minFiles + f, path, c.fileNames).nodes
  }

  method MazeChildren(c: Config, parentPath: string, parentDepth: int) returns (children: seq<Node>)
    requires c.Valid()
    ensures children == Generated(c, parentPath, parentDepth)
  {
    hide Pick, Draw, NextState;
    var rng := new Lcg(c.seed(parentPath));
    var d := rng.Intn(c.maxDirs - c.minDirs + 1);
    var nDirs := c.minDirs + d;
    var f := rng.Intn(c.maxFiles - c.minFiles + 1);
    var nFiles := c.minFiles + f;
    var nextDepth := parentDepth + 1;
    if c.maxDepth > 0 && nextDepth > c.maxDepth {
      nDirs := 0;
    }
    var used: set<string> := {};
    children := [];
    ghost var dirs := AddDirs(Listing([], {}, rng.state), nDirs, parentPath, nextDepth, c.dirNames);
    var i := 0;
    while i < nDirs
      invariant i > nDirs ==> i == 0
      invariant AddDirs(Listing(children, used, rng.state), nDirs - i, parentPath, nextDepth, c.dirNames) == dirs
    {
      var name;
      name, used := PickUnique(rng, c.dirNames, used);
      children := children + [DirNode(Joined(parentPath, name), name, nextDepth)];
      i := i + 1;
    }
    assert dirs == Listing(children, used, rng.state);
    ghost var all := AddFiles(dirs, nFiles, parentPath, c.fileNames);
    i := 0;
    while i < nFiles
      invariant i > nFiles ==> i == 0
      invariant AddFiles(Listing(children, used, rng.state), nFiles - i, parentPath, c.fileNames) == all
    {
      var name;
      name, used := PickUnique(rng, c.fileNames, used);
      children := children + [FileNode(Joined(parentPath, name), name)];
      i := i + 1;
    }
  }

  // ----- distinct names -----

  predicate Distinct(nodes: seq<Node>) {
    forall i, j :: 0 <= i < j < |nodes| ==> nodes[i].name != nodes[j].name
  }

  /** No two nodes share a name, and every name is marked as used. */
  predicate Tracked(l: Listing) {
    Distinct(l.nodes) && forall i :: 0 <= i < |l.nodes| ==> l.nodes[i].name in l.used
  }

  /** A node as a listing makes it: named from a corpus, placed below the path, with nothing explicit in it. */
  predicate MadeFrom(x: Node, path: string, dirs: seq<string>, files: seq<string>) {
    && x.children == [] && x.mazePath == Joined(path, x.name)
    && if x.dir then FromCorpus(x.name, dirs) else FromCorpus(x.name, files)
  }

  predicate AllMade(nodes: seq<Node>, path: string, dirs: seq<string>, files: seq<string>) {
    forall i :: 0 <= i < |nodes| ==> MadeFrom(nodes[i], path, dirs, files)
  }

  lemma {:induction false} DirsTracked(l: Listing, n: int, path: string, depth: int, corpus: seq<string>, files: seq<string>)
    requires corpus != [] && Tracked(l) && AllMade(l.nodes, path, corpus, files)
    ensures var r := AddDirs(l, n, path, depth, corpus);
            && Tracked(r) && AllMade(r.nodes, path, corpus, files) && l.nodes <= r.nodes
            && (n >= 1 ==> |r.nodes| > |l.nodes| && r.nodes[|l.nodes|].dir && r.nodes[|l.nodes|].mazeDepth == depth)
    decreases n
  {
    hide Pick, FromCorpus;
    if n > 0 {
      var (name, next) := Pick(l.state, corpus, l.used, 5);
      PickIsNew(l.state, corpus, l.used, 5);
      var x := DirNode(Joined(path, name), name, depth);
      DirsTracked(Listing(l.nodes + [x], l.used + {name}, next), n - 1, path, depth, corpus, files);
    }
  }

  lemma {:induction false} FilesTracked(l: Listing, n: int, path: string, corpus: seq<string>, dirs: seq<string>)
    requires corpus != [] && Tracked(l) && AllMade(l.nodes, path, dirs, corpus)
    ensures var r := AddFiles(l, n, path, corpus);
            Tracked(r) && AllMade(r.nodes, path, dirs, corpus) && l.nodes <= r.nodes
    decreases n
  {
    hide Pick, FromCorpus;
    if n > 0 {
      var (name, next) := Pick(l.state, corpus, l.used, 5);
      PickIsNew(l.state, corpus, l.used, 5);
      var x := FileNode(Joined(path, name), name);
      FilesTracked(Listing(l.nodes + [x], l.used + {name}, next), n - 1, path, corpus, dirs);
    }
  }

  lemma ListingShape(c: Config, path: string, depth: int)
    requires c.Valid()
    ensures var g := Generated(c, path, depth);
            && Distinct(g) && AllMade(g, path, c.dirNames, c.fileNames)
            && (c.maxDepth <= 0 && c.minDirs >= 1 ==> g != [] && g[0].dir && g[0].mazeDepth == depth + 1)
  {
    hide AddDirs, AddFiles, Draw, AllMade, Distinct;
    var (d, s1) := Draw(c.seed(path), c.maxDirs - c.minDirs + 1);
    var (f, s2) := Draw(s1, c.maxFiles - c.minFiles + 1);
    var n, start := DirCount(c, depth, d), Listing([], {}, s2);
    EmptyTracked(s2, path, c.dirNames, c.fileNames);
    DirsTracked(start, n, path, depth + 1, c.dirNames, c.fileNames);
    FilesTracked(AddDirs(start, n, path, depth + 1, c.dirNames), c.minFiles + f, path, c.fileNames, c.dirNames);
  }

  lemma EmptyTracked(state: uint64, path: string, dirs: seq<string>, files: seq<string>)
    ensures Tracked(Listing([], {}, state)) && AllMade([], path, dirs, files)
  {
  }

  /** In any listing, whatever the seed, all names differ and each is a corpus word with a number or none behind it. */
  lemma NamesDistinct(c: Config, path: string, depth: int)
    requires c.Valid()
    ensures Distinct(Generated(c, path, depth))
    ensures AllMade(Generated(c, path, depth), path, c.dirNames, c.fileNames)
  {
    hide Generated;
    ListingShape(c, path, depth);
  }

  /** Without a depth limit, and with at least one directory a level, the first entry of any listing is a directory. */
  lemma FirstIsDirectory(c: Config, path: string, depth: int)
    requires c.Valid() && c.maxDepth <= 0 && c.minDirs >= 1
    ensures var g := Generated(c, path, depth); g != [] && g[0].dir && g[0].mazeDepth == depth + 1
  {
    hide Generated;
    ListingShape(c, path, depth);
  }
}
