/** Which name each draw of the maze gives. */
module MazeNames {
  import opened Maze
  import opened MazeCounts

  /** The state of the 64-bit generator after n draws. */
  function StateAfter(state: uint64, n: nat): uint64 {
    if n == 0 then state else (StateAfter(state, n - 1) * 6364136223846793005 + 1442695040888963407) % TWO_64
  }

  /** With one word in the corpus there is nothing to draw and the state stays. */
  function StateAt(state: uint64, corpus: seq<string>, n: nat): uint64 {
    if |corpus| == 1 then state else StateAfter(state, n)
  }

  /** The name that draw number i proposes: five plain words first, then words with the numbers 1, 2, ... */
  function Candidate(state: uint64, corpus: seq<string>, i: nat): string
    requires corpus != [] && i >= 1
  {
    var word := corpus[if |corpus| == 1 then 0 else StateAfter(state, i) % |corpus|];
    if i <= 5 then word else word + Decimal(i - 5)
  }

  lemma DrawAt(state: uint64, corpus: seq<string>, i: nat)
    requires corpus != []
    ensures var (k, next) := Draw(StateAt(state, corpus, i), |corpus|);
            && next == StateAt(state, corpus, i + 1)
            && Candidate(state, corpus, i + 1) == if i < 5 then corpus[k] else corpus[k] + Decimal(i - 4)
  {
  }

  ghost predicate IsFirst(state: uint64, corpus: seq<string>, used: set<string>, after: nat, i: nat)
    requires corpus != []
  {
    after < i && Candidate(state, corpus, i) !in used && forall j :: after < j < i ==> Candidate(state, corpus, j) in used
  }

  lemma {:induction false} NumberedIsFirst(state: uint64, corpus: seq<string>, used: set<string>, n: nat) returns (i: nat)
    requires corpus != [] && n >= 5
    ensures IsFirst(state, corpus, used, n, i)
    ensures PickNumbered(StateAt(state, corpus, n), corpus, used, n - 4) ==
            (Candidate(state, corpus, i), StateAt(state, corpus, i))
    decreases Power10(Longest(used)) - (n - 4)
  {
    DrawAt(state, corpus, n);
    i := n + 1;
    var k := Draw(StateAt(state, corpus, n), |corpus|).0;
    assert Candidate(state, corpus, i) == corpus[k] + Decimal(n - 4);
    NumberedStep(StateAt(state, corpus, n), corpus, used, n - 4);
    hide *;
    if corpus[k] + Decimal(n - 4) in used {
      UsedNumberBounded(corpus[k], n - 4, used);
      i := NumberedIsFirst(state, corpus, used, n + 1);
      OneMore(state, corpus, used, n, i);
    } else {
      assert IsFirst(state, corpus, used, n, i) by {
        Next(state, corpus, used, n);
      }
    }
  }

  lemma Next(state: uint64, corpus: seq<string>, used: set<string>, n: nat)
    requires corpus != [] && Candidate(state, corpus, n + 1) !in used
    ensures IsFirst(state, corpus, used, n, n + 1)
  {
    hide Candidate;
  }

  lemma OneMore(state: uint64, corpus: seq<string>, used: set<string>, n: nat, i: nat)
    requires corpus != [] && IsFirst(state, corpus, used, n + 1, i) && Candidate(state, corpus, n + 1) in used
    ensures IsFirst(state, corpus, used, n, i)
  {
    hide Candidate;
  }

  lemma {:induction false} NumberedStep(state: uint64, corpus: seq<string>, used: set<string>, i: nat)
    requires corpus != []
    ensures var (k, next) := Draw(state, |corpus|);
            var name := corpus[k] + Decimal(i);
            PickNumbered(state, corpus, used, i) == if name !in used then (name, next) else PickNumbered(next, corpus, used, i + 1)
  {
    hide Draw, Decimal, Longest, Power10;
  }

  lemma {:induction false} PlainIsFirst(state: uint64, corpus: seq<string>, used: set<string>, n: nat) returns (i: nat)
    requires corpus != [] && n <= 5
    ensures IsFirst(state, corpus, used, n, i)
    ensures Pick(StateAt(state, corpus, n), corpus, used, 5 - n) == (Candidate(state, corpus, i), StateAt(state, corpus, i))
    decreases 5 - n
  {
    if n == 5 {
      i := NumberedIsFirst(state, corpus, used, 5);
    } else {
      DrawAt(state, corpus, n);
      hide Candidate, StateAt, Draw, PickNumbered;
      i := n + 1;
      if Candidate(state, corpus, i) in used {
        i := PlainIsFirst(state, corpus, used, n + 1);
      }
    }
  }

  /** The name is the first unused one that the draws propose, and no draw is made beyond it. */
  lemma PickIsFirst(state: uint64, corpus: seq<string>, used: set<string>) returns (i: nat)
    requires corpus != []
    ensures i >= 1 && Candidate(state, corpus, i) !in used
    ensures forall j :: 1 <= j < i ==> Candidate(state, corpus, j) in used
    ensures Pick(state, corpus, used, 5) == (Candidate(state, corpus, i), StateAt(state, corpus, i))
  {
    assert StateAt(state, corpus, 0) == state;
    hide StateAt, Candidate, Pick;
    i := PlainIsFirst(state, corpus, used, 0);
  }

  // ----- what the draws of a listing decide -----

  lemma TwoDraws(state: uint64, a: int, b: int)
    requires a > 1 && b > 1
    ensures var (d, s1) := Draw(state, a);
            var (f, s2) := Draw(s1, b);
            d == StateAfter(state, 1) % a && f == StateAfter(state, 2) % b && s2 == StateAfter(state, 2)
  {
    assert StateAfter(state, 1) == NextState(StateAfter(state, 0)) && StateAfter(state, 0) == state;
    assert StateAfter(state, 2) == NextState(StateAfter(state, 1));
    hide NextState, StateAfter;
  }

  /** With nothing used yet the first draw gives the name. */
  lemma FirstPick(state: uint64, corpus: seq<string>)
    requires |corpus| > 1
    ensures Pick(StateAfter(state, 2), corpus, {}, 5).0 == corpus[StateAfter(state, 3) % |corpus|]
  {
    assert StateAfter(state, 3) == NextState(StateAfter(state, 2));
    hide NextState, StateAfter;
  }

  lemma FirstAdded(state: uint64, n: nat, path: string, depth: int, corpus: seq<string>, files: seq<string>)
    requires corpus != [] && n >= 1
    ensures var r, name := AddDirs(Listing([], {}, state), n, path, depth, corpus).nodes, Pick(state, corpus, {}, 5).0;
            r != [] && r[0] == DirNode(Joined(path, name), name, depth)
  {
    var (name, next) := Pick(state, corpus, {}, 5);
    PickIsNew(state, corpus, {}, 5);
    var l := Listing([DirNode(Joined(path, name), name, depth)], {name}, next);
    hide Pick;
    assert AddDirs(Listing([], {}, state), n, path, depth, corpus) == AddDirs(l, n - 1, path, depth, corpus) by {
      hide Joined;
      assert [] + l.nodes == l.nodes && {} + l.used == l.used;
    }
    assert [l.nodes[0]] == l.nodes;
    hide AddDirs;
    assert Tracked(l) && FromCorpus(name, corpus);
    DirsTracked(l, n - 1, path, depth, corpus, files);
  }

  /**
   * The hash of the path is the generator's first state: the first draw says how many directories there are, the second
   * how many files, and the third names the first directory.
   */
  lemma ListingStarts(c: Config, path: string, depth: int)
    requires c.Valid() && c.maxDepth <= 0 && 1 <= c.minDirs < c.maxDirs && 0 <= c.minFiles < c.maxFiles && |c.dirNames| > 1
    ensures var s, g := c.seed(path), Generated(c, path, depth);
            var dirs, files := c.minDirs + StateAfter(s, 1) % (c.maxDirs - c.minDirs + 1),
                               c.minFiles + StateAfter(s, 2) % (c.maxFiles - c.minFiles + 1);
            && |g| == dirs + files && InTwoParts(g, dirs, depth)
            && g[0].name == c.dirNames[StateAfter(s, 3) % |c.dirNames|]
  {
    var s := c.seed(path);
    TwoDraws(s, c.maxDirs - c.minDirs + 1, c.maxFiles - c.minFiles + 1);
    var (d, s1) := Draw(s, c.maxDirs - c.minDirs + 1);
    var (f, s2) := Draw(s1, c.maxFiles - c.minFiles + 1);
    hide Draw, StateAfter, AddDirs, AddFiles, Pick;
    var dirs, files, start := c.minDirs + d, c.minFiles + f, Listing([], {}, s2);
    FirstPick(s, c.dirNames);
    FirstAdded(s2, dirs, path, depth + 1, c.dirNames, c.fileNames);
    DirsAdded(start, dirs, path, depth + 1, c.dirNames);
    var l := AddDirs(start, dirs, path, depth + 1, c.dirNames);
    FilesAdded(l, files, path, c.fileNames, dirs);
    assert Generated(c, path, depth) == AddFiles(l, files, path, c.fileNames).nodes;
  }

  /** An entry's own path is that of its directory, a backslash and its name. */
  lemma EntryPaths(c: Config, path: string, depth: int, i: nat)
    requires c.Valid() && i < |Generated(c, path, depth)|
    ensures var x := Generated(c, path, depth)[i]; x.mazePath == path + "\\" + x.name && x.children == []
  {
    NamesDistinct(c, path, depth);
    hide Generated;
    assert MadeFrom(Generated(c, path, depth)[i], path, c.dirNames, c.fileNames);
  }

  // ----- numbers -----

  /** The number that decimal digits stand for. */
  function Value(s: string): nat
    requires Digits(s)
  {
    if s == [] then 0
    else
      assert IsDigit(s[|s| - 1]);
      10 * Value(s[..|s| - 1]) + (s[|s| - 1] as int - '0' as int)
  }

  /** A number is written in decimal, without a leading zero. */
  lemma {:induction false} DecimalValue(n: nat)
    ensures Digits(Decimal(n)) && Value(Decimal(n)) == n
    ensures n > 0 ==> Decimal(n)[0] != '0'
  {
    DecimalDigits(n);
    if n >= 10 {
      DecimalValue(n / 10);
      DecimalDigits(n / 10);
      var s := Decimal(n);
      assert s[..|s| - 1] == Decimal(n / 10) && s[0] == Decimal(n / 10)[0];
    } else {
      assert Decimal(n) == [Digit(n)] && Decimal(n)[..0] == [];
    }
  }
}
