/** Resolving paths by membership, in explicit and generated directories alike. */
module Tree {
  import opened Bytes
  import opened Text
  import opened Maze

  // ----- finding a child -----

  /** The first node of that name, whatever its case. */
  function FirstNamed(nodes: seq<Node>, name: string): (r: Option<Node>)
    ensures r.Some? ==> r.value in nodes && Fold(r.value.name) == Fold(name)
  {
    if nodes == [] then None
    else if Fold(nodes[0].name) == Fold(name) then Some(nodes[0])
    else FirstNamed(nodes[1..], name)
  }

  /** A directory's effective children: explicit ones, then the generated ones of a maze node. */
  function Children(c: Config, n: Node): seq<Node>
    requires c.Valid()
  {
    n.children + if n.mazePath != "" then Generated(c, n.mazePath, n.mazeDepth) else []
  }

  function Child(c: Config, cur: Node, name: string): Option<Node>
    requires c.Valid()
  {
    var r := FirstNamed(cur.children, name);
    if r.Some? then r
    else if cur.mazePath != "" then FirstNamed(Generated(c, cur.mazePath, cur.mazeDepth), name)
    else None
  }

  method FindExplicit(n: Node, name: string) returns (r: Option<Node>)
    ensures r == FirstNamed(n.children, name)
  {
    var uname := Upper(name);
    for i := 0 to |n.children|
      invariant FirstNamed(n.children[i..], name) == FirstNamed(n.children, name)
    {
      UpperIsFold(n.children[i].name, name);
      assert n.children[i..][1..] == n.children[i + 1..];
      if Upper(n.children[i].name) == uname {
        return Some(n.children[i]);
      }
    }
    return None;
  }

  method FindChild(c: Config, cur: Node, name: string) returns (r: Option<Node>)
    requires c.Valid()
    ensures r == Child(c, cur, name)
  {
    r := FindExplicit(cur, name);
    if r.Some? {
      return;
    }
    if cur.mazePath != "" {
      var g := MazeChildren(c, cur.mazePath, cur.mazeDepth);
      for i := 0 to |g|
        invariant FirstNamed(g[i..], name) == FirstNamed(g, name)
      {
        assert g[i..][1..] == g[i + 1..];
        if Fold(g[i].name) == Fold(name) {
          return Some(g[i]);
        }
      }
    }
    return None;
  }

  /** What is found is always listed. */
  lemma ChildIsListed(c: Config, cur: Node, name: string)
    requires c.Valid() && Child(c, cur, name).Some?
    ensures Child(c, cur, name).value in Children(c, cur)
  {
  }

  // ----- resolving a path -----

  predicate Separator(ch: char) {
    ch == '\\' || ch == '/'
  }

  /** The path's components: maximal runs without a separator. */
  function Fields(s: string, current: string): seq<string>
    decreases |s|
  {
    if s == [] then Flushed(current)
    else if Separator(s[0]) then Flushed(current) + Fields(s[1..], [])
    else Fields(s[1..], current + [s[0]])
  }

  function Flushed(current: string): seq<string> {
    if current == [] then [] else [current]
  }

  predicate Dots(part: string) {
    part == "." || part == ".."
  }

  function Descend(c: Config, cur: Node, parts: seq<string>): Option<Node>
    requires c.Valid()
    decreases |parts|
  {
    if parts == [] then Some(cur)
    else if Dots(parts[0]) then Descend(c, cur, parts[1..])
    else
      match Child(c, cur, parts[0])
      case None => None
      case Some(child) => Descend(c, child, parts[1..])
  }

  datatype Tree = Tree(roots: map<string, Node>, maze: Config)

  function Resolve(t: Tree, rootName: string, path: string): Option<Node>
    requires t.maze.Valid()
  {
    if Upper(rootName) !in t.roots then None
    else Descend(t.maze, t.roots[Upper(rootName)], Fields(path, []))
  }

  function TrimLeft(s: string): string {
    if s != [] && Separator(s[0]) then TrimLeft(s[1..]) else s
  }

  lemma {:induction false} TrimmedFields(s: string)
    ensures Fields(TrimLeft(s), []) == Fields(s, [])
  {
    if s != [] && Separator(s[0]) {
      TrimmedFields(s[1..]);
      assert Flushed([]) + Fields(s[1..], []) == Fields(s[1..], []);
    }
  }

  method ResolvePath(t: Tree, rootName: string, filePath: string) returns (r: Option<Node>)
    requires t.maze.Valid()
    ensures r == Resolve(t, rootName, filePath)
  {
    if Upper(rootName) !in t.roots {
      return None;
    }
    var root := t.roots[Upper(rootName)];
    var path := TrimLeft(filePath);
    TrimmedFields(filePath);
    if path == "" {
      return Some(root);
    }
    var parts := Fields(path, []);
    var cur := root;
    for i := 0 to |parts|
      invariant Descend(t.maze, cur, parts[i..]) == Descend(t.maze, root, parts)
    {
      assert parts[i..][1..] == parts[i + 1..];
      var part := parts[i];
      if part == "." || part == ".." {
        continue;
      }
      var child := FindChild(t.maze, cur, part);
      if child.None? {
        return None;
      }
      cur := child.value;
    }
    return Some(cur);
  }

  lemma {:induction false} DescendSplit(c: Config, cur: Node, a: seq<string>, b: seq<string>)
    requires c.Valid()
    ensures Descend(c, cur, a + b) ==
            match Descend(c, cur, a) case None => None case Some(n) => Descend(c, n, b)
    decreases |a|
  {
    hide Child;
    if a == [] {
      assert a + b == b;
    } else {
      assert (a + b)[0] == a[0] && (a + b)[1..] == a[1..] + b;
      if Dots(a[0]) {
        DescendSplit(c, cur, a[1..], b);
      } else if Child(c, cur, a[0]).Some? {
        DescendSplit(c, Child(c, cur, a[0]).value, a[1..], b);
      }
    }
  }

  // ----- generated directories resolve as they list -----

  /** A name that stands for itself as one path component. */
  predicate Plain(name: string) {
    name != [] && !Dots(name) && forall i :: 0 <= i < |name| ==> !Separator(name[i])
  }

  lemma {:induction false} FieldsOfPlain(name: string, current: string)
    requires forall i :: 0 <= i < |name| ==> !Separator(name[i])
    ensures Fields(name, current) == Flushed(current + name)
    decreases |name|
  {
    if name == [] {
      assert current + name == current;
    } else {
      FieldsOfPlain(name[1..], current + [name[0]]);
      assert current + [name[0]] + name[1..] == current + name;
    }
  }

  lemma {:induction false} FieldsAppend(s: string, current: string, name: string)
    requires Plain(name)
    ensures Fields(s + "\\" + name, current) == Fields(s, current) + [name]
    decreases |s|
  {
    var all := s + "\\" + name;
    if s == [] {
      FieldsOfPlain(name, []);
      assert [] + name == name;
      assert all[0] == '\\' && all[1..] == name;
    } else {
      assert all[0] == s[0] && all[1..] == s[1..] + "\\" + name;
      if Separator(s[0]) {
        FieldsAppend(s[1..], [], name);
      } else {
        FieldsAppend(s[1..], current + [s[0]], name);
      }
    }
  }

  /** One more plain component is one more step. */
  lemma ResolveStep(t: Tree, rootName: string, path: string, name: string)
    requires t.maze.Valid() && Plain(name)
    ensures Resolve(t, rootName, Joined(path, name)) ==
            match Resolve(t, rootName, path) case None => None case Some(n) => Child(t.maze, n, name)
  {
    hide Fields, Child;
    FieldsAppend(path, [], name);
    if Upper(rootName) in t.roots {
      var root, parts := t.roots[Upper(rootName)], Fields(path, []);
      DescendSplit(t.maze, root, parts, [name]);
      if Descend(t.maze, root, parts).Some? {
        OneStep(t.maze, Descend(t.maze, root, parts).value, name);
      }
    }
  }

  lemma OneStep(c: Config, n: Node, name: string)
    requires c.Valid() && !Dots(name)
    ensures Descend(c, n, [name]) == Child(c, n, name)
  {
    hide Child;
    assert [name][1..] == [];
  }

  predicate FoldDistinct(nodes: seq<Node>) {
    forall i, j :: 0 <= i < j < |nodes| ==> Fold(nodes[i].name) != Fold(nodes[j].name)
  }

  lemma {:induction false} FirstNamedAt(nodes: seq<Node>, k: nat)
    requires k < |nodes| && forall i :: 0 <= i < k ==> Fold(nodes[i].name) != Fold(nodes[k].name)
    ensures FirstNamed(nodes, nodes[k].name) == Some(nodes[k])
    decreases k
  {
    if k > 0 {
      FirstNamedAt(nodes[1..], k - 1);
    }
  }

  /** No earlier node of the same folded name can be passed over. */
  lemma {:induction false} FirstNamedBefore(nodes: seq<Node>, i: nat, name: string)
    requires i < |nodes| && Fold(nodes[i].name) == Fold(name)
    ensures FirstNamed(nodes, name).Some? && FirstNamed(nodes, name).value in nodes[..i + 1]
    decreases i
  {
    if Fold(nodes[0].name) == Fold(name) {
      assert nodes[0] in nodes[..i + 1];
    } else {
      FirstNamedBefore(nodes[1..], i - 1, name);
      assert nodes[..i + 1] == [nodes[0]] + nodes[1..][..i];
    }
  }

  /** Nodes of one folded name are one and the same. */
  predicate SameFoldSame(nodes: seq<Node>) {
    forall i, j :: 0 <= i < j < |nodes| && Fold(nodes[i].name) == Fold(nodes[j].name) ==> nodes[i] == nodes[j]
  }

  lemma {:induction false} FoundExactly(nodes: seq<Node>)
    ensures (forall k :: 0 <= k < |nodes| ==> FirstNamed(nodes, nodes[k].name) == Some(nodes[k])) <==> SameFoldSame(nodes)
  {
    hide Fold, FirstNamed;
    if SameFoldSame(nodes) {
      forall k | 0 <= k < |nodes|
        ensures FirstNamed(nodes, nodes[k].name) == Some(nodes[k])
      {
        FirstNamedBefore(nodes, k, nodes[k].name);
        var r := FirstNamed(nodes, nodes[k].name).value;
        var i :| 0 <= i <= k && nodes[i] == r;
      }
    } else {
      var i, j :| 0 <= i < j < |nodes| && Fold(nodes[i].name) == Fold(nodes[j].name) && nodes[i] != nodes[j];
      SameFind(nodes, nodes[i].name, nodes[j].name);
    }
  }

  lemma {:induction false} SameFind(nodes: seq<Node>, a: string, b: string)
    requires Fold(a) == Fold(b)
    ensures FirstNamed(nodes, a) == FirstNamed(nodes, b)
  {
    hide Fold;
    if nodes != [] {
      SameFind(nodes[1..], a, b);
    }
  }

  lemma {:induction false} FindInBoth(a: seq<Node>, b: seq<Node>, name: string)
    ensures FirstNamed(a + b, name) == if FirstNamed(a, name).Some? then FirstNamed(a, name) else FirstNamed(b, name)
  {
    hide Fold;
    if a == [] {
      assert a + b == b;
    } else {
      assert (a + b)[0] == a[0] && (a + b)[1..] == a[1..] + b;
      FindInBoth(a[1..], b, name);
    }
  }

  /** A name finds the first entry of that name in the whole listing, planted entries first. */
  lemma ListedFirst(c: Config, cur: Node, name: string)
    requires c.Valid() && cur.mazePath != ""
    ensures Child(c, cur, name) == FirstNamed(Children(c, cur), name)
  {
    hide Generated;
    FindInBoth(cur.children, Generated(c, cur.mazePath, cur.mazeDepth), name);
  }

  /**
   * Every entry of a maze node's listing, planted or generated, is the one that its own name finds exactly when no two
   * different entries have names that fold alike.
   */
  lemma ListedIsFound(c: Config, cur: Node)
    requires c.Valid() && cur.mazePath != ""
    ensures var l := Children(c, cur);
            (forall k :: 0 <= k < |l| ==> Child(c, cur, l[k].name) == Some(l[k])) <==> SameFoldSame(l)
  {
    hide *;
    var l := Children(c, cur);
    FoundExactly(l);
    forall k | 0 <= k < |l|
      ensures Child(c, cur, l[k].name) == FirstNamed(l, l[k].name)
    {
      ListedFirst(c, cur, l[k].name);
    }
  }

  // ----- corpora -----

  /** A word that differs from another in case only, up to digits at the end, would make two names fold alike. */
  predicate FoldSafe(words: seq<string>) {
    forall i, j :: 0 <= i < |words| && 0 <= j < |words| && |words[i]| <= |words[j]|
                   && Fold(words[i]) == Fold(words[j])[..|words[i]|] && Digits(words[j][|words[i]|..])
                   ==> words[i] <= words[j]
  }

  predicate Words(words: seq<string>) {
    forall i :: 0 <= i < |words| ==> Plain(words[i])
  }

  predicate GoodCorpora(c: Config) {
    c.Valid() && FoldSafe(c.dirNames + c.fileNames) && Words(c.dirNames + c.fileNames)
  }

  lemma FoldParts(a: string, b: string)
    ensures Fold(a + b) == Fold(a) + Fold(b)
  {
  }

  lemma DigitsFold(s: string)
    requires Digits(s)
    ensures Fold(s) == s
  {
    forall i | 0 <= i < |s|
      ensures Fold(s)[i] == s[i]
    {
      assert IsDigit(s[i]);
    }
  }

  /** Two names from safe words that fold alike are the same. */
  lemma SafeNames(words: seq<string>, x: string, y: string, i: nat, j: nat)
    requires FoldSafe(words) && Fold(x) == Fold(y) && i < |words| && j < |words| && |words[i]| <= |words[j]|
    requires words[i] <= x && Digits(x[|words[i]|..])
    requires words[j] <= y && Digits(y[|words[j]|..])
    ensures x == y
  {
    var a, b, s, t := words[i], words[j], x[|words[i]|..], y[|words[j]|..];
    assert x == a + s && y == b + t;
    FoldParts(a, s);
    FoldParts(b, t);
    DigitsFold(s);
    DigitsFold(t);
    hide Fold;
    CutTail(Fold(a), s, Fold(b), t);
    var u := s[..|b| - |a|];
    SameTail(a, b, u);
    assert b == a + u;
    assert a + s == (a + u) + t;
  }

  lemma CutTail(a: string, s: string, b: string, t: string)
    requires a + s == b + t && |a| <= |b|
    ensures b == a + s[..|b| - |a|] && s == s[..|b| - |a|] + t
  {
    var r, n := a + s, |b|;
    assert r[..n] == b && r[n..] == t;
    assert r[..n] == a + s[..n - |a|] && r[n..] == s[n - |a|..];
  }

  lemma SameTail(a: string, b: string, u: string)
    requires Fold(b) == Fold(a) + u && Digits(u)
    ensures |a| <= |b| && Fold(a) == Fold(b)[..|a|] && b[|a|..] == u && Digits(b[|a|..])
  {
    assert |b| == |a| + |u|;
    forall k | 0 <= k < |u|
      ensures b[|a| + k] == u[k]
    {
      assert Fold(b)[|a| + k] == u[k] && IsDigit(u[k]);
      assert LowerChar(b[|a| + k]) == u[k];
    }
  }

  /** A name from one of two corpora is one from both together. */
  lemma InEither(name: string, a: seq<string>, b: seq<string>)
    requires FromCorpus(name, a) || FromCorpus(name, b)
    ensures FromCorpus(name, a + b)
  {
    var words := a + b;
    if FromCorpus(name, a) {
      var k :| 0 <= k < |a| && a[k] <= name && Digits(name[|a[k]|..]);
      assert words[k] == a[k];
    } else {
      var k :| 0 <= k < |b| && b[k] <= name && Digits(name[|b[k]|..]);
      assert words[|a| + k] == b[k];
    }
  }

  lemma SafeFold(words: seq<string>, x: string, y: string)
    requires FoldSafe(words) && FromCorpus(x, words) && FromCorpus(y, words) && Fold(x) == Fold(y)
    ensures x == y
  {
    hide FoldSafe;
    var i :| 0 <= i < |words| && words[i] <= x && Digits(x[|words[i]|..]);
    var j :| 0 <= j < |words| && words[j] <= y && Digits(y[|words[j]|..]);
    if |words[i]| <= |words[j]| {
      SafeNames(words, x, y, i, j);
    } else {
      SafeNames(words, y, x, j, i);
    }
  }

  /** With good corpora no two names of any listing fold alike. */
  lemma GoodListings(c: Config, path: string, depth: int)
    requires GoodCorpora(c)
    ensures FoldDistinct(Generated(c, path, depth))
  {
    hide Generated, FromCorpus, FoldSafe, Words;
    NamesDistinct(c, path, depth);
    var g, words := Generated(c, path, depth), c.dirNames + c.fileNames;
    forall i, j | 0 <= i < j < |g|
      ensures Fold(g[i].name) != Fold(g[j].name)
    {
      assert MadeFrom(g[i], path, c.dirNames, c.fileNames) && MadeFrom(g[j], path, c.dirNames, c.fileNames);
      InEither(g[i].name, c.dirNames, c.fileNames);
      InEither(g[j].name, c.dirNames, c.fileNames);
      if Fold(g[i].name) == Fold(g[j].name) {
        SafeFold(words, g[i].name, g[j].name);
      }
    }
  }

  lemma PlainNames(name: string, words: seq<string>)
    requires FromCorpus(name, words) && Words(words)
    ensures Plain(name)
  {
    var k :| 0 <= k < |words| && words[k] <= name && Digits(name[|words[k]|..]);
    var w := words[k];
    assert Plain(w);
    forall i | 0 <= i < |name|
      ensures !Separator(name[i])
    {
      if i < |w| {
        assert name[i] == w[i];
      } else {
        assert name[i] == name[|w|..][i - |w|] && IsDigit(name[|w|..][i - |w|]);
      }
    }
    if |w| < |name| {
      assert IsDigit(name[|w|..][|name| - 1 - |w|]);
    } else {
      assert name == w;
    }
  }

  /** No planted entry has a name that folds like this one. */
  predicate Unshadowed(n: Node, name: string) {
    FirstNamed(n.children, name).None?
  }

  lemma GeneratedFound(c: Config, cur: Node, k: nat)
    requires c.Valid() && cur.mazePath != "" && k < |Generated(c, cur.mazePath, cur.mazeDepth)|
    requires var g := Generated(c, cur.mazePath, cur.mazeDepth);
             && Unshadowed(cur, g[k].name)
             && forall i :: 0 <= i < k ==> Fold(g[i].name) != Fold(g[k].name)
    ensures var g := Generated(c, cur.mazePath, cur.mazeDepth); Child(c, cur, g[k].name) == Some(g[k])
  {
    hide Generated, Fold;
    FirstNamedAt(Generated(c, cur.mazePath, cur.mazeDepth), k);
  }

  lemma GeneratedPlain(c: Config, path: string, depth: int, k: nat)
    requires c.Valid() && Words(c.dirNames + c.fileNames) && k < |Generated(c, path, depth)|
    ensures var x := Generated(c, path, depth)[k]; Plain(x.name) && x.children == [] && x.mazePath == Joined(path, x.name)
  {
    hide Generated, FromCorpus, Words;
    NamesDistinct(c, path, depth);
    var g := Generated(c, path, depth);
    assert MadeFrom(g[k], path, c.dirNames, c.fileNames);
    InEither(g[k].name, c.dirNames, c.fileNames);
    PlainNames(g[k].name, c.dirNames + c.fileNames);
  }

  /**
   * Any generated entry of a maze node, whatever is planted in it beside, is what the path of that node with the entry's
   * name resolves to, unless a planted entry has that name.
   */
  lemma ListedResolves(t: Tree, rootName: string, path: string, cur: Node, k: nat)
    requires GoodCorpora(t.maze) && Resolve(t, rootName, path) == Some(cur) && cur.mazePath != ""
    requires k < |Generated(t.maze, cur.mazePath, cur.mazeDepth)|
    requires Unshadowed(cur, Generated(t.maze, cur.mazePath, cur.mazeDepth)[k].name)
    ensures var x := Generated(t.maze, cur.mazePath, cur.mazeDepth)[k];
            x in Children(t.maze, cur) && Resolve(t, rootName, Joined(path, x.name)) == Some(x)
  {
    hide Generated, Resolve, Child, Fold, FirstNamed, FoldSafe, Words;
    var g := Generated(t.maze, cur.mazePath, cur.mazeDepth);
    GoodListings(t.maze, cur.mazePath, cur.mazeDepth);
    GeneratedPlain(t.maze, cur.mazePath, cur.mazeDepth, k);
    GeneratedFound(t.maze, cur, k);
    ResolveStep(t, rootName, path, g[k].name);
  }

  /** A planted entry resolves too, if it is the first of its name. */
  lemma PlantedResolves(t: Tree, rootName: string, path: string, cur: Node, k: nat)
    requires t.maze.Valid() && Resolve(t, rootName, path) == Some(cur) && k < |cur.children| && Plain(cur.children[k].name)
    requires forall i :: 0 <= i < k ==> Fold(cur.children[i].name) != Fold(cur.children[k].name)
    ensures Resolve(t, rootName, Joined(path, cur.children[k].name)) == Some(cur.children[k])
  {
    hide Generated, Resolve, Fold;
    FirstNamedAt(cur.children, k);
    ResolveStep(t, rootName, path, cur.children[k].name);
  }

  /** A directory of the maze in which nothing planted hides the first generated entry. */
  predicate MazeDir(c: Config, n: Node)
    requires c.Valid()
  {
    && n.dir && n.mazePath != ""
    && var g := Generated(c, n.mazePath, n.mazeDepth);
       g != [] ==> Unshadowed(n, g[0].name)
  }

  /** A path that goes on by taking the first generated entry of each listing, and the node it should lead to. */
  function Deeper(c: Config, path: string, cur: Node, depth: nat): (string, Node)
    requires c.Valid()
    decreases depth
  {
    if depth == 0 then (path, cur)
    else
      var g := Generated(c, cur.mazePath, cur.mazeDepth);
      if g == [] then (path, cur) else Deeper(c, Joined(path, g[0].name), g[0], depth - 1)
  }

  /** The maze has no bottom: below any of its directories a directory resolves at every further depth. */
  lemma {:induction false} DirectoryAtEveryDepth(t: Tree, rootName: string, path: string, cur: Node, depth: nat)
    requires t.maze.Valid() && Words(t.maze.dirNames + t.maze.fileNames)
    requires t.maze.maxDepth <= 0 && t.maze.minDirs >= 1
    requires Resolve(t, rootName, path) == Some(cur) && MazeDir(t.maze, cur)
    ensures var (p, n) := Deeper(t.maze, path, cur, depth);
            Resolve(t, rootName, p) == Some(n) && n.dir && n.mazePath != "" && n.mazeDepth == cur.mazeDepth + depth
    decreases depth
  {
    hide Generated, Resolve, Child, Fold, Words;
    if depth > 0 {
      var g := Generated(t.maze, cur.mazePath, cur.mazeDepth);
      FirstIsDirectory(t.maze, cur.mazePath, cur.mazeDepth);
      GeneratedPlain(t.maze, cur.mazePath, cur.mazeDepth, 0);
      GeneratedFound(t.maze, cur, 0);
      ResolveStep(t, rootName, path, g[0].name);
      DirectoryAtEveryDepth(t, rootName, Joined(path, g[0].name), g[0], depth - 1);
    }
  }
}
