/** How names and separators are compared when a path is looked up. */
module TreeLookup {
  import opened Bytes
  import opened Text
  import opened Maze
  import opened Tree

  /** The same characters, up to the case of the letters A to Z. */
  ghost predicate SameName(a: string, b: string) {
    |a| == |b| && forall i :: 0 <= i < |a| ==> SameLetter(a[i], b[i])
  }

  predicate SameLetter(x: char, y: char) {
    x == y || ('A' <= x <= 'Z' && y as int == x as int + 32) || ('A' <= y <= 'Z' && x as int == y as int + 32)
  }

  lemma SameNameFolds(a: string, b: string)
    ensures SameName(a, b) <==> Fold(a) == Fold(b)
    ensures SameName(a, b) <==> Upper(a) == Upper(b)
  {
    UpperIsFold(a, b);
    if SameName(a, b) {
      forall i | 0 <= i < |a|
        ensures Fold(a)[i] == Fold(b)[i]
      {
        assert SameLetter(a[i], b[i]);
      }
    }
    if Fold(a) == Fold(b) {
      forall i | 0 <= i < |a|
        ensures SameLetter(a[i], b[i])
      {
        assert Fold(a)[i] == Fold(b)[i];
      }
    }
  }

  /** The found node is the first of that name in the listing, and nothing is found only if no node has it. */
  ghost predicate IsFirstOf(r: Option<Node>, nodes: seq<Node>, name: string) {
    match r
    case None => forall i :: 0 <= i < |nodes| ==> !SameName(nodes[i].name, name)
    case Some(n) =>
      exists k :: 0 <= k < |nodes| && nodes[k] == n && SameName(n.name, name)
                  && forall i :: 0 <= i < k ==> !SameName(nodes[i].name, name)
  }

  lemma {:induction false} FirstNamedIs(nodes: seq<Node>, name: string)
    ensures IsFirstOf(FirstNamed(nodes, name), nodes, name)
  {
    hide Fold, SameName;
    if nodes != [] {
      SameNameFolds(nodes[0].name, name);
      var r, rest := FirstNamed(nodes, name), nodes[1..];
      if Fold(nodes[0].name) != Fold(name) {
        FirstNamedIs(rest, name);
        hide FirstNamed;
        if r.Some? {
          var k :| 0 <= k < |rest| && rest[k] == r.value && SameName(r.value.name, name)
                   && forall i :: 0 <= i < k ==> !SameName(rest[i].name, name);
          assert nodes[k + 1] == r.value && forall i :: 0 < i < k + 1 ==> nodes[i] == rest[i - 1];
        } else {
          assert forall i :: 0 < i < |nodes| ==> nodes[i] == rest[i - 1];
        }
      } else {
        assert nodes[0] == r.value;
      }
    }
  }

  /** A directory finds the first of its listed entries that has the name up to case, planted ones before generated. */
  lemma ChildExactly(c: Config, cur: Node, name: string)
    requires c.Valid()
    ensures IsFirstOf(Child(c, cur, name), Children(c, cur), name)
  {
    hide Generated, Fold, SameName, IsFirstOf;
    var g := if cur.mazePath != "" then Generated(c, cur.mazePath, cur.mazeDepth) else [];
    FindInBoth(cur.children, g, name);
    FirstNamedIs(cur.children + g, name);
    hide *;
    NamedInNone(name);
    ChildCases(c, cur, name);
  }

  lemma NamedInNone(name: string)
    ensures FirstNamed([], name).None?
  {
  }

  lemma ChildCases(c: Config, cur: Node, name: string)
    requires c.Valid()
    requires var g := if cur.mazePath != "" then Generated(c, cur.mazePath, cur.mazeDepth) else [];
             FirstNamed(cur.children + g, name)
             == if FirstNamed(cur.children, name).Some? then FirstNamed(cur.children, name) else FirstNamed(g, name)
    requires FirstNamed([], name).None?
    ensures Child(c, cur, name) == FirstNamed(Children(c, cur), name)
  {
    hide Generated, FirstNamed;
  }

  lemma SameChild(c: Config, cur: Node, a: string, b: string)
    requires c.Valid() && SameName(a, b)
    ensures Child(c, cur, a) == Child(c, cur, b)
  {
    hide Generated, Fold, SameName;
    SameNameFolds(a, b);
    SameFind(cur.children, a, b);
    if cur.mazePath != "" {
      SameFind(Generated(c, cur.mazePath, cur.mazeDepth), a, b);
    }
  }

  ghost predicate SameParts(a: seq<string>, b: seq<string>) {
    |a| == |b| && forall i :: 0 <= i < |a| ==> SameName(a[i], b[i])
  }

  lemma DotsSame(a: string, b: string)
    requires SameName(a, b)
    ensures Dots(a) <==> Dots(b)
  {
    assert forall i :: 0 <= i < |a| ==> SameLetter(a[i], b[i]);
    assert Dots(a) <==> (|a| == 1 && a[0] == '.') || (|a| == 2 && a[0] == '.' && a[1] == '.');
    assert Dots(b) <==> (|b| == 1 && b[0] == '.') || (|b| == 2 && b[0] == '.' && b[1] == '.');
  }

  lemma {:induction false} SameDescent(c: Config, cur: Node, a: seq<string>, b: seq<string>)
    requires c.Valid() && SameParts(a, b)
    ensures Descend(c, cur, a) == Descend(c, cur, b)
    decreases |a|
  {
    hide Child, SameName;
    if a != [] {
      DotsSame(a[0], b[0]);
      assert SameParts(a[1..], b[1..]);
      if Dots(a[0]) {
        SameDescent(c, cur, a[1..], b[1..]);
      } else {
        SameChild(c, cur, a[0], b[0]);
        if Child(c, cur, a[0]).Some? {
          SameDescent(c, Child(c, cur, a[0]).value, a[1..], b[1..]);
        }
      }
    }
  }

  /** Two characters of a path that mean the same: letters of either case, separators of either kind. */
  predicate Alike(x: char, y: char) {
    SameLetter(x, y) || (Separator(x) && Separator(y))
  }

  ghost predicate AlikePaths(s: string, t: string) {
    |s| == |t| && forall i :: 0 <= i < |s| ==> Alike(s[i], t[i])
  }

  lemma {:induction false} AlikeFields(s: string, t: string, a: string, b: string)
    requires AlikePaths(s, t) && SameName(a, b)
    ensures SameParts(Fields(s, a), Fields(t, b))
    decreases |s|
  {
    if s != [] {
      assert Alike(s[0], t[0]);
      assert AlikePaths(s[1..], t[1..]);
      if Separator(s[0]) {
        assert Separator(t[0]);
        AlikeFields(s[1..], t[1..], [], []);
      } else {
        assert !Separator(t[0]) && SameName(a + [s[0]], b + [t[0]]);
        AlikeFields(s[1..], t[1..], a + [s[0]], b + [t[0]]);
      }
    }
  }

  /** Neither the case of a path or of its root's name nor the kind of its separators makes a difference. */
  lemma AlikeResolve(t: Tree, r: string, s: string, p: string, q: string)
    requires t.maze.Valid() && SameName(r, s) && AlikePaths(p, q)
    ensures Resolve(t, r, p) == Resolve(t, s, q)
  {
    SameNameFolds(r, s);
    AlikeFields(p, q, [], []);
    hide Fields, Upper, SameName, AlikePaths;
    if Upper(r) in t.roots {
      SameDescent(t.maze, t.roots[Upper(r)], Fields(p, []), Fields(q, []));
    }
  }
}
