/** What CWD and CDUP do to the directory string, law by law. */
module FtpLaws {
  import opened Bytes
  import opened Text
  import opened Maze
  import opened Tree
  import opened Ftp

  // ----- what an argument means -----

  /** An empty argument and a dot stay, a slash goes to the root, two dots go up. */
  lemma FixedArguments(parts: seq<string>)
    ensures ResolvedParts(parts, "") == parts && ResolvedParts(parts, ".") == parts
    ensures ResolvedParts(parts, "/") == [] && ResolvedParts(parts, "\\") == []
    ensures ResolvedParts(parts, "..") == if parts == [] then [] else parts[..|parts| - 1]
  {
    ParentParts(parts);
    assert NoBackslash("") == "" && NoBackslash(".") == "." && NoBackslash("/") == "/" && NoBackslash("\\") == "/";
    FieldsOfOne(".", "", []);
    assert "." + "" == "." && [] + "." == "." && ["."][1..] == [];
    assert "/"[1..] == "";
    assert Flushed([]) + [] == [];
  }

  /** A plain name goes one directory down. */
  lemma NameArgument(parts: seq<string>, name: string)
    requires Plain(name)
    ensures ResolvedParts(parts, name) == parts + [name]
  {
    assert forall i :: 0 <= i < |name| ==> !Separator(name[i]);
    assert NoBackslash(name) == name && name[0] != '/';
    FieldsOfOne(name, "", []);
    assert name + "" == name && [] + name == name;
    assert SlashFields(name, []) == SlashFields("", name) == [name];
    assert name != "." && name != "..";
    assert [name][1..] == [] && Reduced([name], parts) == Reduced([], parts + [name]);
  }

  /** A rooted argument does not look at the current directory. */
  lemma RootedArgument(parts: seq<string>, arg: string)
    requires arg != [] && (arg[0] == '/' || arg[0] == '\\')
    ensures ResolvedParts(parts, arg) == ResolvedParts([], arg)
  {
  }

  /** Backslashes are slashes. */
  lemma BackslashArgument(parts: seq<string>, arg: string)
    ensures ResolvedParts(parts, arg) == ResolvedParts(parts, NoBackslash(arg))
  {
    assert NoBackslash(NoBackslash(arg)) == NoBackslash(arg);
  }

  lemma {:induction false} FieldsJoin(a: string, b: string, current: string)
    ensures SlashFields(a + "/" + b, current) == SlashFields(a, current) + SlashFields(b, [])
    decreases |a|
  {
    var all := a + "/" + b;
    if a == [] {
      assert all[0] == '/' && all[1..] == b;
    } else {
      assert all[0] == a[0] && all[1..] == a[1..] + "/" + b;
      FieldsJoin(a[1..], b, if a[0] == '/' then [] else current + [a[0]]);
    }
  }

  lemma {:induction false} ReducedJoin(a: seq<string>, b: seq<string>, done: seq<string>)
    ensures Reduced(a + b, done) == Reduced(b, Reduced(a, done))
    decreases |a|
  {
    if a == [] {
      assert a + b == b;
    } else {
      assert (a + b)[0] == a[0] && (a + b)[1..] == a[1..] + b;
      var up := if done == [] then [] else done[..|done| - 1];
      ReducedJoin(a[1..], b, if a[0] == "." then done else if a[0] == ".." then up else done + [a[0]]);
    }
  }

  /** Two stretches with a slash between them are one after the other. */
  lemma JoinedArguments(parts: seq<string>, a: string, b: string)
    requires a != [] && (b == [] || (b[0] != '/' && b[0] != '\\'))
    ensures ResolvedParts(parts, a + "/" + b) == ResolvedParts(ResolvedParts(parts, a), b)
  {
    var x, y := NoBackslash(a), NoBackslash(b);
    assert NoBackslash(a + "/" + b) == x + "/" + y;
    FieldsJoin(x, y, []);
    ReducedJoin(SlashFields(x, []), SlashFields(y, []), if x[0] == '/' then [] else parts);
  }

  // ----- walking the tree -----

  /**
   * The directory of a session is that of the components parts. An entry that its directory finds by its own plain name is
   * what the path of that name leads to, and one step up from there leads back.
   */
  lemma EntryAndBack(t: Tree, root: string, parts: seq<string>, cur: Node, x: Node)
    requires t.maze.Valid() && Components(parts) && Plain(x.name)
    requires Resolve(t, root, TreePath(PathOf(parts))) == Some(cur) && Child(t.maze, cur, x.name) == Some(x)
    ensures var target := ResolvedPath(PathOf(parts), x.name);
            && target == PathOf(parts + [x.name]) && Resolve(t, root, TreePath(target)) == Some(x)
            && ResolvedPath(target, "..") == PathOf(parts)
  {
    var next := parts + [x.name];
    ResolvedPathIs(parts, x.name);
    NameArgument(parts, x.name);
    assert Components(next);
    ResolvedPathIs(next, "..");
    ParentParts(next);
    assert next[..|next| - 1] == parts;
    TreeFields(parts);
    TreeFields(next);
    hide Fields, TreePath, PathOf, ResolvedPath, ResolvedParts, Plain, Child;
    DescendSplit(t.maze, t.roots[Upper(root)], parts, [x.name]);
    OneDown(t.maze, cur, x);
  }

  lemma OneDown(c: Config, cur: Node, x: Node)
    requires c.Valid() && Plain(x.name) && Child(c, cur, x.name) == Some(x)
    ensures Descend(c, cur, [x.name]) == Some(x)
  {
    hide Child;
    assert [x.name][1..] == [];
  }

  /** Dots are no names: the tree passes over them. */
  lemma DotsPassedOver(c: Config, cur: Node, rest: seq<string>)
    requires c.Valid()
    ensures Descend(c, cur, ["."] + rest) == Descend(c, cur, rest)
    ensures Descend(c, cur, [".."] + rest) == Descend(c, cur, rest)
  {
    hide Child;
    assert (["."] + rest)[1..] == rest && ([".."] + rest)[1..] == rest;
  }

  /**
   * A client that changes to a listed directory is in it, and a step up later it is back where it was; changing to a listed
   * file is refused and changes nothing.
   */
  method VisitEntry(s: Session, ghost parts: seq<string>, ghost cur: Node, x: Node) returns (entered: nat, left: nat)
    requires s.Valid() && Components(parts) && s.cwd == PathOf(parts) && Plain(x.name)
    requires Resolve(s.tree, s.rootKey, TreePath(s.cwd)) == Some(cur) && Child(s.tree.maze, cur, x.name) == Some(x)
    modifies s
    ensures s.Valid() && s.cwd == old(s.cwd)
    ensures if x.dir then entered == 250 && left == 250 else entered == 550
  {
    EntryAndBack(s.tree, s.rootKey, parts, cur, x);
    left := 0;
    entered := s.Dispatch(Cwd(x.name));
    if entered == 250 {
      assert s.cwd == PathOf(parts + [x.name]);
      left := s.Dispatch(Cdup);
    }
  }
}
