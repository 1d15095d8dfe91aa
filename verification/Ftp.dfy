/** The working directory of an FTP session. */
module Ftp {
  import opened Bytes
  import opened Text
  import opened Maze
  import opened Tree

  // ----- cleaning a rooted path -----

  /** The components between slashes, empty ones dropped. */
  function SlashFields(s: string, current: string): seq<string>
    decreases |s|
  {
    if s == [] then Flushed(current)
    else if s[0] == '/' then Flushed(current) + SlashFields(s[1..], [])
    else SlashFields(s[1..], current + [s[0]])
  }

  /** Components with single dots removed and each double dot taking back the component before it, if any. */
  function Reduced(parts: seq<string>, done: seq<string>): seq<string>
    decreases |parts|
  {
    if parts == [] then done
    else if parts[0] == "." then Reduced(parts[1..], done)
    else if parts[0] == ".." then Reduced(parts[1..], if done == [] then [] else done[..|done| - 1])
    else Reduced(parts[1..], done + [parts[0]])
  }

  function Slashed(parts: seq<string>): string {
    if parts == [] then "" else Slashed(parts[..|parts| - 1]) + "/" + parts[|parts| - 1]
  }

  /** path.Clean of a path that starts with a slash. */
  function Clean(p: string): string
    requires p != [] && p[0] == '/'
  {
    var parts := Reduced(SlashFields(p, []), []);
    if parts == [] then "/" else Slashed(parts)
  }

  function Slash(c: char): char {
    if c == '\\' then '/' else c
  }

  function NoBackslash(s: string): (r: string)
    ensures |r| == |s| && forall i :: 0 <= i < |s| ==> r[i] == Slash(s[i])
  {
    seq(|s|, i requires 0 <= i < |s| => Slash(s[i]))
  }

  /** The clean rooted path that an argument names in the current directory. */
  function ResolvedPath(cwd: string, arg: string): string
    requires cwd != [] && cwd[0] == '/'
  {
    var a := NoBackslash(arg);
    Clean(if a != [] && a[0] == '/' then a else cwd + "/" + a)
  }

  function TreePath(p: string): string {
    if p != [] && p[0] == '/' then p[1..] else p
  }

  // ----- paths as components -----

  predicate Components(parts: seq<string>) {
    forall i :: 0 <= i < |parts| ==> Plain(parts[i])
  }

  /** The absolute cleaned path made of the given components. */
  function PathOf(parts: seq<string>): (p: string)
    ensures p != [] && p[0] == '/'
  {
    SlashFirst(parts);
    if parts == [] then "/" else Slashed(parts)
  }

  lemma {:induction false} SlashFirst(parts: seq<string>)
    ensures parts != [] ==> Slashed(parts) != [] && Slashed(parts)[0] == '/'
  {
    if |parts| > 1 {
      SlashFirst(parts[..|parts| - 1]);
    }
  }

  /** The components of the path that an argument names. */
  function ResolvedParts(parts: seq<string>, arg: string): seq<string> {
    var a := NoBackslash(arg);
    Reduced(SlashFields(a, []), if a != [] && a[0] == '/' then [] else parts)
  }

  lemma {:induction false} FieldsOfOne(part: string, tail: string, current: string)
    requires forall i :: 0 <= i < |part| ==> part[i] != '/'
    ensures SlashFields(part + tail, current) == SlashFields(tail, current + part)
    decreases |part|
  {
    if part == [] {
      assert part + tail == tail && current + part == current;
    } else {
      var all := part + tail;
      assert all[0] == part[0] && all[1..] == part[1..] + tail;
      FieldsOfOne(part[1..], tail, current + [part[0]]);
      assert current + [part[0]] + part[1..] == current + part;
    }
  }

  /** A slash, a component, and an end or another slash. */
  lemma OneComponent(part: string, tail: string)
    requires Plain(part) && (tail == [] || tail[0] == '/')
    ensures SlashFields("/" + part + tail, []) == [part] + SlashFields(tail, [])
  {
    var all := "/" + part + tail;
    assert all[0] == '/' && all[1..] == part + tail;
    FieldsOfOne(part, tail, []);
    assert [] + part == part;
    if tail == [] {
      assert SlashFields(tail, part) == [part] && [part] + [] == [part];
    } else {
      assert Flushed([]) + SlashFields(tail[1..], []) == SlashFields(tail[1..], []);
    }
    assert SlashFields(tail, part) == [part] + SlashFields(tail, []);
    assert SlashFields(all, []) == [] + SlashFields(part + tail, []);
    hide SlashFields;
  }

  lemma LastJoins(parts: seq<string>, rest: seq<string>)
    requires parts != []
    ensures var n := |parts| - 1; parts[..n] + ([parts[n]] + rest) == parts + rest
  {
  }

  lemma {:induction false} FieldsOfSlashed(parts: seq<string>, tail: string)
    requires Components(parts) && (tail == [] || tail[0] == '/')
    ensures SlashFields(Slashed(parts) + tail, []) == parts + SlashFields(tail, [])
    decreases |parts|
  {
    if parts == [] {
      assert Slashed(parts) + tail == tail;
    } else {
      var init, last := parts[..|parts| - 1], parts[|parts| - 1];
      assert Slashed(parts) + tail == Slashed(init) + ("/" + last + tail);
      hide SlashFields, Slashed, Plain;
      FieldsOfSlashed(init, "/" + last + tail);
      OneComponent(last, tail);
      LastJoins(parts, SlashFields(tail, []));
    }
  }

  lemma {:induction false} ReducedSplit(a: seq<string>, b: seq<string>, done: seq<string>)
    requires Components(a)
    ensures Reduced(a + b, done) == Reduced(b, done + a)
    decreases |a|
  {
    if a == [] {
      assert a + b == b && done + a == done;
    } else {
      assert (a + b)[0] == a[0] && (a + b)[1..] == a[1..] + b && Plain(a[0]);
      ReducedSplit(a[1..], b, done + [a[0]]);
      assert done + [a[0]] + a[1..] == done + a;
    }
  }

  /** Cleaning the joined path is reducing the argument's components onto the directory's. */
  lemma ResolvedPathIs(parts: seq<string>, arg: string)
    requires Components(parts)
    ensures ResolvedPath(PathOf(parts), arg) == PathOf(ResolvedParts(parts, arg))
  {
    var a := NoBackslash(arg);
    if a == [] || a[0] != '/' {
      var cwd := PathOf(parts);
      var p, tail := cwd + "/" + a, "/" + a;
      assert p == cwd + tail && tail[1..] == a;
      assert Flushed([]) + SlashFields(a, []) == SlashFields(a, []);
      assert SlashFields(tail, []) == SlashFields(a, []);
      if parts == [] {
        assert p[0] == '/' && p[1..] == tail;
        assert Flushed([]) + SlashFields(tail, []) == SlashFields(tail, []);
      } else {
        FieldsOfSlashed(parts, tail);
        ReducedSplit(parts, SlashFields(a, []), []);
        assert [] + parts == parts;
      }
    }
  }

  predicate SlashFree(parts: seq<string>) {
    forall i :: 0 <= i < |parts| ==> parts[i] != [] && forall j :: 0 <= j < |parts[i]| ==> !Separator(parts[i][j])
  }

  lemma {:induction false} FieldsSlashFree(s: string, current: string)
    requires forall i :: 0 <= i < |s| ==> s[i] != '\\'
    requires forall i :: 0 <= i < |current| ==> !Separator(current[i])
    ensures SlashFree(SlashFields(s, current))
    decreases |s|
  {
    if s != [] {
      if s[0] == '/' {
        FieldsSlashFree(s[1..], []);
      } else {
        FieldsSlashFree(s[1..], current + [s[0]]);
      }
    }
  }

  lemma {:induction false} ReducedComponents(parts: seq<string>, done: seq<string>)
    requires SlashFree(parts) && Components(done)
    ensures Components(Reduced(parts, done))
    decreases |parts|
  {
    if parts != [] {
      if parts[0] == "." {
        ReducedComponents(parts[1..], done);
      } else if parts[0] == ".." {
        ReducedComponents(parts[1..], if done == [] then [] else done[..|done| - 1]);
      } else {
        assert Plain(parts[0]);
        ReducedComponents(parts[1..], done + [parts[0]]);
      }
    }
  }

  lemma ResolvedComponents(parts: seq<string>, arg: string)
    requires Components(parts)
    ensures Components(ResolvedParts(parts, arg))
  {
    var a := NoBackslash(arg);
    FieldsSlashFree(a, []);
    ReducedComponents(SlashFields(a, []), if a != [] && a[0] == '/' then [] else parts);
  }

  /** Without backslashes the tree splits a path where FTP does. */
  lemma {:induction false} SameFields(s: string, current: string)
    requires forall i :: 0 <= i < |s| ==> s[i] != '\\'
    ensures Fields(s, current) == SlashFields(s, current)
    decreases |s|
  {
    if s != [] {
      SameFields(s[1..], if s[0] == '/' then [] else current + [s[0]]);
    }
  }

  lemma {:induction false} NoBackslashIn(parts: seq<string>)
    requires Components(parts)
    ensures forall i :: 0 <= i < |Slashed(parts)| ==> Slashed(parts)[i] != '\\'
  {
    if parts != [] {
      NoBackslashIn(parts[..|parts| - 1]);
      assert Plain(parts[|parts| - 1]);
    }
  }

  /** The tree descends by exactly the components of a cleaned path. */
  lemma TreeFields(parts: seq<string>)
    requires Components(parts)
    ensures Fields(TreePath(PathOf(parts)), []) == parts
  {
    var p := PathOf(parts);
    NoBackslashIn(parts);
    SameFields(p[1..], []);
    assert SlashFields(p, []) == Flushed([]) + SlashFields(p[1..], []) == SlashFields(p[1..], []);
    if parts != [] {
      FieldsOfSlashed(parts, []);
      assert p + [] == p && parts + [] == parts;
    }
  }

  // ----- the session -----

  datatype Command = Cwd(arg: string) | Cdup | Other

  /** The node of the tree that a cleaned path leads to. */
  function NodeAt(t: Tree, root: string, parts: seq<string>): Option<Node>
    requires t.maze.Valid()
  {
    Resolve(t, root, TreePath(PathOf(parts)))
  }

  /** The components of the working directory after a command. */
  function Next(t: Tree, root: string, parts: seq<string>, c: Command): seq<string>
    requires t.maze.Valid()
  {
    match c
    case Cwd(arg) =>
      var target := ResolvedParts(parts, arg);
      var n := NodeAt(t, root, target);
      if n.Some? && n.value.dir then target else parts
    case Cdup => if parts == [] then [] else parts[..|parts| - 1]
    case Other => parts
  }

  function After(t: Tree, root: string, cs: seq<Command>): seq<string>
    requires t.maze.Valid()
  {
    if cs == [] then [] else Next(t, root, After(t, root, cs[..|cs| - 1]), cs[|cs| - 1])
  }

  /** Every directory above one that resolves resolves too. */
  lemma PrefixResolves(t: Tree, root: string, parts: seq<string>, k: nat)
    requires t.maze.Valid() && Components(parts) && k <= |parts| && NodeAt(t, root, parts).Some?
    ensures Components(parts[..k]) && NodeAt(t, root, parts[..k]).Some?
  {
    hide Descend, Fields, TreePath, PathOf, Plain;
    TreeFields(parts);
    TreeFields(parts[..k]);
    assert parts == parts[..k] + parts[k..];
    DescendSplit(t.maze, t.roots[Upper(root)], parts[..k], parts[k..]);
  }

  /** One step up drops the last component; at the root it stays there. */
  lemma ParentParts(parts: seq<string>)
    ensures ResolvedParts(parts, "..") == if parts == [] then [] else parts[..|parts| - 1]
  {
    assert NoBackslash("..") == "..";
    FieldsOfOne("..", "", []);
    assert ".." + "" == ".." && [] + ".." == "..";
    assert [".."][1..] == [];
  }

  /** After any commands the working directory is made of plain components and still resolves. */
  lemma {:induction false} DirectoryResolves(t: Tree, root: string, cs: seq<Command>)
    requires t.maze.Valid() && Upper(root) in t.roots
    ensures Components(After(t, root, cs)) && NodeAt(t, root, After(t, root, cs)).Some?
  {
    if cs == [] {
      TreeFields([]);
    } else {
      var parts, c := After(t, root, cs[..|cs| - 1]), cs[|cs| - 1];
      DirectoryResolves(t, root, cs[..|cs| - 1]);
      hide NodeAt;
      match c {
        case Cwd(arg) => ResolvedComponents(parts, arg);
        case Cdup =>
          if parts != [] {
            PrefixResolves(t, root, parts, |parts| - 1);
          }
        case Other =>
      }
    }
  }

  class Session {
    const tree: Tree
    const rootKey: string
    var cwd: string
    ghost var log: seq<Command>

    /** The working directory is what the commands so far make it. */
    ghost predicate Valid()
      reads this
    {
      tree.maze.Valid() && Upper(rootKey) in tree.roots && cwd == PathOf(After(tree, rootKey, log))
    }

    constructor (t: Tree, root: string)
      requires t.maze.Valid() && Upper(root) in t.roots
      ensures Valid() && log == [] && cwd == "/" && tree == t && rootKey == root
    {
      tree, rootKey, cwd, log := t, root, "/", [];
    }

    /**
     * CWD enters the directory that the argument names, if the tree has it, and answers 250; it stays and answers 550 for
     * a file or nothing. CDUP goes to the directory above. Other commands leave the directory alone.
     */
    method Dispatch(c: Command) returns (code: nat)
      requires Valid()
      modifies this
      ensures Valid() && log == old(log) + [c]
      ensures match c
              case Cwd(arg) =>
                var target := ResolvedPath(old(cwd), arg);
                var n := Resolve(tree, rootKey, TreePath(target));
                if n.Some? && n.value.dir then cwd == target && code == 250 else cwd == old(cwd) && code == 550
              case Cdup => cwd == ResolvedPath(old(cwd), "..") && code == 250
              case Other => cwd == old(cwd)
    {
      ghost var parts := After(tree, rootKey, log);
      DirectoryResolves(tree, rootKey, log);
      assert (log + [c])[..|log|] == log;
      code := 0;
      match c {
        case Cwd(arg) =>
          var target := ResolvedPath(cwd, arg);
          ResolvedPathIs(parts, arg);
          var n := ResolvePath(tree, rootKey, TreePath(target));
          if n.Some? && n.value.dir {
            cwd, code := target, 250;
          } else {
            code := 550;
          }
        case Cdup =>
          ResolvedPathIs(parts, "..");
          ParentParts(parts);
          cwd, code := ResolvedPath(cwd, ".."), 250;
        case Other =>
      }
      log := log + [c];
    }
  }
}
