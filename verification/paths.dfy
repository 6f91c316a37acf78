/** The parts of Go's `path/filepath` the core relies on, for '/'-separated
    paths (on such systems `filepath.ToSlash` is the identity). */
module Paths {
  import opened Text

  /** `filepath.Ext`, scanning back from offset `i`. */
  function ExtBefore(path: string, i: nat): (r: string)
    requires i <= |path|
    ensures |r| <= i && r == path[i - |r|..i]
    ensures r != "" ==> r[0] == '.' && NoChar(r, '/') && NoChar(r[1..], '.')
    ensures r == "" ==> NoChar(path[LastSlashBefore(path, i)..i], '.')
    decreases i
  {
    if i == 0 || path[i - 1] == '/' then ""
    else if path[i - 1] == '.' then path[i - 1..i]
    else
      var r := ExtBefore(path, i - 1);
      if r == "" then
        var k := LastSlashBefore(path, i - 1);
        assert path[k..i] == path[k..i - 1] + [path[i - 1]];
        ""
      else
        assert path[i - 1 - |r|..i - 1] == r;
        var r' := r + [path[i - 1]];
        assert r'[1..] == r[1..] + [path[i - 1]];
        r'
  }

  /** The offset just after the last '/' before offset `i` (0 if none). */
  function LastSlashBefore(path: string, i: nat): (k: nat)
    requires i <= |path|
    ensures k <= i
    ensures NoChar(path[k..i], '/')
    ensures k > 0 ==> path[k - 1] == '/'
    decreases i
  {
    if i == 0 then 0
    else if path[i - 1] == '/' then i
    else
      var k := LastSlashBefore(path, i - 1);
      assert path[k..i] == path[k..i - 1] + [path[i - 1]];
      k
  }

  /** `filepath.Ext`: the suffix of `path` from the last '.' of its final
      element, or "" when that element has no '.'. */
  function Ext(path: string): (r: string)
    ensures HasSuffix(path, r)
    ensures r != "" ==> r[0] == '.' && NoChar(r, '/') && NoChar(r[1..], '.')
    ensures r == "" ==> NoChar(path[LastSlashBefore(path, |path|)..|path|], '.')
  {
    ExtBefore(path, |path|)
  }

  function TrimTrailingSlashes(path: string): (r: string)
    ensures |r| <= |path| && r == path[..|r|]
    ensures r == "" || r[|r| - 1] != '/'
  {
    if path != [] && path[|path| - 1] == '/' then TrimTrailingSlashes(path[..|path| - 1]) else path
  }

  /** `filepath.Base`: the last element of the path with trailing slashes
      removed; "." for the empty path and "/" for a path of slashes. */
  function Base(path: string): (r: string)
    ensures r != ""
    ensures path == "" ==> r == "."
    ensures path != "" && TrimTrailingSlashes(path) == "" ==> r == "/"
    ensures TrimTrailingSlashes(path) != "" ==>
      NoChar(r, '/') && HasSuffix(TrimTrailingSlashes(path), r)
  {
    if path == "" then "."
    else
      var p := TrimTrailingSlashes(path);
      if p == "" then "/"
      else
        var k := LastSlashBefore(p, |p|);
        assert k < |p|;
        p[k..]
  }

  // ---------------------------------------------------------------------
  // `filepath.Clean` as a stack of path elements

  /** An element a cleaned path can hold: not empty, not ".", no '/'. */
  predicate Proper(c: string) {
    c != "" && c != "." && NoChar(c, '/')
  }

  /** An element that names something: proper and not "..". */
  predicate Name(c: string) {
    Proper(c) && c != ".."
  }

  /** A reduced stack: proper elements, ".." only as a leading run, and no
      ".." at all under the root. */
  predicate Stack(stack: seq<string>, rooted: bool) {
    && (forall k :: 0 <= k < |stack| ==> Proper(stack[k]))
    && (forall i, j :: 0 <= i < j < |stack| && stack[j] == ".." ==> stack[i] == "..")
    && (rooted ==> forall k :: 0 <= k < |stack| ==> stack[k] != "..")
  }

  predicate NoSlashes(comps: seq<string>) {
    forall k :: 0 <= k < |comps| ==> NoChar(comps[k], '/')
  }

  predicate Names(t: seq<string>) {
    forall k :: 0 <= k < |t| ==> Name(t[k])
  }

  /** The component-stack reduction at the heart of `filepath.Clean`: drop
      empty and "." elements, let ".." cancel the element before it, and
      drop ".." at the root of a rooted path. */
  function Reduce(stack: seq<string>, comps: seq<string>, rooted: bool): (r: seq<string>)
    requires Stack(stack, rooted) && NoSlashes(comps)
    ensures Stack(r, rooted)
    decreases |comps|
  {
    if comps == [] then stack
    else
      var c := comps[0];
      if c == "" || c == "." then Reduce(stack, comps[1..], rooted)
      else if c == ".." then
        if |stack| > 0 && stack[|stack| - 1] != ".." then Reduce(stack[..|stack| - 1], comps[1..], rooted)
        else if rooted then Reduce(stack, comps[1..], rooted)
        else Reduce(stack + [".."], comps[1..], rooted)
      else Reduce(stack + [c], comps[1..], rooted)
  }

  /** A path written from a reduced stack. */
  function Render(rooted: bool, stack: seq<string>): (r: string)
    requires Stack(stack, rooted)
    ensures r != ""
  {
    if rooted then "/" + Join(stack, "/")
    else if stack == [] then "."
    else JoinStartsWithFirst(stack, "/"); Join(stack, "/")
  }

  predicate Rooted(path: string) {
    path != "" && path[0] == '/'
  }

  /** The elements `Clean` keeps of a path. */
  function Elements(path: string): (r: seq<string>)
    ensures Stack(r, Rooted(path))
  {
    Reduce([], Split(path, '/'), Rooted(path))
  }

  /** `filepath.Clean`: the shortest lexically equivalent path; never "". */
  function Clean(path: string): (r: string)
    ensures r != ""
    ensures Rooted(r) <==> Rooted(path)
  {
    if path == "" then "."
    else Render(Rooted(path), Elements(path))
  }

  /** `filepath.Join(a, b)`: leading empty elements are ignored and the
      result is cleaned. */
  function Join2(a: string, b: string): (r: string)
    ensures (a != "" || b != "") ==> r != ""
    ensures a == "" && b == "" ==> r == ""
  {
    if a != "" then Clean(a + "/" + b)
    else if b != "" then Clean(b)
    else ""
  }

  /** A cleaned relative path that leaves its starting directory. */
  predicate Climbs(path: string) {
    path == ".." || HasPrefix(path, "../")
  }

  /** `p` is `root` itself or lies below it. */
  predicate Within(root: string, p: string) {
    if root == "/" then Rooted(p) else p == root || HasPrefix(p, root + "/")
  }

  // ---------------------------------------------------------------------
  // Lemmas about the reduction

  lemma {:induction false} ReduceAppend(s: seq<string>, a: seq<string>, b: seq<string>, rooted: bool)
    requires Stack(s, rooted) && NoSlashes(a) && NoSlashes(b)
    ensures NoSlashes(a + b)
    ensures Reduce(s, a + b, rooted) == Reduce(Reduce(s, a, rooted), b, rooted)
    decreases |a|
  {
    assert NoSlashes(a + b) by {
      forall k | 0 <= k < |a + b| ensures NoChar((a + b)[k], '/') {
        if k < |a| { assert (a + b)[k] == a[k]; } else { assert (a + b)[k] == b[k - |a|]; }
      }
    }
    if a == [] {
      assert a + b == b;
    } else {
      assert (a + b)[0] == a[0];
      assert (a + b)[1..] == a[1..] + b;
      var c := a[0];
      if c == "" || c == "." {
        ReduceAppend(s, a[1..], b, rooted);
      } else if c == ".." {
        if |s| > 0 && s[|s| - 1] != ".." {
          ReduceAppend(s[..|s| - 1], a[1..], b, rooted);
        } else if rooted {
          ReduceAppend(s, a[1..], b, rooted);
        } else {
          ReduceAppend(s + [".."], a[1..], b, rooted);
        }
      } else {
        ReduceAppend(s + [c], a[1..], b, rooted);
      }
    }
  }

  /** Names are pushed unchanged onto any stack. */
  lemma {:induction false} ReduceNames(s: seq<string>, t: seq<string>, rooted: bool)
    requires Stack(s, rooted) && Names(t)
    ensures NoSlashes(t)
    ensures Reduce(s, t, rooted) == s + t
    decreases |t|
  {
    if t == [] {
      assert s + t == s;
    } else {
      assert Names(t[1..]) by {
        forall k | 0 <= k < |t[1..]| ensures Name(t[1..][k]) { assert t[1..][k] == t[k + 1]; }
      }
      assert Stack(s + [t[0]], rooted) by {
        var s' := s + [t[0]];
        forall i, j | 0 <= i < j < |s'| && s'[j] == ".." ensures s'[i] == ".." {
          assert j < |s|;
        }
      }
      ReduceNames(s + [t[0]], t[1..], rooted);
      assert s + [t[0]] + t[1..] == s + t;
    }
  }

  /** A stack without ".." holds only names. */
  lemma StackNames(t: seq<string>, rooted: bool)
    requires Stack(t, rooted)
    requires t == [] || t[0] != ".."
    ensures Names(t)
  {
    assert forall k :: 0 < k < |t| && t[k] == ".." ==> t[0] == "..";
  }

  /** Splitting a path written from a stack of names gives the names back. */
  lemma SplitNames(t: seq<string>)
    requires t != [] && Names(t)
    ensures Split(Join(t, "/"), '/') == t
  {
    SplitJoin(t, '/');
  }

  /** A relative path whose first element is ".." climbs. */
  lemma LeadingDotsClimb(t: seq<string>)
    requires t != []
    ensures t[0] == ".." ==> Climbs(Join(t, "/"))
  {
    if t[0] == ".." && |t| > 1 {
      assert Join(t, "/") == ".." + "/" + Join(t[1..], "/");
    }
  }

  /** The empty path cleans to ".", which pushes nothing. */
  lemma ReduceCleanedEmpty(s: seq<string>, rooted: bool)
    requires Stack(s, rooted)
    ensures NoSlashes(Split(Clean(""), '/'))
    ensures Reduce(s, Split(Clean(""), '/'), rooted) == s + Elements("")
  {
    assert Clean("") == ".";
    assert Split(".", '/') == ["."];
    assert Elements("") == Reduce([], [""], false) == [];
    assert s + [] == s;
  }

  /** "/" splits into two empty elements, which push nothing. */
  lemma ReduceRootOnly(s: seq<string>, rooted: bool)
    requires Stack(s, rooted)
    ensures Split("/", '/') == ["", ""]
    ensures Reduce(s, ["", ""], rooted) == s
  {
    assert "/" == "" + ['/'] + "";
    SplitAppend("", '/', "");
    assert Reduce(s, ["", ""], rooted) == Reduce(s, [""], rooted);
    assert Reduce(s, [""], rooted) == Reduce(s, [], rooted);
  }

  /** "/" followed by names splits into an empty element and the names,
      and reducing those pushes the names. */
  lemma ReduceRootedNames(s: seq<string>, t: seq<string>, rooted: bool)
    requires Stack(s, rooted) && t != [] && Names(t)
    ensures NoSlashes(Split("/" + Join(t, "/"), '/'))
    ensures Reduce(s, Split("/" + Join(t, "/"), '/'), rooted) == s + t
  {
    var c := "/" + Join(t, "/");
    SplitNames(t);
    assert c == "" + ['/'] + Join(t, "/");
    SplitAppend("", '/', Join(t, "/"));
    assert Split(c, '/') == [""] + t;
    ReduceNames(s, t, rooted);
    assert ([""] + t)[1..] == t;
  }

  lemma ReduceCleanedRooted(s: seq<string>, path: string, rooted: bool)
    requires Stack(s, rooted) && Rooted(path)
    ensures NoSlashes(Split(Clean(path), '/'))
    ensures Reduce(s, Split(Clean(path), '/'), rooted) == s + Elements(path)
  {
    var t := Elements(path);
    assert Clean(path) == "/" + Join(t, "/");
    StackNames(t, true);
    if t == [] {
      ReduceRootOnly(s, rooted);
      assert s + t == s;
    } else {
      ReduceRootedNames(s, t, rooted);
    }
  }

  lemma ReduceCleanedRelative(s: seq<string>, path: string, rooted: bool)
    requires Stack(s, rooted) && path != "" && !Rooted(path)
    requires !Climbs(Clean(path))
    ensures NoSlashes(Split(Clean(path), '/'))
    ensures Reduce(s, Split(Clean(path), '/'), rooted) == s + Elements(path)
  {
    var c := Clean(path);
    var t := Elements(path);
    if t == [] {
      assert c == ".";
      assert Split(c, '/') == ["."];
      assert s + t == s;
    } else {
      assert c == Join(t, "/");
      LeadingDotsClimb(t);
      StackNames(t, false);
      SplitNames(t);
      ReduceNames(s, t, rooted);
    }
  }

  /** Reducing the elements of a cleaned path that does not climb pushes
      exactly that path's own elements. */
  lemma ReduceCleaned(s: seq<string>, path: string, rooted: bool)
    requires Stack(s, rooted)
    requires !Climbs(Clean(path))
    ensures NoSlashes(Split(Clean(path), '/'))
    ensures Reduce(s, Split(Clean(path), '/'), rooted) == s + Elements(path)
  {
    if path == "" {
      ReduceCleanedEmpty(s, rooted);
    } else if Rooted(path) {
      ReduceCleanedRooted(s, path, rooted);
    } else {
      ReduceCleanedRelative(s, path, rooted);
    }
  }

  /** The elements of an absolute root joined with a cleaned path that
      does not climb are the root's followed by the path's. */
  lemma JoinedElements(root: string, path: string)
    requires Rooted(root)
    requires !Climbs(Clean(path))
    ensures Elements(root + "/" + Clean(path)) == Elements(root) + Elements(path)
  {
    var c := Clean(path);
    var joined := root + "/" + c;
    assert Rooted(joined);
    SplitAppend(root, '/', c);
    var rs := Elements(root);
    ReduceCleaned(rs, path, true);
    ReduceAppend([], Split(root, '/'), Split(c, '/'), true);
  }

  /** A rooted path written from a stack extending `rs` lies at or below
      the one written from `rs`. */
  lemma RenderedWithin(rs: seq<string>, t: seq<string>)
    ensures Within("/" + Join(rs, "/"), "/" + Join(rs + t, "/"))
  {
    if rs == [] {
      assert "/" + Join(rs, "/") == "/";
    } else if t == [] {
      assert rs + t == rs;
    } else {
      JoinAppend(rs, t, "/");
      assert "/" + Join(rs + t, "/") == ("/" + Join(rs, "/")) + "/" + Join(t, "/");
    }
  }

  /** Joining a cleaned path that does not climb onto an absolute root
      stays at or below the cleaned root. */
  lemma JoinStaysWithin(root: string, path: string)
    requires Rooted(root)
    requires !Climbs(Clean(path))
    ensures Within(Clean(root), Join2(root, Clean(path)))
  {
    var rs := Elements(root);
    var t := Elements(path);
    JoinedElements(root, path);
    assert Join2(root, Clean(path)) == "/" + Join(rs + t, "/");
    assert Clean(root) == "/" + Join(rs, "/");
    RenderedWithin(rs, t);
  }
}
