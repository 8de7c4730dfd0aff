/** POSIX paths as `pathlib` handles them, resolved lexically: an absolute path is a list of
    names, `.` and empty segments vanish and `..` drops the last name (never above `/`).
    Symbolic links are not followed. */
module Paths {
  import opened Py

  /** `p.split('/')`. */
  function Segments(p: string): (r: seq<string>)
    ensures |r| >= 1
    ensures forall k :: 0 <= k < |r| ==> '/' !in r[k]
  {
    Split(p, '/')
  }

  /** A name that survives resolution: not empty, not `.` or `..`, without a slash. */
  predicate IsName(seg: string) {
    seg != "" && seg != "." && seg != ".." && '/' !in seg
  }

  predicate AllNames(names: seq<string>) {
    forall k :: 0 <= k < |names| ==> IsName(names[k])
  }

  /** Resolves `segs` one by one, starting from the directory `dir`. */
  function Normalize(dir: seq<string>, segs: seq<string>): (r: seq<string>)
    ensures AllNames(dir) && (forall k :: 0 <= k < |segs| ==> '/' !in segs[k]) ==> AllNames(r)
    decreases |segs|
  {
    if segs == [] then dir
    else
      var s := segs[0];
      if s == "" || s == "." then Normalize(dir, segs[1..])
      else if s == ".." then Normalize(if dir == [] then [] else dir[..|dir| - 1], segs[1..])
      else Normalize(dir + [s], segs[1..])
  }

  /** The string form of a resolved path below the root: `/n1/n2/...`. */
  function Joined(names: seq<string>): string
  {
    if names == [] then "" else "/" + names[0] + Joined(names[1..])
  }

  /** `str(p)` of a resolved absolute path. */
  function Render(names: seq<string>): (r: string)
    ensures |r| > 0 && r[0] == '/'
  {
    if names == [] then "/" else Joined(names)
  }

  predicate IsAbsolute(p: string) {
    |p| > 0 && p[0] == '/'
  }

  /** `Path(p).resolve()`: a relative path is taken from the working directory `cwd`. */
  function Resolve(cwd: seq<string>, p: string): (r: seq<string>)
    requires AllNames(cwd)
    ensures AllNames(r)
  {
    Normalize(if IsAbsolute(p) then [] else cwd, Segments(p))
  }

  /** `base / rel` for a string `rel`: an absolute `rel` replaces the base. */
  function JoinPath(base: string, rel: string): string
  {
    if IsAbsolute(rel) then rel else base + "/" + rel
  }

  /** `Path(p).name`: the last component, `""` when there is none. */
  function Name(p: string): (r: string)
    ensures '/' !in r && r != "."
  {
    LastName(Segments(p))
  }

  function LastName(segs: seq<string>): (r: string)
    requires forall k :: 0 <= k < |segs| ==> '/' !in segs[k]
    ensures '/' !in r && r != "."
  {
    if segs == [] then ""
    else
      var last := segs[|segs| - 1];
      if last == "" || last == "." then LastName(segs[..|segs| - 1]) else last
  }

  /** The containment test `serve_static` performs: `str(wanted).startswith(str(root))`. */
  predicate StringInside(wanted: seq<string>, root: seq<string>) {
    StartsWith(Render(wanted), Render(root))
  }

  /** The containment the code means to enforce: `wanted` is `root` or lies below it. */
  predicate Inside(wanted: seq<string>, root: seq<string>) {
    |root| <= |wanted| && wanted[..|root|] == root
  }

  // ---------------------------------------------------------------------------------------
  // Splitting and joining

  lemma {:induction false} JoinedAppend(a: seq<string>, b: seq<string>)
    ensures Joined(a + b) == Joined(a) + Joined(b)
  {
    if a == [] {
      assert a + b == b;
    } else {
      assert (a + b)[0] == a[0];
      assert (a + b)[1..] == a[1..] + b;
      JoinedAppend(a[1..], b);
    }
  }

  /** The string form of a non-empty resolved path splits back into `""` and its names. */
  lemma {:induction false} SplitJoined(names: seq<string>)
    requires names != [] && AllNames(names)
    ensures Segments(Joined(names)) == [""] + names
  {
    var n := names[0];
    SplitNoSep(n, '/');
    if |names| == 1 {
      assert Joined(names) == "/" + n;
      SplitAppend("", '/', n);
      assert "" + "/" + n == "/" + n;
    } else {
      SplitJoined(names[1..]);
      var rest := Joined(names[1..]);
      assert rest[0] == '/';
      assert Joined(names) == "/" + n + rest;
      assert "/" + n + rest == "/" + n + "/" + rest[1..];
      SplitAppend("/" + n, '/', rest[1..]);
      assert rest == "/" + rest[1..];
      SplitAppend("", '/', rest[1..]);
      assert "" + "/" + rest[1..] == rest;
      SplitAppend("", '/', n);
      assert "" + "/" + n == "/" + n;
      assert Segments(rest) == [""] + Segments(rest[1..]);
      assert Segments(rest[1..]) == Segments(rest)[1..] == names[1..];
      assert Segments("/" + n) == ["", n];
      assert names == [n] + names[1..];
    }
  }

  // ---------------------------------------------------------------------------------------
  // Resolution

  lemma {:induction false} NormalizeAppend(dir: seq<string>, a: seq<string>, b: seq<string>)
    ensures Normalize(dir, a + b) == Normalize(Normalize(dir, a), b)
    decreases |a|
  {
    if a == [] {
      assert a + b == b;
    } else {
      assert (a + b)[0] == a[0];
      assert (a + b)[1..] == a[1..] + b;
      var s := a[0];
      var next := if s == "" || s == "." then dir
                  else if s == ".." then (if dir == [] then [] else dir[..|dir| - 1])
                  else dir + [s];
      NormalizeAppend(next, a[1..], b);
    }
  }

  /** Names need no resolving: they are appended as they are. */
  lemma {:induction false} NormalizeNames(dir: seq<string>, names: seq<string>)
    requires AllNames(names)
    ensures Normalize(dir, names) == dir + names
    decreases |names|
  {
    if names != [] {
      NormalizeNames(dir + [names[0]], names[1..]);
      assert dir + [names[0]] + names[1..] == dir + names;
    }
  }

  /** Resolving the string form of a resolved path gives the same path back. */
  lemma ResolveRender(cwd: seq<string>, names: seq<string>)
    requires AllNames(cwd) && AllNames(names)
    ensures Resolve(cwd, Render(names)) == names
  {
    if names == [] {
      RootSegments();
    } else {
      SplitJoined(names);
      NormalizeNames([], names);
    }
  }

  /** Resolution is idempotent: `Path(Path(p).resolve()).resolve() == Path(p).resolve()`. */
  lemma ResolveIdempotent(cwd: seq<string>, p: string)
    requires AllNames(cwd)
    ensures Resolve(cwd, Render(Resolve(cwd, p))) == Resolve(cwd, p)
  {
    ResolveRender(cwd, Resolve(cwd, p));
  }

  /** `"/"` splits into two empty segments, which resolve to nothing. */
  lemma RootSegments()
    ensures Segments("/") == ["", ""]
    ensures forall dir :: Normalize(dir, ["", ""]) == dir
  {
    assert "/"[1..] == "";
    forall dir ensures Normalize(dir, ["", ""]) == dir {
      assert ["", ""][1..] == [""];
      assert [""][1..] == [];
    }
  }

  /** The segments of `base / rel` for a resolved `base` and a relative `rel`. */
  lemma SplitJoinRelative(base: seq<string>, rel: string)
    requires AllNames(base) && !IsAbsolute(rel)
    ensures Normalize([], Segments(JoinPath(Render(base), rel))) == Normalize(base, Segments(rel))
  {
    SplitAppend(Render(base), '/', rel);
    assert JoinPath(Render(base), rel) == Render(base) + "/" + rel;
    if base == [] {
      RootSegments();
      NormalizeAppend([], ["", ""], Segments(rel));
    } else {
      SplitJoined(base);
      NormalizeAppend([], [""] + base, Segments(rel));
      NormalizeNames([], base);
      assert Normalize([], [""] + base) == Normalize([], base) by {
        assert ([""] + base)[1..] == base;
      }
      assert [] + base == base;
      assert Segments(Render(base) + "/" + rel) == ([""] + base) + Segments(rel);
    }
  }

  /** `(base / rel).resolve()` for a resolved `base`: a relative `rel` is resolved from `base`,
      an absolute one from the root. */
  lemma ResolveJoin(cwd: seq<string>, base: seq<string>, rel: string)
    requires AllNames(cwd) && AllNames(base)
    ensures Resolve(cwd, JoinPath(Render(base), rel)) ==
            Normalize(if IsAbsolute(rel) then [] else base, Segments(rel))
  {
    if !IsAbsolute(rel) {
      assert IsAbsolute(JoinPath(Render(base), rel));
      SplitJoinRelative(base, rel);
    }
  }

  // ---------------------------------------------------------------------------------------
  // Containment

  /** A path inside the root also passes the string test: the test never rejects a file
      that really is under the root. */
  lemma InsideImpliesStringInside(wanted: seq<string>, root: seq<string>)
    requires Inside(wanted, root)
    ensures StringInside(wanted, root)
  {
    if root != [] {
      assert wanted == root + wanted[|root|..];
      JoinedAppend(root, wanted[|root|..]);
    }
  }

  /** The string test is weaker than containment: with the root `/srv/static`, the sibling
      `/srv/static2/x` passes it. */
  lemma StringInsideAdmitsSibling()
    ensures StringInside(["srv", "static" + "2", "x"], ["srv", "static"])
    ensures !Inside(["srv", "static" + "2", "x"], ["srv", "static"])
  {
    SiblingPrefix(["srv"], "static", "2", "x");
    assert ["srv"] + ["static" + "2", "x"] == ["srv", "static" + "2", "x"];
    assert ["srv"] + ["static"] == ["srv", "static"];
    assert ["srv", "static" + "2", "x"][..2][1] != ["srv", "static"][1] by {
      assert |"static" + "2"| != |"static"|;
    }
  }

  /** Without `..`, resolution only descends: the result lies inside the starting directory. */
  lemma {:induction false} NormalizeDescends(dir: seq<string>, segs: seq<string>)
    requires forall k :: 0 <= k < |segs| ==> segs[k] != ".."
    ensures Inside(Normalize(dir, segs), dir)
    decreases |segs|
  {
    if segs != [] {
      var s := segs[0];
      var next := if s == "" || s == "." then dir else dir + [s];
      NormalizeDescends(next, segs[1..]);
      var r := Normalize(dir, segs);
      assert r[..|next|] == next;
      assert next[..|dir|] == dir;
      assert r[..|dir|] == r[..|next|][..|dir|];
    }
  }

  /** A single name splits into itself. */
  lemma SplitNoSepSegments(n: string)
    requires '/' !in n
    ensures Segments(n) == [n]
  {
    SplitNoSep(n, '/');
  }

  /** `a/b/c` splits into its three parts. */
  lemma SegmentsOfThree(a: string, b: string, c: string)
    requires '/' !in a && '/' !in b && '/' !in c
    ensures Segments(a + "/" + b + "/" + c) == [a, b, c]
  {
    SplitNoSep(a, '/');
    SplitNoSep(b, '/');
    SplitNoSep(c, '/');
    SplitAppend(a + "/" + b, '/', c);
    SplitAppend(a, '/', b);
  }

  /** Under the string test, `<dir>/<name><suffix>/<file>` counts as inside `<dir>/<name>`. */
  lemma SiblingPrefix(dir: seq<string>, name: string, suffix: string, file: string)
    ensures StringInside(dir + [name + suffix, file], dir + [name])
  {
    JoinedAppend(dir, [name + suffix, file]);
    JoinedAppend(dir, [name]);
    var j := Joined(dir);
    assert [name + suffix, file][1..] == [file];
    assert Joined([file]) == "/" + file;
    assert Joined([name + suffix, file]) == "/" + (name + suffix) + ("/" + file);
    assert Joined([name]) == "/" + name;
    var w := j + ("/" + (name + suffix) + ("/" + file));
    var r := j + ("/" + name);
    assert w == r + (suffix + "/" + file);
    assert w[..|r|] == r;
  }
}
