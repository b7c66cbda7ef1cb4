/** The functions of Go's `path` and `path/filepath` packages that the
    upload helpers use, for `/`-separated paths (`filepath` on a Unix
    system behaves as `path` does). */
module GoPath {

  predicate NoSlash(s: string) {
    forall i :: 0 <= i < |s| ==> s[i] != '/'
  }

  /** `path.Base`: the last element, after trailing slashes are dropped;
      `.` for the empty path and `/` for a path of slashes only. */
  function Base(path: string): (r: string)
    ensures r != ""
    ensures r == "/" || NoSlash(r)
  {
    if path == "" then "."
    else
      var stripped := DropTrailingSlashes(path);
      if stripped == "" then "/" else AfterLastSlash(stripped)
  }

  function DropTrailingSlashes(s: string): (r: string)
    ensures |r| <= |s| && r == s[..|r|]
    ensures r == "" || r[|r| - 1] != '/'
  {
    if |s| > 0 && s[|s| - 1] == '/' then DropTrailingSlashes(s[..|s| - 1]) else s
  }

  /** The part of `s` after its last slash: all of `s` when it has none. */
  function AfterLastSlash(s: string): (r: string)
    ensures NoSlash(r) && |r| <= |s| && r == s[|s| - |r|..]
    ensures |r| < |s| ==> s[|s| - |r| - 1] == '/'
  {
    if s == [] || s[|s| - 1] == '/' then [] else AfterLastSlash(s[..|s| - 1]) + [s[|s| - 1]]
  }

  /** `filepath.Ext`: the suffix from the last `.` of the last element,
      or the empty string when that element has no `.`. */
  function Ext(path: string): (r: string)
    ensures |r| <= |path|
    ensures r == "" || (r[0] == '.' && r == path[|path| - |r|..] && NoSlash(r))
  {
    if path == [] || path[|path| - 1] == '/' then ""
    else if path[|path| - 1] == '.' then "."
    else
      var e := Ext(path[..|path| - 1]);
      if e == "" then "" else e + [path[|path| - 1]]
  }

  /** A name ending in `.` has extension `.`. */
  lemma ExtOfDot(path: string)
    ensures Ext(path + ".") == "."
  {
  }

  /** A character other than `/` and `.` extends a non-empty extension. */
  lemma ExtAppend(path: string, c: char)
    requires c != '/' && c != '.' && Ext(path) != ""
    ensures Ext(path + [c]) == Ext(path) + [c]
  {
    assert (path + [c])[..|path|] == path;
  }

  // `path.Clean`, as a split into elements, a resolution of the elements
  // against a stack, and a rendering.

  /** The `/`-separated pieces of `s`, empty ones included. */
  function Split(s: string): (r: seq<string>)
    ensures |r| >= 1
    ensures forall i :: 0 <= i < |r| ==> NoSlash(r[i])
  {
    if s == [] then [[]]
    else
      var rest := Split(s[1..]);
      if s[0] == '/' then [[]] + rest else [[s[0]] + rest[0]] + rest[1..]
  }

  /** The pieces joined with `/`. */
  function JoinSlash(parts: seq<string>): string {
    if parts == [] then []
    else if |parts| == 1 then parts[0]
    else parts[0] + "/" + JoinSlash(parts[1..])
  }

  /** One element applied to the stack built so far: empty and `.`
      elements vanish; `..` drops the last element, unless there is none
      to drop (at the root it vanishes, in a relative path it stays). */
  function Step(stack: seq<string>, elem: string, rooted: bool): seq<string> {
    if elem == "" || elem == "." then stack
    else if elem == ".." then
      if |stack| > 0 && stack[|stack| - 1] != ".." then stack[..|stack| - 1]
      else if rooted then stack
      else stack + [".."]
    else stack + [elem]
  }

  function Resolve(start: seq<string>, elems: seq<string>, rooted: bool): seq<string>
    decreases |elems|
  {
    if elems == [] then start
    else Step(Resolve(start, elems[..|elems| - 1], rooted), elems[|elems| - 1], rooted)
  }

  /** A resolved stack as a path: `.` when nothing is left. */
  function Render(stack: seq<string>, rooted: bool): (r: string)
    ensures r != ""
  {
    var out := (if rooted then "/" else "") + JoinSlash(stack);
    if out == "" then "." else out
  }

  /** Go's `path.Clean`. */
  function Clean(path: string): (r: string)
    ensures r != ""
  {
    if path == "" then "."
    else
      var rooted := path[0] == '/';
      Render(Resolve([], Split(path), rooted), rooted)
  }

  /** Go's `filepath.Join` of two elements: empty elements are skipped and
      the result is cleaned. */
  function Join(a: string, b: string): (r: string)
    ensures a != "" || b != "" ==> r != ""
  {
    if a != "" then Clean(a + "/" + b)
    else if b != "" then Clean(b)
    else ""
  }

  /** The base of `dir/name`, for any `dir`, is `name` when it is a
      non-empty name without a slash. */
  lemma BaseAfterSlash(dir: string, name: string)
    requires name != "" && NoSlash(name)
    ensures Base(dir + "/" + name) == name
  {
    var s := dir + "/" + name;
    assert DropTrailingSlashes(s) == s by {
      assert s[|s| - 1] == name[|name| - 1];
    }
    AfterLastSlashOf(dir + "/", name);
  }

  lemma BaseOfName(name: string)
    requires name != "" && NoSlash(name)
    ensures Base(name) == name
  {
    assert DropTrailingSlashes(name) == name by {
      assert name[|name| - 1] != '/';
    }
    AfterLastSlashOf([], name);
  }

  /** The base of `dir/name/` is `name`: trailing slashes are dropped. */
  lemma BaseOfDirectory(dir: string, name: string)
    requires name != "" && NoSlash(name)
    ensures Base(dir + "/" + name + "/") == name
  {
    var x := dir + "/" + name;
    var s := x + "/";
    assert s[..|s| - 1] == x;
    assert DropTrailingSlashes(x) == x by {
      assert x[|x| - 1] == name[|name| - 1];
    }
    assert DropTrailingSlashes(s) == x;
    AfterLastSlashOf(dir + "/", name);
  }

  /** Concatenations of slash-free strings are slash-free. */
  lemma NoSlashConcat(a: string, b: string)
    requires NoSlash(a) && NoSlash(b)
    ensures NoSlash(a + b)
  {
    assert forall i :: 0 <= i < |a + b| ==> (a + b)[i] == if i < |a| then a[i] else b[i - |a|];
  }

  lemma AfterLastSlashOf(pre: string, name: string)
    requires NoSlash(name) && (pre == [] || pre[|pre| - 1] == '/')
    ensures AfterLastSlash(pre + name) == name
  {
    var s := pre + name;
    assert s[|s| - |name|..] == name;
  }

  // Idempotence of Clean.

  /** A stack that resolution leaves as it is: proper names, with `..`
      only at the front of a relative path. */
  predicate Canonical(stack: seq<string>, rooted: bool) {
    && (forall i :: 0 <= i < |stack| ==> stack[i] != "" && stack[i] != "." && NoSlash(stack[i]))
    && (forall i :: 0 <= i < |stack| && stack[i] == ".." ==> !rooted && forall j :: 0 <= j < i ==> stack[j] == "..")
  }

  lemma StepCanonical(stack: seq<string>, elem: string, rooted: bool)
    requires Canonical(stack, rooted) && NoSlash(elem)
    ensures Canonical(Step(stack, elem, rooted), rooted)
  {
    if elem == ".." && !(|stack| > 0 && stack[|stack| - 1] != "..") && !rooted {
      var r := stack + [".."];
      forall i | 0 <= i < |r| && r[i] == ".."
        ensures forall j :: 0 <= j < i ==> r[j] == ".."
      {
        if i == |stack| && i > 0 {
          assert stack[i - 1] == "..";
        }
      }
    }
  }

  lemma {:induction false} ResolveCanonical(elems: seq<string>, rooted: bool)
    requires forall i :: 0 <= i < |elems| ==> NoSlash(elems[i])
    ensures Canonical(Resolve([], elems, rooted), rooted)
    decreases |elems|
  {
    if elems != [] {
      ResolveCanonical(elems[..|elems| - 1], rooted);
      StepCanonical(Resolve([], elems[..|elems| - 1], rooted), elems[|elems| - 1], rooted);
    }
  }

  lemma CanonicalInit(stack: seq<string>, rooted: bool)
    requires Canonical(stack, rooted) && stack != []
    ensures Canonical(stack[..|stack| - 1], rooted)
    ensures stack[|stack| - 1] == ".." ==> !rooted && (|stack| == 1 || stack[|stack| - 2] == "..")
  {
    var init := stack[..|stack| - 1];
    assert forall i :: 0 <= i < |init| ==> init[i] == stack[i];
  }

  /** Resolving a canonical stack element by element rebuilds it. */
  lemma {:induction false} ResolveOfCanonical(stack: seq<string>, rooted: bool)
    requires Canonical(stack, rooted)
    ensures Resolve([], stack, rooted) == stack
    decreases |stack|
  {
    if stack != [] {
      var init, last := stack[..|stack| - 1], stack[|stack| - 1];
      CanonicalInit(stack, rooted);
      ResolveOfCanonical(init, rooted);
      assert last != "" && last != ".";
      assert Step(init, last, rooted) == init + [last];
      assert init + [last] == stack;
    }
  }

  lemma {:induction false} ResolveAppend(start: seq<string>, a: seq<string>, b: seq<string>, rooted: bool)
    ensures Resolve(start, a + b, rooted) == Resolve(Resolve(start, a, rooted), b, rooted)
    decreases |b|
  {
    if b == [] {
      assert a + b == a;
    } else {
      assert (a + b)[..|a + b| - 1] == a + b[..|b| - 1];
      ResolveAppend(start, a, b[..|b| - 1], rooted);
    }
  }

  lemma {:induction false} SplitOfJoin(parts: seq<string>)
    requires |parts| >= 1 && forall i :: 0 <= i < |parts| ==> NoSlash(parts[i])
    ensures Split(JoinSlash(parts)) == parts
    decreases |parts|
  {
    if |parts| == 1 {
      SplitOfName(parts[0]);
    } else {
      SplitOfJoin(parts[1..]);
      SplitPrefixed(parts[0], JoinSlash(parts[1..]));
      assert JoinSlash(parts) == parts[0] + "/" + JoinSlash(parts[1..]);
      assert [parts[0]] + parts[1..] == parts;
    }
  }

  lemma {:induction false} SplitOfName(name: string)
    requires NoSlash(name)
    ensures Split(name) == [name]
    decreases |name|
  {
    if name != [] {
      SplitOfName(name[1..]);
      assert [name[0]] + name[1..] == name;
    }
  }

  lemma {:induction false} SplitPrefixed(name: string, rest: string)
    requires NoSlash(name)
    ensures Split(name + "/" + rest) == [name] + Split(rest)
    decreases |name|
  {
    var s := name + "/" + rest;
    if name == [] {
      assert s[1..] == rest;
    } else {
      assert s[1..] == name[1..] + "/" + rest;
      SplitPrefixed(name[1..], rest);
      assert [name[0]] + name[1..] == name;
    }
  }

  /** Cleaning a clean path changes nothing. */
  lemma CleanIdempotent(path: string)
    ensures Clean(Clean(path)) == Clean(path)
  {
    if path != "" {
      var rooted := path[0] == '/';
      var elems := Split(path);
      ResolveCanonical(elems, rooted);
      CleanOfResolved(Resolve([], elems, rooted), rooted);
    } else {
      CleanOfResolved([], false);
    }
  }

  /** The rendering of a canonical stack is clean. */
  lemma CleanOfResolved(st: seq<string>, rooted: bool)
    requires Canonical(st, rooted)
    ensures Clean(Render(st, rooted)) == Render(st, rooted)
  {
    if st == [] {
      CleanOfEmpty(rooted);
    } else {
      SplitOfJoin(st);
      ResolveOfCanonical(st, rooted);
      RenderNonTrivial(st, rooted);
      if rooted {
        CleanOfRooted(st);
      } else {
        CleanOfRelative(st);
      }
    }
  }

  lemma CleanOfEmpty(rooted: bool)
    ensures Clean(Render([], rooted)) == Render([], rooted)
  {
    if rooted {
      assert Render([], rooted) == "/";
      assert Split("/") == [[], []];
    } else {
      assert Render([], rooted) == ".";
      SplitOfName(".");
    }
  }

  lemma CleanOfRelative(st: seq<string>)
    requires Canonical(st, false) && st != []
    requires Split(JoinSlash(st)) == st && Resolve([], st, false) == st
    requires JoinSlash(st) != ""
    ensures Clean(JoinSlash(st)) == JoinSlash(st)
  {
    var j := JoinSlash(st);
    JoinSlashHead(st);
    assert st[0] != [];
    assert j[0] == st[0][0];
  }

  lemma CleanOfRooted(st: seq<string>)
    requires Canonical(st, true) && st != []
    requires Split(JoinSlash(st)) == st && Resolve([], st, true) == st
    ensures Clean("/" + JoinSlash(st)) == "/" + JoinSlash(st)
  {
    var j := JoinSlash(st);
    SplitRooted(j);
    ResolveDropsLeadingEmpty(st);
    assert Render(st, true) == "/" + j;
    ghost var c := "/" + j;
    assert c[0] == '/';
  }

  lemma SplitRooted(j: string)
    ensures Split("/" + j) == [[]] + Split(j)
  {
    assert ("/" + j)[1..] == j;
  }

  lemma ResolveDropsLeadingEmpty(st: seq<string>)
    ensures Resolve([], [[]] + st, true) == Resolve([], st, true)
  {
    ResolveAppend([], [[]], st, true);
    assert Resolve([], [[]], true) == [];
  }

  lemma JoinSlashHead(parts: seq<string>)
    requires |parts| >= 1
    ensures |JoinSlash(parts)| >= |parts[0]| && JoinSlash(parts)[..|parts[0]|] == parts[0]
  {
  }

  // A name joined onto a clean directory.

  /** A single element that resolution keeps as it is. */
  predicate PlainName(n: string) {
    n != "" && n != "." && n != ".." && NoSlash(n)
  }

  lemma {:induction false} SplitAppend(x: string, n: string)
    requires NoSlash(n)
    ensures Split(x + "/" + n) == Split(x) + [n]
    decreases |x|
  {
    var s := x + "/" + n;
    if x == [] {
      assert s[1..] == n;
      SplitOfName(n);
    } else {
      assert s[1..] == x[1..] + "/" + n;
      SplitAppend(x[1..], n);
    }
  }

  lemma {:induction false} JoinSlashAppend(parts: seq<string>, n: string)
    requires parts != []
    ensures JoinSlash(parts + [n]) == JoinSlash(parts) + "/" + n
    decreases |parts|
  {
    if |parts| == 1 {
      assert (parts + [n])[1..] == [n];
    } else {
      assert (parts + [n])[1..] == parts[1..] + [n];
      JoinSlashAppend(parts[1..], n);
    }
  }

  lemma ResolveSplitAppend(x: string, n: string, rooted: bool)
    requires NoSlash(n)
    ensures Resolve([], Split(x + "/" + n), rooted) == Step(Resolve([], Split(x), rooted), n, rooted)
  {
    SplitAppend(x, n);
    assert (Split(x) + [n])[..|Split(x) + [n]| - 1] == Split(x);
  }

  /** A non-empty canonical stack renders as a path that is neither `/`
      nor `.`. */
  lemma RenderNonTrivial(st: seq<string>, rooted: bool)
    requires Canonical(st, rooted) && st != []
    ensures JoinSlash(st) != ""
    ensures Render(st, rooted) == (if rooted then "/" else "") + JoinSlash(st)
    ensures Render(st, rooted) != "/" && Render(st, rooted) != "."
  {
    JoinSlashHead(st);
    var j, h := JoinSlash(st), st[0];
    assert h != "" && h != ".";
    assert |j| == 1 ==> j == h;
    assert j[0] == h[0] && h[0] != '/';
    if rooted {
      var r := Render(st, rooted);
      assert r == "/" + j && |r| >= 2 && r[0] == '/';
      assert r != "." by {
        assert "."[0] == '.';
      }
    } else {
      var r := Render(st, rooted);
      assert r == j;
      assert r != "/" by {
        assert "/"[0] == '/';
      }
    }
  }

  /** Appending a name to a non-empty canonical stack appends it, after a
      slash, to the rendered path. */
  lemma RenderAppend(st: seq<string>, n: string, rooted: bool)
    requires Canonical(st, rooted) && st != [] && n != ""
    ensures Render(st + [n], rooted) == Render(st, rooted) + "/" + n
    ensures Render(st, rooted) != "/" && Render(st, rooted) != "."
  {
    JoinSlashAppend(st, n);
    RenderNonTrivial(st, rooted);
    var pre := if rooted then "/" else "";
    var j := JoinSlash(st);
    assert JoinSlash(st + [n]) == j + "/" + n;
    assert |pre + (j + "/" + n)| > 0;
    assert pre + (j + "/" + n) == (pre + j) + "/" + n;
  }

  /** The empty stack renders as `/` or `.`, a single name after the root
      or alone. */
  lemma RenderSingle(n: string, rooted: bool)
    requires n != ""
    ensures Render([], rooted) == if rooted then "/" else "."
    ensures Render([n], rooted) == (if rooted then "/" else "") + n
  {
  }

  /** Joining a plain name onto a clean path appends it with one slash;
      onto `/` it becomes `/name`, onto `.` just the name. */
  lemma JoinName(b: string, n: string)
    requires Clean(b) == b && PlainName(n)
    ensures Join(b, n) == if b == "/" then "/" + n else if b == "." then n else b + "/" + n
  {
    var rooted := b[0] == '/';
    var st := Resolve([], Split(b), rooted);
    JoinNameStack(b, n);
    ResolveCanonical(Split(b), rooted);
    assert b == Render(st, rooted);
    if st != [] {
      RenderAppend(st, n, rooted);
    } else {
      assert st + [n] == [n];
      RenderSingle(n, rooted);
    }
  }

  lemma JoinNameStack(b: string, n: string)
    requires b != "" && PlainName(n)
    ensures Join(b, n) == Render(Resolve([], Split(b), b[0] == '/') + [n], b[0] == '/')
  {
    ResolveSplitAppend(b, n, b[0] == '/');
    assert (b + "/" + n)[0] == b[0];
  }

  /** The directory `Join(dir, name + "/")` ends in `name`: it is neither
      `/` nor `.`, and it is clean. */
  lemma JoinDirectory(dir: string, name: string)
    requires PlainName(name)
    ensures Join(dir, name + "/") != "/" && Join(dir, name + "/") != "."
    ensures Clean(Join(dir, name + "/")) == Join(dir, name + "/")
  {
    var pre := if dir == "" then name else dir + "/" + name;
    var rooted := pre[0] == '/';
    assert Join(dir, name + "/") == Clean(pre + "/" + "") by {
      if dir != "" {
        assert dir + "/" + (name + "/") == pre + "/" + "";
      } else {
        assert name + "/" == pre + "/" + "";
      }
    }
    ResolveSplitAppend(pre, "", rooted);
    var st := Resolve([], Split(pre), rooted);
    assert Resolve([], Split(pre + "/" + ""), rooted) == st;
    assert (pre + "/" + "")[0] == pre[0];
    assert Join(dir, name + "/") == Render(st, rooted);
    if dir == "" {
      SplitOfName(name);
      assert Split(pre) == [] + [name];
    } else {
      SplitAppend(dir, name);
    }
    ResolveCanonical(Split(pre), rooted);
    assert st != [] by {
      assert Split(pre)[..|Split(pre)| - 1] + [name] == Split(pre);
    }
    RenderNonTrivial(st, rooted);
    CleanOfResolved(st, rooted);
  }

  lemma JoinSlashAppendNonEmpty(parts: seq<string>, n: string)
    requires n != ""
    ensures JoinSlash(parts + [n]) != ""
    ensures |JoinSlash(parts + [n])| >= |n| && JoinSlash(parts + [n])[|JoinSlash(parts + [n])| - |n|..] == n
  {
    if parts == [] {
      assert parts + [n] == [n];
    } else {
      JoinSlashAppend(parts, n);
    }
  }
}
