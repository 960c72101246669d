// The POSIX half of path.js: normalizeStringPosix, normalize, resolve and relative.
module Paths {
  import opened Outcomes
  import opened PathSegments

  function LastIndexOf(s: string, c: char): (k: int)
    ensures -1 <= k < |s|
    ensures k >= 0 ==> s[k] == c
    ensures forall j :: k < j < |s| ==> s[j] != c
  {
    if s == "" then -1 else if s[|s| - 1] == c then |s| - 1 else LastIndexOf(s[..|s| - 1], c)
  }

  function LastLength(stack: seq<string>): nat { if stack == [] then 0 else |stack[|stack| - 1]| }

  // res and lastSegmentLength stand for the stack.
  ghost predicate Shows(res: string, lastLength: int, stack: seq<string>) {
    Segments(stack) && res == Join(stack) && lastLength == LastLength(stack)
  }

  // Where the last slash of a joined stack is.
  lemma LastSlash(stack: seq<string>)
    requires Segments(stack) && stack != []
    ensures LastIndexOf(Join(stack), '/') == |Join(stack)| - 1 - LastLength(stack)
    ensures |stack| == 1 <==> LastIndexOf(Join(stack), '/') == -1
    ensures |stack| > 1 ==> LastIndexOf(Join(stack), '/') == |Join(stack[..|stack| - 1])|
    ensures |stack| > 1 ==> Join(stack)[..LastIndexOf(Join(stack), '/')] == Join(stack[..|stack| - 1])
    ensures |stack| > 1 ==> |Join(stack)| > 2
    ensures Join(stack)[|Join(stack)| - LastLength(stack)..] == stack[|stack| - 1]
  {
    var r, g := Join(stack), stack[|stack| - 1];
    var k := LastIndexOf(r, '/');
    JoinFirst(stack);
    forall j | 0 <= j < |g| ensures g[j] != '/' { assert g[j] in g; }
    if |stack| == 1 {
      assert r == g;
    } else {
      var p := |Join(stack[..|stack| - 1])|;
      assert r[p] == '/' && r[p + 1..] == g;
      assert forall j :: p < j < |r| ==> r[j] == g[j - p - 1];
    }
  }

  // The ".." branch of normalizeStringPosix.
  method Ascend(res0: string, len0: int, above: bool, ghost stack: seq<string>) returns (res: string, len: int)
    requires Shows(res0, len0, stack)
    ensures Shows(res, len, Step(stack, "..", above))
  {
    hide Join, LastIndexOf;
    res, len := res0, len0;
    JoinEmpty();
    if stack != [] {
      LastSlash(stack);
      TwoDots(stack[|stack| - 1]);
    }
    if |res| < 2 || len != 2 || res[|res| - 1] != '.' || res[|res| - 2] != '.' {
      if |res| > 2 {
        var k := LastIndexOf(res, '/');
        if k != |res| - 1 {
          if k == -1 {
            res := "";
            len := 0;
          } else {
            res := res[..k];
            LastSlash(stack[..|stack| - 1]);
            len := |res| - 1 - LastIndexOf(res, '/');
          }
          return;
        }
      } else if |res| == 2 || |res| == 1 {
        res := "";
        len := 0;
        return;
      }
    }
    if above {
      if |res| > 0 {
        res := res + "/..";
      } else {
        res := "..";
      }
      len := 2;
      JoinLast(stack, "..");
    }
  }

  lemma JoinEmpty()
    ensures Join([]) == ""
  {
  }

  lemma TwoDots(g: string)
    ensures g == ".." <==> |g| == 2 && g[0] == '.' && g[1] == '.'
  {
  }

  function AllDots(g: string): bool { forall k :: 0 <= k < |g| ==> g[k] == '.' }

  // The dots counter: how many dots make up the segment so far, or -1.
  function DotCount(g: string): int { if AllDots(g) then |g| else -1 }

  lemma DotCountNext(g: string, c: char)
    ensures DotCount(g + [c]) == if c == '.' && DotCount(g) != -1 then DotCount(g) + 1 else -1
  {
    var h := g + [c];
    assert h[|g|] == c;
    if AllDots(h) {
      assert forall k :: 0 <= k < |g| ==> h[k] == g[k];
    }
  }

  lemma DotNames(g: string)
    ensures DotCount(g) == 1 <==> g == "."
    ensures DotCount(g) == 2 <==> g == ".."
  {
    if DotCount(g) == 1 { assert g == [g[0]]; }
    if DotCount(g) == 2 { assert g == [g[0], g[1]]; }
    assert AllDots(".") && AllDots("..");
  }

  // The end of a segment g: normalizeStringPosix at a slash.
  method EndSegment(res0: string, len0: int, above: bool, g: string, dots: int, ghost stack: seq<string>)
    returns (res: string, len: int)
    requires Shows(res0, len0, stack) && '/' !in g && dots == DotCount(g)
    ensures Shows(res, len, Step(stack, g, above))
  {
    res, len := res0, len0;
    DotNames(g);
    if g == "" || dots == 1 {
    } else if g != "" && dots == 2 {
      res, len := Ascend(res, len, above, stack);
    } else {
      ghost var s := stack + [g];
      assert s[..|s| - 1] == stack;
      if |res| > 0 {
        res := res + "/" + g;
      } else {
        if stack != [] { JoinFirst(stack); }
        res := g;
      }
      len := |g|;
    }
  }

  // Where the scan of normalizeStringPosix stands after the characters p.
  ghost predicate Scanned(p: string, above: bool, stack: seq<string>, lastSlash: int, dots: int) {
    && stack == Fold([], Done(p), above)
    && lastSlash == |p| - 1 - |Cur(p)|
    && dots == DotCount(Cur(p))
  }

  lemma FoldOne(stack: seq<string>, g: string, above: bool)
    ensures Fold(stack, [g], above) == Step(stack, g, above)
  {
    assert [g][..0] == [];
  }

  lemma ScanSegment(p: string, above: bool, stack: seq<string>, lastSlash: int, dots: int)
    requires Scanned(p, above, stack, lastSlash, dots)
    ensures 0 <= lastSlash + 1 <= |p| && p[lastSlash + 1..] == Cur(p)
    ensures Step(stack, Cur(p), above) == StackOf(p, above) && dots == DotCount(Cur(p)) && '/' !in Cur(p)
  {
    SplitOne(p);
    hide Split, Done, Cur, Fold, DotCount;
    CurNoSlash(p);
    FoldAppend([], Done(p), [Cur(p)], above);
    FoldOne(stack, Cur(p), above);
  }

  lemma ScanStart(above: bool)
    ensures Shows("", 0, []) && Scanned("", above, [], -1, 0)
  {
  }

  lemma ScanSlash(p: string, above: bool)
    ensures Scanned(p + "/", above, StackOf(p, above), |p|, 0)
  {
    var q := p + "/";
    assert q[..|q| - 1] == p;
  }

  lemma ScanChar(p: string, c: char, above: bool, stack: seq<string>, lastSlash: int, dots: int)
    requires Scanned(p, above, stack, lastSlash, dots) && c != '/'
    ensures Scanned(p + [c], above, stack, lastSlash, if c == '.' && dots != -1 then dots + 1 else -1)
  {
    var q := p + [c];
    assert q[..|q| - 1] == p;
    DotCountNext(Cur(p), c);
  }

  // A path that ends in a slash has nothing left to end.
  lemma ScanDone(p: string, above: bool, stack: seq<string>, lastSlash: int, dots: int)
    requires Scanned(p, above, stack, lastSlash, dots) && p != "" && p[|p| - 1] == '/'
    ensures stack == StackOf(p, above)
  {
    ScanSegment(p, above, stack, lastSlash, dots);
  }

  // normalizeStringPosix: one pass over the characters computes the fold over segments.
  method NormalizeString(path: string, above: bool) returns (res: string)
    ensures res == Join(StackOf(path, above))
  {
    res := "";
    var lastSegmentLength := 0;
    var lastSlash := -1;
    var dots := 0;
    var code: Option<char> := None;
    var i := 0;
    ghost var stack: seq<string> := [];
    hide *;
    ScanStart(above);
    assert path[..0] == "";
    while i <= |path|
      invariant 0 <= i <= |path| + 1
      invariant Shows(res, lastSegmentLength, stack)
      invariant i <= |path| ==> Scanned(path[..i], above, stack, lastSlash, dots)
      invariant 0 < i <= |path| ==> code == Some(path[i - 1])
      invariant i == 0 ==> code == None
      invariant i == |path| + 1 ==> stack == StackOf(path, above)
    {
      ghost var p := path[..i];
      if i < |path| {
        code := Some(path[i]);
        assert path[..i + 1] == p + [path[i]];
      } else if code == Some('/') {
        assert p == path;
        ScanDone(path, above, stack, lastSlash, dots);
        break;
      } else {
        code := Some('/');
        assert p == path;
      }
      if code == Some('/') {
        ScanSegment(p, above, stack, lastSlash, dots);
        assert path[lastSlash + 1..i] == p[lastSlash + 1..];
        res, lastSegmentLength := EndSegment(res, lastSegmentLength, above, path[lastSlash + 1..i], dots, stack);
        stack := StackOf(p, above);
        ScanSlash(p, above);
        lastSlash := i;
        dots := 0;
      } else {
        ScanChar(p, path[i], above, stack, lastSlash, dots);
        if code == Some('.') && dots != -1 {
          dots := dots + 1;
        } else {
          dots := -1;
        }
      }
      i := i + 1;
    }
    ShownText(res, lastSegmentLength, stack);
  }

  lemma ShownText(res: string, lastLength: int, stack: seq<string>)
    requires Shows(res, lastLength, stack)
    ensures res == Join(stack)
  {
  }

  // ---------- normalize ----------

  predicate IsAbsolute(path: string) { path != "" && path[0] == '/' }

  predicate EndsInSlash(path: string) { path != "" && path[|path| - 1] == '/' }

  function Render(absolute: bool, stack: seq<string>, trailing: bool): string {
    var body := if stack == [] && !absolute then "." else Join(stack);
    (if absolute then "/" else "") + body + (if body != "" && trailing then "/" else "")
  }

  // What posix.normalize returns.
  function NormalPath(path: string): string {
    if path == "" then "."
    else Render(IsAbsolute(path), StackOf(path, !IsAbsolute(path)), EndsInSlash(path))
  }

  lemma NormalizedText(path: string, text: string)
    requires path != "" && text == Join(StackOf(path, !IsAbsolute(path)))
    ensures NormalPath(path)
         == var body := if text == "" && !IsAbsolute(path) then "." else text;
            (if IsAbsolute(path) then "/" else "") + body + (if body != "" && EndsInSlash(path) then "/" else "")
  {
    var stack := StackOf(path, !IsAbsolute(path));
    StackOfNormal(path, !IsAbsolute(path));
    hide StackOf, Normal;
    if stack != [] { JoinFirst(stack); }
  }

  method Normalize(path0: string) returns (path: string)
    ensures path == NormalPath(path0)
  {
    if path0 == "" {
      return ".";
    }
    var isAbsolute := path0[0] == '/';
    var trailingSeparator := path0[|path0| - 1] == '/';
    path := NormalizeString(path0, !isAbsolute);
    NormalizedText(path0, path);
    hide StackOf, Join, Normal;
    if path == "" && !isAbsolute {
      path := ".";
    }
    if path != "" && trailingSeparator {
      path := path + "/";
    }
    if isAbsolute {
      path := "/" + path;
    }
  }

  lemma SplitTrailing(p: string)
    ensures Split(p + "/") == Split(p) + [""]
  {
    var q := p + "/";
    assert q[..|q| - 1] == p;
  }

  lemma SplitLeading(p: string)
    ensures Split("/" + p) == [""] + Split(p)
  {
    SplitSlash("", p);
    assert "" + "/" + p == "/" + p;
    assert Split("") == [""];
  }

  lemma FoldEmptyFirst(s: seq<string>, above: bool)
    ensures Fold([], [""] + s, above) == Fold([], s, above)
  {
    FoldAppend([], [""], s, above);
    FoldOne([], "", above);
  }

  lemma FoldEmptyLast(s: seq<string>, above: bool)
    ensures Fold([], s + [""], above) == Fold([], s, above)
  {
    FoldAppend([], s, [""], above);
    FoldOne(Fold([], s, above), "", above);
  }

  lemma DropDot(g: string, above: bool)
    requires g == "." || g == ""
    ensures StackOf(g, above) == []
  {
    SplitSegment(g);
    FoldOne([], g, above);
  }

  // The body of a rendering folds to its stack.
  lemma BodyStack(stack: seq<string>, above: bool)
    requires Normal(stack, above)
    ensures StackOf(Join(stack), above) == stack
  {
    if stack == [] {
      DropDot(Join(stack), above);
    } else {
      SplitJoin(stack);
      FoldFixed(stack, above);
    }
  }

  // A rendering keeps its shape: the same root, the same stack, the same ending.
  lemma RenderKeeps(absolute: bool, stack: seq<string>, trailing: bool)
    requires Normal(stack, !absolute)
    ensures var r := Render(absolute, stack, trailing);
            r != "" && IsAbsolute(r) == absolute && StackOf(r, !absolute) == stack
            && ((absolute && stack == []) || EndsInSlash(r) == trailing)
  {
    var body := if stack == [] && !absolute then "." else Join(stack);
    var tail := if body != "" && trailing then "/" else "";
    BodyStack(stack, !absolute);
    if stack == [] { DropDot(body, !absolute); } else { JoinFirst(stack); }
    RenderStack(absolute, body, tail);
    assert stack == [] && absolute ==> body == "";
    hide StackOf, Join, Normal;
    RenderEnds(absolute, body, trailing);
  }

  lemma RenderEnds(absolute: bool, body: string, trailing: bool)
    requires if body == "" then absolute else body[0] != '/' && body[|body| - 1] != '/'
    ensures var r := (if absolute then "/" else "") + body + (if body != "" && trailing then "/" else "");
            r != "" && IsAbsolute(r) == absolute && (body == "" || EndsInSlash(r) == trailing)
  {
  }

  lemma RenderStack(absolute: bool, body: string, tail: string)
    requires tail == "" || tail == "/"
    ensures StackOf((if absolute then "/" else "") + body + tail, !absolute) == StackOf(body, !absolute)
  {
    hide StackOf;
    var text := body + tail;
    TailDrops(body, tail, !absolute);
    LeadDrops(text, !absolute);
    assert (if absolute then "/" else "") + body + tail == if absolute then "/" + text else text;
  }

  lemma TailDrops(body: string, tail: string, above: bool)
    requires tail == "" || tail == "/"
    ensures StackOf(body + tail, above) == StackOf(body, above)
  {
    if tail == "" {
      assert body + tail == body;
    } else {
      SplitTrailing(body);
      FoldEmptyLast(Split(body), above);
    }
  }

  lemma LeadDrops(p: string, above: bool)
    ensures StackOf("/" + p, above) == StackOf(p, above)
  {
    SplitLeading(p);
    FoldEmptyFirst(Split(p), above);
  }

  // Normalizing keeps the root, the stack and the slash at the end, and normalizing twice
  // changes nothing more.
  lemma NormalizeIdempotent(path: string)
    ensures NormalPath(NormalPath(path)) == NormalPath(path)
    ensures NormalPath(path) != "" && IsAbsolute(NormalPath(path)) == IsAbsolute(path)
    ensures StackOf(NormalPath(path), !IsAbsolute(path)) == StackOf(path, !IsAbsolute(path))
    ensures EndsInSlash(NormalPath(path)) == (EndsInSlash(path) || NormalPath(path) == "/")
  {
    var absolute := IsAbsolute(path);
    var stack := StackOf(path, !absolute);
    StackOfNormal(path, !absolute);
    RenderKeeps(absolute, stack, EndsInSlash(path));
    if path == "" {
      DropDot(path, true);
      assert NormalPath(path) == Render(false, [], false);
    }
  }

  // ---------- resolve ----------

  // Changing directory: to the root first if the argument is absolute.
  function Cd(stack: seq<string>, arg: string): seq<string> {
    if arg == "" then stack
    else if IsAbsolute(arg) then StackOf(arg, false)
    else Fold(stack, Split(arg), false)
  }

  function CdAll(stack: seq<string>, args: seq<string>): seq<string>
    decreases args
  {
    if args == [] then stack else CdAll(Cd(stack, args[0]), args[1..])
  }

  lemma CdOne(stack: seq<string>, arg: string)
    ensures CdAll(stack, [arg]) == Cd(stack, arg)
  {
    assert [arg][1..] == [];
  }

  // Where a sequence of changes of directory leads from the absolute cwd.
  function Resolved(cwd: string, args: seq<string>): seq<string> {
    CdAll(StackOf(cwd, false), args)
  }

  // The text gathered from all[k..] leads from where all[..k] leads to where all leads.
  ghost predicate Gathered(text: string, absolute: bool, all: seq<string>, k: nat)
    requires k <= |all|
  {
    Fold(if absolute then [] else CdAll([], all[..k]), Split(text), false) == CdAll([], all)
  }

  lemma GatherNothing(all: seq<string>)
    ensures Gathered("", false, all, |all|)
  {
    SplitSegment("");
    FoldOne(CdAll([], all), "", false);
    assert all[..|all|] == all;
  }

  lemma GatherMore(text: string, all: seq<string>, k: nat)
    requires k < |all| && Gathered(text, false, all, k + 1)
    ensures var arg := all[k];
            if arg == "" then Gathered(text, false, all, k) else Gathered(arg + "/" + text, IsAbsolute(arg), all, k)
  {
    var arg, b := all[k], CdAll([], all[..k]);
    assert all[..k + 1] == all[..k] + [arg];
    CdAllAppend([], all[..k], [arg]);
    CdOne(b, arg);
    SplitSlash(arg, text);
    FoldAppend(if IsAbsolute(arg) then [] else b, Split(arg), Split(text), false);
  }

  lemma GatherEnd(text: string, all: seq<string>, k: nat)
    requires k <= |all| && Gathered(text, true, all, k)
    ensures StackOf(text, false) == CdAll([], all)
  {
  }

  lemma FromCwd(cwd: string, args: seq<string>)
    requires IsAbsolute(cwd)
    ensures CdAll([], [cwd] + args) == Resolved(cwd, args)
  {
    assert ([cwd] + args)[1..] == args;
  }

  // posix.resolve, which reads its arguments from the right.
  method Resolve(args: seq<string>, cwd: string) returns (r: string)
    requires IsAbsolute(cwd)
    ensures r == "/" + Join(Resolved(cwd, args))
  {
    var resolvedPath := "";
    var resolvedAbsolute := false;
    ghost var all := [cwd] + args;
    var i := |args| - 1;
    GatherNothing(all);
    hide Gathered, StackOf, CdAll, Resolved;
    while i >= -1 && !resolvedAbsolute
      invariant -2 <= i < |args|
      invariant Gathered(resolvedPath, resolvedAbsolute, all, i + 2)
      invariant i == -2 ==> resolvedAbsolute
      decreases i + 2
    {
      var path := if i >= 0 then args[i] else cwd;
      GatherMore(resolvedPath, all, i + 1);
      if path != "" {
        resolvedPath := path + "/" + resolvedPath;
        resolvedAbsolute := IsAbsolute(path);
      }
      i := i - 1;
    }
    GatherEnd(resolvedPath, all, i + 2);
    FromCwd(cwd, args);
    r := NormalizeString(resolvedPath, !resolvedAbsolute);
    if |r| > 0 {
      r := "/" + r;
    } else {
      r := "/";
    }
  }

  lemma CdNormal(stack: seq<string>, path: string)
    ensures Cd(stack, NormalPath(path)) == Cd(stack, path)
  {
    var r := NormalPath(path);
    NormalizeIdempotent(path);
    StackLeads(stack, path);
    StackLeads(stack, r);
    if path == "" {
      DropDot(path, true);
      assert Fold(stack, [], false) == stack;
    }
    hide StackOf, Split, Fold, NormalPath;
  }

  // Normalizing a path does not change where it leads, from any directory.
  lemma NormalLeads(cwd: string, path: string)
    ensures Resolved(cwd, [NormalPath(path)]) == Resolved(cwd, [path])
  {
    hide StackOf, NormalPath, Cd, CdAll;
    CdOne(StackOf(cwd, false), NormalPath(path));
    CdOne(StackOf(cwd, false), path);
    CdNormal(StackOf(cwd, false), path);
  }

  lemma {:induction false} CdAllAppend(stack: seq<string>, a: seq<string>, b: seq<string>)
    ensures CdAll(stack, a + b) == CdAll(CdAll(stack, a), b)
    decreases a
  {
    if a == [] {
      assert a + b == b;
    } else {
      assert (a + b)[1..] == a[1..] + b;
      CdAllAppend(Cd(stack, a[0]), a[1..], b);
    }
  }

  lemma {:induction false} CdAllNormal(stack: seq<string>, args: seq<string>)
    requires Normal(stack, false)
    ensures Normal(CdAll(stack, args), false)
    decreases args
  {
    if args != [] {
      SplitNoSlash(args[0]);
      FoldNormal(stack, Split(args[0]), false);
      StackOfNormal(args[0], false);
      CdAllNormal(Cd(stack, args[0]), args[1..]);
    }
  }

  lemma ResolvedNormal(cwd: string, args: seq<string>)
    ensures Normal(Resolved(cwd, args), false)
  {
    StackOfNormal(cwd, false);
    CdAllNormal(StackOf(cwd, false), args);
  }
}
