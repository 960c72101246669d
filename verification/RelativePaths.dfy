// posix.relative of path.js, and that posix.resolve undoes it.
module RelativePaths {
  import opened PathSegments
  import opened Paths

  // ---------- the route between two directories ----------

  // The length of the longest common prefix.
  function Common(f: seq<string>, t: seq<string>): (c: nat)
    ensures c <= |f| && c <= |t|
  {
    if f != [] && t != [] && f[0] == t[0] then Common(f[1..], t[1..]) + 1 else 0
  }

  function Ups(n: nat): (s: seq<string>)
    ensures |s| == n
  {
    seq(n, _ => "..")
  }

  // One ".." for each directory of f below the common ones, then down to t.
  function Route(f: seq<string>, t: seq<string>): seq<string> {
    Ups(|f| - Common(f, t)) + t[Common(f, t)..]
  }

  lemma {:induction false} CommonPrefix(f: seq<string>, t: seq<string>)
    ensures f[..Common(f, t)] == t[..Common(f, t)]
  {
    if f != [] && t != [] && f[0] == t[0] {
      var c := Common(f[1..], t[1..]);
      CommonPrefix(f[1..], t[1..]);
      assert f[..c + 1] == [f[0]] + f[1..][..c];
      assert t[..c + 1] == [t[0]] + t[1..][..c];
    }
  }

  lemma {:induction false} CommonIs(p: seq<string>, f: seq<string>, t: seq<string>)
    requires f == [] || t == [] || f[0] != t[0]
    ensures Common(p + f, p + t) == |p|
  {
    if p == [] {
      assert p + f == f && p + t == t;
    } else {
      assert (p + f)[1..] == p[1..] + f && (p + t)[1..] == p[1..] + t;
      CommonIs(p[1..], f, t);
    }
  }

  lemma RouteIs(p: seq<string>, f: seq<string>, t: seq<string>)
    requires f == [] || t == [] || f[0] != t[0]
    ensures Route(p + f, p + t) == Ups(|f|) + t
  {
    CommonIs(p, f, t);
    assert (p + t)[|p|..] == t;
  }

  // ---------- walking the route ----------

  lemma {:induction false} Climb(stack: seq<string>, n: nat)
    requires Normal(stack, false) && n <= |stack|
    ensures Fold(stack, Ups(n), false) == stack[..|stack| - n]
  {
    if n == 0 {
      assert stack[..|stack|] == stack;
    } else {
      assert Ups(n)[..n - 1] == Ups(n - 1);
      Climb(stack, n - 1);
      assert stack[..|stack| - n + 1][..|stack| - n] == stack[..|stack| - n];
    }
  }

  lemma NormalPrefix(t: seq<string>, k: nat)
    requires Normal(t, false) && k <= |t|
    ensures Normal(t[..k], false)
  {
  }

  lemma WalkRoute(f: seq<string>, t: seq<string>)
    requires Normal(f, false) && Normal(t, false)
    ensures Fold(f, Route(f, t), false) == t
  {
    hide Fold, Normal, Common, Ups;
    var c := Common(f, t);
    var x, y, p := Ups(|f| - c), t[c..], t[..c];
    CommonPrefix(f, t);
    Climb(f, |f| - c);
    NormalPrefix(t, c);
    FoldFixed(p, false);
    FoldFixed(t, false);
    FoldAppend(f, x, y, false);
    FoldAppend([], p, y, false);
    assert p + y == t;
  }

  // Changing from f by the text of the route leads to t.
  lemma CdRoute(f: seq<string>, t: seq<string>)
    requires Normal(f, false) && Normal(t, false)
    ensures Cd(f, Join(Route(f, t))) == t
  {
    var route := Route(f, t);
    WalkRoute(f, t);
    if route == [] {
      assert Fold(f, route, false) == f;
    } else {
      JoinFirst(route);
      SplitJoin(route);
    }
  }

  // resolve undoes relative: from any directory, for any two paths.
  lemma ResolveUndoesRelative(cwd: string, from: string, to: string)
    ensures var rel := Join(Route(Resolved(cwd, [from]), Resolved(cwd, [to])));
            Resolved(cwd, [from, rel]) == Resolved(cwd, [to])
  {
    var f, t := Resolved(cwd, [from]), Resolved(cwd, [to]);
    ResolvedNormal(cwd, [from]);
    ResolvedNormal(cwd, [to]);
    CdRoute(f, t);
    var args := [from, Join(Route(f, t))];
    CdAllAppend(StackOf(cwd, false), args[..1], args[1..]);
    CdOne(f, Join(Route(f, t)));
    assert args == args[..1] + args[1..] && args[..1] == [from] && args[1..] == [Join(Route(f, t))];
  }

  // For a normalized absolute path the text itself comes back, but for a trailing
  // slash, which resolve drops.
  lemma AbsoluteRoundTrip(cwd: string, from: string, to: string)
    requires IsAbsolute(to) && NormalPath(to) == to
    ensures var rel := Join(Route(Resolved(cwd, [from]), Resolved(cwd, [to])));
            "/" + Join(Resolved(cwd, [from, rel])) == to <==> to == "/" || !EndsInSlash(to)
  {
    ResolveUndoesRelative(cwd, from, to);
    var stack := StackOf(to, false);
    CdOne(StackOf(cwd, false), to);
    StackOfNormal(to, false);
    var body, tail := Join(stack), if Join(stack) != "" && EndsInSlash(to) then "/" else "";
    if stack != [] { JoinFirst(stack); }
    assert to == "/" + body + tail;
    assert |"/" + body| == |to| - |tail|;
    assert tail == "" ==> "/" + body + tail == "/" + body;
  }

  // So "/a/" does not come back.
  lemma TrailingSlashLost(cwd: string, from: string)
    ensures var to := "/a/";
            var rel := Join(Route(Resolved(cwd, [from]), Resolved(cwd, [to])));
            NormalPath(to) == to && "/" + Join(Resolved(cwd, [from, rel])) == "/a"
  {
    var to := "/a/";
    SlashedStack();
    CdOne(StackOf(cwd, false), to);
    ResolveUndoesRelative(cwd, from, to);
  }

  lemma SlashedStack()
    ensures StackOf("/a/", false) == ["a"] && NormalPath("/a/") == "/a/"
  {
    SplitSegment("");
    SplitSegment("a");
    SplitSlash("", "a/");
    SplitSlash("a", "");
    assert "/a/" == "" + "/" + "a/" && "a/" == "a" + "/" + "";
    var s := ["", "a", ""];
    assert Split("/a/") == s;
    hide Split;
    assert s[..2] == ["", "a"] && s[..2][..1] == [""] && [""][..0] == [];
    assert Fold([], [""], false) == [] && Fold([], ["", "a"], false) == ["a"] == Fold([], s, false);
  }

  // ---------- first segments ----------

  ghost predicate Agree(u: string, v: string, a: int, b: int) {
    0 <= a <= b <= |u| && b <= |v| && forall k :: a <= k < b ==> u[k] == v[k]
  }

  ghost predicate SlashFree(u: string, a: int, b: int) {
    0 <= a <= b <= |u| && forall k :: a <= k < b ==> u[k] != '/'
  }

  // The first slash from a on, or the length.
  function FirstSlash(s: string, a: nat): (k: nat)
    requires a <= |s|
    ensures SlashFree(s, a, k) && (k < |s| ==> s[k] == '/')
    decreases |s| - a
  {
    if a == |s| || s[a] == '/' then a else FirstSlash(s, a + 1)
  }

  // The first segment of a text.
  function FirstOf(p: string): string { Split(p)[0] }

  lemma FirstSegment(s: string, a: nat)
    requires a <= |s|
    ensures FirstOf(s[a..]) == s[a..FirstSlash(s, a)]
  {
    var k := FirstSlash(s, a);
    var g := s[a..k];
    SplitSegment(g);
    hide Split, Cur, Done;
    if k < |s| {
      CutAt(s, a, k);
      SplitSlash(g, s[k + 1..]);
    } else {
      assert s[a..] == g;
    }
  }

  // The texts agree up to i and part there.
  ghost predicate Parted(u: string, v: string, i: int) {
    && 0 <= i <= |u| && i <= |v|
    && (|| (i < |u| && i < |v| && u[i] != v[i])
        || (i == |u| && i < |v| && v[i] != '/' && i > 0)
        || (i == |v| && i < |u| && u[i] != '/' && i > 0))
  }

  lemma PartedSegments(u: string, v: string, a: nat, i: int)
    requires Agree(u, v, a, i) && SlashFree(u, a, i) && Parted(u, v, i)
    ensures FirstOf(u[a..]) != FirstOf(v[a..])
  {
    hide FirstOf;
    FirstSegment(u, a);
    FirstSegment(v, a);
    var p, q := FirstSlash(u, a), FirstSlash(v, a);
    assert p >= i && q >= i;
    if p == q && p > i {
      assert u[a..p][i - a] == u[i];
      assert v[a..p][i - a] == v[i];
    }
  }

  // ---------- the character scan ----------

  // Where the scan of relative stands after i equal characters of the two texts:
  // sep is their last common slash, or -1.
  ghost predicate Scan(u: string, v: string, i: int, sep: int) {
    && Agree(u, v, 0, i)
    && -1 <= sep < i && (sep >= 0 ==> u[sep] == '/')
    && SlashFree(u, sep + 1, i)
  }

  lemma ScanNext(u: string, v: string, i: int, sep: int)
    requires Scan(u, v, i, sep) && i < |u| && i < |v| && u[i] == v[i]
    ensures Scan(u, v, i + 1, if u[i] == '/' then i else sep)
  {
  }

  // What is common before the separator, and what follows it.
  function Before(u: string, sep: int): seq<string>
    requires -1 <= sep <= |u|
  {
    if sep == -1 then [] else Split(u[..sep])
  }

  function After(u: string, sep: int): string
    requires -1 <= sep < |u|
  {
    u[sep + 1..]
  }

  lemma SplitAt(u: string, sep: int)
    requires -1 <= sep < |u| && (sep >= 0 ==> u[sep] == '/')
    ensures Split(u) == Before(u, sep) + Split(After(u, sep))
  {
    hide Split, Cur, Done;
    if sep >= 0 {
      SplitAtSlash(u, sep);
    } else {
      assert After(u, sep) == u;
      assert [] + Split(u) == Split(u);
    }
  }

  lemma SplitAtSlash(u: string, k: int)
    requires 0 <= k < |u| && u[k] == '/'
    ensures Split(u) == Split(u[..k]) + Split(u[k + 1..])
  {
    hide Split;
    var x, y := u[..k], u[k + 1..];
    assert u == x + "/" + y;
    SplitSlash(x, y);
  }

  lemma {:induction false} JoinAppend(a: seq<string>, b: seq<string>)
    requires a != [] && b != []
    ensures Join(a + b) == Join(a) + "/" + Join(b)
  {
    var k := |b| - 1;
    if k == 0 {
      assert (a + b)[..|a|] == a;
    } else {
      var h, c := b[..k], b[k];
      JoinAppend(a, h);
      assert (a + b)[..|a| + k] == a + h && (a + b)[|a| + k] == c;
      assert Join(a + b) == Join(a + h) + "/" + c && Join(b) == Join(h) + "/" + c;
      hide Join;
      assert (Join(a) + "/" + Join(h)) + "/" + c == Join(a) + "/" + (Join(h) + "/" + c);
    }
  }

  lemma BeforeSame(u: string, v: string, i: int, sep: int)
    requires Scan(u, v, i, sep) && sep < |u| && sep < |v|
    ensures Before(u, sep) == Before(v, sep) && (sep >= 0 ==> v[sep] == '/')
  {
    if sep >= 0 { assert u[..sep] == v[..sep]; }
  }

  // The route along a separator, after which the texts u1 and v1 part.
  lemma RouteAlong(u: string, v: string, sep: int)
    requires -1 <= sep < |u| && sep < |v| && (sep >= 0 ==> u[sep] == '/' && v[sep] == '/')
    requires Before(u, sep) == Before(v, sep)
    requires FirstOf(After(u, sep)) != FirstOf(After(v, sep))
    ensures Join(Route(Split(u), Split(v))) == Join(Ups(|Split(After(u, sep))|)) + "/" + After(v, sep)
  {
    hide Split, Join, Route, Before, After;
    var u1, v1 := Split(After(u, sep)), Split(After(v, sep));
    SplitAt(u, sep);
    SplitAt(v, sep);
    RouteIs(Before(u, sep), u1, v1);
    JoinAppend(Ups(|u1|), v1);
    JoinSplit(After(v, sep));
  }

  // After a mismatch, ".." for each segment of u after the separator and the rest of
  // v from the separator on is the route.
  lemma PartedRoute(u: string, v: string, i: int, sep: int)
    requires Scan(u, v, i, sep) && Parted(u, v, i) && sep < |u| && sep < |v|
    ensures Join(Route(Split(u), Split(v))) == Join(Ups(|Split(After(u, sep))|)) + "/" + After(v, sep)
  {
    PartedSegments(u, v, sep + 1, i);
    hide FirstOf, Before;
    BeforeSame(u, v, i, sep);
    RouteAlong(u, v, sep);
  }

  // One text ends where the other has a slash: the route only climbs, or only descends.
  lemma BaseRoute(f: seq<string>, t: seq<string>, u: string, v: string)
    requires Split(u) == f && Split(v) == t
    requires |v| < |u| && u[..|v|] == v && u[|v|] == '/'
    ensures Route(f, t) == Ups(|Split(After(u, |v|))|)
    ensures Join(Route(t, f)) == After(u, |v|)
  {
    SplitAt(u, |v|);
    var rest := Split(After(u, |v|));
    assert t + [] == t;
    RouteIs(t, rest, []);
    RouteIs(t, [], rest);
    assert Ups(|rest|) + [] == Ups(|rest|) && Ups(0) + rest == rest;
    JoinSplit(After(u, |v|));
  }

  // ---------- the method ----------

  // Skip the slashes that start an absolute path.
  method SkipSlashes(s: string) returns (k: int)
    requires |s| >= 1
    ensures 1 <= k <= |s| && (k == |s| || s[k] != '/') && forall j :: 1 <= j < k ==> s[j] == '/'
  {
    k := 1;
    while k < |s|
      invariant 1 <= k <= |s| && forall j :: 1 <= j < k ==> s[j] == '/'
    {
      if s[k] != '/' {
        break;
      }
      k := k + 1;
    }
  }

  lemma SegmentsNext(s: string, start: int, i: int)
    requires 0 <= start <= i < |s|
    ensures |Split(s[start..i + 1])| == if s[i] == '/' then |Split(s[start..i])| + 1 else |Split(s[start..i])|
  {
    assert s[start..i + 1] == s[start..i] + [s[i]];
    SplitPush(s[start..i], s[i]);
    SplitOne(s[start..i]);
    hide Split, Done, Cur;
  }

  lemma UpsNext(n: nat)
    ensures Join(Ups(n + 1)) == if n == 0 then ".." else Join(Ups(n)) + "/.."
    ensures Join(Ups(n)) == "" <==> n == 0
  {
    assert Ups(n + 1) == Ups(n) + [".."];
    if n > 0 {
      assert Segments(Ups(n));
      JoinFirst(Ups(n));
    }
    hide Join;
    JoinLast(Ups(n), "..");
    if n > 0 { assert Join(Ups(n)) + "/" + ".." == Join(Ups(n)) + "/.."; }
  }

  lemma UpsStart(s: string, start: int)
    requires 0 <= start <= |s|
    ensures Join(Ups(0)) == "" && |Split(s[start..start])| == 1
  {
    assert s[start..start] == "" && Split("") == [""];
  }

  // The loop that emits ".." for each segment of s from start on.
  method EmitUps(s: string, start: int) returns (out: string)
    requires 0 <= start <= |s|
    ensures out == Join(Ups(|Split(s[start..])|))
  {
    hide *;
    out := "";
    var i := start;
    ghost var n := 0;
    UpsStart(s, start);
    while i <= |s|
      invariant start <= i <= |s| + 1
      invariant out == Join(Ups(n))
      invariant i <= |s| ==> n == |Split(s[start..i])| - 1
      invariant i == |s| + 1 ==> n == |Split(s[start..])|
    {
      if i < |s| {
        SegmentsNext(s, start, i);
      } else {
        assert s[start..i] == s[start..];
      }
      if i == |s| || s[i] == '/' {
        UpsNext(n);
        if |out| == 0 {
          out := out + "..";
        } else {
          out := out + "/..";
        }
        n := n + 1;
      }
      i := i + 1;
    }
  }

  // The cases at the end of the scan, when one text is a prefix of the other. The
  // answer is known at once, or a new separator is, or the scan's one stands.
  method PrefixCases(u: string, v: string, ghost f: seq<string>, ghost t: seq<string>, i: nat, sep0: int)
    returns (early: bool, moved: bool, r: string, sep: int)
    requires Texts(u, v, f, t)
    requires i <= |u| && i <= |v| && (i == |u| || i == |v|)
    requires if |u| <= |v| then v[..|u|] == u else u[..|v|] == v
    ensures early ==> r == Join(Route(f, t))
    ensures !early && moved ==> FromSeparator(u, v, f, t, sep)
    ensures !early && !moved ==> sep == sep0 && Parted(u, v, i)
  {
    early, moved, r, sep := false, false, "", sep0;
    Ends(u, v, f, t);
    if |v| > i {
      if v[i] == '/' {
        DescendOnly(u, v, f, t);
        early, r := true, v[i + 1..];
      } else if i == 0 {
        FromRoot(u, v, f, t);
        early, r := true, v[i..];
      }
    } else if |u| > i {
      if u[i] == '/' {
        ClimbOnly(u, v, f, t);
        moved, sep := true, i;
      } else if i == 0 {
        ToRoot(u, v, f, t);
        moved, sep := true, 0;
      }
    }
  }

  // The texts of two different normal stacks.
  ghost predicate Texts(u: string, v: string, f: seq<string>, t: seq<string>) {
    Normal(f, false) && Normal(t, false) && f != t && u == Join(f) && v == Join(t)
  }

  // From the separator on, ".." for each segment of u, then v, is the route.
  ghost predicate FromSeparator(u: string, v: string, f: seq<string>, t: seq<string>, sep: int) {
    && -1 <= sep < |u| && sep <= |v|
    && Join(Route(f, t)) == Join(Ups(|Split(After(u, sep))|)) + ("/" + v)[sep + 1..]
  }

  // The scan for the longest common path.
  method FindSeparator(u: string, v: string, ghost f: seq<string>, ghost t: seq<string>)
    returns (early: bool, r: string, sep: int)
    requires Texts(u, v, f, t)
    ensures early ==> r == Join(Route(f, t))
    ensures !early ==> FromSeparator(u, v, f, t, sep)
  {
    early, r := false, "";
    var length := if |u| < |v| then |u| else |v|;
    sep := -1;
    var i := 0;
    while i <= length
      invariant 0 <= i <= length && Scan(u, v, i, sep)
    {
      if i == length {
        WholePrefix(u, v);
        var moved;
        early, moved, r, sep := PrefixCases(u, v, f, t, i, sep);
        if early || moved {
          return;
        }
        break;
      }
      if u[i] != v[i] {
        break;
      }
      ScanNext(u, v, i, sep);
      if u[i] == '/' {
        sep := i;
      }
      i := i + 1;
    }
    MismatchRoute(u, v, f, t, i, sep);
  }

  lemma WholePrefix(u: string, v: string)
    requires Agree(u, v, 0, |u|) || Agree(u, v, 0, |v|)
    ensures if |u| <= |v| then v[..|u|] == u else u[..|v|] == v
  {
    if |u| <= |v| { assert v[..|u|] == u; } else { assert u[..|v|] == v; }
  }

  lemma ConcatAssoc(a: string, b: string, c: string)
    ensures a + b + c == a + (b + c)
  {
  }

  lemma MismatchRoute(u: string, v: string, f: seq<string>, t: seq<string>, i: int, sep: int)
    requires Texts(u, v, f, t) && Scan(u, v, i, sep) && Parted(u, v, i)
    ensures FromSeparator(u, v, f, t, sep)
  {
    Ends(u, v, f, t);
    SplitOf(f);
    SplitOf(t);
    PartedRoute(u, v, i, sep);
    BeforeSame(u, v, i, sep);
    SlashAt(v, sep);
    ConcatAssoc(Join(Ups(|Split(After(u, sep))|)), "/", After(v, sep));
  }

  lemma SlashAt(v: string, sep: int)
    requires -1 <= sep < |v| && (sep >= 0 ==> v[sep] == '/')
    ensures ("/" + v)[sep + 1..] == "/" + After(v, sep)
  {
    if sep >= 0 {
      assert ("/" + v)[sep + 1..] == v[sep..];
      assert v[sep..] == [v[sep]] + v[sep + 1..];
    }
  }

  lemma SplitOf(s: seq<string>)
    requires Normal(s, false) && s != []
    ensures Split(Join(s)) == s && Join(s) != ""
  {
    SplitJoin(s);
    JoinFirst(s);
  }

  // Different stacks have different texts, and the empty text is the empty stack.
  lemma Ends(u: string, v: string, f: seq<string>, t: seq<string>)
    requires Texts(u, v, f, t)
    ensures u != v && (u == "" <==> f == []) && (v == "" <==> t == [])
    ensures u != "" ==> u[0] != '/'
    ensures v != "" ==> v[0] != '/'
  {
    if f != [] { SplitOf(f); JoinFirst(f); }
    if t != [] { SplitOf(t); JoinFirst(t); }
  }

  lemma DescendOnly(u: string, v: string, f: seq<string>, t: seq<string>)
    requires Texts(u, v, f, t) && |u| < |v| && v[..|u|] == u && v[|u|] == '/'
    ensures v[|u| + 1..] == Join(Route(f, t))
  {
    Ends(u, v, f, t);
    SplitOf(f);
    SplitOf(t);
    BaseRoute(t, f, v, u);
  }

  lemma FromRoot(u: string, v: string, f: seq<string>, t: seq<string>)
    requires f == [] && v == Join(t)
    ensures v[0..] == Join(Route(f, t))
  {
    assert Ups(0) + t[0..] == t;
  }

  lemma ClimbOnly(u: string, v: string, f: seq<string>, t: seq<string>)
    requires Texts(u, v, f, t) && |v| < |u| && u[..|v|] == v && u[|v|] == '/'
    ensures FromSeparator(u, v, f, t, |v|)
  {
    hide Split, Join, Route, After, Normal;
    Ends(u, v, f, t);
    SplitOf(f);
    SplitOf(t);
    BaseRoute(f, t, u, v);
    assert ("/" + v)[|v| + 1..] == "";
    var s := Join(Route(f, t));
    assert s + "" == s;
  }

  lemma ToRoot(u: string, v: string, f: seq<string>, t: seq<string>)
    requires Texts(u, v, f, t) && t == []
    ensures FromSeparator(u, v, f, t, 0)
  {
    Ends(u, v, f, t);
    SplitOf(f);
    TailCount(u);
    RouteToRoot(f, t);
    assert ("/" + v)[1..] == "";
  }

  lemma RouteToRoot(f: seq<string>, t: seq<string>)
    requires t == []
    ensures Route(f, t) == Ups(|f|)
  {
    assert Ups(|f|) + t[0..] == Ups(|f|);
  }

  // Dropping a first character other than a slash keeps the number of segments.
  lemma {:induction false} TailCount(u: string)
    requires u != "" && u[0] != '/'
    ensures |Split(u[1..])| == |Split(u)|
  {
    if |u| == 1 {
      SplitSegment(u);
      SplitSegment(u[1..]);
    } else {
      var k := |u| - 1;
      TailCount(u[..k]);
      assert u[1..][..k - 1] == u[..k][1..];
    }
  }

  // posix.relative. (Its last branch, for no ".." emitted at all, is never reached:
  // the loop over from emits one for its end.)
  method Relative(from0: string, to0: string, cwd: string) returns (r: string)
    requires IsAbsolute(cwd)
    ensures r == Join(Route(Resolved(cwd, [from0]), Resolved(cwd, [to0])))
  {
    ghost var f, t := Resolved(cwd, [from0]), Resolved(cwd, [to0]);
    ResolvedNormal(cwd, [from0]);
    ResolvedNormal(cwd, [to0]);
    SameRoute(f);
    if from0 == to0 {
      return "";
    }
    var from := Resolve([from0], cwd);
    var to := Resolve([to0], cwd);
    assert from[1..] == Join(f) && to[1..] == Join(t);
    if from == to {
      if f != t { Ends(Join(f), Join(t), f, t); }
      return "";
    }
    Ends(Join(f), Join(t), f, t);
    var fromStart := SkipSlashes(from);
    var toStart := SkipSlashes(to);
    NoMoreSlashes(from, Join(f), fromStart);
    NoMoreSlashes(to, Join(t), toStart);
    var early, s, lastCommonSep := FindSeparator(from[fromStart..], to[toStart..], f, t);
    if early {
      return s;
    }
    var out := EmitUps(from, fromStart + lastCommonSep + 1);
    assert from[fromStart + lastCommonSep + 1..] == After(from[fromStart..], lastCommonSep);
    r := out + to[toStart + lastCommonSep..];
  }

  lemma NoMoreSlashes(s: string, u: string, k: int)
    requires s == "/" + u && (u != "" ==> u[0] != '/')
    requires 1 <= k <= |s| && forall j :: 1 <= j < k ==> s[j] == '/'
    ensures k == 1 && s[k..] == u
  {
    assert u != "" ==> s[1] == u[0];
  }

  lemma SameRoute(f: seq<string>)
    ensures Join(Route(f, f)) == ""
  {
    CommonIs(f, [], []);
    assert f + [] == f;
    assert Route(f, f) == [];
  }
}
