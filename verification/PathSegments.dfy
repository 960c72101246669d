// What a POSIX path means: its segments between slashes, folded over a stack.
module PathSegments {

  // ---------- splitting and joining ----------

  // The segment after the last slash of p.
  function Cur(p: string): string {
    if p == "" then ""
    else if p[|p| - 1] == '/' then ""
    else Cur(p[..|p| - 1]) + [p[|p| - 1]]
  }

  // The segments that a slash of p ends.
  function Done(p: string): seq<string> {
    if p == "" then []
    else if p[|p| - 1] == '/' then Done(p[..|p| - 1]) + [Cur(p[..|p| - 1])]
    else Done(p[..|p| - 1])
  }

  function Split(p: string): (s: seq<string>)
    ensures |s| >= 1
  {
    Done(p) + [Cur(p)]
  }

  function Join(s: seq<string>): string {
    if s == [] then ""
    else if |s| == 1 then s[0]
    else Join(s[..|s| - 1]) + "/" + s[|s| - 1]
  }

  // Nonempty and free of slashes.
  predicate Segment(g: string) { g != "" && '/' !in g }

  predicate Segments(s: seq<string>) { forall k :: 0 <= k < |s| ==> Segment(s[k]) }

  lemma SplitPush(q: string, c: char)
    ensures Split(q + [c]) == if c == '/' then Split(q) + [""] else Done(q) + [Cur(q) + [c]]
    ensures Cur(q + [c]) == if c == '/' then "" else Cur(q) + [c]
  {
    var p := q + [c];
    assert p[..|p| - 1] == q && p[|p| - 1] == c;
  }

  lemma EmptyCur()
    ensures Cur("") == ""
  {
  }

  // The characters at the end of p after which there is no slash.
  ghost predicate IsTail(p: string, g: string) {
    && '/' !in g && |g| <= |p| && p[|p| - |g|..] == g && (|g| < |p| ==> p[|p| - |g| - 1] == '/')
  }

  lemma TailPush(q: string, g: string, c: char)
    requires IsTail(q, g)
    ensures c != '/' ==> IsTail(q + [c], g + [c])
    ensures IsTail(q + "/", "")
  {
    var p, k := q + [c], |q| - |g|;
    assert p[k..] == q[k..] + [c];
    assert k > 0 ==> p[k - 1] == q[k - 1];
    assert (q + "/")[|q + "/"|..] == "";
  }

  lemma {:induction false} CurIsTail(p: string)
    ensures IsTail(p, Cur(p))
  {
    hide Cur, Done, Split;
    if p == "" {
      EmptyCur();
    } else {
      var q, c := p[..|p| - 1], p[|p| - 1];
      assert p == q + [c];
      hide IsTail;
      CurIsTail(q);
      SplitPush(q, c);
      TailPush(q, Cur(q), c);
    }
  }

  lemma CurNoSlash(p: string)
    ensures '/' !in Cur(p) && |Cur(p)| <= |p|
    ensures p[|p| - |Cur(p)|..] == Cur(p)
    ensures |Cur(p)| < |p| ==> p[|p| - |Cur(p)| - 1] == '/'
  {
    hide Cur;
    CurIsTail(p);
  }

  lemma SeqAssoc(a: seq<string>, b: seq<string>, c: seq<string>)
    ensures (a + b) + c == a + (b + c)
  {
  }

  lemma LastOff(d: seq<string>, c: string, s: seq<string>, e: seq<string>)
    requires d + [c] == s + (e + [c])
    ensures d == s + e
  {
    assert (d + [c])[..|d|] == d;
    assert (s + (e + [c]))[..|s + e|] == s + e;
  }

  lemma {:induction false} SplitSlash(a: string, b: string)
    ensures Split(a + "/" + b) == Split(a) + Split(b)
    ensures Cur(a + "/" + b) == Cur(b)
  {
    if b == "" {
      SplitPush(a, '/');
      assert a + "/" + b == a + ['/'] && Split(b) == [""];
    } else {
      var h, c := b[..|b| - 1], b[|b| - 1];
      var q := a + "/" + h;
      assert Split(q) == Done(q) + [Cur(q)] && Split(h) == Done(h) + [Cur(h)];
      hide Done, Cur, Split;
      assert a + "/" + b == q + [c] && b == h + [c];
      SplitSlash(a, h);
      SplitPush(q, c);
      SplitPush(h, c);
      LastOff(Done(q), Cur(q), Split(a), Done(h));
      SeqAssoc(Split(a), if c == '/' then Split(h) else Done(h), [Cur(b)]);
    }
  }

  lemma {:induction false} SplitSegment(g: string)
    requires '/' !in g
    ensures Split(g) == [g]
  {
    if g != "" {
      var h, c := g[..|g| - 1], g[|g| - 1];
      assert c in g && g == h + [c];
      SplitSegment(h);
      assert Done(h) == Split(h)[..0];
    }
  }

  lemma {:induction false} SplitJoin(s: seq<string>)
    requires Segments(s) && s != []
    ensures Split(Join(s)) == s
  {
    hide Split, Cur, Done;
    if |s| == 1 {
      SplitSegment(s[0]);
    } else {
      var k := |s| - 1;
      SplitJoin(s[..k]);
      SplitSlash(Join(s[..k]), s[k]);
      SplitSegment(s[k]);
      assert s == s[..k] + [s[k]];
    }
  }

  // Where a text is cut at a character.
  lemma CutAt(s: string, a: nat, k: nat)
    requires a <= k < |s|
    ensures s[a..] == s[a..k] + [s[k]] + s[k + 1..]
  {
  }

  lemma JoinLast(d: seq<string>, c: string)
    ensures Join(d + [c]) == if d == [] then c else Join(d) + "/" + c
  {
    assert (d + [c])[..|d|] == d;
  }

  lemma SplitEmpty()
    ensures Split("") == [""]
  {
  }

  lemma JoinLonger(d: seq<string>, c: string, x: char)
    ensures Join(d + [c + [x]]) == Join(d + [c]) + [x]
  {
    JoinLast(d, c);
    JoinLast(d, c + [x]);
    hide Join;
    if d != [] {
      var a := Join(d) + "/";
      assert (a + c) + [x] == a + (c + [x]);
    }
  }

  lemma {:induction false} JoinSplit(p: string)
    ensures Join(Split(p)) == p
  {
    if p == "" {
      SplitEmpty();
    } else {
      var q, x := p[..|p| - 1], p[|p| - 1];
      assert p == q + [x];
      SplitOne(q);
      JoinSplit(q);
      hide *;
      SplitPush(q, x);
      if x == '/' {
        JoinLast(Split(q), "");
        assert q + "/" + "" == q + [x];
      } else {
        JoinLonger(Done(q), Cur(q), x);
      }
    }
  }

  lemma SplitOne(q: string)
    ensures Split(q) == Done(q) + [Cur(q)] && |Split(q)| >= 1
  {
  }

  lemma {:induction false} JoinFirst(s: seq<string>)
    requires Segments(s) && s != []
    ensures Join(s) != "" && Join(s)[0] != '/' && Join(s)[|Join(s)| - 1] != '/'
    ensures |s| > 1 ==> |Join(s)| > 2
  {
    if |s| > 1 { JoinFirst(s[..|s| - 1]); }
    assert Segment(s[|s| - 1]);
  }

  // ---------- the stack ----------

  // One segment: empty and "." do nothing, ".." takes the last segment off the
  // stack or, where there is none to take, stays only if above says so.
  function Step(stack: seq<string>, g: string, above: bool): seq<string> {
    if g == "" || g == "." then stack
    else if g == ".." then
      if stack != [] && stack[|stack| - 1] != ".." then stack[..|stack| - 1]
      else if above then stack + [".."] else stack
    else stack + [g]
  }

  function Fold(stack: seq<string>, s: seq<string>, above: bool): seq<string> {
    if s == [] then stack else Step(Fold(stack, s[..|s| - 1], above), s[|s| - 1], above)
  }

  lemma {:induction false} FoldAppend(stack: seq<string>, s: seq<string>, t: seq<string>, above: bool)
    ensures Fold(stack, s + t, above) == Fold(Fold(stack, s, above), t, above)
  {
    if t == [] {
      assert s + t == s;
    } else {
      assert (s + t)[..|s + t| - 1] == s + t[..|t| - 1];
      FoldAppend(stack, s, t[..|t| - 1], above);
    }
  }

  // The stacks that a fold leaves: ".." only at the bottom, and only if above.
  predicate Normal(stack: seq<string>, above: bool) {
    && Segments(stack)
    && (forall k :: 0 <= k < |stack| ==> stack[k] != ".")
    && (forall k :: 0 <= k < |stack| && stack[k] == ".." ==> above && (k == 0 || stack[k - 1] == ".."))
  }

  lemma StepNormal(stack: seq<string>, g: string, above: bool)
    requires Normal(stack, above) && '/' !in g
    ensures Normal(Step(stack, g, above), above)
  {
  }

  lemma {:induction false} FoldNormal(stack: seq<string>, s: seq<string>, above: bool)
    requires Normal(stack, above) && forall k :: 0 <= k < |s| ==> '/' !in s[k]
    ensures Normal(Fold(stack, s, above), above)
  {
    hide Normal, Step;
    if s != [] {
      FoldNormal(stack, s[..|s| - 1], above);
      StepNormal(Fold(stack, s[..|s| - 1], above), s[|s| - 1], above);
    }
  }

  // A normal stack is left alone by the fold.
  lemma {:induction false} FoldFixed(stack: seq<string>, above: bool)
    requires Normal(stack, above)
    ensures Fold([], stack, above) == stack
  {
    if stack != [] {
      var k := |stack| - 1;
      FoldFixed(stack[..k], above);
      assert stack[..k] + [stack[k]] == stack;
    }
  }

  // ---------- where a stack leads ----------

  // Walking down a directory and back up.
  lemma DownAndUp(base: seq<string>, stack: seq<string>)
    requires stack != [] && Normal(stack, true) && stack[|stack| - 1] != ".."
    ensures Step(Fold(base, stack, false), "..", false) == Fold(base, stack[..|stack| - 1], false)
  {
    var k := |stack| - 1;
    var b := Fold(base, stack[..k], false);
    assert Segment(stack[k]);
    assert Fold(base, stack, false) == b + [stack[k]];
    assert (b + [stack[k]])[..|b|] == b;
  }

  lemma FoldNext(base: seq<string>, stack: seq<string>, g: string)
    ensures Fold(base, stack + [g], false) == Step(Fold(base, stack, false), g, false)
  {
    assert (stack + [g])[..|stack|] == stack;
  }

  // A segment takes the stack of a relative path where it takes a directory.
  lemma StepLeads(base: seq<string>, stack: seq<string>, g: string)
    requires Normal(stack, true)
    ensures Fold(base, Step(stack, g, true), false) == Step(Fold(base, stack, false), g, false)
  {
    hide Fold;
    if g == ".." && stack != [] && stack[|stack| - 1] != ".." {
      DownAndUp(base, stack);
    } else {
      FoldNext(base, stack, g);
    }
  }

  // The stack of a relative path leads where its segments lead, from any directory.
  lemma {:induction false} FoldLeads(base: seq<string>, s: seq<string>)
    requires forall k :: 0 <= k < |s| ==> '/' !in s[k]
    ensures Fold(base, Fold([], s, true), false) == Fold(base, s, false)
  {
    if s != [] {
      var h, g := s[..|s| - 1], s[|s| - 1];
      FoldLeads(base, h);
      FoldNormal([], h, true);
      hide Step, Normal;
      StepLeads(base, Fold([], h, true), g);
    }
  }

  lemma {:induction false} SplitNoSlash(p: string)
    ensures forall k :: 0 <= k < |Split(p)| ==> '/' !in Split(p)[k]
  {
    CurNoSlash(p);
    if p != "" {
      SplitNoSlash(p[..|p| - 1]);
      assert Done(p[..|p| - 1]) == Split(p[..|p| - 1])[..|Split(p[..|p| - 1])| - 1];
    }
  }

  // The stack that a whole path leaves.
  function StackOf(p: string, above: bool): seq<string> { Fold([], Split(p), above) }

  lemma StackOfNormal(p: string, above: bool)
    ensures Normal(StackOf(p, above), above)
  {
    SplitNoSlash(p);
    FoldNormal([], Split(p), above);
  }

  lemma StackLeads(base: seq<string>, p: string)
    ensures Fold(base, StackOf(p, true), false) == Fold(base, Split(p), false)
  {
    SplitNoSlash(p);
    FoldLeads(base, Split(p));
  }
}
