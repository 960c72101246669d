// The write method of sax.js, with its fast loop over text, and what does not
// depend on how a document is cut into chunks.
module SaxWrite {
  import opened Outcomes
  import opened SaxState

  lemma {:induction false} RunAppend(o: Options, p: Parser, s: string, t: string)
    ensures Run(o, p, s + t) == Run(o, Run(o, p, s), t)
  {
    if t == "" {
      assert s + t == s;
    } else {
      assert (s + t)[..|s + t| - 1] == s + t[..|t| - 1];
      RunAppend(o, p, s, t[..|t| - 1]);
    }
  }

  lemma RunNothing(o: Options, p: Parser)
    ensures Run(o, p, "") == p
  {
  }

  lemma RunOne(o: Options, p: Parser, c: char)
    ensures Run(o, p, [c]) == Step(o, p, c)
  {
    assert [c][..0] == "";
  }

  lemma RunTwo(o: Options, p: Parser, c: char, d: char)
    ensures Run(o, p, [c, d]) == Step(o, Step(o, p, c), d)
  {
    hide Step;
    assert [c, d][..1] == [c];
    RunOne(o, p, c);
  }

  lemma RunThree(o: Options, p: Parser, c: char, d: char, e: char)
    ensures Run(o, p, [c, d, e]) == Step(o, Step(o, Step(o, p, c), d), e)
  {
    hide Step;
    assert [c, d, e][..2] == [c, d];
    RunTwo(o, p, c, d);
  }

  // ---------- the fast loop over text ----------

  // Inside the root element, where the fast loop runs.
  predicate InRootText(p: Parser) { p.state == InText && p.sawRoot && !p.closedRoot }

  predicate Plain(s: string) { forall k :: 0 <= k < |s| ==> s[k] != '<' && s[k] != '&' }

  // A stretch of a chunk without markup.
  predicate PlainIn(s: string, a: int, b: int) {
    0 <= a <= b <= |s| && forall k :: a <= k < b ==> s[k] != '<' && s[k] != '&'
  }

  function AdvanceAll(o: Options, pos: Pos, s: string): Pos {
    if s == "" then pos else Advance(o, AdvanceAll(o, pos, s[..|s| - 1]), s[|s| - 1])
  }

  lemma AdvanceMore(o: Options, pos: Pos, s: string, a: nat, b: nat)
    requires a <= b < |s|
    ensures AdvanceAll(o, pos, s[a..b + 1]) == Advance(o, AdvanceAll(o, pos, s[a..b]), s[b])
  {
    assert s[a..b + 1][..b - a] == s[a..b];
  }

  // Plain text read one character at a time is counted, and added to the text node.
  lemma {:induction false} PlainRun(o: Options, p: Parser, s: string)
    requires InRootText(p) && Plain(s)
    ensures Run(o, p, s) == AddText(p.(pos := AdvanceAll(o, p.pos, s)), s)
  {
    if s == "" {
      assert p.out.textNode + s == p.out.textNode;
    } else {
      var t, c := s[..|s| - 1], s[|s| - 1];
      PlainRun(o, p, t);
      assert p.out.textNode + s == p.out.textNode + t + [c];
      PlainStep(o, AddText(p.(pos := AdvanceAll(o, p.pos, t)), t), c);
    }
  }

  lemma PlainStep(o: Options, p: Parser, c: char)
    requires InRootText(p) && c != '<' && c != '&'
    ensures Step(o, p, c) == AddText(p.(pos := Advance(o, p.pos, c)), [c])
  {
  }

  // ---------- the parser object ----------

  class SaxParser {
    const o: Options
    var p: Parser

    constructor (o: Options)
      ensures this.o == o && p == INITIAL
    {
      this.o := o;
      this.p := INITIAL;
    }

    // The character at i, empty at the end of the chunk.
    static function CharAt(chunk: string, i: nat): string {
      if i < |chunk| then [chunk[i]] else ""
    }

    // The fast loop, from the counted character at starti. It reads up to the next
    // '<' or '&' or the end of the chunk, counting what it reads.
    static method SkipText(o: Options, chunk: string, starti: nat, pos0: Pos, ghost pos1: Pos)
      returns (c: string, i: nat, pos: Pos)
      requires starti < |chunk| && pos0 == Advance(o, pos1, chunk[starti])
      ensures starti < i <= |chunk| + 1 && c == CharAt(chunk, i - 1)
      ensures PlainIn(chunk, starti, i - 1) && (c == "" || c == "<" || c == "&")
      ensures pos == AdvanceAll(o, pos1, chunk[starti..if i > |chunk| then |chunk| else i])
    {
      i := starti + 1;
      c := CharAt(chunk, starti);
      pos := pos0;
      AdvanceMore(o, pos1, chunk, starti, starti);
      while c != "" && c != "<" && c != "&"
        invariant starti < i <= |chunk| + 1 && c == CharAt(chunk, i - 1)
        invariant PlainIn(chunk, starti, i - 1)
        invariant pos == AdvanceAll(o, pos1, chunk[starti..if i > |chunk| then |chunk| else i])
        decreases |chunk| + 1 - i
      {
        c := CharAt(chunk, i);
        if c != "" {
          AdvanceMore(o, pos1, chunk, starti, i);
          pos := Advance(o, pos, c[0]);
        }
        i := i + 1;
      }
    }

    // write: refused while an error is pending, else the chunk is read to its end.
    method Write(chunk: string) returns (r: Result<()>)
      modifies this
      ensures r.Throws? <==> old(p.out.error)
      ensures r.Throws? ==> p == old(p)
      ensures r.Ok? ==> p == Run(o, old(p), chunk)
    {
      hide Dispatch, Advance, Run, TextStep;
      assert chunk[..0] == "" && Run(o, p, "") == p by { RunNothing(o, p); }
      if p.out.error {
        return Throws;
      }
      var i := 0;
      while true
        invariant 0 <= i <= |chunk|
        invariant p == Run(o, old(p), chunk[..i])
        decreases |chunk| - i
      {
        var c := CharAt(chunk, i);
        i := i + 1;
        if c == "" {
          assert chunk[..i - 1] == chunk;
          break;
        }
        ghost var p0, starti := p, i - 1;
        p := p.(pos := Advance(o, p.pos, c[0]));
        if p.state == InText {
          c, i := TextCase(chunk, c, i, p0);
        } else {
          p := Dispatch(o, p, c[0]);
          assert chunk[starti..i] == [chunk[starti]];
          RunOne(o, p0, chunk[starti]);
        }
        if c == "" {
          // the fast loop met the end of the chunk
          i := i - 1;
        }
        RunAppend(o, old(p), chunk[..starti], chunk[starti..i]);
        assert chunk[..i] == chunk[..starti] + chunk[starti..i];
      }
      r := Ok(());
    }

    // The case of text: the fast loop inside the root element, then the character
    // that stopped it.
    method TextCase(chunk: string, c0: string, i0: nat, ghost p0: Parser) returns (c: string, i: nat)
      requires 0 < i0 <= |chunk| && c0 == CharAt(chunk, i0 - 1) && p0.state == InText
      requires p == p0.(pos := Advance(o, p0.pos, chunk[i0 - 1]))
      modifies this
      ensures i0 <= i <= |chunk| + 1 && (c == "" <==> i == |chunk| + 1)
      ensures p == Run(o, p0, chunk[i0 - 1..if c == "" then i - 1 else i])
    {
      hide Dispatch;
      c, i := c0, i0;
      var starti := i - 1;
      if p.sawRoot && !p.closedRoot {
        var pos;
        c, i, pos := SkipText(o, chunk, starti, p.pos, p0.pos);
        p := AddText(p.(pos := pos), chunk[starti..i - 1]);
        FastText(o, p0, chunk, starti, i - 1);
        if c == "" {
          return;
        }
      } else {
        assert chunk[starti..starti] == "";
      }
      AdvanceMore(o, p0.pos, chunk, starti, i - 1);
      StopAt(o, p0, chunk, starti, i - 1);
      p := TextStep(o, p, c[0]);
    }
  }

  // What the fast loop leaves is what single steps leave.
  lemma FastText(o: Options, p: Parser, chunk: string, a: nat, b: nat)
    requires InRootText(p) && PlainIn(chunk, a, b)
    ensures Run(o, p, chunk[a..b])
         == AddText(p.(pos := AdvanceAll(o, p.pos, chunk[a..b])), chunk[a..b])
  {
    PlainRun(o, p, chunk[a..b]);
  }

  // The character that stops the loop is counted and then treated as text.
  lemma StopAt(o: Options, p: Parser, chunk: string, a: nat, b: nat)
    requires a <= b < |chunk| && Run(o, p, chunk[a..b]).state == InText
    ensures var q := Run(o, p, chunk[a..b]);
            Run(o, p, chunk[a..b + 1]) == TextStep(o, q.(pos := Advance(o, q.pos, chunk[b])), chunk[b])
  {
    hide Dispatch;
    assert chunk[a..b + 1][..b - a] == chunk[a..b];
    StepInText(o, Run(o, p, chunk[a..b]), chunk[b]);
  }

  lemma StepInText(o: Options, p: Parser, c: char)
    requires p.state == InText
    ensures Step(o, p, c) == TextStep(o, p.(pos := Advance(o, p.pos, c)), c)
  {
  }
}
