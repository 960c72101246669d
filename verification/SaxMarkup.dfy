// What sax.js makes of comments, CDATA sections, processing instructions and declarations,
// wherever markup can begin.
module SaxMarkup {
  import opened SaxState
  import opened SaxWrite

  // The parser without its position counters, which decide nothing here.
  function Norm(p: Parser): Parser { p.(pos := Pos(0, 0, 0), startTagPosition := 0) }

  // What markup leaves alone.
  predicate Frame(p: Parser, q: Parser) {
    && q.script == p.script && q.tags == p.tags && q.sawRoot == p.sawRoot && q.closedRoot == p.closedRoot
    && q.buf.entity == p.buf.entity && q.buf.doctype == p.buf.doctype && q.buf.doctypeSeen == p.buf.doctypeSeen
  }

  lemma FrameNorm(p: Parser, q: Parser)
    requires Norm(q).(state := p.state) == Norm(p)
    ensures Frame(p, q)
  {
  }

  lemma FrameTrans(p: Parser, q: Parser, r: Parser)
    requires Frame(p, q) && Frame(q, r)
    ensures Frame(p, r)
  {
  }

  // ---------- events and the text before them ----------

  // The events of a tree, given to the handlers one after the other.
  function Feed(o: Options, u: Out, es: seq<Event>): Out {
    if es == [] then u
    else
      var v, e := Feed(o, u, es[..|es| - 1]), es[|es| - 1];
      if e.OnText? then v.(textNode := v.textNode + e.text) else NodeOut(o, v, e)
  }

  lemma FeedOne(o: Options, u: Out, e: Event)
    ensures Feed(o, u, [e]) == if e.OnText? then u.(textNode := u.textNode + e.text) else NodeOut(o, u, e)
  {
    assert [e][..0] == [];
  }

  lemma {:induction false} FeedBoth(o: Options, u: Out, a: seq<Event>, b: seq<Event>)
    ensures Feed(o, u, a + b) == Feed(o, Feed(o, u, a), b)
  {
    hide NodeOut;
    if b == [] {
      assert a + b == a;
    } else {
      var h, e := b[..|b| - 1], b[|b| - 1];
      assert (a + b)[..|a + b| - 1] == a + h;
      FeedBoth(o, u, a, h);
    }
  }

  lemma FeedNext(o: Options, u: Out, es: seq<Event>, e: Event)
    requires !e.OnText?
    ensures Feed(o, u, es + [e]) == NodeOut(o, Feed(o, u, es), e)
  {
    hide Feed, NodeOut;
    FeedBoth(o, u, es, [e]);
    FeedOne(o, Feed(o, u, es), e);
  }

  lemma FeedNothing(o: Options, u: Out)
    ensures Feed(o, u, []) == u
  {
  }

  lemma FeedThree(o: Options, u: Out, a: seq<Event>, b: seq<Event>, c: seq<Event>)
    ensures Feed(o, u, a + b + c) == Feed(o, Feed(o, Feed(o, u, a), b), c)
  {
    hide Feed;
    FeedBoth(o, u, a + b, c);
    FeedBoth(o, u, a, b);
  }

  lemma FeedTwo(o: Options, u: Out, e: Event, f: Event)
    requires !e.OnText? && !f.OnText?
    ensures Feed(o, u, [e, f]) == NodeOut(o, NodeOut(o, u, e), f)
  {
    assert [e] + [f] == [e, f];
    hide Feed, NodeOut;
    FeedNext(o, u, [e], f);
    FeedOne(o, u, e);
  }

  // ---------- where markup begins ----------

  predicate CanOpen(o: Options, p: Parser) {
    p.state == Begin || p.state == BeginWhitespace
    || (p.state == InText && !(p.sawRoot && p.closedRoot && !o.strict))
  }

  // What reading a piece of markup comes to.
  predicate Marked(o: Options, p: Parser, q: Parser, es: seq<Event>) {
    q.state == InText && Frame(p, q) && q.out == Feed(o, p.out, es)
  }

  lemma AngleStep(o: Options, p: Parser)
    requires CanOpen(o, p)
    ensures Norm(Step(o, p, '<')) == Norm(p).(state := OpenWaka)
  {
  }

  lemma MarkupStep(o: Options, p: Parser)
    requires p.state == OpenWaka
    ensures Norm(Step(o, p, '!')) == Norm(p).(state := SgmlDecl, buf := p.buf.(sgmlDecl := ""))
  {
  }

  lemma MarkupRun(o: Options, p: Parser)
    requires CanOpen(o, p)
    ensures Norm(Run(o, p, "<!")) == Norm(p).(state := SgmlDecl, buf := p.buf.(sgmlDecl := ""))
  {
    hide Run, Step, CanOpen;
    assert "<!" == ['<', '!'];
    RunTwo(o, p, '<', '!');
    AngleStep(o, p);
    MarkupStep(o, Step(o, p, '<'));
  }

  // Upper case leaves the keywords of markup alone.
  ghost predicate GoodUpper(o: Options) {
    (forall s :: s <= CDATA || s <= DOCTYPE ==> o.upper(s) == s) && o.upper("-") == "-" && o.upper("--") == "--"
  }

  const CDATA := "[CDATA["
  const DOCTYPE := "DOCTYPE"

  // ---------- comments ----------

  // No two hyphens in a row, nor one at the end (section 2.5 of XML 1.0).
  predicate GoodComment(s: string) {
    (forall k :: 0 <= k < |s| - 1 ==> !(s[k] == '-' && s[k + 1] == '-')) && (s != "" ==> s[|s| - 1] != '-')
  }

  function CommentEvents(o: Options, text: string): seq<Event> {
    if o.textOpts(text) != "" then [OnComment(o.textOpts(text))] else []
  }

  // The parser within a comment of which s has been read; a hyphen at the end is held
  // back until it is known what follows.
  predicate InCommentText(p: Parser, q: Parser, s: string) {
    && Frame(p, q) && q.out == p.out
    && if s != "" && s[|s| - 1] == '-' then q.state == CommentEnding && q.buf.comment == s[..|s| - 1]
       else q.state == InComment && q.buf.comment == s
  }

  lemma CommentStart(o: Options, p: Parser)
    requires CanOpen(o, p) && GoodUpper(o)
    ensures InCommentText(p, Run(o, p, "<!--"), "")
  {
    hide Run, Step, GoodUpper, CanOpen;
    assert "<!--" == "<!" + "--" && "--" == ['-', '-'];
    RunAppend(o, p, "<!", "--");
    MarkupRun(o, p);
    var p1 := Run(o, p, "<!");
    RunTwo(o, p1, '-', '-');
    FirstHyphen(o, p1);
    SecondHyphen(o, Step(o, p1, '-'));
  }

  lemma FirstHyphen(o: Options, p: Parser)
    requires p.state == SgmlDecl && p.buf.sgmlDecl == "" && GoodUpper(o)
    ensures Norm(Step(o, p, '-')) == Norm(p).(buf := p.buf.(sgmlDecl := "-"))
  {
    assert "" + ['-'] == "-";
    assert |"-"| == 1 && |"[CDATA["| == 7 && |"DOCTYPE"| == 7 && |"--"| == 2;
  }

  lemma SecondHyphen(o: Options, p: Parser)
    requires p.state == SgmlDecl && p.buf.sgmlDecl == "-" && GoodUpper(o)
    ensures Norm(Step(o, p, '-')) == Norm(p).(state := InComment, buf := p.buf.(comment := "", sgmlDecl := ""))
  {
    assert "-" + ['-'] == "--";
    assert |"[CDATA["| == 7 && |"--"| == 2;
  }

  lemma CommentCharStep(o: Options, q: Parser, c: char)
    requires q.state == InComment || (q.state == CommentEnding && c != '-')
    ensures var r, t := Step(o, q, c), q.buf.comment;
            && Frame(q, r) && r.out == q.out
            && (q.state == InComment && c == '-' ==> r.state == CommentEnding && r.buf.comment == t)
            && (q.state == InComment && c != '-' ==> r.state == InComment && r.buf.comment == t + [c])
            && (q.state == CommentEnding ==> r.state == InComment && r.buf.comment == t + "-" + [c])
  {
  }

  lemma CommentChar(o: Options, p: Parser, q: Parser, s: string, c: char)
    requires InCommentText(p, q, s) && !(s != "" && s[|s| - 1] == '-' && c == '-')
    ensures InCommentText(p, Step(o, q, c), s + [c])
  {
    hide Step, Frame;
    CommentCharStep(o, q, c);
    FrameTrans(p, q, Step(o, q, c));
    CommentHeld(s, c);
  }

  lemma CommentHeld(s: string, c: char)
    ensures (s + [c])[..|s|] == s && s + [c] != "" && (s + [c])[|s + [c]| - 1] == c
    ensures s != "" && s[|s| - 1] == '-' ==> s[..|s| - 1] + "-" + [c] == s + [c]
  {
  }

  lemma {:induction false} CommentRun(o: Options, p: Parser, q: Parser, s: string)
    requires InCommentText(p, q, "") && forall k :: 0 <= k < |s| - 1 ==> !(s[k] == '-' && s[k + 1] == '-')
    ensures InCommentText(p, Run(o, q, s), s)
  {
    hide Step, InCommentText;
    if s != "" {
      var t, c := s[..|s| - 1], s[|s| - 1];
      CommentRun(o, p, q, t);
      assert t != "" ==> t[|t| - 1] == s[|s| - 2];
      CommentChar(o, p, Run(o, q, t), t, c);
      assert t + [c] == s;
    }
  }

  lemma HyphenInComment(o: Options, p: Parser)
    requires p.state == InComment
    ensures Norm(Step(o, p, '-')) == Norm(p).(state := CommentEnding)
  {
  }

  lemma HyphenEndsComment(o: Options, p: Parser)
    requires p.state == CommentEnding
    ensures var q := Step(o, p, '-');
            && q.state == CommentEnded && Frame(p, q) && q.buf.comment == ""
            && q.out == Feed(o, p.out, CommentEvents(o, p.buf.comment))
  {
    hide NodeOut, Feed;
    var text := o.textOpts(p.buf.comment);
    FeedOne(o, p.out, OnComment(text));
    FeedNothing(o, p.out);
  }

  lemma CommentEnd(o: Options, p: Parser)
    requires p.state == InComment
    ensures var q := Run(o, p, "-->");
            Marked(o, p, q, CommentEvents(o, p.buf.comment))
  {
    hide Run, Step, Feed, CommentEvents, Frame;
    ThreeChars();
    RunThree(o, p, '-', '-', '>');
    HyphenInComment(o, p);
    var p1 := Step(o, p, '-');
    HyphenEndsComment(o, p1);
    var p2 := Step(o, p1, '-');
    GreaterEndsComment(o, p2);
    FrameNorm(p, p1);
    FrameNorm(p2, Step(o, p2, '>'));
    FrameTrans(p, p1, p2);
    FrameTrans(p, p2, Step(o, p2, '>'));
  }

  lemma ThreeChars()
    ensures "-->" == ['-', '-', '>']
  {
  }

  lemma GreaterEndsComment(o: Options, p: Parser)
    requires p.state == CommentEnded
    ensures Norm(Step(o, p, '>')) == Norm(p).(state := InText)
  {
  }

  lemma CommentRead(o: Options, p: Parser, text: string)
    requires CanOpen(o, p) && GoodUpper(o) && GoodComment(text)
    ensures Marked(o, p, Run(o, p, "<!--" + text + "-->"), CommentEvents(o, text))
  {
    hide Step, Run, Feed, GoodUpper, CommentEvents, CanOpen;
    RunAppend(o, p, "<!--" + text, "-->");
    RunAppend(o, p, "<!--", text);
    CommentStart(o, p);
    var p1 := Run(o, p, "<!--");
    CommentRun(o, p, p1, text);
    CommentEnd(o, Run(o, p1, text));
  }

  // In loose mode a double hyphen splits a comment: what is before it is sent at once, and the
  // comment goes on with the two hyphens.
  lemma DoubleHyphen(o: Options, p: Parser, a: string, b: string)
    requires CanOpen(o, p) && GoodUpper(o) && !o.strict && GoodComment(a) && GoodComment(b)
    requires b != "" && b[0] != '>' && b[0] != '-'
    ensures Marked(o, p, Run(o, p, "<!--" + a + "--" + b + "-->"), CommentEvents(o, a) + CommentEvents(o, "--" + b))
  {
    hide Run, Step, CanOpen, GoodUpper, GoodComment, CommentEvents, Marked, InCommentText;
    var start := "<!--" + a + "--";
    RunAppend(o, p, start + b, "-->");
    RunAppend(o, p, start, b);
    RunAppend(o, p, "<!--" + a, "--");
    RunAppend(o, p, "<!--", a);
    CommentStart(o, p);
    CommentUpTo(o, p, Run(o, p, "<!--"), a);
    var q := Run(o, p, start);
    CommentGoesOn(o, p, q, a, b);
  }

  // The comment up to the second hyphen.
  lemma CommentUpTo(o: Options, p: Parser, q: Parser, a: string)
    requires InCommentText(p, q, "") && GoodComment(a)
    ensures var r := Run(o, Run(o, q, a), "--");
            && r.state == CommentEnded && Frame(p, r) && r.buf.comment == ""
            && r.out == Feed(o, p.out, CommentEvents(o, a))
  {
    hide Run, Step, CommentEvents, Feed, Frame;
    CommentRun(o, p, q, a);
    var q1 := Run(o, q, a);
    assert "--" == ['-', '-'];
    RunTwo(o, q1, '-', '-');
    HyphenInComment(o, q1);
    var q2 := Step(o, q1, '-');
    HyphenEndsComment(o, q2);
    FrameNorm(q1, q2);
    FrameTrans(p, q1, q2);
    FrameTrans(p, q2, Step(o, q2, '-'));
  }

  lemma EndedGoesOn(o: Options, q: Parser, c: char)
    requires q.state == CommentEnded && !o.strict && c != '>' && q.buf.comment == ""
    ensures var r := Step(o, q, c);
            r.state == InComment && Frame(q, r) && r.out == q.out && r.buf.comment == "--" + [c]
  {
    assert "" + "--" + [c] == "--" + [c];
  }

  lemma CommentGoesOn(o: Options, p: Parser, q: Parser, a: string, b: string)
    requires q.state == CommentEnded && Frame(p, q) && q.buf.comment == ""
    requires q.out == Feed(o, p.out, CommentEvents(o, a))
    requires !o.strict && GoodComment(b) && b != "" && b[0] != '>' && b[0] != '-'
    ensures Marked(o, p, Run(o, Run(o, q, b), "-->"), CommentEvents(o, a) + CommentEvents(o, "--" + b))
  {
    hide Run, Step, CommentEvents, Feed, Frame;
    var c, rest := b[0], b[1..];
    assert b == [c] + rest && ("--" + [c]) + rest == "--" + b;
    RunAppend(o, q, [c], rest);
    RunOne(o, q, c);
    EndedGoesOn(o, q, c);
    var q1 := Step(o, q, c);
    FrameNorm(q1, q1);
    MoreComment(o, q1, q1, "--" + [c], rest);
    assert rest != "" ==> ("--" + b)[|b| + 1] == rest[|rest| - 1] && rest[|rest| - 1] == b[|b| - 1];
    CommentEnd(o, Run(o, q1, rest));
    FrameTrans(p, q, q1);
    FrameTrans(p, q1, Run(o, q1, rest));
    FrameTrans(p, Run(o, q1, rest), Run(o, Run(o, q1, rest), "-->"));
    FeedBoth(o, p.out, CommentEvents(o, a), CommentEvents(o, "--" + b));
  }

  // More of a comment of which t has been read.
  lemma {:induction false} MoreComment(o: Options, p: Parser, q: Parser, t: string, s: string)
    requires InCommentText(p, q, t) && t != "" && t[|t| - 1] != '-'
    requires forall k :: 0 <= k < |s| - 1 ==> !(s[k] == '-' && s[k + 1] == '-')
    ensures InCommentText(p, Run(o, q, s), t + s)
  {
    hide Step, InCommentText;
    if s == "" {
      assert t + s == t;
    } else {
      var h, c := s[..|s| - 1], s[|s| - 1];
      MoreComment(o, p, q, t, h);
      assert h != "" ==> (t + h)[|t + h| - 1] == s[|s| - 2];
      assert h == "" ==> t + h == t;
      CommentChar(o, p, Run(o, q, h), t + h, c);
      assert (t + h) + [c] == t + s;
    }
  }

  // ---------- keywords ----------

  predicate Keyword(k: string) { k == CDATA || k == DOCTYPE }

  lemma KeywordChar(k: string, t: string, c: char)
    requires Keyword(k) && t + [c] <= k
    ensures c == k[|t|] && c != '>' && !IsQuote(c) && t + [c] != "--"
  {
    assert (t + [c])[|t|] == c && (t + [c])[0] == k[0];
  }

  lemma DeclChar(o: Options, p: Parser, k: string, t: string, c: char)
    requires p.state == SgmlDecl && p.buf.sgmlDecl == t && GoodUpper(o) && Keyword(k) && t + [c] <= k && |t| < 6
    ensures Norm(Step(o, p, c)) == Norm(p).(buf := p.buf.(sgmlDecl := t + [c]))
  {
    KeywordChar(k, t, c);
    assert o.upper(t + [c]) == t + [c] && |t + [c]| < 7;
  }

  // A keyword up to before its last character.
  lemma {:induction false} DeclRun(o: Options, p: Parser, k: string, s: string)
    requires p.state == SgmlDecl && p.buf.sgmlDecl == "" && GoodUpper(o) && Keyword(k) && s <= k && |s| < 7
    ensures Norm(Run(o, p, s)) == Norm(p).(buf := p.buf.(sgmlDecl := s))
  {
    hide Step, GoodUpper, Keyword;
    if s != "" {
      var t, c := s[..|s| - 1], s[|s| - 1];
      assert t + [c] == s && t <= k;
      DeclRun(o, p, k, t);
      DeclChar(o, Run(o, p, t), k, t, c);
    }
  }

  lemma KeywordRun(o: Options, p: Parser, k: string)
    requires CanOpen(o, p) && GoodUpper(o) && Keyword(k)
    ensures var q := Run(o, p, "<!" + k[..6]);
            Norm(q) == Norm(p).(state := SgmlDecl, buf := p.buf.(sgmlDecl := k[..6]))
  {
    hide Run, Step, CanOpen, GoodUpper;
    RunAppend(o, p, "<!", k[..6]);
    MarkupRun(o, p);
    DeclRun(o, Run(o, p, "<!"), k, k[..6]);
  }

  // ---------- CDATA sections ----------

  // No "]]>" in it (section 2.7 of XML 1.0).
  predicate GoodCData(s: string) {
    forall k :: 0 <= k < |s| - 2 ==> !(s[k] == ']' && s[k + 1] == ']' && s[k + 2] == '>')
  }

  function CDataEvents(text: string): seq<Event> {
    [OnOpenCData] + (if text != "" then [OnCData(text)] else []) + [OnCloseCData]
  }

  // The closing brackets at the end of what has been read, two at most, that are held back
  // until it is known what follows.
  function HeldBack(s: string): (h: nat)
    ensures h <= 2 && h <= |s|
  {
    if |s| >= 1 && s[|s| - 1] == ']' then if |s| >= 2 && s[|s| - 2] == ']' then 2 else 1 else 0
  }

  predicate InCDataText(o: Options, p: Parser, q: Parser, s: string) {
    && Frame(p, q) && q.out == NodeOut(o, p.out, OnOpenCData) && q.buf.cdata == s[..|s| - HeldBack(s)]
    && q.state == CDataState(HeldBack(s))
  }

  lemma LastBracket(o: Options, p: Parser)
    requires p.state == SgmlDecl && p.buf.sgmlDecl == CDATA[..6] && GoodUpper(o)
    ensures InCDataText(o, p, Step(o, p, '['), "")
  {
    hide NodeOut;
    assert CDATA[..6] + ['['] == CDATA;
  }

  lemma CDataStart(o: Options, p: Parser)
    requires CanOpen(o, p) && GoodUpper(o)
    ensures InCDataText(o, p, Run(o, p, "<![CDATA["), "")
  {
    hide Run, Step, CanOpen, GoodUpper, NodeOut;
    assert "<!" + CDATA[..6] + "[" == "<![CDATA[";
    RunAppend(o, p, "<!" + CDATA[..6], "[");
    KeywordRun(o, p, CDATA);
    var q := Run(o, p, "<!" + CDATA[..6]);
    RunOne(o, q, '[');
    LastBracket(o, q);
  }

  predicate InCDataState(s: State) { s == InCData || s == CDataEnding || s == CDataEnding2 }

  // The text and the state after one more character.
  function CDataNext(state: State, t: string, c: char): (string, State) {
    match state
    case InCData => if c == ']' then (t, CDataEnding) else (t + [c], InCData)
    case CDataEnding => if c == ']' then (t, CDataEnding2) else (t + "]" + [c], InCData)
    case _ => if c == ']' then (t + "]", CDataEnding2) else (t + "]]" + [c], InCData)
  }

  predicate CDataStepped(q: Parser, r: Parser, c: char) {
    Frame(q, r) && r.out == q.out && (r.buf.cdata, r.state) == CDataNext(q.state, q.buf.cdata, c)
  }

  lemma InCDataStep(o: Options, q: Parser, c: char)
    requires q.state == InCData
    ensures CDataStepped(q, Step(o, q, c), c)
  {
  }

  lemma CDataEndingStep(o: Options, q: Parser, c: char)
    requires q.state == CDataEnding
    ensures CDataStepped(q, Step(o, q, c), c)
  {
  }

  lemma CDataEnding2Step(o: Options, q: Parser, c: char)
    requires q.state == CDataEnding2 && c != '>'
    ensures CDataStepped(q, Step(o, q, c), c)
  {
  }

  lemma CDataCharStep(o: Options, q: Parser, c: char)
    requires InCDataState(q.state) && !(q.state == CDataEnding2 && c == '>')
    ensures CDataStepped(q, Step(o, q, c), c)
  {
    hide Step, CDataStepped;
    if q.state == InCData {
      InCDataStep(o, q, c);
    } else if q.state == CDataEnding {
      CDataEndingStep(o, q, c);
    } else {
      CDataEnding2Step(o, q, c);
    }
  }

  function CDataState(h: nat): State { if h == 0 then InCData else if h == 1 then CDataEnding else CDataEnding2 }

  lemma CDataKeeps(s: string, c: char)
    requires !(HeldBack(s) == 2 && c == '>')
    ensures CDataNext(CDataState(HeldBack(s)), s[..|s| - HeldBack(s)], c)
         == ((s + [c])[..|s| + 1 - HeldBack(s + [c])], CDataState(HeldBack(s + [c])))
  {
    CDataHeld(s, c);
    CDataKept(s);
    hide HeldBack;
    var t, h := s[..|s| - HeldBack(s)], HeldBack(s);
    if h == 0 { assert t + "" == t == s; }
    if h == 1 { assert t + "]" == s; }
    if h == 2 { assert t + "]]" == s; }
  }

  lemma CDataChar(o: Options, p: Parser, q: Parser, s: string, c: char)
    requires InCDataText(o, p, q, s) && !(HeldBack(s) == 2 && c == '>')
    ensures InCDataText(o, p, Step(o, q, c), s + [c])
  {
    hide NodeOut, Step, HeldBack, Frame, CDataNext;
    CDataCharStep(o, q, c);
    CDataKeeps(s, c);
    FrameTrans(p, q, Step(o, q, c));
  }

  lemma CDataKept(s: string)
    ensures var h := HeldBack(s);
            s == s[..|s| - h] + (if h == 0 then "" else if h == 1 then "]" else "]]") && h <= 2
  {
  }

  lemma CDataHeld(s: string, c: char)
    ensures HeldBack(s + [c]) == if c != ']' then 0 else if HeldBack(s) == 0 then 1 else 2
    ensures (s + [c])[..|s| + 1 - HeldBack(s + [c])]
         == if c != ']' then s + [c]
            else if HeldBack(s) == 2 then s[..|s| - 2] + "]"
            else s[..|s| - HeldBack(s)]
  {
    var r := s + [c];
    assert r[|r| - 1] == c && (|s| >= 1 ==> r[|r| - 2] == s[|s| - 1]);
  }

  lemma {:induction false} CDataRun(o: Options, p: Parser, q: Parser, s: string)
    requires InCDataText(o, p, q, "") && GoodCData(s)
    ensures InCDataText(o, p, Run(o, q, s), s)
  {
    hide Step, InCDataText;
    if s != "" {
      var t, c := s[..|s| - 1], s[|s| - 1];
      CDataRun(o, p, q, t);
      CDataChar(o, p, Run(o, q, t), t, c);
      assert t + [c] == s;
    }
  }

  lemma CDataGreater(o: Options, q: Parser)
    requires q.state == CDataEnding2
    ensures var r, t := Step(o, q, '>'), q.buf.cdata;
            && r.state == InText && Frame(q, r)
            && r.out == NodeOut(o, if t != "" then NodeOut(o, q.out, OnCData(t)) else q.out, OnCloseCData)
  {
    hide NodeOut;
  }

  lemma CDataFeed(o: Options, u: Out, s: string)
    ensures var v := NodeOut(o, u, OnOpenCData);
            Feed(o, u, CDataEvents(s)) == NodeOut(o, if s != "" then NodeOut(o, v, OnCData(s)) else v, OnCloseCData)
  {
    hide NodeOut, Feed;
    var e, f := OnOpenCData, OnCloseCData;
    if s == "" {
      assert CDataEvents(s) == [e, f];
      FeedTwo(o, u, e, f);
    } else {
      assert CDataEvents(s) == [e, OnCData(s)] + [f];
      FeedTwo(o, u, e, OnCData(s));
      FeedNext(o, u, [e, OnCData(s)], f);
    }
  }

  lemma CDataCloses(o: Options, p: Parser, q: Parser, s: string)
    requires InCDataText(o, p, q, s + "]]")
    ensures Marked(o, p, Step(o, q, '>'), CDataEvents(s))
  {
    hide NodeOut, Feed, Step, CDataEvents;
    assert HeldBack(s + "]]") == 2 && (s + "]]")[..|s + "]]"| - 2] == s;
    CDataGreater(o, q);
    CDataFeed(o, p.out, s);
  }

  // A CDATA section sends its text as it stands.
  lemma CDataRead(o: Options, p: Parser, text: string)
    requires CanOpen(o, p) && GoodUpper(o) && GoodCData(text)
    ensures Marked(o, p, Run(o, p, "<![CDATA[" + text + "]]>"), CDataEvents(text))
  {
    hide Run, Step, CanOpen, GoodUpper, InCDataText, CDataEvents, Marked;
    RunAppend(o, p, "<![CDATA[" + text, "]]>");
    RunAppend(o, p, "<![CDATA[", text);
    CDataStart(o, p);
    var p1 := Run(o, p, "<![CDATA[");
    CDataRun(o, p, p1, text);
    var q := Run(o, p1, text);
    assert "]]>" == [']', ']', '>'];
    RunThree(o, q, ']', ']', '>');
    var q1 := Step(o, q, ']');
    CDataChar(o, p, q, text, ']');
    CDataChar(o, p, q1, text + [']'], ']');
    assert text + [']'] + [']'] == text + "]]";
    CDataCloses(o, p, Step(o, q1, ']'), text);
  }

  // ---------- processing instructions ----------

  predicate GoodTarget(s: string) { forall k :: 0 <= k < |s| ==> s[k] != '?' && !IsWhitespace(s[k]) }

  // No "?>" in it, no question mark at its end and no white space at its start (section 2.6
  // of XML 1.0).
  predicate GoodBody(s: string) {
    && (forall k :: 0 <= k < |s| - 1 ==> !(s[k] == '?' && s[k + 1] == '>'))
    && (s != "" ==> s[|s| - 1] != '?' && !IsWhitespace(s[0]))
  }

  lemma QuestionStep(o: Options, p: Parser)
    requires p.state == OpenWaka
    ensures Norm(Step(o, p, '?'))
         == Norm(p).(state := ProcInst, buf := p.buf.(procInstName := "", procInstBody := ""))
  {
  }

  lemma TargetStep(o: Options, p: Parser, c: char)
    requires p.state == ProcInst && c != '?' && !IsWhitespace(c)
    ensures Norm(Step(o, p, c)) == Norm(p).(buf := p.buf.(procInstName := p.buf.procInstName + [c]))
  {
  }

  lemma {:induction false} TargetRun(o: Options, p: Parser, s: string)
    requires p.state == ProcInst && p.buf.procInstName == "" && GoodTarget(s)
    ensures Norm(Run(o, p, s)) == Norm(p).(buf := p.buf.(procInstName := s))
  {
    hide Step;
    if s != "" {
      var t, c := s[..|s| - 1], s[|s| - 1];
      TargetRun(o, p, t);
      TargetStep(o, Run(o, p, t), c);
      assert t + [c] == s;
    }
  }

  lemma SpaceStep(o: Options, p: Parser)
    requires p.state == ProcInst
    ensures Norm(Step(o, p, ' ')) == Norm(p).(state := ProcInstBody)
  {
  }

  // The parser within an instruction of which s has been read; a question mark at the end
  // may be held back.
  predicate InBody(p: Parser, q: Parser, target: string, s: string) {
    && Frame(p, q) && q.out == p.out && q.buf.procInstName == target
    && (|| (q.state == ProcInstBody && q.buf.procInstBody == s)
        || (q.state == ProcInstEnding && s != "" && s[|s| - 1] == '?' && q.buf.procInstBody == s[..|s| - 1]))
  }

  lemma BodyStep(o: Options, q: Parser, c: char)
    requires q.state == ProcInstBody && (q.buf.procInstBody == "" ==> !IsWhitespace(c))
    ensures Norm(Step(o, q, c))
         == if c == '?' then Norm(q).(state := ProcInstEnding)
            else Norm(q).(buf := q.buf.(procInstBody := q.buf.procInstBody + [c]))
  {
  }

  lemma EndingStep(o: Options, q: Parser, c: char)
    requires q.state == ProcInstEnding && c != '>'
    ensures Norm(Step(o, q, c))
         == Norm(q).(state := ProcInstBody, buf := q.buf.(procInstBody := q.buf.procInstBody + "?" + [c]))
  {
  }

  lemma BodyChar(o: Options, p: Parser, q: Parser, target: string, s: string, c: char)
    requires InBody(p, q, target, s) && !(s != "" && s[|s| - 1] == '?' && c == '>') && (s == "" ==> !IsWhitespace(c))
    ensures InBody(p, Step(o, q, c), target, s + [c])
  {
    hide Step, IsWhitespace;
    assert (s + [c])[..|s|] == s;
    if q.state == ProcInstEnding {
      EndingStep(o, q, c);
      assert s[..|s| - 1] + "?" + [c] == s + [c];
    } else {
      BodyStep(o, q, c);
    }
  }

  lemma {:induction false} BodyRun(o: Options, p: Parser, q: Parser, target: string, s: string)
    requires InBody(p, q, target, "") && (s != "" ==> !IsWhitespace(s[0]))
    requires forall k :: 0 <= k < |s| - 1 ==> !(s[k] == '?' && s[k + 1] == '>')
    ensures InBody(p, Run(o, q, s), target, s)
  {
    hide Step, InBody;
    if s != "" {
      var t, c := s[..|s| - 1], s[|s| - 1];
      BodyRun(o, p, q, target, t);
      assert t != "" ==> t[|t| - 1] == s[|s| - 2];
      BodyChar(o, p, Run(o, q, t), target, t, c);
      assert t + [c] == s;
    }
  }

  lemma BodyEnds(o: Options, p: Parser, q: Parser, target: string, s: string)
    requires InBody(p, q, target, s) && (s != "" ==> s[|s| - 1] != '?')
    ensures var r := Step(o, Step(o, q, '?'), '>');
            Marked(o, p, r, [OnProcInst(target, s)])
  {
    hide NodeOut, Feed;
    FeedOne(o, p.out, OnProcInst(target, s));
    var q1 := Step(o, q, '?');
    assert q1.state == ProcInstEnding && Frame(p, q1) && q1.out == p.out && q1.buf.procInstBody == s;
  }

  lemma InstructionStart(o: Options, p: Parser, target: string)
    requires CanOpen(o, p) && GoodTarget(target)
    ensures InBody(p, Run(o, p, "<?" + target + " "), target, "")
  {
    hide Run, Step, CanOpen, GoodTarget;
    RunAppend(o, p, "<?" + target, " ");
    RunAppend(o, p, "<?", target);
    assert "<?" == ['<', '?'];
    RunTwo(o, p, '<', '?');
    AngleStep(o, p);
    QuestionStep(o, Step(o, p, '<'));
    var p1 := Run(o, p, "<?");
    TargetRun(o, p1, target);
    var p2 := Run(o, p1, target);
    RunOne(o, p2, ' ');
    SpaceStep(o, p2);
  }

  lemma InstructionRead(o: Options, p: Parser, target: string, body: string)
    requires CanOpen(o, p) && GoodTarget(target) && GoodBody(body)
    ensures Marked(o, p, Run(o, p, "<?" + target + " " + body + "?>"), [OnProcInst(target, body)])
  {
    hide Run, Step, CanOpen, GoodTarget, InBody, Marked;
    RunAppend(o, p, "<?" + target + " " + body, "?>");
    RunAppend(o, p, "<?" + target + " ", body);
    InstructionStart(o, p, target);
    var p1 := Run(o, p, "<?" + target + " ");
    BodyRun(o, p, p1, target, body);
    var q := Run(o, p1, body);
    assert "?>" == ['?', '>'];
    RunTwo(o, q, '?', '>');
    BodyEnds(o, p, q, target, body);
  }

  lemma NoBody(o: Options, q: Parser)
    requires q.state == ProcInst && q.buf.procInstBody == ""
    ensures Marked(o, q, Step(o, Step(o, q, '?'), '>'), [OnProcInst(q.buf.procInstName, "")])
  {
    hide NodeOut, Feed;
    FeedOne(o, q.out, OnProcInst(q.buf.procInstName, ""));
    var q1 := Step(o, q, '?');
    assert q1.state == ProcInstEnding && Frame(q, q1) && q1.out == q.out && q1.buf.procInstBody == ""
           && q1.buf.procInstName == q.buf.procInstName;
  }

  // An instruction without a body.
  lemma TargetRead(o: Options, p: Parser, target: string)
    requires CanOpen(o, p) && GoodTarget(target)
    ensures Marked(o, p, Run(o, p, "<?" + target + "?>"), [OnProcInst(target, "")])
  {
    hide Run, Step, CanOpen, GoodTarget, Feed;
    RunAppend(o, p, "<?" + target, "?>");
    RunAppend(o, p, "<?", target);
    assert "<?" == ['<', '?'] && "?>" == ['?', '>'];
    RunTwo(o, p, '<', '?');
    AngleStep(o, p);
    QuestionStep(o, Step(o, p, '<'));
    var p1 := Run(o, p, "<?");
    TargetRun(o, p1, target);
    var q := Run(o, p1, target);
    RunTwo(o, q, '?', '>');
    NoBody(o, q);
  }

  // ---------- document types ----------

  // Where a place in a document type declaration is: outside of brackets and quotes, in
  // quotes, in brackets, or in quotes in brackets.
  datatype Place = Outside | Quoted(q: char) | Bracketed | QuotedWithin(q: char)

  function PlaceAfter(place: Place, c: char): Place {
    match place
    case Outside => if c == '[' then Bracketed else if IsQuote(c) then Quoted(c) else Outside
    case Quoted(q) => if c == q then Outside else place
    case Bracketed => if c == ']' then Outside else if IsQuote(c) then QuotedWithin(c) else Bracketed
    case QuotedWithin(q) => if c == q then Bracketed else place
  }

  function Where(s: string): Place {
    if s == "" then Outside else PlaceAfter(Where(s[..|s| - 1]), s[|s| - 1])
  }

  // Quotes and brackets are closed, and no ">" is outside of them.
  predicate GoodDoctype(s: string) {
    Where(s) == Outside && forall k :: 0 <= k < |s| && s[k] == '>' ==> Where(s[..k]) != Outside
  }

  predicate InDoctypeText(p: Parser, q: Parser, s: string) {
    && q.script == p.script && q.tags == p.tags && q.sawRoot == p.sawRoot && q.closedRoot == p.closedRoot
    && q.buf.entity == p.buf.entity && q.buf.doctypeSeen == false && q.out == p.out && q.buf.doctype == s
    && AtPlace(q, Where(s))
  }

  // Before the root and before any other document type.
  predicate NoDoctype(p: Parser) { !p.sawRoot && p.buf.doctype == "" && !p.buf.doctypeSeen }

  lemma LastLetter(o: Options, p: Parser)
    requires p.state == SgmlDecl && p.buf.sgmlDecl == DOCTYPE[..6] && GoodUpper(o) && NoDoctype(p)
    ensures InDoctypeText(p, Step(o, p, 'E'), "")
  {
    assert DOCTYPE[..6] + ['E'] == DOCTYPE;
    assert o.upper(DOCTYPE) == DOCTYPE;
  }

  lemma DoctypeStart(o: Options, p: Parser)
    requires CanOpen(o, p) && GoodUpper(o) && NoDoctype(p)
    ensures InDoctypeText(p, Run(o, p, "<!DOCTYPE"), "")
  {
    hide Run, Step, CanOpen, GoodUpper;
    assert "<!" + DOCTYPE[..6] + "E" == "<!DOCTYPE";
    RunAppend(o, p, "<!" + DOCTYPE[..6], "E");
    KeywordRun(o, p, DOCTYPE);
    var q := Run(o, p, "<!" + DOCTYPE[..6]);
    RunOne(o, q, 'E');
    LastLetter(o, q);
  }

  predicate AtPlace(q: Parser, place: Place) {
    match place
    case Outside => q.state == InDoctype
    case Quoted(c) => q.state == DoctypeQuoted && q.buf.q == [c]
    case Bracketed => q.state == DoctypeDtd
    case QuotedWithin(c) => q.state == DoctypeDtdQuoted && q.buf.q == [c]
  }

  // What one more character of the declaration does, at each place.
  predicate Placed(q: Parser, r: Parser, place: Place, c: char) {
    && AtPlace(r, PlaceAfter(place, c)) && r.buf.doctype == q.buf.doctype + [c] && r.out == q.out
    && r.script == q.script && r.tags == q.tags && r.sawRoot == q.sawRoot && r.closedRoot == q.closedRoot
    && r.buf.entity == q.buf.entity && r.buf.doctypeSeen == q.buf.doctypeSeen
  }

  lemma OutsideStep(o: Options, q: Parser, c: char)
    requires q.state == InDoctype && c != '>'
    ensures Placed(q, Step(o, q, c), Outside, c)
  {
  }

  lemma QuotedStep(o: Options, q: Parser, x: char, c: char)
    requires q.state == DoctypeQuoted && q.buf.q == [x]
    ensures Placed(q, Step(o, q, c), Quoted(x), c)
  {
  }

  lemma BracketedStep(o: Options, q: Parser, c: char)
    requires q.state == DoctypeDtd
    ensures Placed(q, Step(o, q, c), Bracketed, c)
  {
  }

  lemma QuotedWithinStep(o: Options, q: Parser, x: char, c: char)
    requires q.state == DoctypeDtdQuoted && q.buf.q == [x]
    ensures Placed(q, Step(o, q, c), QuotedWithin(x), c)
  {
  }

  lemma DoctypeCharStep(o: Options, q: Parser, place: Place, c: char)
    requires AtPlace(q, place) && !(c == '>' && place == Outside)
    ensures Placed(q, Step(o, q, c), place, c)
  {
    hide Step, Placed;
    match place
    case Outside => OutsideStep(o, q, c);
    case Quoted(x) => QuotedStep(o, q, x, c);
    case Bracketed => BracketedStep(o, q, c);
    case QuotedWithin(x) => QuotedWithinStep(o, q, x, c);
  }

  lemma DoctypeChar(o: Options, p: Parser, q: Parser, s: string, c: char)
    requires InDoctypeText(p, q, s) && !(c == '>' && Where(s) == Outside)
    ensures InDoctypeText(p, Step(o, q, c), s + [c])
  {
    hide Step, PlaceAfter, AtPlace;
    DoctypeCharStep(o, q, Where(s), c);
    assert (s + [c])[..|s|] == s;
    assert Where(s + [c]) == PlaceAfter(Where(s), c);
  }

  lemma {:induction false} DoctypeRun(o: Options, p: Parser, q: Parser, s: string)
    requires InDoctypeText(p, q, "") && forall k :: 0 <= k < |s| && s[k] == '>' ==> Where(s[..k]) != Outside
    ensures InDoctypeText(p, Run(o, q, s), s)
  {
    hide Step, InDoctypeText, Where;
    if s != "" {
      var t, c := s[..|s| - 1], s[|s| - 1];
      assert forall k :: 0 <= k < |t| ==> t[..k] == s[..k];
      DoctypeRun(o, p, q, t);
      DoctypeChar(o, p, Run(o, q, t), t, c);
      assert t + [c] == s;
    }
  }

  lemma DoctypeEnds(o: Options, p: Parser, q: Parser, s: string)
    requires InDoctypeText(p, q, s) && Where(s) == Outside && NoDoctype(p)
    ensures Marked(o, p.(buf := p.buf.(doctypeSeen := true)), Step(o, q, '>'), [OnDoctype(s)])
  {
    hide NodeOut, Feed, Where;
    FeedOne(o, p.out, OnDoctype(s));
  }

  // The first document type declaration, before the root, sends its text.
  lemma DoctypeRead(o: Options, p: Parser, text: string)
    requires CanOpen(o, p) && GoodUpper(o) && NoDoctype(p) && GoodDoctype(text)
    ensures Marked(o, p.(buf := p.buf.(doctypeSeen := true)), Run(o, p, "<!DOCTYPE" + text + ">"), [OnDoctype(text)])
  {
    hide Run, Step, CanOpen, GoodUpper, InDoctypeText, Marked, Where;
    RunAppend(o, p, "<!DOCTYPE" + text, ">");
    RunAppend(o, p, "<!DOCTYPE", text);
    DoctypeStart(o, p);
    var p1 := Run(o, p, "<!DOCTYPE");
    DoctypeRun(o, p, p1, text);
    var q := Run(o, p1, text);
    RunOne(o, q, '>');
    DoctypeEnds(o, p, q, text);
  }

  // ---------- other declarations ----------

  // No other markup, and no ">" or quote in it.
  ghost predicate GoodDeclaration(o: Options, s: string) {
    && (forall k :: 0 <= k < |s| ==> s[k] != '>' && !IsQuote(s[k]))
    && (forall t :: t <= s + ">" ==> o.upper(t) != CDATA && o.upper(t) != DOCTYPE && t != "--")
  }

  lemma DeclarationChar(o: Options, p: Parser, t: string, c: char)
    requires p.state == SgmlDecl && p.buf.sgmlDecl == t && c != '>' && !IsQuote(c)
    requires o.upper(t + [c]) != CDATA && o.upper(t + [c]) != DOCTYPE && t + [c] != "--"
    ensures Norm(Step(o, p, c)) == Norm(p).(buf := p.buf.(sgmlDecl := t + [c]))
  {
  }

  lemma {:induction false} DeclarationRun(o: Options, p: Parser, s: string, all: string)
    requires p.state == SgmlDecl && p.buf.sgmlDecl == "" && s <= all && GoodDeclaration(o, all)
    ensures Norm(Run(o, p, s)) == Norm(p).(buf := p.buf.(sgmlDecl := s))
  {
    hide Step;
    if s != "" {
      var t, c := s[..|s| - 1], s[|s| - 1];
      assert t + [c] == s && s <= all + ">" && t <= all;
      DeclarationRun(o, p, t, all);
      DeclarationChar(o, Run(o, p, t), t, c);
    }
  }

  lemma DeclarationEnds(o: Options, p: Parser, s: string)
    requires p.state == SgmlDecl && p.buf.sgmlDecl == s
    requires o.upper(s + ">") != CDATA && o.upper(s + ">") != DOCTYPE && s + ">" != "--"
    ensures Marked(o, p, Step(o, p, '>'), [OnSgmlDecl(s)])
  {
    hide NodeOut, Feed;
    FeedOne(o, p.out, OnSgmlDecl(s));
  }

  lemma LastDeclared(o: Options, s: string)
    requires GoodDeclaration(o, s)
    ensures o.upper(s + ">") != CDATA && o.upper(s + ">") != DOCTYPE && s + ">" != "--"
  {
    assert s + ">" <= s + ">";
  }

  lemma DeclarationRead(o: Options, p: Parser, text: string)
    requires CanOpen(o, p) && GoodDeclaration(o, text)
    ensures Marked(o, p, Run(o, p, "<!" + text + ">"), [OnSgmlDecl(text)])
  {
    hide Run, Step, CanOpen, Feed, GoodDeclaration;
    LastDeclared(o, text);
    RunAppend(o, p, "<!" + text, ">");
    RunAppend(o, p, "<!", text);
    MarkupRun(o, p);
    var p1 := Run(o, p, "<!");
    DeclarationRun(o, p1, text, text);
    var q := Run(o, p1, text);
    RunOne(o, q, '>');
    DeclarationEnds(o, q, text);
  }

  // A quote in a declaration is not followed by its end: the parser sends nothing more.
  lemma {:induction false} QuoteSwallows(o: Options, p: Parser, s: string)
    requires p.state == SgmlDeclQuoted && p.buf.q == ""
    ensures Run(o, p, s).state == SgmlDeclQuoted && Run(o, p, s).out == p.out && Run(o, p, s).buf.q == ""
  {
    hide Step;
    if s != "" {
      var t := s[..|s| - 1];
      QuoteSwallows(o, p, t);
      QuotedStays(o, Run(o, p, t), s[|s| - 1]);
    }
  }

  lemma QuotedStays(o: Options, p: Parser, c: char)
    requires p.state == SgmlDeclQuoted && p.buf.q == ""
    ensures var q := Step(o, p, c);
            q.state == SgmlDeclQuoted && q.out == p.out && q.buf.q == ""
  {
  }
}
