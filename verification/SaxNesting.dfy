// What every run of the XML parser keeps: pending errors, the nesting of tags, and
// with them the independence of a document from how it is cut into chunks.
module SaxNesting {
  import opened Outcomes
  import opened SaxState
  import opened SaxWrite

  // ---------- nesting, seen from the events ----------

  // The open element names after the events, if every close event named the last one.
  function Replay(events: seq<Event>): Option<seq<string>> {
    if events == [] then Some([])
    else
      match Replay(events[..|events| - 1])
      case None => None
      case Some(st) => ReplayOne(st, events[|events| - 1])
  }

  function ReplayOne(st: seq<string>, e: Event): Option<seq<string>> {
    match e
    case OnOpenTag(tag) => Some(st + [tag.name])
    case OnCloseTag(name) => if st != [] && st[|st| - 1] == name then Some(st[..|st| - 1]) else None
    case _ => Some(st)
  }

  lemma ReplayNext(events: seq<Event>, e: Event)
    ensures Replay(events + [e])
         == match Replay(events) case None => None case Some(st) => ReplayOne(st, e)
  {
    assert (events + [e])[..|events|] == events;
  }

  function Names(tags: seq<Tag>): (s: seq<string>)
    ensures |s| == |tags|
  {
    seq(|tags|, k requires 0 <= k < |tags| => tags[k].name)
  }

  predicate OpensOrCloses(e: Event) { e.OnOpenTag? || e.OnCloseTag? }

  // What every step does to the output: a pending error stays, only the strict mode
  // raises one, and unless a tag opens or closes the nesting is the same.
  ghost predicate Same(o: Options, u: Out, v: Out) {
    && (u.error ==> v.error)
    && (!o.strict ==> v.error == u.error)
    && Replay(v.events) == Replay(u.events)
  }

  lemma EmitOutSame(o: Options, u: Out, e: Event)
    requires !OpensOrCloses(e)
    ensures Same(o, u, EmitOut(u, e))
  {
    ReplayNext(u.events, e);
    hide Replay;
  }

  lemma FlushSame(o: Options, u: Out)
    ensures Same(o, u, Flush(o, u)) && Flush(o, u).error == u.error
  {
    hide Replay, EmitOut;
    EmitOutSame(o, u, OnText(o.textOpts(u.textNode)));
    EmitOutKeeps(u, OnText(o.textOpts(u.textNode)));
  }

  lemma EmitOutKeeps(u: Out, e: Event)
    ensures EmitOut(u, e).textNode == u.textNode && EmitOut(u, e).error == u.error
  {
  }

  lemma NodeOutSame(o: Options, u: Out, e: Event)
    requires !OpensOrCloses(e)
    ensures Same(o, u, NodeOut(o, u, e))
  {
    hide Replay, EmitOut, Flush;
    FlushSame(o, u);
    EmitOutSame(o, if u.textNode != "" then Flush(o, u) else u, e);
  }

  lemma FailOutSame(o: Options, u: Out)
    ensures Same(o, u, FailOut(o, u))
  {
    hide Replay, EmitOut, Flush;
    FlushSame(o, u);
    EmitOutSame(o, Flush(o, u).(error := true), OnError);
  }

  lemma {:induction false} FailTimesSame(o: Options, u: Out, n: nat)
    ensures Same(o, u, FailTimes(o, u, n))
  {
    if n > 0 {
      FailTimesSame(o, u, n - 1);
      FailOutSame(o, FailTimes(o, u, n - 1));
    }
  }

  // The events are properly nested, and leave open the names on the stack of tags.
  ghost predicate Nested(p: Parser) { Replay(p.out.events) == Some(Names(p.tags)) }

  // What a step of the parser keeps.
  ghost predicate Keeps(o: Options, p: Parser, q: Parser) {
    && (p.out.error ==> q.out.error)
    && (!o.strict ==> q.out.error == p.out.error)
    && (Nested(p) ==> Nested(q))
  }

  lemma KeepsBoth(o: Options, p: Parser, q: Parser, r: Parser)
    requires Keeps(o, p, q) && Keeps(o, q, r)
    ensures Keeps(o, p, r)
  {
    hide Nested;
  }

  // Only the events, the pending error and the stack matter.
  lemma KeepsFields(o: Options, p: Parser, q: Parser, r: Parser)
    requires Keeps(o, p, q) && r.out == q.out && r.tags == q.tags
    ensures Keeps(o, p, r)
  {
    hide Replay, Names;
  }

  lemma KeepsSame(o: Options, p: Parser, q: Parser)
    requires Same(o, p.out, q.out) && q.tags == p.tags
    ensures Keeps(o, p, q)
  {
    hide Replay, Names;
  }

  lemma FailKeeps(o: Options, p: Parser)
    ensures Keeps(o, p, Fail(o, p))
  {
    hide Same, FailOut;
    FailOutSame(o, p.out);
    KeepsSame(o, p, Fail(o, p));
  }

  lemma EmitKeeps(o: Options, p: Parser, e: Event)
    requires !OpensOrCloses(e)
    ensures Keeps(o, p, EmitNode(o, p, e))
  {
    hide Same, NodeOut, OpensOrCloses;
    NodeOutSame(o, p.out, e);
    KeepsSame(o, p, EmitNode(o, p, e));
  }

  // ---------- opening and closing ----------

  lemma NodeOutOpens(o: Options, u: Out, tag: Tag)
    ensures var v := NodeOut(o, u, OnOpenTag(tag));
            (u.error ==> v.error) && (!o.strict ==> v.error == u.error)
            && (Replay(u.events).Some? ==> Replay(v.events) == Some(Replay(u.events).value + [tag.name]))
  {
    hide Replay, Flush;
    FlushSame(o, u);
    var w := if u.textNode != "" then Flush(o, u) else u;
    ReplayNext(w.events, OnOpenTag(tag));
  }

  lemma NodeOutCloses(o: Options, u: Out, name: string)
    ensures var v, st := NodeOut(o, u, OnCloseTag(name)), Replay(u.events);
            (u.error ==> v.error) && (!o.strict ==> v.error == u.error)
            && (st.Some? && st.value != [] && st.value[|st.value| - 1] == name ==>
                  Replay(v.events) == Some(st.value[..|st.value| - 1]))
  {
    hide Replay, Flush;
    FlushSame(o, u);
    var w := if u.textNode != "" then Flush(o, u) else u;
    ReplayNext(w.events, OnCloseTag(name));
  }

  lemma OpenTheTagKeeps(o: Options, p: Parser, selfClosing: bool)
    ensures Keeps(o, p, OpenTheTag(o, p, selfClosing))
  {
    hide Replay, NodeOut;
    var tag := p.tag.(isSelfClosing := selfClosing);
    NodeOutOpens(o, p.out, tag);
    assert Names(p.tags + [tag]) == Names(p.tags) + [tag.name];
  }

  lemma CloseOneKeeps(o: Options, p: Parser)
    requires p.tags != []
    ensures Keeps(o, p, CloseOne(o, p))
  {
    hide Replay, NodeOut;
    var k := |p.tags| - 1;
    NodeOutCloses(o, p.out, p.tags[k].name);
    assert Names(p.tags[..k]) == Names(p.tags)[..k];
  }

  lemma {:induction false} CloseDownKeeps(o: Options, p: Parser, t: nat)
    requires t <= |p.tags|
    ensures Keeps(o, p, CloseDown(o, p, t))
    ensures CloseDown(o, p, t).tags == p.tags[..t] && CloseDown(o, p, t).script == p.script
    decreases |p.tags|
  {
    if |p.tags| > t {
      CloseOneKeeps(o, p);
      CloseDownKeeps(o, CloseOne(o, p), t);
      assert p.tags[..|p.tags| - 1][..t] == p.tags[..t];
    } else {
      assert p.tags[..t] == p.tags;
    }
  }

  // Closing by name closes the innermost element of that name and all inside it, and
  // nothing if there is none.
  lemma CloseNamedKeeps(o: Options, p: Parser, name: string)
    ensures Keeps(o, p, CloseNamed(o, p, name))
    ensures CloseNamed(o, p, name).tags
         == (var t := FindTag(p.tags, name); if t < 0 then p.tags else p.tags[..t])
    ensures CloseNamed(o, p, name).script == p.script && CloseNamed(o, p, name).state == InText
  {
    hide Replay, Names, NodeOut, FailOut, FailTimes, CloseOne, CloseDown;
    var t := FindTag(p.tags, name);
    var n := |p.tags| - 1 - t;
    FailTimesSame(o, p.out, n);
    var p1 := p.(out := FailTimes(o, p.out, n));
    FailOutSame(o, p1.out);
    if t >= 0 { CloseDownKeeps(o, p1.(tagName := name), t); }
  }

  lemma CloseTheTagKeeps(o: Options, p: Parser)
    ensures Keeps(o, p, CloseTheTag(o, p))
    ensures p.tagName != "" ==>
              var q := CloseTheTag(o, p); (q.state == InText && q.script == "") || q.state == InScript
  {
    hide Replay, Names, NodeOut, FailOut, FailTimes, CloseNamed;
    FailOutSame(o, p.out);
    NodeOutSame(o, p.out, OnScript(p.script));
    CloseNamedKeeps(o, EndScript(o, p), InCase(o, p.tagName));
  }

  // ---------- the shape of the state ----------

  // Inside an opening tag.
  predicate InTag(s: State) {
    match s
    case OpenTagSlash | Attrib | AttribName | AttribNameSawWhite | AttribValue | AttribValueQuoted
       | AttribValueClosed | AttribValueUnquoted | AttribValueEntityQ | AttribValueEntityU => true
    case _ => false
  }

  // In a tag the tag being built has the name that was read, in the parser's case;
  // script text waits only where a script can go on.
  ghost predicate Shaped(o: Options, p: Parser) {
    && (InTag(p.state) ==> p.tagName != "" && p.tag.name == p.tagName && InCase(o, p.tagName) == p.tagName)
    && (p.state.OpenTag? || p.state.CloseTagSawWhite? ==> p.tagName != "")
    && (p.script != "" ==> p.state.InScript? || p.state.ScriptEnding? || p.state.CloseTag?)
  }

  // Case maps settle at once and do not lose a name.
  ghost predicate GoodCase(o: Options) {
    forall s :: o.looseCase(o.looseCase(s)) == o.looseCase(s) && (s != "" ==> o.looseCase(s) != "")
  }

  ghost predicate Good(o: Options, p: Parser, q: Parser) {
    Keeps(o, p, q) && (Shaped(o, p) ==> Shaped(o, q))
  }

  lemma BeginGood(o: Options, p: Parser, c: char)
    requires p.state == Begin || p.state == BeginWhitespace
    ensures Good(o, p, Dispatch(o, p, c))
  {
    hide Replay, Names, NodeOut, FailOut, FailTimes, Decode, NameStart, NameBody, EntityStart, EntityBody, Spaces;
    FailOutSame(o, p.out);
  }

  lemma TextGood(o: Options, p: Parser, c: char)
    requires p.state == InText || p.state == OpenWaka
    ensures Good(o, p, Dispatch(o, p, c))
  {
    if p.state == InText { TextStepGood(o, p, c); } else { OpenWakaGood(o, p, c); }
    hide Good, TextStep, OpenWakaStep;
  }

  lemma TextStepGood(o: Options, p: Parser, c: char)
    requires p.state == InText
    ensures Good(o, p, TextStep(o, p, c))
  {
    hide FailOut, Keeps, IsWhitespace;
    FailKeeps(o, p);
    KeepsItself(o, p, p);
    var p1 := if !IsWhitespace(c) && (!p.sawRoot || p.closedRoot) then Fail(o, p) else p;
    KeepsItself(o, p, p.(state := OpenWaka, startTagPosition := p.pos.position));
    KeepsFields(o, p, p1, p1.(state := TextEntity));
    AddTextKeeps(o, p, p1, [c]);
  }

  lemma AddTextKeeps(o: Options, p: Parser, q: Parser, s: string)
    requires Keeps(o, p, q)
    ensures Keeps(o, p, AddText(q, s))
  {
    hide Replay, Names;
  }

  lemma OpenWakaGood(o: Options, p: Parser, c: char)
    requires p.state == OpenWaka
    ensures Good(o, p, OpenWakaStep(o, p, c))
  {
    hide Replay, Names, FailOut, NameStart, IsWhitespace, Spaces;
    FailKeeps(o, p);
  }

  lemma SgmlDeclGood(o: Options, p: Parser, c: char)
    requires p.state.SgmlDecl?
    ensures Good(o, p, SgmlDeclStep(o, p, c))
  {
    hide Replay, Names, NodeOut, FailOut, IsQuote;
    FailOutSame(o, p.out);
    NodeOutSame(o, p.out, OnOpenCData);
    NodeOutSame(o, p.out, OnSgmlDecl(p.buf.sgmlDecl));
    hide Same;
  }

  lemma DoctypeGood(o: Options, p: Parser, c: char)
    requires p.state.InDoctype?
    ensures Good(o, p, DoctypeStep(o, p, c))
  {
    hide Replay, Names, NodeOut, FailOut, FailTimes, Decode, NameStart, NameBody, EntityStart, EntityBody, Spaces;
    NodeOutSame(o, p.out, OnDoctype(p.buf.doctype));
  }

  lemma SgmlDeclQuotedGood(o: Options, p: Parser, c: char)
    requires p.state.SgmlDeclQuoted?
    ensures Good(o, p, SgmlDeclQuotedStep(o, p, c))
  {
    hide Replay, Names;
  }

  lemma DoctypeInnerGood(o: Options, p: Parser, c: char)
    requires p.state.DoctypeQuoted? || p.state.DoctypeDtd? || p.state.DoctypeDtdQuoted?
    ensures Good(o, p, DoctypeInnerStep(p, c))
  {
    hide Replay, Names;
  }

  lemma CommentGood(o: Options, p: Parser, c: char)
    requires p.state.InComment? || p.state.CommentEnding? || p.state.CommentEnded?
    ensures Good(o, p, CommentStep(o, p, c))
  {
    hide NodeOut, FailOut, Keeps;
    FailKeeps(o, p);
    var q := EmitNode(o, p, OnComment(o.textOpts(p.buf.comment)));
    EmitKeeps(o, p, OnComment(o.textOpts(p.buf.comment)));
    var r := CommentStep(o, p, c);
    if r.out == p.out { KeepsItself(o, p, r); }
    if r.out == Fail(o, p).out { KeepsFields(o, p, Fail(o, p), r); }
    if r.out == q.out { KeepsFields(o, p, q, r); }
  }

  lemma CDataGood(o: Options, p: Parser, c: char)
    requires p.state.InCData? || p.state.CDataEnding? || p.state.CDataEnding2?
    ensures Good(o, p, CDataStep(o, p, c))
  {
    hide NodeOut, Keeps;
    var p1 := if p.buf.cdata != "" then EmitNode(o, p, OnCData(p.buf.cdata)) else p;
    EmitKeeps(o, p, OnCData(p.buf.cdata));
    KeepsItself(o, p, p);
    var q := EmitNode(o, p1, OnCloseCData);
    EmitKeeps(o, p1, OnCloseCData);
    KeepsBoth(o, p, p1, q);
    var r := CDataStep(o, p, c);
    if p.state.CDataEnding2? && c == '>' { KeepsFields(o, p, q, r); } else { KeepsItself(o, p, r); }
  }

  lemma ProcInstGood(o: Options, p: Parser, c: char)
    requires p.state.ProcInst? || p.state.ProcInstBody? || p.state.ProcInstEnding?
    ensures Good(o, p, ProcInstStep(o, p, c))
  {
    hide Replay, Names, NodeOut, FailOut, FailTimes, Decode, NameStart, NameBody, EntityStart, EntityBody, Spaces;
    NodeOutSame(o, p.out, OnProcInst(p.buf.procInstName, p.buf.procInstBody));
  }

  lemma NewTagKeeps(o: Options, p: Parser)
    ensures Keeps(o, p, NewTag(o, p))
  {
    var name := InCase(o, p.tagName);
    var p1 := p.(tagName := name, tag := Tag(name, map[], false));
    hide NodeOut, InCase, Same;
    NodeOutSame(o, p.out, OnOpenTagStart(name));
    KeepsSame(o, p, NewTag(o, p));
  }

  // Where opening a tag leads, and what it does not touch.
  lemma OpenTheTagShape(o: Options, p: Parser)
    ensures var q := OpenTheTag(o, p, false);
            (q.state == InText || q.state == InScript) && q.script == p.script
  {
    hide NodeOut;
  }

  lemma OpenTagGood(o: Options, p: Parser, c: char)
    requires GoodCase(o) && p.state == OpenTag
    ensures Good(o, p, OpenTagStep(o, p, c))
  {
    hide NodeOut, FailOut, NameBody, Keeps, OpenTheTag;
    NewTagKeeps(o, p);
    var p1 := NewTag(o, p);
    KeepsFields(o, p, p1, p1.(state := OpenTagSlash));
    KeepsFields(o, p, p1, p1.(state := Attrib));
    OpenTheTagKeeps(o, p1, false);
    OpenTheTagShape(o, p1);
    KeepsBoth(o, p, p1, OpenTheTag(o, p1, false));
    FailKeeps(o, p1);
    KeepsBoth(o, p, p1, Fail(o, p1));
    KeepsFields(o, p, Fail(o, p1), Fail(o, p1).(state := Attrib));
    KeepsItself(o, p, p.(tagName := p.tagName + [c]));
  }

  lemma KeepsItself(o: Options, p: Parser, q: Parser)
    requires q.out == p.out && q.tags == p.tags
    ensures Keeps(o, p, q)
  {
  }

  lemma OpenTagSlashGood(o: Options, p: Parser, c: char)
    requires p.state == OpenTagSlash
    ensures Good(o, p, OpenTagSlashStep(o, p, c))
  {
    hide NodeOut, FailOut, Keeps, CloseTheTag;
    FailKeeps(o, p);
    KeepsFields(o, p, Fail(o, p), Fail(o, p).(state := Attrib));
    var q := OpenTheTag(o, p, true);
    OpenTheTagKeeps(o, p, true);
    CloseTheTagKeeps(o, q);
    KeepsBoth(o, p, q, CloseTheTag(o, q));
  }

  lemma AddAttribGood(o: Options, p: Parser)
    ensures Keeps(o, p, AddAttrib(o, p))
    ensures var q := AddAttrib(o, p);
            q.tagName == p.tagName && q.tag.name == p.tag.name && q.script == p.script && q.state == p.state
  {
    hide Replay, Names, NodeOut, FailOut, FailTimes, Decode, NameStart, NameBody, EntityStart, EntityBody, Spaces;
    NodeOutSame(o, p.out, OnAttribute(InCase(o, p.buf.attribName), p.buf.attribValue));
  }

  lemma BareAttribGood(o: Options, p: Parser)
    ensures Keeps(o, p, BareAttrib(o, p))
    ensures var q := BareAttrib(o, p);
            q.tagName == p.tagName && q.tag.name == p.tag.name && q.script == p.script && q.state == p.state
  {
    hide Replay, Names, NodeOut, FailOut, FailTimes, Decode, NameStart, NameBody, EntityStart, EntityBody, Spaces;
    FailOutSame(o, p.out);
    NodeOutSame(o, FailOut(o, p.out), OnAttribute(p.buf.attribName, ""));
  }

  // Opening the tag being read ends it.
  lemma OpenTheTagGood(o: Options, p: Parser)
    requires InTag(p.state)
    ensures Good(o, p, OpenTheTag(o, p, false))
  {
    hide Replay, Names, NodeOut;
    OpenTheTagKeeps(o, p, false);
  }

  lemma AttribGood(o: Options, p: Parser, c: char)
    requires p.state.Attrib? || p.state.AttribValueClosed?
    ensures Good(o, p, AttribStep(o, p, c)) && Good(o, p, ValueClosedStep(o, p, c))
  {
    hide Replay, Names, NodeOut, FailOut, FailTimes, Decode, NameStart, NameBody, EntityStart, EntityBody, Spaces;
    hide OpenTheTag;
    OpenTheTagGood(o, p);
    FailOutSame(o, p.out);
  }

  lemma AttribNameGood(o: Options, p: Parser, c: char)
    requires p.state.AttribName?
    ensures Good(o, p, AttribNameStep(o, p, c))
  {
    hide Replay, Names, NodeOut, FailOut, FailTimes, Decode, NameStart, NameBody, EntityStart, EntityBody, Spaces;
    hide AddAttrib, OpenTheTag;
    FailOutSame(o, p.out);
    if c == '>' {
      var p1 := Fail(o, p).(buf := p.buf.(attribValue := p.buf.attribName));
      AddAttribGood(o, p1);
      OpenTheTagGood(o, AddAttrib(o, p1));
    }
  }

  lemma SawWhiteGood(o: Options, p: Parser, c: char)
    requires p.state.AttribNameSawWhite?
    ensures Good(o, p, SawWhiteStep(o, p, c))
  {
    hide FailOut, OpenTheTag, BareAttrib, IsWhitespace, NameStart, Keeps;
    BareAttribGood(o, p);
    var p1 := BareAttrib(o, p);
    OpenTheTagKeeps(o, p1, false);
    OpenTheTagShape(o, p1);
    KeepsBoth(o, p, p1, OpenTheTag(o, p1, false));
    FailKeeps(o, p1);
    KeepsBoth(o, p, p1, Fail(o, p1));
    KeepsFields(o, p, Fail(o, p1), Fail(o, p1).(state := Attrib));
    KeepsFields(o, p, p1, p1.(state := AttribName, buf := p1.buf.(attribName := [c])));
    KeepsItself(o, p, p.(state := AttribValue));
    KeepsItself(o, p, p);
  }

  lemma AttribValueGood(o: Options, p: Parser, c: char)
    requires p.state.AttribValue?
    ensures Good(o, p, AttribValueStep(o, p, c))
  {
    hide Replay, Names, NodeOut, FailOut, FailTimes, Decode, NameStart, NameBody, EntityStart, EntityBody, Spaces;
    FailOutSame(o, p.out);
  }

  lemma QuotedGood(o: Options, p: Parser, c: char)
    requires p.state.AttribValueQuoted?
    ensures Good(o, p, QuotedStep(o, p, c))
  {
    hide Replay, Names, NodeOut, FailOut, FailTimes, Decode, NameStart, NameBody, EntityStart, EntityBody, Spaces;
    hide AddAttrib;
    AddAttribGood(o, p);
  }

  lemma UnquotedGood(o: Options, p: Parser, c: char)
    requires p.state.AttribValueUnquoted?
    ensures Good(o, p, UnquotedStep(o, p, c))
  {
    hide AddAttrib, OpenTheTag, IsWhitespace, Keeps;
    AddAttribGood(o, p);
    var p1 := AddAttrib(o, p);
    OpenTheTagKeeps(o, p1, false);
    OpenTheTagShape(o, p1);
    KeepsBoth(o, p, p1, OpenTheTag(o, p1, false));
    KeepsFields(o, p, p1, p1.(state := Attrib));
    var r := UnquotedStep(o, p, c);
    if r.out == p.out && r.tags == p.tags { KeepsItself(o, p, r); }
  }

  lemma CloseTagGood(o: Options, p: Parser, c: char)
    requires p.state.CloseTag?
    ensures Good(o, p, CloseTagStep(o, p, c))
  {
    if p.tagName == "" { CloseTagStart(o, p, c); } else { CloseTagName(o, p, c); }
  }

  lemma CloseTagStart(o: Options, p: Parser, c: char)
    requires p.state.CloseTag? && p.tagName == ""
    ensures Good(o, p, CloseTagStep(o, p, c))
  {
    hide Replay, Names, FailOut, NameStart, NameBody, IsWhitespace;
    FailKeeps(o, p);
  }

  lemma CloseTagName(o: Options, p: Parser, c: char)
    requires p.state.CloseTag? && p.tagName != ""
    ensures Good(o, p, CloseTagStep(o, p, c))
  {
    hide Replay, Names, FailOut, CloseTheTag, NameStart, NameBody, IsWhitespace;
    FailKeeps(o, p);
    CloseTheTagKeeps(o, p);
  }

  lemma CloseTagSawWhiteGood(o: Options, p: Parser, c: char)
    requires p.state.CloseTagSawWhite?
    ensures Good(o, p, CloseTagSawWhiteStep(o, p, c))
  {
    hide FailOut, CloseTheTag, Keeps, IsWhitespace;
    FailKeeps(o, p);
    CloseTheTagKeeps(o, p);
    KeepsItself(o, p, p);
  }

  lemma ScriptGood(o: Options, p: Parser, c: char)
    requires p.state.InScript? || p.state.ScriptEnding?
    ensures Good(o, p, ScriptStep(o, p, c))
  {
  }

  lemma EndEntityGood(o: Options, p: Parser, before: string, text: string)
    requires p.state.TextEntity? || p.state.AttribValueEntityQ? || p.state.AttribValueEntityU?
    ensures Good(o, p, EndEntity(p, before, text))
  {
    hide Replay, Names;
  }

  lemma EntityGood(o: Options, p: Parser, c: char)
    requires p.state.TextEntity? || p.state.AttribValueEntityQ? || p.state.AttribValueEntityU?
    ensures Good(o, p, EntityStep(o, p, c))
  {
    hide Replay, Names, NodeOut, FailOut, FailTimes, Decode, NameStart, NameBody, EntityStart, EntityBody, Spaces;
    hide EndEntity;
    var entity, q := p.buf.entity, Fail(o, p);
    FailOutSame(o, p.out);
    if c == ';' {
      match Decode(o, entity) {
        case Some(text) => EndEntityGood(o, p, p.out.textNode, text);
        case None => EndEntityGood(o, q, p.out.textNode, "&" + entity + ";");
      }
    } else {
      EndEntityGood(o, q, q.out.textNode, "&" + entity + [c]);
    }
  }

  lemma DispatchGood(o: Options, p: Parser, c: char)
    requires GoodCase(o)
    ensures Good(o, p, Dispatch(o, p, c))
  {
    hide Good;
    match p.state {
      case Begin | BeginWhitespace => BeginGood(o, p, c);
      case InText | OpenWaka => TextGood(o, p, c);
      case SgmlDecl => SgmlDeclGood(o, p, c);
      case InDoctype => DoctypeGood(o, p, c);
      case SgmlDeclQuoted => SgmlDeclQuotedGood(o, p, c);
      case DoctypeQuoted | DoctypeDtd | DoctypeDtdQuoted => DoctypeInnerGood(o, p, c);
      case InComment | CommentEnding | CommentEnded => CommentGood(o, p, c);
      case InCData | CDataEnding | CDataEnding2 => CDataGood(o, p, c);
      case ProcInst | ProcInstBody | ProcInstEnding => ProcInstGood(o, p, c);
      case OpenTag => OpenTagGood(o, p, c);
      case OpenTagSlash => OpenTagSlashGood(o, p, c);
      case Attrib | AttribValueClosed => AttribGood(o, p, c);
      case AttribName => AttribNameGood(o, p, c);
      case AttribNameSawWhite => SawWhiteGood(o, p, c);
      case AttribValue => AttribValueGood(o, p, c);
      case AttribValueQuoted => QuotedGood(o, p, c);
      case AttribValueUnquoted => UnquotedGood(o, p, c);
      case CloseTag => CloseTagGood(o, p, c);
      case CloseTagSawWhite => CloseTagSawWhiteGood(o, p, c);
      case InScript | ScriptEnding => ScriptGood(o, p, c);
      case TextEntity | AttribValueEntityQ | AttribValueEntityU => EntityGood(o, p, c);
    }
  }

  lemma StepGood(o: Options, p: Parser, c: char)
    requires GoodCase(o)
    ensures Good(o, p, Step(o, p, c))
  {
    hide Dispatch;
    DispatchGood(o, p.(pos := Advance(o, p.pos, c)), c);
  }

  lemma {:induction false} RunGood(o: Options, p: Parser, s: string)
    requires GoodCase(o)
    ensures Good(o, p, Run(o, p, s))
  {
    hide Dispatch;
    if s != "" {
      RunGood(o, p, s[..|s| - 1]);
      StepGood(o, Run(o, p, s[..|s| - 1]), s[|s| - 1]);
    }
  }

  // An error that is pending stays; only strict mode raises one.
  lemma ErrorStays(o: Options, p: Parser, s: string)
    requires GoodCase(o)
    ensures p.out.error ==> Run(o, p, s).out.error
    ensures !o.strict ==> Run(o, p, s).out.error == p.out.error
  {
    hide Run;
    RunGood(o, p, s);
  }

  // ---------- the theorems ----------

  // In every run from the start the events are properly nested, and the parser's
  // stack is the list of the names opened and not yet closed.
  lemma TagsAreNested(o: Options, s: string)
    requires GoodCase(o)
    ensures Nested(Run(o, INITIAL, s)) && Shaped(o, Run(o, INITIAL, s))
  {
    RunGood(o, INITIAL, s);
    assert Names([]) == [];
  }

  // A self-closing tag, at its '>', leaves the stack as it was.
  lemma SelfClosingKeepsStack(o: Options, s: string)
    requires GoodCase(o)
    ensures var p := Run(o, INITIAL, s); p.state == OpenTagSlash ==> Step(o, p, '>').tags == p.tags
  {
    hide Dispatch;
    TagsAreNested(o, s);
    var p := Run(o, INITIAL, s);
    if p.state == OpenTagSlash { SlashCloses(o, p.(pos := Advance(o, p.pos, '>'))); }
  }

  lemma SlashCloses(o: Options, p: Parser)
    requires p.state == OpenTagSlash && Shaped(o, p)
    ensures Dispatch(o, p, '>').tags == p.tags
  {
    hide NodeOut, CloseNamed;
    var q := OpenTheTag(o, p, true);
    CloseNamedKeeps(o, EndScript(o, q), InCase(o, q.tagName));
    assert q.tags[..|q.tags| - 1] == p.tags;
  }

  // An end tag that no open element matches closes nothing.
  lemma UnmatchedClosesNothing(o: Options, p: Parser)
    requires FindTag(p.tags, InCase(o, p.tagName)) == -1
    ensures CloseTheTag(o, p).tags == p.tags
  {
    CloseNamedKeeps(o, EndScript(o, p), InCase(o, p.tagName));
  }

  // ---------- chunks ----------

  // A document written chunk by chunk: write throws while an error is pending.
  function Written(o: Options, p: Parser, chunks: seq<string>): Result<Parser>
    decreases chunks
  {
    if chunks == [] then Ok(p)
    else if p.out.error then Throws
    else Written(o, Run(o, p, chunks[0]), chunks[1..])
  }

  function Concat(chunks: seq<string>): string
    decreases chunks
  {
    if chunks == [] then "" else chunks[0] + Concat(chunks[1..])
  }

  // However a document is cut, the parser ends in the same state with the same events
  // as for the whole. Writing is refused exactly when an error was pending before the
  // last chunk.
  lemma {:induction false} ChunkIndependence(o: Options, p: Parser, chunks: seq<string>)
    requires GoodCase(o) && chunks != []
    ensures Written(o, p, chunks).Ok? <==> !Run(o, p, Concat(chunks[..|chunks| - 1])).out.error
    ensures Written(o, p, chunks).Ok? ==> Written(o, p, chunks).value == Run(o, p, Concat(chunks))
    decreases |chunks|
  {
    var q, rest := Run(o, p, chunks[0]), chunks[1..];
    hide Run;
    RunAppend(o, p, chunks[0], Concat(rest));
    ErrorStays(o, p, chunks[0]);
    if |chunks| == 1 {
      assert chunks[..0] == [] && Concat([]) == "" && rest == [];
      assert Concat(chunks) == chunks[0] + "" == chunks[0];
      RunNothing(o, p);
    } else {
      ChunkIndependence(o, q, rest);
      var head, tail := chunks[..|chunks| - 1], rest[..|rest| - 1];
      assert head[0] == chunks[0] && head[1..] == tail;
      RunAppend(o, p, chunks[0], Concat(tail));
      ErrorStays(o, q, Concat(tail));
    }
  }

  // In loose mode no write is ever refused.
  lemma LooseChunks(o: Options, p: Parser, chunks: seq<string>)
    requires GoodCase(o) && !o.strict && !p.out.error
    ensures Written(o, p, chunks) == Ok(Run(o, p, Concat(chunks)))
  {
    if chunks != [] {
      hide *;
      ErrorStays(o, p, Concat(chunks[..|chunks| - 1]));
      ChunkIndependence(o, p, chunks);
    }
  }

  // Text has gone out, and is still at the front of the text that waits.
  predicate SentAndKept(u: Out, v: Out) {
    |v.events| > |u.events| && v.events[|u.events|].OnText? && u.textNode <= v.textNode
  }

  // Where an entity in text ends, the text before it is sent out and kept as well exactly
  // in strict mode, for an unknown entity, after text of which the options leave something.
  lemma StrictEntityRepeatsText(o: Options, p: Parser)
    requires p.state == TextEntity
    ensures var q, text := Step(o, p, ';'), o.textOpts(p.out.textNode);
            SentAndKept(p.out, q.out) <==> o.strict && Decode(o, p.buf.entity) == None && text != ""
  {
    EntityEnds(o, p);
    hide Step, Decode;
    if o.strict { FailSends(o, p.out); }
  }

  lemma EntityEnds(o: Options, p: Parser)
    requires p.state == TextEntity
    ensures var entity, q := p.buf.entity, Step(o, p, ';');
            match Decode(o, entity)
            case Some(text) => q.out == p.out.(textNode := p.out.textNode + text)
            case None => q.out == FailOut(o, p.out).(textNode := p.out.textNode + ("&" + entity + ";"))
  {
    hide Decode, FailOut;
  }

  lemma FailSends(o: Options, u: Out)
    requires o.strict
    ensures var text := o.textOpts(u.textNode);
            FailOut(o, u) == Out("", true, u.events + (if text != "" then [OnText(text), OnError] else [OnError]))
  {
    var text := o.textOpts(u.textNode);
    assert (u.events + [OnText(text)]) + [OnError] == u.events + [OnText(text), OnError];
  }

  // What it sends and keeps.
  lemma UnknownEntity(o: Options, p: Parser)
    requires o.strict && p.state == TextEntity && Decode(o, p.buf.entity) == None
    requires o.textOpts(p.out.textNode) != ""
    ensures var q, text := Step(o, p, ';'), o.textOpts(p.out.textNode);
            && q.out.events == p.out.events + [OnText(text), OnError]
            && q.out.textNode == p.out.textNode + ("&" + p.buf.entity + ";")
  {
    EntityEnds(o, p);
    hide Step, Decode;
    FailSends(o, p.out);
  }

  // Strict, and with every map the identity.
  const STRICT: Options :=
    Options(true, true, false, s => s, s => s, s => s, s => s, s => None)

  // In strict mode "xy" is read as a whole, but not as "x" and then "y".
  lemma CutAfterError()
    ensures Written(STRICT, INITIAL, ["x", "y"]) == Throws && Written(STRICT, INITIAL, ["xy"]).Ok?
  {
    RunOne(STRICT, INITIAL, 'x');
    assert Step(STRICT, INITIAL, 'x').out.error;
    var chunks := ["x", "y"];
    assert chunks[1..] == ["y"];
    hide Run, Step;
    assert Written(STRICT, Run(STRICT, INITIAL, "x"), ["y"]) == Throws;
    assert ["xy"][1..] == [];
    assert Written(STRICT, Run(STRICT, INITIAL, "xy"), []).Ok?;
  }
}
