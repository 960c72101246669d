// What sax.js makes of text that is no well-formed document, and of names and white space.
module SaxLoose {
  import opened Outcomes
  import opened SaxState
  import opened SaxWrite
  import opened SaxMarkup

  // ---------- characters ----------

  // The characters that begin and continue a name (productions 4 and 4a of section 2.3 of
  // XML 1.0).
  predicate NameStartChar(n: int) {
    || n == 0x3A || 0x41 <= n <= 0x5A || n == 0x5F || 0x61 <= n <= 0x7A || 0xC0 <= n <= 0xD6 || 0xD8 <= n <= 0xF6
    || 0xF8 <= n <= 0x2FF || 0x370 <= n <= 0x37D || 0x37F <= n <= 0x1FFF || 0x200C <= n <= 0x200D
    || 0x2070 <= n <= 0x218F || 0x2C00 <= n <= 0x2FEF || 0x3001 <= n <= 0xD7FF || 0xF900 <= n <= 0xFDCF
    || 0xFDF0 <= n <= 0xFFFD || 0x10000 <= n <= 0xEFFFF
  }

  predicate NameChar(n: int) {
    NameStartChar(n) || n == 0x2D || n == 0x2E || 0x30 <= n <= 0x39 || n == 0xB7 || 0x300 <= n <= 0x36F
    || 0x203F <= n <= 0x2040
  }

  // The parser takes the names of the standard that have no character above U+FFFF, and its
  // white space (production 3).
  lemma NamesAsInXml(c: char)
    ensures NameStart(c) <==> NameStartChar(c as int) && c as int <= 0xFFFF
    ensures NameBody(c) <==> NameChar(c as int) && c as int <= 0xFFFF
    ensures IsWhitespace(c) <==> c as int == 0x20 || c as int == 0x9 || c as int == 0xD || c as int == 0xA
    ensures EntityStart(c) <==> NameStart(c) || c as int == 0x23
    ensures EntityBody(c) <==> NameBody(c) || c as int == 0x23
  {
  }

  // An entity is looked up as it is written, then in lower case, then as a reference to a
  // character.
  lemma EntityLookup(o: Options, e: string)
    ensures e == "amp" ==> Decode(o, e) == Some("&")
    ensures e !in ["amp", "gt", "lt", "quot", "apos"] ==>
      var low := o.lower(e);
      && (low == "amp" ==> Decode(o, e) == Some("&")) && (low == "gt" ==> Decode(o, e) == Some(">"))
      && (low == "lt" ==> Decode(o, e) == Some("<")) && (low == "quot" ==> Decode(o, e) == Some("\""))
      && (low == "apos" ==> Decode(o, e) == Some("'"))
      && (low != "" && low[0] == '#' ==> Decode(o, e) == o.reference(low))
      && (low !in ["amp", "gt", "lt", "quot", "apos"] && (low == "" || low[0] != '#') ==> Decode(o, e) == None)
  {
  }

  // ---------- text that looks like markup ----------

  predicate White(w: string) { forall k :: 0 <= k < |w| ==> IsWhitespace(w[k]) }

  lemma {:induction false} SpacesLength(n: nat)
    ensures |Spaces(n)| == n && forall k :: 0 <= k < n ==> Spaces(n)[k] == ' '
  {
    if n > 0 { SpacesLength(n - 1); }
  }

  lemma AngleAt(o: Options, p: Parser)
    requires CanOpen(o, p) && o.trackPosition
    ensures var q := Step(o, p, '<');
            Norm(q) == Norm(p).(state := OpenWaka)
            && q.startTagPosition == p.pos.position + 1 == q.pos.position
  {
  }

  lemma WaitStep(o: Options, p: Parser, c: char)
    requires p.state == OpenWaka && IsWhitespace(c) && o.trackPosition
    ensures var q := Step(o, p, c);
            Norm(q) == Norm(p) && q.startTagPosition == p.startTagPosition && q.pos.position == p.pos.position + 1
  {
    assert !NameStart(c) && c != '!';
  }

  lemma {:induction false} WaitRun(o: Options, p: Parser, w: string)
    requires p.state == OpenWaka && White(w) && o.trackPosition
    ensures var q := Run(o, p, w);
            Norm(q) == Norm(p) && q.startTagPosition == p.startTagPosition && q.pos.position == p.pos.position + |w|
  {
    hide Step, IsWhitespace;
    if w != "" {
      var v := w[..|w| - 1];
      WaitRun(o, p, v);
      WaitStep(o, Run(o, p, v), w[|w| - 1]);
    }
  }

  lemma UnencodedStep(o: Options, p: Parser, n: nat, c: char)
    requires p.state == OpenWaka && !o.strict && o.trackPosition && p.pos.position == p.startTagPosition + n
    requires !NameStart(c) && !IsWhitespace(c) && c != '!' && c != '/' && c != '?'
    ensures Norm(Step(o, p, c)) == Norm(AddText(p, "<" + Spaces(n) + [c])).(state := InText)
  {
  }

  // A "<" that begins no markup is text in loose mode; white space after it becomes spaces.
  lemma AngleIsText(o: Options, p: Parser, w: string, c: char)
    requires CanOpen(o, p) && !o.strict && o.trackPosition && White(w)
    requires !NameStart(c) && !IsWhitespace(c) && c != '!' && c != '/' && c != '?'
    ensures Norm(Run(o, p, "<" + w + [c])) == Norm(AddText(p, "<" + Spaces(|w|) + [c])).(state := InText)
  {
    hide Step, Run, CanOpen, IsWhitespace, NameStart;
    RunAppend(o, p, "<" + w, [c]);
    RunAppend(o, p, "<", w);
    RunOne(o, p, '<');
    AngleAt(o, p);
    var p1 := Step(o, p, '<');
    WaitRun(o, p1, w);
    var p2 := Run(o, p1, w);
    RunOne(o, p2, c);
    UnencodedStep(o, p2, |w|, c);
  }

  lemma AfterRootStep(o: Options, p: Parser, c: char)
    requires p.state == InText && p.sawRoot && p.closedRoot && !o.strict && c != '&'
    ensures Norm(Step(o, p, c)) == Norm(AddText(p, [c]))
  {
  }

  // After the root element, loose mode reads markup as text.
  lemma {:induction false} AfterRootIsText(o: Options, p: Parser, s: string)
    requires p.state == InText && p.sawRoot && p.closedRoot && !o.strict && '&' !in s
    ensures Norm(Run(o, p, s)) == Norm(AddText(p, s))
  {
    hide Step;
    if s == "" {
      assert p.out.textNode + s == p.out.textNode;
    } else {
      var t, c := s[..|s| - 1], s[|s| - 1];
      assert c in s && forall x :: x in t ==> x in s;
      AfterRootIsText(o, p, t);
      AfterRootStep(o, Run(o, p, t), c);
      assert (p.out.textNode + t) + [c] == p.out.textNode + s;
    }
  }

  // ---------- end tags ----------

  // The close events of the tags from the last down to the one at t.
  function Closings(tags: seq<Tag>, t: nat): seq<Event>
    requires t <= |tags|
  {
    if |tags| == t then [] else [OnCloseTag(tags[|tags| - 1].name)] + Closings(tags[..|tags| - 1], t)
  }

  lemma {:induction false} CloseDownFeeds(o: Options, p: Parser, t: nat)
    requires t <= |p.tags|
    ensures CloseDown(o, p, t).out == Feed(o, p.out, Closings(p.tags, t)) && CloseDown(o, p, t).tags == p.tags[..t]
    decreases |p.tags|
  {
    hide NodeOut, Feed;
    if |p.tags| > t {
      var q, e := CloseOne(o, p), OnCloseTag(p.tags[|p.tags| - 1].name);
      CloseDownFeeds(o, q, t);
      assert p.tags[..|p.tags| - 1][..t] == p.tags[..t];
      FeedOne(o, p.out, e);
      FeedBoth(o, p.out, [e], Closings(q.tags, t));
    } else {
      FeedNothing(o, p.out);
      assert p.tags[..t] == p.tags;
    }
  }

  lemma LooseNamed(o: Options, p: Parser, name: string)
    requires !o.strict
    ensures var q, t := CloseNamed(o, p, name), FindTag(p.tags, name);
            q.state == InText
            && if t >= 0 then q.out == Feed(o, p.out, Closings(p.tags, t)) && q.tags == p.tags[..t]
               else q.tags == p.tags && q.out == p.out.(textNode := p.out.textNode + ("</" + p.tagName + ">"))
  {
    hide CloseDown, FailTimes, FindTag, Feed, Closings;
    var t := FindTag(p.tags, name);
    LooseFails(o, p.out, |p.tags| - 1 - t);
    if t >= 0 { CloseDownFeeds(o, p.(tagName := name), t); }
  }

  // In loose mode an end tag closes its element and those inside it, from the inside, or is
  // text where it has no element.
  lemma LooseEnd(o: Options, p: Parser)
    requires !o.strict && p.script == "" && p.tagName != ""
    ensures var q, t := CloseTheTag(o, p), FindTag(p.tags, InCase(o, p.tagName));
            q.state == InText
            && if t >= 0 then q.out == Feed(o, p.out, Closings(p.tags, t)) && q.tags == p.tags[..t]
               else q.tags == p.tags && q.out == p.out.(textNode := p.out.textNode + ("</" + p.tagName + ">"))
  {
    hide CloseNamed, FindTag, InCase, Feed, Closings;
    LooseNamed(o, EndScript(o, p), InCase(o, p.tagName));
  }

  lemma {:induction false} LooseFails(o: Options, u: Out, n: nat)
    requires !o.strict
    ensures FailTimes(o, u, n) == u
  {
    if n > 0 { LooseFails(o, u, n - 1); }
  }

  lemma EmptyEnd(o: Options, p: Parser)
    requires !o.strict && p.tagName == ""
    ensures CloseTheTag(o, p) == AddText(p, "</>").(state := InText)
  {
  }

  lemma EndSpaceStep(o: Options, p: Parser, c: char)
    requires (p.state == CloseTag && p.tagName != "" && p.script == "") || p.state == CloseTagSawWhite
    requires IsWhitespace(c)
    ensures Norm(Step(o, p, c)) == Norm(p).(state := CloseTagSawWhite)
  {
    assert !NameBody(c) && c != '>';
  }

  // White space before the ">" of an end tag is skipped.
  lemma {:induction false} EndSpaces(o: Options, p: Parser, w: string)
    requires (p.state == CloseTag && p.tagName != "" && p.script == "") || p.state == CloseTagSawWhite
    requires White(w)
    ensures Norm(Run(o, p, w)) == Norm(p).(state := if w == "" then p.state else CloseTagSawWhite)
  {
    hide Step, IsWhitespace;
    if w != "" {
      EndSpaces(o, p, w[..|w| - 1]);
      EndSpaceStep(o, Run(o, p, w[..|w| - 1]), w[|w| - 1]);
    }
  }

  lemma EndAfterSpaces(o: Options, p: Parser)
    requires p.state == CloseTagSawWhite || (p.state == CloseTag && p.tagName != "")
    ensures Step(o, p, '>') == CloseTheTag(o, p.(pos := Advance(o, p.pos, '>')))
  {
    hide CloseTheTag;
  }

  // White space between attributes is skipped.
  lemma {:induction false} TagSpaces(o: Options, p: Parser, w: string)
    requires (p.state == Attrib || p.state == AttribValueClosed) && White(w)
    ensures Norm(Run(o, p, w)) == Norm(p).(state := if w == "" then p.state else Attrib)
  {
    hide Step, IsWhitespace;
    if w != "" {
      TagSpaces(o, p, w[..|w| - 1]);
      TagSpaceStep(o, Run(o, p, w[..|w| - 1]), w[|w| - 1]);
    }
  }

  lemma TagSpaceStep(o: Options, p: Parser, c: char)
    requires (p.state == Attrib || p.state == AttribValueClosed) && IsWhitespace(c)
    ensures Norm(Step(o, p, c)) == Norm(p).(state := Attrib)
  {
  }

  // ---------- other oddities ----------

  // A byte order mark at the start is skipped.
  lemma MarkSkipped(o: Options)
    ensures Norm(Step(o, INITIAL, '\U{FEFF}')) == INITIAL.(state := BeginWhitespace)
  {
  }

  // Text before the first tag is kept in loose mode.
  lemma FirstText(o: Options, p: Parser, c: char)
    requires p.state == Begin || p.state == BeginWhitespace
    requires !o.strict && c != '<' && !IsWhitespace(c) && c != '\U{FEFF}'
    ensures Norm(Step(o, p, c)) == Norm(p).(state := InText, out := p.out.(textNode := [c]))
  {
  }

  // The first of two attributes of the same name stands.
  lemma RepeatedDropped(o: Options, p: Parser)
    requires InCase(o, p.buf.attribName) in p.tag.attributes
    ensures AddAttrib(o, p) == p.(buf := p.buf.(attribName := "", attribValue := ""))
  {
    hide InCase;
  }

  // A slash inside of a tag is skipped in loose mode, with the character after it.
  lemma SlashSkipped(o: Options, p: Parser, c: char)
    requires p.state == OpenTagSlash && !o.strict && c != '>'
    ensures Norm(Step(o, p, c)) == Norm(p).(state := Attrib)
  {
  }

  // An end tag in a script is text, unless it is that of the script; but a character that
  // is no part of its name is lost.
  lemma ScriptKeepsEnd(o: Options, p: Parser, c: char)
    requires p.state == CloseTag && p.script != "" && p.tagName != ""
    ensures c == '>' && p.tagName != "script" ==>
      Norm(Step(o, p, c))
        == Norm(p).(state := InScript, script := p.script + "</" + p.tagName + ">", tagName := "")
    ensures c != '>' && !NameBody(c) ==>
      Norm(Step(o, p, c)) == Norm(p).(state := InScript, script := p.script + "</" + p.tagName, tagName := "")
  {
    hide CloseNamed, NameBody, NameStart;
  }

  lemma ScriptKeepsSlash(o: Options, p: Parser, c: char)
    requires p.state == CloseTag && p.script != "" && p.tagName == "" && !IsWhitespace(c) && !NameStart(c)
    ensures Norm(Step(o, p, c)) == Norm(p).(state := InScript, script := p.script + "</" + [c])
  {
    hide IsWhitespace, NameStart;
  }

  // In loose mode an entity that is not ended is text, with the character after it.
  lemma OpenEntityIsText(o: Options, p: Parser, c: char)
    requires p.state == TextEntity && !o.strict && c != ';'
    requires if p.buf.entity == "" then !EntityStart(c) else !EntityBody(c)
    ensures Norm(Step(o, p, c))
         == Norm(AddText(p, "&" + p.buf.entity + [c])).(state := InText, buf := p.buf.(entity := ""))
  {
    hide EntityStart, EntityBody;
  }
}
