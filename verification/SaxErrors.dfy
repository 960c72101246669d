// Which characters are errors in strict mode, and how the parser of sax.js counts lines.
module SaxErrors {
  import opened Outcomes
  import opened SaxState

  // ---------- malformed text ----------

  // An end tag that is empty or not that of the innermost element.
  predicate BadEnd(o: Options, p: Parser) {
    || p.tagName == ""
    || ((p.script == "" || p.tagName == "script")
        && (p.tags == [] || p.tags[|p.tags| - 1].name != InCase(o, p.tagName)))
  }

  predicate BadEntity(o: Options, p: Parser, c: char) {
    if c == ';' then Decode(o, p.buf.entity) == None
    else if p.buf.entity == "" then !EntityStart(c) else !EntityBody(c)
  }

  // A second document type, or one after the root has begun.
  predicate BadDoctype(o: Options, p: Parser, c: char) {
    var word := p.buf.sgmlDecl + [c];
    o.upper(word) == "DOCTYPE" && o.upper(word) != "[CDATA[" && word != "--"
    && (p.buf.doctypeSeen || p.buf.doctype != "" || p.sawRoot)
  }

  // The next character is an error.
  predicate Malformed(o: Options, p: Parser, c: char) {
    var white := IsWhitespace(c);
    match p.state
    case Begin => c != '<' && !white && c != '\U{FEFF}'
    case BeginWhitespace => c != '<' && !white
    case InText => c != '<' && !white && (!p.sawRoot || p.closedRoot)
    case OpenWaka => !white && !NameStart(c) && c != '!' && c != '/' && c != '?'
    case SgmlDecl => BadDoctype(o, p, c)
    case CommentEnded => c != '>'
    case OpenTag => !white && !NameBody(c) && c != '>' && c != '/'
    case OpenTagSlash => c != '>' || BadEnd(o, OpenTheTag(o, p, true))
    case Attrib => !white && !NameStart(c) && c != '>' && c != '/'
    case AttribName => !white && !NameBody(c) && c != '='
    case AttribNameSawWhite => !white && c != '='
    case AttribValue => !white && !IsQuote(c)
    case AttribValueClosed => !white && c != '>' && c != '/'
    case CloseTag =>
      if p.tagName == "" then !white && !NameStart(c) && p.script == ""
      else if c == '>' then BadEnd(o, p)
      else !white && !NameBody(c) && p.script == ""
    case CloseTagSawWhite => if c == '>' then BadEnd(o, p) else !white
    case TextEntity => BadEntity(o, p, c)
    case AttribValueEntityQ => BadEntity(o, p, c)
    case AttribValueEntityU => BadEntity(o, p, c)
    case _ => false
  }

  // What a step says of errors, and that it does not count again.
  predicate Told(o: Options, p: Parser, q: Parser, bad: bool) {
    q.pos == p.pos && (p.out.error ==> q.out.error) && (o.strict && !p.out.error ==> (q.out.error <==> bad))
  }

  lemma {:induction false} FailTimesError(o: Options, u: Out, n: nat)
    ensures FailTimes(o, u, n).error == (u.error || (o.strict && n > 0))
  {
    if n > 0 { FailTimesError(o, u, n - 1); }
  }

  lemma {:induction false} CloseDownTold(o: Options, p: Parser, t: nat)
    requires t <= |p.tags|
    ensures CloseDown(o, p, t).out.error == p.out.error && CloseDown(o, p, t).pos == p.pos
    decreases |p.tags|
  {
    if |p.tags| > t { CloseDownTold(o, CloseOne(o, p), t); }
  }

  lemma CloseNamedTold(o: Options, p: Parser, name: string)
    ensures Told(o, p, CloseNamed(o, p, name), p.tags == [] || p.tags[|p.tags| - 1].name != name)
  {
        var t := FindTag(p.tags, name);
    var p1 := p.(out := FailTimes(o, p.out, |p.tags| - 1 - t));
    FailTimesError(o, p.out, |p.tags| - 1 - t);
    if t >= 0 { CloseDownTold(o, p1.(tagName := name), t); }
    hide FailTimes, CloseDown;
  }

  lemma CloseTold(o: Options, p: Parser)
    ensures Told(o, p, CloseTheTag(o, p), BadEnd(o, p))
  {
    hide CloseNamed, InCase;
    CloseNamedTold(o, EndScript(o, p), InCase(o, p.tagName));
  }

  lemma OpenTold(o: Options, p: Parser, selfClosing: bool)
    ensures Told(o, p, OpenTheTag(o, p, selfClosing), false)
  {
  }

  lemma AttribTold(o: Options, p: Parser)
    ensures Told(o, p, AddAttrib(o, p), false) && Told(o, p, BareAttrib(o, p), true)
  {
    hide InCase;
  }

  lemma NotWhite()
    ensures !IsWhitespace('\U{FEFF}') && !IsWhitespace('>') && !IsWhitespace('/') && !IsWhitespace('=')
    ensures !NameBody('>') && !NameStart('>')
  {
  }

  lemma TextTold(o: Options, p: Parser, c: char)
    requires p.state == Begin || p.state == BeginWhitespace || p.state == InText || p.state == OpenWaka
    ensures Told(o, p, Dispatch(o, p, c), Malformed(o, p, c))
  {
    hide NameStart, IsWhitespace, Spaces;
    NotWhite();
  }

  lemma DeclTold(o: Options, p: Parser, c: char)
    requires p.state == SgmlDecl || p.state == SgmlDeclQuoted || p.state == InDoctype || p.state == DoctypeQuoted
          || p.state == DoctypeDtd || p.state == DoctypeDtdQuoted
    ensures Told(o, p, Dispatch(o, p, c), Malformed(o, p, c))
  {
    hide IsQuote;
  }

  lemma CommentTold(o: Options, p: Parser, c: char)
    requires p.state == InComment || p.state == CommentEnding || p.state == CommentEnded
    ensures Told(o, p, Dispatch(o, p, c), Malformed(o, p, c))
  {
  }

  lemma CDataTold(o: Options, p: Parser, c: char)
    requires p.state == InCData || p.state == CDataEnding || p.state == CDataEnding2
    ensures Told(o, p, Dispatch(o, p, c), Malformed(o, p, c))
  {
  }

  lemma OtherTold(o: Options, p: Parser, c: char)
    requires p.state == ProcInst || p.state == ProcInstBody || p.state == ProcInstEnding
          || p.state == InScript || p.state == ScriptEnding
    ensures Told(o, p, Dispatch(o, p, c), Malformed(o, p, c))
  {
    hide IsWhitespace;
  }

  lemma TagTold(o: Options, p: Parser, c: char)
    requires p.state == OpenTag || p.state == OpenTagSlash
    ensures Told(o, p, Dispatch(o, p, c), Malformed(o, p, c))
  {
    hide OpenTheTag, CloseTheTag, NameBody, IsWhitespace, BadEnd, InCase;
    OpenTold(o, NewTag(o, p), false);
    OpenTold(o, p, true);
    CloseTold(o, OpenTheTag(o, p, true));
  }

  lemma NextTold(o: Options, p: Parser, c: char)
    requires p.state == Attrib
    ensures Told(o, p, Dispatch(o, p, c), Malformed(o, p, c))
  {
    hide OpenTheTag, NameStart, IsWhitespace;
    OpenTold(o, p, false);
  }

  lemma SawWhiteTold(o: Options, p: Parser, c: char)
    requires p.state == AttribNameSawWhite
    ensures Told(o, p, Dispatch(o, p, c), Malformed(o, p, c))
  {
    hide OpenTheTag, BareAttrib, NameStart, IsWhitespace;
    NotWhite();
    AttribTold(o, p);
    OpenTold(o, BareAttrib(o, p), false);
  }

  lemma NameEndTold(o: Options, p: Parser, c: char)
    requires p.state == AttribName
    ensures Told(o, p, Dispatch(o, p, c), Malformed(o, p, c))
  {
    hide OpenTheTag, AddAttrib, NameBody, IsWhitespace;
    NotWhite();
    var p1 := Fail(o, p).(buf := p.buf.(attribValue := p.buf.attribName));
    AttribTold(o, p1);
    OpenTold(o, AddAttrib(o, p1), false);
  }

  lemma ValueTold(o: Options, p: Parser, c: char)
    requires p.state == AttribValue || p.state == AttribValueQuoted
    ensures Told(o, p, Dispatch(o, p, c), Malformed(o, p, c))
  {
    hide AddAttrib, IsWhitespace, IsQuote;
    AttribTold(o, p);
  }

  lemma ValueClosedTold(o: Options, p: Parser, c: char)
    requires p.state == AttribValueClosed
    ensures Told(o, p, Dispatch(o, p, c), Malformed(o, p, c))
  {
    hide OpenTheTag, NameStart, IsWhitespace;
    OpenTold(o, p, false);
  }

  lemma UnquotedTold(o: Options, p: Parser, c: char)
    requires p.state == AttribValueUnquoted
    ensures Told(o, p, Dispatch(o, p, c), Malformed(o, p, c))
  {
    hide OpenTheTag, AddAttrib, IsWhitespace;
    AttribTold(o, p);
    OpenTold(o, AddAttrib(o, p), false);
  }

  lemma EndTold(o: Options, p: Parser, c: char)
    requires p.state == CloseTag || p.state == CloseTagSawWhite
    ensures Told(o, p, Dispatch(o, p, c), Malformed(o, p, c))
  {
    hide CloseTheTag, BadEnd, NameBody, NameStart, IsWhitespace;
    CloseTold(o, p);
    NotWhite();
  }

  lemma EndEntityTold(p: Parser, before: string, text: string)
    ensures EndEntity(p, before, text).pos == p.pos && EndEntity(p, before, text).out.error == p.out.error
  {
  }

  lemma EntityTold(o: Options, p: Parser, c: char)
    requires p.state == TextEntity || p.state == AttribValueEntityQ || p.state == AttribValueEntityU
    ensures Told(o, p, EntityStep(o, p, c), BadEntity(o, p, c))
  {
    hide Decode, EntityStart, EntityBody, EndEntity;
    var entity, q := p.buf.entity, Fail(o, p);
    if c == ';' {
      match Decode(o, entity) {
        case Some(text) => EndEntityTold(p, p.out.textNode, text);
        case None => EndEntityTold(q, p.out.textNode, "&" + entity + ";");
      }
    } else {
      EndEntityTold(q, q.out.textNode, "&" + entity + [c]);
    }
  }

  lemma EntityCase(o: Options, p: Parser, c: char)
    requires p.state == TextEntity || p.state == AttribValueEntityQ || p.state == AttribValueEntityU
    ensures Dispatch(o, p, c) == EntityStep(o, p, c) && Malformed(o, p, c) == BadEntity(o, p, c)
  {
    hide EntityStep, BadEntity;
  }

  lemma DispatchTold(o: Options, p: Parser, c: char)
    ensures Told(o, p, Dispatch(o, p, c), Malformed(o, p, c))
  {
    hide Told, Dispatch, Malformed;
    match p.state {
      case Begin | BeginWhitespace | InText | OpenWaka => TextTold(o, p, c);
      case SgmlDecl | SgmlDeclQuoted | InDoctype | DoctypeQuoted | DoctypeDtd | DoctypeDtdQuoted => DeclTold(o, p, c);
      case InComment | CommentEnding | CommentEnded => CommentTold(o, p, c);
      case InCData | CDataEnding | CDataEnding2 => CDataTold(o, p, c);
      case ProcInst | ProcInstBody | ProcInstEnding | InScript | ScriptEnding => OtherTold(o, p, c);
      case OpenTag | OpenTagSlash => TagTold(o, p, c);
      case Attrib => NextTold(o, p, c);
      case AttribNameSawWhite => SawWhiteTold(o, p, c);
      case AttribName => NameEndTold(o, p, c);
      case AttribValue | AttribValueQuoted => ValueTold(o, p, c);
      case AttribValueClosed => ValueClosedTold(o, p, c);
      case AttribValueUnquoted => UnquotedTold(o, p, c);
      case CloseTag | CloseTagSawWhite => EndTold(o, p, c);
      case TextEntity | AttribValueEntityQ | AttribValueEntityU =>
        EntityTold(o, p, c);
        EntityCase(o, p, c);
    }
  }

  // In strict mode, a character raises an error exactly when it is malformed.
  lemma ErrorExactly(o: Options, p: Parser, c: char)
    requires o.strict && !p.out.error
    ensures Step(o, p, c).out.error <==> Malformed(o, p.(pos := Advance(o, p.pos, c)), c)
  {
    hide Dispatch, Malformed;
    DispatchTold(o, p.(pos := Advance(o, p.pos, c)), c);
  }

  // ---------- lines and columns ----------

  function Lines(s: string): nat {
    if s == "" then 0 else Lines(s[..|s| - 1]) + if s[|s| - 1] == '\n' then 1 else 0
  }

  // The characters after the last line end.
  function LastLine(s: string): nat {
    if s == "" || s[|s| - 1] == '\n' then 0 else LastLine(s[..|s| - 1]) + 1
  }

  // The parser counts the characters and line ends that it has read, and those of the line
  // that it is in.
  lemma {:induction false} Counts(o: Options, s: string)
    requires o.trackPosition
    ensures Run(o, INITIAL, s).pos == Pos(|s|, Lines(s), LastLine(s))
  {
    hide Dispatch;
    if s != "" {
      var t, c := s[..|s| - 1], s[|s| - 1];
      Counts(o, t);
      var p := Run(o, INITIAL, t);
      DispatchTold(o, p.(pos := Advance(o, p.pos, c)), c);
      hide Malformed;
    }
  }
}
