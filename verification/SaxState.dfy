// The streaming XML parser of sax.js: its record of fields, and what one character
// does to them in each of its states.
module SaxState {
  import opened Outcomes

  datatype State =
    | Begin | BeginWhitespace | InText | TextEntity | OpenWaka
    | SgmlDecl | SgmlDeclQuoted | InDoctype | DoctypeQuoted | DoctypeDtd | DoctypeDtdQuoted
    | InComment | CommentEnding | CommentEnded
    | InCData | CDataEnding | CDataEnding2
    | ProcInst | ProcInstBody | ProcInstEnding
    | OpenTag | OpenTagSlash | Attrib | AttribName | AttribNameSawWhite
    | AttribValue | AttribValueQuoted | AttribValueClosed | AttribValueUnquoted
    | AttribValueEntityQ | AttribValueEntityU
    | CloseTag | CloseTagSawWhite | InScript | ScriptEnding

  datatype Tag = Tag(name: string, attributes: map<string, string>, isSelfClosing: bool)

  const NO_TAG := Tag("", map[], false)

  // What the handlers see, in order.
  datatype Event =
    | OnText(text: string)
    | OnOpenTagStart(name: string)
    | OnAttribute(attr: string, value: string)
    | OnOpenTag(tag: Tag)
    | OnCloseTag(name: string)
    | OnComment(text: string)
    | OnOpenCData
    | OnCData(text: string)
    | OnCloseCData
    | OnProcInst(target: string, body: string)
    | OnSgmlDecl(text: string)
    | OnDoctype(text: string)
    | OnScript(text: string)
    | OnError

  // The options of the constructor. Case maps, the trimming of text and the decoding
  // of character references are any functions.
  datatype Options = Options(
    strict: bool, noscript: bool, trackPosition: bool,
    looseCase: string -> string, upper: string -> string, lower: string -> string,
    textOpts: string -> string, reference: string -> Option<string>)

  datatype Pos = Pos(position: int, line: int, column: int)

  // What has gone out to the handlers, and the text waiting to go.
  datatype Out = Out(textNode: string, error: bool, events: seq<Event>)

  // The text buffers between events. doctype is the text of the declaration being
  // read; doctypeSeen is set after it.
  datatype Buffers = Buffers(
    comment: string, sgmlDecl: string, doctype: string, doctypeSeen: bool, procInstName: string,
    procInstBody: string, entity: string, attribName: string, attribValue: string, cdata: string, q: string)

  datatype Parser = Parser(
    state: State, tagName: string, script: string, tags: seq<Tag>, tag: Tag, sawRoot: bool, closedRoot: bool,
    out: Out, buf: Buffers, pos: Pos, startTagPosition: int)

  const INITIAL := Parser(
    Begin, "", "", [], NO_TAG, false, false, Out("", false, []),
    Buffers("", "", "", false, "", "", "", "", "", "", ""), Pos(0, 0, 0), 0)

  // ---------- characters ----------

  predicate IsWhitespace(c: char) { c == ' ' || c == '\n' || c == '\r' || c == '\t' }

  predicate IsQuote(c: char) { c == '"' || c == '\'' }

  predicate Between(c: char, lo: int, hi: int) { lo <= c as int <= hi }

  predicate NameStart(c: char) {
    || c == ':' || c == '_' || 'A' <= c <= 'Z' || 'a' <= c <= 'z'
    || Between(c, 0xC0, 0xD6) || Between(c, 0xD8, 0xF6) || Between(c, 0xF8, 0x2FF) || Between(c, 0x370, 0x37D)
    || Between(c, 0x37F, 0x1FFF) || Between(c, 0x200C, 0x200D) || Between(c, 0x2070, 0x218F)
    || Between(c, 0x2C00, 0x2FEF) || Between(c, 0x3001, 0xD7FF) || Between(c, 0xF900, 0xFDCF)
    || Between(c, 0xFDF0, 0xFFFD)
  }

  predicate NameBody(c: char) {
    || NameStart(c) || c == '\U{B7}' || Between(c, 0x300, 0x36F) || Between(c, 0x203F, 0x2040)
    || c == '.' || '0' <= c <= '9' || c == '-'
  }

  predicate EntityStart(c: char) { c == '#' || NameStart(c) }

  predicate EntityBody(c: char) { c == '#' || NameBody(c) }

  // ---------- events ----------

  function EmitOut(u: Out, e: Event): Out { u.(events := u.events + [e]) }

  // closeText
  function Flush(o: Options, u: Out): Out {
    var t := o.textOpts(u.textNode);
    (if t != "" then EmitOut(u, OnText(t)) else u).(textNode := "")
  }

  // emitNode
  function NodeOut(o: Options, u: Out, e: Event): Out {
    EmitOut(if u.textNode != "" then Flush(o, u) else u, e)
  }

  // strictFail
  function FailOut(o: Options, u: Out): Out {
    if o.strict then EmitOut(Flush(o, u).(error := true), OnError) else u
  }

  function FailTimes(o: Options, u: Out, n: nat): Out {
    if n == 0 then u else FailOut(o, FailTimes(o, u, n - 1))
  }

  function EmitNode(o: Options, p: Parser, e: Event): Parser { p.(out := NodeOut(o, p.out, e)) }

  function Fail(o: Options, p: Parser): Parser { p.(out := FailOut(o, p.out)) }

  function AddText(p: Parser, s: string): Parser { p.(out := p.out.(textNode := p.out.textNode + s)) }

  // ---------- tags ----------

  function InCase(o: Options, name: string): string { if o.strict then name else o.looseCase(name) }

  function NewTag(o: Options, p: Parser): Parser {
    var name := InCase(o, p.tagName);
    EmitNode(o, p.(tagName := name, tag := Tag(name, map[], false)), OnOpenTagStart(name))
  }

  // attrib: a repeated attribute is dropped.
  function AddAttrib(o: Options, p: Parser): Parser {
    var name, value := InCase(o, p.buf.attribName), p.buf.attribValue;
    var p1 :=
      if name in p.tag.attributes then p
      else EmitNode(o, p.(tag := p.tag.(attributes := p.tag.attributes[name := value])), OnAttribute(name, value));
    NoAttrib(p1)
  }

  function NoAttrib(p: Parser): Parser { p.(buf := p.buf.(attribName := "", attribValue := "")) }

  function OpenTheTag(o: Options, p: Parser, selfClosing: bool): Parser {
    var tag := p.tag.(isSelfClosing := selfClosing);
    var p1 := EmitNode(o, p.(tag := tag, sawRoot := true, tags := p.tags + [tag]), OnOpenTag(tag));
    NoAttrib(
      if selfClosing then p1
      else p1.(state := (if !o.noscript && o.lower(p.tagName) == "script" then InScript else InText),
               tag := NO_TAG, tagName := ""))
  }

  // The place of the last open tag of that name, or -1.
  function FindTag(tags: seq<Tag>, name: string): (t: int)
    ensures -1 <= t < |tags| && (t >= 0 ==> tags[t].name == name)
    ensures forall k :: t < k < |tags| ==> tags[k].name != name
  {
    if tags == [] then -1
    else if tags[|tags| - 1].name == name then |tags| - 1
    else FindTag(tags[..|tags| - 1], name)
  }

  // Close the innermost open tag.
  function CloseOne(o: Options, p: Parser): (q: Parser)
    requires p.tags != []
    ensures q.tags == p.tags[..|p.tags| - 1]
  {
    var k := |p.tags| - 1;
    var tag := p.tags[k];
    EmitNode(o, p.(tags := p.tags[..k], tag := tag, tagName := tag.name), OnCloseTag(tag.name))
  }

  // Close the open tags down to the first t of them.
  function CloseDown(o: Options, p: Parser, t: nat): Parser
    requires t <= |p.tags|
    decreases |p.tags|
  {
    if |p.tags| == t then p else CloseDown(o, CloseOne(o, p), t)
  }

  // The script text that an end tag completes.
  function EndScript(o: Options, p: Parser): Parser {
    if p.script != "" then EmitNode(o, p, OnScript(p.script)).(script := "") else p
  }

  function CloseTheTag(o: Options, p: Parser): Parser {
    if p.tagName == "" then AddText(Fail(o, p), "</>").(state := InText)
    else if p.script != "" && p.tagName != "script" then
      p.(script := p.script + "</" + p.tagName + ">", tagName := "", state := InScript)
    else CloseNamed(o, EndScript(o, p), InCase(o, p.tagName))
  }

  function CloseNamed(o: Options, p: Parser, name: string): Parser {
    var t := FindTag(p.tags, name);
    var p1 := p.(out := FailTimes(o, p.out, |p.tags| - 1 - t));
    if t < 0 then AddText(Fail(o, p1), "</" + p.tagName + ">").(state := InText)
    else
      var p2 := CloseDown(o, p1.(tagName := name), t);
      NoAttrib(p2.(closedRoot := p2.closedRoot || t == 0, tagName := "", state := InText))
  }

  // ---------- entities ----------

  const XML_ENTITIES: map<string, string> :=
    map["amp" := "&", "gt" := ">", "lt" := "<", "quot" := "\"", "apos" := "'"]

  // parseEntity: the text of an entity, if it has one.
  function Decode(o: Options, entity: string): Option<string> {
    var low := o.lower(entity);
    if entity in XML_ENTITIES then Some(XML_ENTITIES[entity])
    else if low in XML_ENTITIES then Some(XML_ENTITIES[low])
    else if low != "" && low[0] == '#' then o.reference(low)
    else None
  }

  // ---------- one character ----------

  function Advance(o: Options, pos: Pos, c: char): Pos {
    if !o.trackPosition then pos
    else if c == '\n' then Pos(pos.position + 1, pos.line + 1, 0)
    else Pos(pos.position + 1, pos.line, pos.column + 1)
  }

  function BeginStep(o: Options, p: Parser, c: char): Parser {
    if c == '<' then p.(state := OpenWaka, startTagPosition := p.pos.position)
    else if !IsWhitespace(c) then
      var p1 := Fail(o, p);
      p1.(out := p1.out.(textNode := [c]), state := InText)
    else p
  }

  function TextStep(o: Options, p: Parser, c: char): Parser {
    if c == '<' && !(p.sawRoot && p.closedRoot && !o.strict) then
      p.(state := OpenWaka, startTagPosition := p.pos.position)
    else
      var p1 := if !IsWhitespace(c) && (!p.sawRoot || p.closedRoot) then Fail(o, p) else p;
      if c == '&' then p1.(state := TextEntity) else AddText(p1, [c])
  }

  function Spaces(n: int): string { if n <= 0 then "" else Spaces(n - 1) + " " }

  function OpenWakaStep(o: Options, p: Parser, c: char): Parser {
    if c == '!' then p.(state := SgmlDecl, buf := p.buf.(sgmlDecl := ""))
    else if IsWhitespace(c) then p
    else if NameStart(c) then p.(state := OpenTag, tagName := [c])
    else if c == '/' then p.(state := CloseTag, tagName := "")
    else if c == '?' then p.(state := ProcInst, buf := p.buf.(procInstName := "", procInstBody := ""))
    else
      var pad :=
        if o.trackPosition && p.startTagPosition + 1 < p.pos.position
        then Spaces(p.pos.position - p.startTagPosition - 1) else "";
      AddText(Fail(o, p), "<" + pad + [c]).(state := InText)
  }

  function SgmlDeclStep(o: Options, p: Parser, c: char): Parser {
    var b := p.buf;
    if o.upper(b.sgmlDecl + [c]) == "[CDATA[" then
      EmitNode(o, p, OnOpenCData).(state := InCData, buf := b.(sgmlDecl := "", cdata := ""))
    else if b.sgmlDecl + [c] == "--" then p.(state := InComment, buf := b.(comment := "", sgmlDecl := ""))
    else if o.upper(b.sgmlDecl + [c]) == "DOCTYPE" then
      (if b.doctypeSeen || b.doctype != "" || p.sawRoot then Fail(o, p) else p)
        .(state := InDoctype, buf := b.(doctype := "", doctypeSeen := false, sgmlDecl := ""))
    else if c == '>' then
      EmitNode(o, p, OnSgmlDecl(b.sgmlDecl)).(state := InText, buf := b.(sgmlDecl := ""))
    else if IsQuote(c) then p.(state := SgmlDeclQuoted, buf := b.(sgmlDecl := b.sgmlDecl + [c]))
    else p.(buf := b.(sgmlDecl := b.sgmlDecl + [c]))
  }

  function SgmlDeclQuotedStep(o: Options, p: Parser, c: char): Parser {
    var b := p.buf.(sgmlDecl := p.buf.sgmlDecl + [c]);
    if [c] == b.q then p.(state := SgmlDecl, buf := b.(q := "")) else p.(buf := b)
  }

  function DoctypeStep(o: Options, p: Parser, c: char): Parser {
    var b := p.buf;
    if c == '>' then
      EmitNode(o, p, OnDoctype(b.doctype)).(state := InText, buf := b.(doctype := "", doctypeSeen := true))
    else
      var b1 := b.(doctype := b.doctype + [c]);
      if c == '[' then p.(state := DoctypeDtd, buf := b1)
      else if IsQuote(c) then p.(state := DoctypeQuoted, buf := b1.(q := [c]))
      else p.(buf := b1)
  }

  // Inside the quotes or the brackets of a document type declaration.
  function DoctypeInnerStep(p: Parser, c: char): Parser {
    var b := p.buf.(doctype := p.buf.doctype + [c]);
    match p.state
    case DoctypeQuoted => if [c] == b.q then p.(state := InDoctype, buf := b.(q := "")) else p.(buf := b)
    case DoctypeDtd =>
      if c == ']' then p.(state := InDoctype, buf := b)
      else if IsQuote(c) then p.(state := DoctypeDtdQuoted, buf := b.(q := [c]))
      else p.(buf := b)
    case _ => if [c] == b.q then p.(state := DoctypeDtd, buf := b.(q := "")) else p.(buf := b)
  }

  function CommentStep(o: Options, p: Parser, c: char): Parser {
    var b := p.buf;
    match p.state
    case InComment =>
      if c == '-' then p.(state := CommentEnding) else p.(buf := b.(comment := b.comment + [c]))
    case CommentEnding =>
      if c == '-' then
        var text := o.textOpts(b.comment);
        (if text != "" then EmitNode(o, p, OnComment(text)) else p)
          .(state := CommentEnded, buf := b.(comment := ""))
      else p.(state := InComment, buf := b.(comment := b.comment + "-" + [c]))
    case CommentEnded =>
      if c != '>' then Fail(o, p).(state := InComment, buf := b.(comment := b.comment + "--" + [c]))
      else p.(state := InText)
    case _ => p
  }

  function CDataStep(o: Options, p: Parser, c: char): Parser {
    var b := p.buf;
    match p.state
    case InCData => if c == ']' then p.(state := CDataEnding) else p.(buf := b.(cdata := b.cdata + [c]))
    case CDataEnding =>
      if c == ']' then p.(state := CDataEnding2)
      else p.(state := InCData, buf := b.(cdata := b.cdata + "]" + [c]))
    case CDataEnding2 =>
      if c == '>' then
        var p1 := if b.cdata != "" then EmitNode(o, p, OnCData(b.cdata)) else p;
        EmitNode(o, p1, OnCloseCData).(state := InText, buf := b.(cdata := ""))
      else if c == ']' then p.(buf := b.(cdata := b.cdata + "]"))
      else p.(state := InCData, buf := b.(cdata := b.cdata + "]]" + [c]))
    case _ => p
  }

  function ProcInstStep(o: Options, p: Parser, c: char): Parser {
    var b := p.buf;
    match p.state
    case ProcInst =>
      if c == '?' then p.(state := ProcInstEnding)
      else if IsWhitespace(c) then p.(state := ProcInstBody)
      else p.(buf := b.(procInstName := b.procInstName + [c]))
    case ProcInstBody =>
      if b.procInstBody == "" && IsWhitespace(c) then p
      else if c == '?' then p.(state := ProcInstEnding)
      else p.(buf := b.(procInstBody := b.procInstBody + [c]))
    case ProcInstEnding =>
      if c == '>' then
        EmitNode(o, p, OnProcInst(b.procInstName, b.procInstBody))
          .(state := InText, buf := b.(procInstName := "", procInstBody := ""))
      else p.(state := ProcInstBody, buf := b.(procInstBody := b.procInstBody + "?" + [c]))
    case _ => p
  }

  function OpenTagStep(o: Options, p: Parser, c: char): Parser {
    if NameBody(c) then p.(tagName := p.tagName + [c])
    else
      var p1 := NewTag(o, p);
      if c == '>' then OpenTheTag(o, p1, false)
      else if c == '/' then p1.(state := OpenTagSlash)
      else (if IsWhitespace(c) then p1 else Fail(o, p1)).(state := Attrib)
  }

  function OpenTagSlashStep(o: Options, p: Parser, c: char): Parser {
    if c == '>' then CloseTheTag(o, OpenTheTag(o, p, true)) else Fail(o, p).(state := Attrib)
  }

  function StartAttrib(p: Parser, c: char): Parser {
    p.(state := AttribName, buf := p.buf.(attribName := [c], attribValue := ""))
  }

  // An attribute without a value, as it was read.
  function BareAttrib(o: Options, p: Parser): Parser {
    var name := p.buf.attribName;
    var p1 := Fail(o, p).(tag := p.tag.(attributes := p.tag.attributes[name := ""]));
    NoAttrib(EmitNode(o, p1, OnAttribute(name, "")))
  }

  function AttribStep(o: Options, p: Parser, c: char): Parser {
    if IsWhitespace(c) then p
    else if c == '>' then OpenTheTag(o, p, false)
    else if c == '/' then p.(state := OpenTagSlash)
    else if NameStart(c) then StartAttrib(p, c)
    else Fail(o, p)
  }

  function AttribNameStep(o: Options, p: Parser, c: char): Parser {
    var b := p.buf;
    if c == '=' then p.(state := AttribValue)
    else if c == '>' then
      OpenTheTag(o, AddAttrib(o, Fail(o, p).(buf := b.(attribValue := b.attribName))), false)
    else if IsWhitespace(c) then p.(state := AttribNameSawWhite)
    else if NameBody(c) then p.(buf := b.(attribName := b.attribName + [c]))
    else Fail(o, p)
  }

  function SawWhiteStep(o: Options, p: Parser, c: char): Parser {
    if c == '=' then p.(state := AttribValue)
    else if IsWhitespace(c) then p
    else
      var p1 := BareAttrib(o, p);
      if c == '>' then OpenTheTag(o, p1, false)
      else if NameStart(c) then p1.(state := AttribName, buf := p1.buf.(attribName := [c]))
      else Fail(o, p1).(state := Attrib)
  }

  function AttribValueStep(o: Options, p: Parser, c: char): Parser {
    if IsWhitespace(c) then p
    else if IsQuote(c) then p.(state := AttribValueQuoted, buf := p.buf.(q := [c]))
    else Fail(o, p).(state := AttribValueUnquoted, buf := p.buf.(attribValue := [c]))
  }

  function QuotedStep(o: Options, p: Parser, c: char): Parser {
    if [c] == p.buf.q then
      var p1 := AddAttrib(o, p);
      p1.(state := AttribValueClosed, buf := p1.buf.(q := ""))
    else if c == '&' then p.(state := AttribValueEntityQ)
    else p.(buf := p.buf.(attribValue := p.buf.attribValue + [c]))
  }

  function ValueClosedStep(o: Options, p: Parser, c: char): Parser {
    if IsWhitespace(c) then p.(state := Attrib)
    else if c == '>' then OpenTheTag(o, p, false)
    else if c == '/' then p.(state := OpenTagSlash)
    else if NameStart(c) then StartAttrib(Fail(o, p), c)
    else Fail(o, p)
  }

  function UnquotedStep(o: Options, p: Parser, c: char): Parser {
    if c != '>' && !IsWhitespace(c) then
      if c == '&' then p.(state := AttribValueEntityU)
      else p.(buf := p.buf.(attribValue := p.buf.attribValue + [c]))
    else if c == '>' then OpenTheTag(o, AddAttrib(o, p), false)
    else AddAttrib(o, p).(state := Attrib)
  }

  function CloseTagStep(o: Options, p: Parser, c: char): Parser {
    if p.tagName == "" then
      if IsWhitespace(c) then p
      else if NameStart(c) then p.(tagName := [c])
      else if p.script != "" then p.(script := p.script + "</" + [c], state := InScript)
      else Fail(o, p)
    else if c == '>' then CloseTheTag(o, p)
    else if NameBody(c) then p.(tagName := p.tagName + [c])
    else if p.script != "" then p.(script := p.script + "</" + p.tagName, tagName := "", state := InScript)
    else (if IsWhitespace(c) then p else Fail(o, p)).(state := CloseTagSawWhite)
  }

  function CloseTagSawWhiteStep(o: Options, p: Parser, c: char): Parser {
    if IsWhitespace(c) then p else if c == '>' then CloseTheTag(o, p) else Fail(o, p)
  }

  function ScriptStep(o: Options, p: Parser, c: char): Parser {
    match p.state
    case InScript => if c == '<' then p.(state := ScriptEnding) else p.(script := p.script + [c])
    case ScriptEnding =>
      if c == '/' then p.(state := CloseTag) else p.(script := p.script + "<" + [c], state := InScript)
    case _ => p
  }

  // Back from an entity, with the text that stands for it. before is the text node
  // as it was when the entity ended.
  function EndEntity(p: Parser, before: string, text: string): Parser {
    var b := p.buf.(entity := "");
    match p.state
    case TextEntity => p.(state := InText, out := p.out.(textNode := before + text), buf := b)
    case AttribValueEntityQ => p.(state := AttribValueQuoted, buf := b.(attribValue := b.attribValue + text))
    case _ => p.(state := AttribValueUnquoted, buf := b.(attribValue := b.attribValue + text))
  }

  // The buffer is read before the entity is decoded, so that text which a strict
  // failure has already sent out is put back in front.
  function EntityStep(o: Options, p: Parser, c: char): Parser {
    var entity := p.buf.entity;
    if c == ';' then
      match Decode(o, entity)
      case Some(text) => EndEntity(p, p.out.textNode, text)
      case None => EndEntity(Fail(o, p), p.out.textNode, "&" + entity + ";")
    else if (if entity != "" then EntityBody(c) else EntityStart(c)) then p.(buf := p.buf.(entity := entity + [c]))
    else
      var p1 := Fail(o, p);
      EndEntity(p1, p1.out.textNode, "&" + entity + [c])
  }

  // The switch on the state.
  function Dispatch(o: Options, p: Parser, c: char): Parser {
    match p.state
    case Begin =>
      var p1 := p.(state := BeginWhitespace);
      if c == '\U{FEFF}' then p1 else BeginStep(o, p1, c)
    case BeginWhitespace => BeginStep(o, p, c)
    case InText => TextStep(o, p, c)
    case OpenWaka => OpenWakaStep(o, p, c)
    case SgmlDecl => SgmlDeclStep(o, p, c)
    case SgmlDeclQuoted => SgmlDeclQuotedStep(o, p, c)
    case InDoctype => DoctypeStep(o, p, c)
    case DoctypeQuoted | DoctypeDtd | DoctypeDtdQuoted => DoctypeInnerStep(p, c)
    case InComment | CommentEnding | CommentEnded => CommentStep(o, p, c)
    case InCData | CDataEnding | CDataEnding2 => CDataStep(o, p, c)
    case ProcInst | ProcInstBody | ProcInstEnding => ProcInstStep(o, p, c)
    case OpenTag => OpenTagStep(o, p, c)
    case OpenTagSlash => OpenTagSlashStep(o, p, c)
    case Attrib => AttribStep(o, p, c)
    case AttribName => AttribNameStep(o, p, c)
    case AttribNameSawWhite => SawWhiteStep(o, p, c)
    case AttribValue => AttribValueStep(o, p, c)
    case AttribValueQuoted => QuotedStep(o, p, c)
    case AttribValueClosed => ValueClosedStep(o, p, c)
    case AttribValueUnquoted => UnquotedStep(o, p, c)
    case CloseTag => CloseTagStep(o, p, c)
    case CloseTagSawWhite => CloseTagSawWhiteStep(o, p, c)
    case InScript | ScriptEnding => ScriptStep(o, p, c)
    case TextEntity | AttribValueEntityQ | AttribValueEntityU => EntityStep(o, p, c)
  }

  // One character: count it, then switch.
  function Step(o: Options, p: Parser, c: char): Parser { Dispatch(o, p.(pos := Advance(o, p.pos, c)), c) }

  // A text, one character at a time.
  function Run(o: Options, p: Parser, s: string): Parser {
    if s == "" then p else Step(o, Run(o, p, s[..|s| - 1]), s[|s| - 1])
  }
}
