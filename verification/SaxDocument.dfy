// What sax.js makes of a document: writing out a tree of elements, attributes, text and
// comments and parsing it gives the events of the tree, in order.
module SaxDocument {
  import opened Outcomes
  import opened SaxState
  import opened SaxWrite
  import opened SaxMarkup
  import Nesting = SaxNesting

  // Double or single quotes around the value, or none, which only the loose mode takes.
  datatype Style = DoubleQuoted | SingleQuoted | Unquoted

  datatype Attribute = Attribute(name: string, value: string, style: Style)

  datatype Node =
    | Element(name: string, attributes: seq<Attribute>, children: seq<Node>)
    | EmptyElement(name: string, attributes: seq<Attribute>)
    | Script(attributes: seq<Attribute>, text: string)
    | Text(text: string)
    | Comment(text: string)
    | CDataSection(text: string)
    | Instruction(target: string, body: string)
    | Declaration(text: string)
    | Doctype(text: string)

  // ---------- writing out ----------

  // A character of text or of a quoted value, escaped where it has to be.
  function CharText(c: char): string {
    if c == '&' then "&amp;" else if c == '<' then "&lt;" else if c == '>' then "&gt;"
    else if c == '"' then "&quot;" else if c == '\'' then "&apos;" else [c]
  }

  function Escaped(s: string): string {
    if s == "" then "" else Escaped(s[..|s| - 1]) + CharText(s[|s| - 1])
  }

  // The first character of a value without quotes stands as it is.
  function AttributeText(a: Attribute): string {
    match a.style
    case DoubleQuoted => a.name + "=\"" + Escaped(a.value) + "\""
    case SingleQuoted => a.name + "='" + Escaped(a.value) + "'"
    case Unquoted => a.name + "=" + a.value[..if a.value == "" then 0 else 1]
                       + Escaped(if a.value == "" then "" else a.value[1..]) + " "
  }

  function AttributesText(s: seq<Attribute>): string {
    if s == [] then "" else AttributesText(s[..|s| - 1]) + (" " + AttributeText(s[|s| - 1]))
  }

  function NodeText(n: Node): string {
    match n
    case Element(name, attributes, children) =>
      "<" + name + AttributesText(attributes) + ">" + NodesText(children) + "</" + name + ">"
    case EmptyElement(name, attributes) => "<" + name + AttributesText(attributes) + "/>"
    case Script(attributes, text) => "<script" + AttributesText(attributes) + ">" + text + "</script>"
    case Text(text) => Escaped(text)
    case Comment(text) => "<!--" + text + "-->"
    case CDataSection(text) => "<![CDATA[" + text + "]]>"
    case Instruction(target, body) => "<?" + target + " " + body + "?>"
    case Declaration(text) => "<!" + text + ">"
    case Doctype(text) => "<!DOCTYPE" + text + ">"
  }

  function NodesText(s: seq<Node>): string {
    if s == [] then "" else NodesText(s[..|s| - 1]) + NodeText(s[|s| - 1])
  }

  // ---------- the events of a tree ----------

  // Names are in the case of the parser.
  function AttributeMap(o: Options, s: seq<Attribute>): map<string, string> {
    if s == [] then map[] else AttributeMap(o, s[..|s| - 1])[InCase(o, s[|s| - 1].name) := s[|s| - 1].value]
  }

  function AttributeEvents(o: Options, s: seq<Attribute>): seq<Event> {
    if s == [] then []
    else AttributeEvents(o, s[..|s| - 1]) + [OnAttribute(InCase(o, s[|s| - 1].name), s[|s| - 1].value)]
  }

  function TagOf(o: Options, name: string, attributes: seq<Attribute>, selfClosing: bool): Tag {
    Tag(InCase(o, name), AttributeMap(o, attributes), selfClosing)
  }

  function StartEvents(o: Options, name: string, attributes: seq<Attribute>): seq<Event> {
    [OnOpenTagStart(InCase(o, name))] + AttributeEvents(o, attributes)
  }

  function TagEvents(o: Options, name: string, attributes: seq<Attribute>, selfClosing: bool): seq<Event> {
    StartEvents(o, name, attributes) + [OnOpenTag(TagOf(o, name, attributes, selfClosing))]
  }

  // The events of the parts of a tree, each text on its own. A comment of which the
  // text options leave nothing has none.
  function NodeEvents(o: Options, n: Node): seq<Event> {
    match n
    case Element(name, attributes, children) =>
      TagEvents(o, name, attributes, false) + NodesEvents(o, children) + [OnCloseTag(InCase(o, name))]
    case EmptyElement(name, attributes) => TagEvents(o, name, attributes, true) + [OnCloseTag(InCase(o, name))]
    case Script(attributes, text) =>
      TagEvents(o, "script", attributes, false) + (if text != "" then [OnScript(text)] else [])
        + [OnCloseTag(InCase(o, "script"))]
    case Text(text) => [OnText(text)]
    case Comment(text) => CommentEvents(o, text)
    case CDataSection(text) => CDataEvents(text)
    case Instruction(target, body) => [OnProcInst(target, body)]
    case Declaration(text) => [OnSgmlDecl(text)]
    case Doctype(text) => [OnDoctype(text)]
  }

  function NodesEvents(o: Options, s: seq<Node>): seq<Event> {
    if s == [] then [] else NodesEvents(o, s[..|s| - 1]) + NodeEvents(o, s[|s| - 1])
  }

  function TextEvents(o: Options, text: string): seq<Event> {
    if text != "" && o.textOpts(text) != "" then [OnText(o.textOpts(text))] else []
  }

  // The text since the last event that is not text.
  function Waiting(es: seq<Event>): string {
    if es == [] then ""
    else match es[|es| - 1]
      case OnText(text) => Waiting(es[..|es| - 1]) + text
      case _ => ""
  }

  // What goes out: texts with nothing between them are one text, to which the options
  // are applied, and which is left out when they leave nothing.
  function Sent(o: Options, es: seq<Event>): seq<Event> {
    if es == [] then []
    else
      var h, e := es[..|es| - 1], es[|es| - 1];
      if e.OnText? then Sent(o, h) else Sent(o, h) + TextEvents(o, Waiting(h)) + [e]
  }

  // ---------- well-formed trees ----------

  predicate GoodName(name: string) {
    name != "" && NameStart(name[0]) && forall k :: 0 <= k < |name| ==> NameBody(name[k])
  }

  // A value without quotes has no white space, and no quote at its start.
  predicate GoodRaw(v: string) {
    v != "" && !IsQuote(v[0]) && forall k :: 0 <= k < |v| ==> !IsWhitespace(v[k])
  }

  // In the case of the parser, no two attributes have the same name.
  predicate GoodAttributes(o: Options, attributes: seq<Attribute>) {
    && (forall k :: 0 <= k < |attributes| ==> GoodName(attributes[k].name))
    && (forall k :: 0 <= k < |attributes| && attributes[k].style == Unquoted ==>
          !o.strict && GoodRaw(attributes[k].value))
    && (forall j, k :: 0 <= j < k < |attributes| ==>
          InCase(o, attributes[j].name) != InCase(o, attributes[k].name))
  }

  // An element whose content is the text of a script.
  predicate IsScript(o: Options, name: string) { !o.noscript && o.lower(InCase(o, name)) == "script" }

  predicate GoodTag(o: Options, name: string, attributes: seq<Attribute>) {
    GoodName(name) && GoodAttributes(o, attributes)
  }

  // No end tag in it, and no "<" at its end.
  predicate GoodScript(s: string) {
    (forall k :: 0 <= k < |s| - 1 ==> !(s[k] == '<' && s[k + 1] == '/')) && (s != "" ==> s[|s| - 1] != '<')
  }

  ghost predicate GoodNode(o: Options, n: Node) {
    match n
    case Element(name, attributes, children) =>
      GoodTag(o, name, attributes) && !IsScript(o, name) && forall k :: 0 <= k < |children| ==> GoodNode(o, children[k])
    case EmptyElement(name, attributes) => GoodTag(o, name, attributes)
    case Script(attributes, text) => IsScript(o, "script") && GoodAttributes(o, attributes) && GoodScript(text)
    case Text(text) => true
    case Comment(text) => GoodComment(text)
    case CDataSection(text) => GoodCData(text)
    case Instruction(target, body) => GoodTarget(target) && GoodBody(body)
    case Declaration(text) => GoodDeclaration(o, text)
    case Doctype(text) => false
  }

  // What may stand before the root: comments, instructions and declarations, at most one of
  // them of a document type.
  ghost predicate GoodProlog(o: Options, s: seq<Node>) {
    && (forall k :: 0 <= k < |s| ==> GoodBefore(o, s[k]))
    && (forall j, k :: 0 <= j < k < |s| ==> !(s[j].Doctype? && s[k].Doctype?))
  }

  ghost predicate GoodBefore(o: Options, n: Node) {
    match n
    case Comment(_) => GoodNode(o, n)
    case Instruction(_, _) => GoodNode(o, n)
    case Declaration(_) => GoodNode(o, n)
    case Doctype(text) => GoodDoctype(text)
    case _ => false
  }

  // ---------- runs of characters ----------

  lemma NameChars(c: char)
    requires NameBody(c)
    ensures c != '>' && c != '=' && c != '/' && c != '<' && c != '!' && c != '?' && !IsWhitespace(c)
  {
  }

  lemma TagNameStep(o: Options, p: Parser, c: char)
    requires p.state == OpenTag && NameBody(c)
    ensures Norm(Step(o, p, c)) == Norm(p).(tagName := p.tagName + [c])
  {
  }

  // The rest of a tag name.
  lemma {:induction false} TagNameRun(o: Options, p: Parser, s: string)
    requires p.state == OpenTag && forall k :: 0 <= k < |s| ==> NameBody(s[k])
    ensures Norm(Run(o, p, s)) == Norm(p).(tagName := p.tagName + s)
  {
    hide NameBody, Step;
    if s == "" {
      assert p.tagName + s == p.tagName;
    } else {
      var t, c := s[..|s| - 1], s[|s| - 1];
      TagNameRun(o, p, t);
      TagNameStep(o, Run(o, p, t), c);
      assert (p.tagName + t) + [c] == p.tagName + s;
    }
  }

  lemma CloseNameStep(o: Options, p: Parser, c: char)
    requires p.state == CloseTag && p.tagName != "" && NameBody(c)
    ensures Norm(Step(o, p, c)) == Norm(p).(tagName := p.tagName + [c])
  {
    NameChars(c);
  }

  lemma {:induction false} CloseNameRun(o: Options, p: Parser, s: string)
    requires p.state == CloseTag && p.tagName != "" && forall k :: 0 <= k < |s| ==> NameBody(s[k])
    ensures Norm(Run(o, p, s)) == Norm(p).(tagName := p.tagName + s)
  {
    hide NameBody, Step;
    if s == "" {
      assert p.tagName + s == p.tagName;
    } else {
      var t, c := s[..|s| - 1], s[|s| - 1];
      CloseNameRun(o, p, t);
      CloseNameStep(o, Run(o, p, t), c);
      assert (p.tagName + t) + [c] == p.tagName + s;
    }
  }

  lemma NextNameChar(o: Options, p: Parser, c: char)
    requires p.state == AttribName && NameBody(c)
    ensures Norm(Step(o, p, c)) == Norm(p).(buf := p.buf.(attribName := p.buf.attribName + [c]))
  {
    NameChars(c);
  }

  lemma {:induction false} AttribNameRun(o: Options, p: Parser, s: string)
    requires p.state == AttribName && forall k :: 0 <= k < |s| ==> NameBody(s[k])
    ensures Norm(Run(o, p, s)) == Norm(p).(buf := p.buf.(attribName := p.buf.attribName + s))
  {
    hide NameBody, Step;
    if s == "" {
      assert p.buf.attribName + s == p.buf.attribName;
    } else {
      var t, c := s[..|s| - 1], s[|s| - 1];
      AttribNameRun(o, p, t);
      NextNameChar(o, Run(o, p, t), c);
      assert (p.buf.attribName + t) + [c] == p.buf.attribName + s;
    }
  }

  // ---------- text and values ----------

  // Where characters are taken in: in the text of an element, between quotes, or in a value
  // without quotes.
  predicate TakesText(p: Parser) {
    && (|| InRootText(p)
        || (p.state == AttribValueQuoted && (p.buf.q == "\"" || p.buf.q == "'"))
        || p.state == AttribValueUnquoted)
    && p.buf.entity == ""
  }

  predicate NoSpace(s: string) { forall k :: 0 <= k < |s| ==> !IsWhitespace(s[k]) }

  // Text taken in by the text node, or by the value of an attribute.
  function Taken(p: Parser, s: string): Parser {
    if p.state == InText then AddText(p, s) else p.(buf := p.buf.(attribValue := p.buf.attribValue + s))
  }

  predicate LowerCase(s: string) { forall k :: 0 <= k < |s| ==> 'a' <= s[k] <= 'z' }

  predicate InEntity(p: Parser) {
    p.state == TextEntity || p.state == AttribValueEntityQ || p.state == AttribValueEntityU
  }

  lemma EntityStepChar(o: Options, p: Parser, c: char)
    requires InEntity(p) && 'a' <= c <= 'z'
    ensures Norm(Step(o, p, c)) == Norm(p).(buf := p.buf.(entity := p.buf.entity + [c]))
  {
    assert NameStart(c) && c != ';';
  }

  lemma {:induction false} EntityNameRun(o: Options, p: Parser, s: string)
    requires InEntity(p) && p.buf.entity == "" && LowerCase(s)
    ensures Norm(Run(o, p, s)) == Norm(p).(buf := p.buf.(entity := s))
  {
    hide Step;
    if s != "" {
      var t, c := s[..|s| - 1], s[|s| - 1];
      EntityNameRun(o, p, t);
      EntityStepChar(o, Run(o, p, t), c);
      assert t + [c] == s;
    }
  }

  // The state within an entity, and back.
  function EntityOf(s: State): State {
    if s == InText then TextEntity else if s == AttribValueQuoted then AttribValueEntityQ else AttribValueEntityU
  }

  lemma AmpersandStep(o: Options, p: Parser)
    requires TakesText(p)
    ensures Norm(Step(o, p, '&')) == Norm(p).(state := EntityOf(p.state))
  {
  }

  function AfterEntity(p: Parser, text: string): Parser {
    var b := p.buf.(entity := "");
    match p.state
    case TextEntity => AddText(p, text).(state := InText, buf := b)
    case AttribValueEntityQ => p.(state := AttribValueQuoted, buf := b.(attribValue := b.attribValue + text))
    case _ => p.(state := AttribValueUnquoted, buf := b.(attribValue := b.attribValue + text))
  }

  lemma SemicolonStep(o: Options, p: Parser, name: string)
    requires InEntity(p) && p.buf.entity == name && name in XML_ENTITIES
    ensures Norm(Step(o, p, ';')) == AfterEntity(Norm(p), XML_ENTITIES[name])
  {
    assert Decode(o, name) == Some(XML_ENTITIES[name]);
    hide Decode;
  }

  lemma EntityRun(o: Options, p: Parser, name: string)
    requires TakesText(p) && name in XML_ENTITIES && LowerCase(name)
    ensures Norm(Run(o, p, "&" + (name + ";"))) == Norm(Taken(p, XML_ENTITIES[name]))
  {
    hide Step, Run, LowerCase;
    RunAppend(o, p, "&", name + ";");
    RunOne(o, p, '&');
    AmpersandStep(o, p);
    var p1 := Step(o, p, '&');
    RunAppend(o, p1, name, ";");
    EntityNameRun(o, p1, name);
    var p2 := Run(o, p1, name);
    RunOne(o, p2, ';');
    SemicolonStep(o, p2, name);
  }

  lemma PlainCharStep(o: Options, p: Parser, c: char)
    requires TakesText(p) && CharText(c) == [c] && (p.state == AttribValueUnquoted ==> !IsWhitespace(c))
    ensures Norm(Step(o, p, c)) == Norm(Taken(p, [c]))
  {
  }

  lemma EntityTexts()
    ensures "&" + ("amp" + ";") == "&amp;" && "&" + ("lt" + ";") == "&lt;" && "&" + ("gt" + ";") == "&gt;"
    ensures "&" + ("quot" + ";") == "&quot;" && "&" + ("apos" + ";") == "&apos;"
    ensures var e := XML_ENTITIES;
            "amp" in e && "lt" in e && "gt" in e && "quot" in e && "apos" in e
            && e["amp"] == "&" && e["lt"] == "<" && e["gt"] == ">" && e["quot"] == "\"" && e["apos"] == "'"
  {
  }

  lemma CharRun(o: Options, p: Parser, c: char)
    requires TakesText(p) && (p.state == AttribValueUnquoted ==> !IsWhitespace(c))
    ensures Norm(Run(o, p, CharText(c))) == Norm(Taken(p, [c]))
  {
    hide Step, Run, Taken, TakesText, IsWhitespace, Norm;
    EntityTexts();
    if c == '&' {
      EntityRun(o, p, "amp");
    } else if c == '<' {
      EntityRun(o, p, "lt");
    } else if c == '>' {
      EntityRun(o, p, "gt");
    } else if c == '"' {
      EntityRun(o, p, "quot");
    } else if c == '\'' {
      EntityRun(o, p, "apos");
    } else {
      RunOne(o, p, c);
      PlainCharStep(o, p, c);
    }
  }

  lemma TakenMore(p: Parser, s: string, c: char)
    ensures Taken(Taken(p, s), [c]) == Taken(p, s + [c])
    ensures Taken(p, "") == p
  {
    assert (p.out.textNode + s) + [c] == p.out.textNode + (s + [c]) && p.out.textNode + "" == p.out.textNode;
    assert (p.buf.attribValue + s) + [c] == p.buf.attribValue + (s + [c]);
    assert p.buf.attribValue + "" == p.buf.attribValue;
  }

  lemma TakenNorm(p: Parser, q: Parser, s: string)
    requires Norm(p) == Norm(q)
    ensures Norm(Taken(p, s)) == Norm(Taken(q, s)) && (TakesText(p) <==> TakesText(q)) && p.state == q.state
  {
  }

  lemma TakenTakes(p: Parser, s: string)
    requires TakesText(p)
    ensures TakesText(Taken(p, s)) && Taken(p, s).state == p.state
  {
  }

  lemma {:induction false} EscapedRun(o: Options, p: Parser, s: string)
    requires TakesText(p) && (p.state == AttribValueUnquoted ==> NoSpace(s))
    ensures Norm(Run(o, p, Escaped(s))) == Norm(Taken(p, s))
  {
    hide Step, CharText, TakesText, Taken, Norm, IsWhitespace;
    if s == "" {
      TakenMore(p, "", 'x');
    } else {
      var t, c := s[..|s| - 1], s[|s| - 1];
      EscapedRun(o, p, t);
      RunAppend(o, p, Escaped(t), CharText(c));
      var q := Run(o, p, Escaped(t));
      TakenTakes(p, t);
      TakenNorm(q, Taken(p, t), [c]);
      CharRun(o, q, c);
      TakenMore(p, t, c);
      assert t + [c] == s;
    }
  }

  // ---------- events and the text before them ----------

  // What goes out of the events of a tree.
  lemma {:induction false} FeedIs(o: Options, es: seq<Event>)
    ensures Feed(o, INITIAL.out, es) == Out(Waiting(es), false, Sent(o, es))
  {
    if es != [] {
      var h, e := es[..|es| - 1], es[|es| - 1];
      FeedIs(o, h);
      if !e.OnText? { FeedOneIs(o, h, e); }
    }
  }

  lemma FeedOneIs(o: Options, h: seq<Event>, e: Event)
    requires !e.OnText?
    ensures NodeOut(o, Out(Waiting(h), false, Sent(o, h)), e)
         == Out("", false, Sent(o, h) + TextEvents(o, Waiting(h)) + [e])
  {
    assert Sent(o, h) + [] == Sent(o, h);
  }

  // ---------- start tags ----------

  lemma FirstTagChar(o: Options, p: Parser, c: char)
    requires p.state == OpenWaka && NameStart(c)
    ensures Norm(Step(o, p, c)) == Norm(p).(state := OpenTag, tagName := [c])
  {
    NameChars(c);
  }

  lemma OpenRun(o: Options, p: Parser, name: string)
    requires CanOpen(o, p) && GoodName(name)
    ensures Norm(Run(o, p, "<" + name)) == Norm(p).(state := OpenTag, tagName := name)
  {
    hide Step, Run, NameStart, NameBody;
    var c, rest := name[0], name[1..];
    assert name == [c] + rest;
    RunAppend(o, p, "<", name);
    RunOne(o, p, '<');
    AngleStep(o, p);
    var p1 := Step(o, p, '<');
    RunAppend(o, p1, [c], rest);
    RunOne(o, p1, c);
    FirstTagChar(o, p1, c);
    TagNameRun(o, Step(o, p1, c), rest);
  }

  // What reading an attribute, from the space before it on, comes to.
  predicate AttributeRead(o: Options, p: Parser, q: Parser, a: Attribute) {
    var name := InCase(o, a.name);
    && (q.state == AttribValueClosed || q.state == Attrib) && Frame(p, q) && q.tagName == p.tagName
    && q.tag == p.tag.(attributes := p.tag.attributes[name := a.value])
    && q.out == NodeOut(o, p.out, OnAttribute(name, a.value))
  }

  predicate CanAdd(o: Options, p: Parser, name: string) { InCase(o, name) !in p.tag.attributes && p.buf.entity == "" }

  lemma QuotedRun(o: Options, p: Parser, a: Attribute, quote: char)
    requires p.state == Attrib && GoodName(a.name) && CanAdd(o, p, a.name) && IsQuote(quote)
    ensures AttributeRead(o, p, Run(o, p, a.name + ("=" + [quote]) + Escaped(a.value) + [quote]), a)
  {
    hide Step, Run, GoodName, NodeOut, Escaped, InCase;
    RunAppend(o, p, a.name + ("=" + [quote]) + Escaped(a.value), [quote]);
    RunAppend(o, p, a.name + ("=" + [quote]), Escaped(a.value));
    AttributeStart(o, p, a.name, quote);
    var p1 := Run(o, p, a.name + ("=" + [quote]));
    EscapedRun(o, p1, a.value);
    var p2 := Run(o, p1, Escaped(a.value));
    RunOne(o, p2, quote);
    assert "" + a.value == a.value;
    ClosingQuote(o, p2, quote);
  }

  lemma RawStart(o: Options, p: Parser, c: char)
    requires p.state == AttribValue && !o.strict && !IsWhitespace(c) && !IsQuote(c)
    ensures Norm(Step(o, p, c)) == Norm(p).(state := AttribValueUnquoted, buf := p.buf.(attribValue := [c]))
  {
  }

  lemma RawEnd(o: Options, p: Parser)
    requires p.state == AttribValueUnquoted && InCase(o, p.buf.attribName) !in p.tag.attributes
    ensures var q, name := Step(o, p, ' '), InCase(o, p.buf.attribName);
            && q.state == Attrib && Frame(p, q) && q.tagName == p.tagName
            && q.tag == p.tag.(attributes := p.tag.attributes[name := p.buf.attribValue])
            && q.out == NodeOut(o, p.out, OnAttribute(name, p.buf.attribValue))
  {
    hide NodeOut, InCase;
  }

  lemma NameEquals(o: Options, p: Parser, name: string)
    requires p.state == Attrib && GoodName(name)
    ensures Norm(Run(o, p, name + "="))
         == Norm(p).(state := AttribValue, buf := p.buf.(attribName := name, attribValue := ""))
  {
    hide Step, Run;
    RunAppend(o, p, name, "=");
    NameRun(o, p, name);
    var p1 := Run(o, p, name);
    RunOne(o, p1, '=');
    StepEquals(o, p1);
  }

  lemma RawRun(o: Options, p: Parser, a: Attribute)
    requires p.state == Attrib && GoodName(a.name) && CanAdd(o, p, a.name) && !o.strict && GoodRaw(a.value)
    ensures AttributeRead(o, p, Run(o, p, a.name + "=" + a.value[..1] + Escaped(a.value[1..]) + " "), a)
  {
    hide Step, Run, GoodName, NodeOut, Escaped, InCase, IsWhitespace, IsQuote;
    var c, rest := a.value[0], a.value[1..];
    assert a.value[..1] == [c] && [c] + rest == a.value;
    RunAppend(o, p, a.name + "=" + [c] + Escaped(rest), " ");
    RunAppend(o, p, a.name + "=" + [c], Escaped(rest));
    RawFirst(o, p, a.name, c);
    var p2 := Run(o, p, a.name + "=" + [c]);
    EscapedRun(o, p2, rest);
    var p3 := Run(o, p2, Escaped(rest));
    RunOne(o, p3, ' ');
    RawEnd(o, p3);
  }

  lemma RawFirst(o: Options, p: Parser, name: string, c: char)
    requires p.state == Attrib && GoodName(name) && !o.strict && !IsWhitespace(c) && !IsQuote(c)
    ensures Norm(Run(o, p, name + "=" + [c]))
         == Norm(p).(state := AttribValueUnquoted, buf := p.buf.(attribName := name, attribValue := [c]))
  {
    hide Step, Run, GoodName, IsWhitespace, IsQuote;
    RunAppend(o, p, name + "=", [c]);
    NameEquals(o, p, name);
    var p1 := Run(o, p, name + "=");
    RunOne(o, p1, c);
    RawStart(o, p1, c);
  }

  lemma AttributeRun(o: Options, p: Parser, a: Attribute)
    requires p.state == Attrib && GoodName(a.name) && CanAdd(o, p, a.name)
    requires a.style == Unquoted ==> !o.strict && GoodRaw(a.value)
    ensures AttributeRead(o, p, Run(o, p, AttributeText(a)), a)
  {
    hide Run, GoodName, AttributeRead, Escaped, CanAdd;
    match a.style
    case DoubleQuoted =>
      QuotedRun(o, p, a, '"');
      assert "=" + ['"'] == "=\"" && ['"'] == "\"";
    case SingleQuoted =>
      QuotedRun(o, p, a, '\'');
      assert "=" + ['\''] == "='" && ['\''] == "'";
    case Unquoted => RawRun(o, p, a);
  }

  lemma FirstNameChar(o: Options, p: Parser, c: char)
    requires p.state == Attrib && NameStart(c)
    ensures Norm(Step(o, p, c)) == Norm(p).(state := AttribName, buf := p.buf.(attribName := [c], attribValue := ""))
  {
    NameChars(c);
  }

  lemma StepEquals(o: Options, p: Parser)
    requires p.state == AttribName
    ensures Norm(Step(o, p, '=')) == Norm(p).(state := AttribValue)
  {
  }

  // White space around the equals sign is skipped.
  lemma {:induction false} AroundEquals(o: Options, p: Parser, v: string, w: string)
    requires p.state == AttribName && (forall k :: 0 <= k < |v| ==> IsWhitespace(v[k]))
    requires forall k :: 0 <= k < |w| ==> IsWhitespace(w[k])
    ensures Norm(Run(o, p, v + "=" + w)) == Norm(p).(state := AttribValue)
  {
    hide Step, Run, IsWhitespace;
    RunAppend(o, p, v + "=", w);
    RunAppend(o, p, v, "=");
    SpacesRun(o, p, v);
    var p1 := Run(o, p, v);
    RunOne(o, p1, '=');
    SomeEquals(o, p1);
    SpacesRun(o, Step(o, p1, '='), w);
  }

  lemma SomeEquals(o: Options, p: Parser)
    requires p.state == AttribName || p.state == AttribNameSawWhite
    ensures Norm(Step(o, p, '=')) == Norm(p).(state := AttribValue)
  {
  }

  lemma OneSpace(o: Options, p: Parser, c: char)
    requires (p.state == AttribName || p.state == AttribNameSawWhite || p.state == AttribValue) && IsWhitespace(c)
    ensures Norm(Step(o, p, c)) == Norm(p).(state := if p.state == AttribValue then AttribValue else AttribNameSawWhite)
  {
  }

  lemma {:induction false} SpacesRun(o: Options, p: Parser, w: string)
    requires p.state == AttribName || p.state == AttribNameSawWhite || p.state == AttribValue
    requires forall k :: 0 <= k < |w| ==> IsWhitespace(w[k])
    ensures Norm(Run(o, p, w)) == Norm(p).(state :=
      if p.state == AttribValue then AttribValue else if w == "" then p.state else AttribNameSawWhite)
  {
    hide Step, IsWhitespace;
    if w != "" {
      SpacesRun(o, p, w[..|w| - 1]);
      OneSpace(o, Run(o, p, w[..|w| - 1]), w[|w| - 1]);
    }
  }

  // A name without a value: in loose mode its value is the name at the end of the tag, but
  // empty where white space follows, and then its case is not changed either.
  lemma BareAtEnd(o: Options, p: Parser)
    requires !o.strict && p.state == AttribName && InCase(o, p.buf.attribName) !in p.tag.attributes
    ensures var q, name := Step(o, p, '>'), p.buf.attribName;
            var tag := p.tag.(attributes := p.tag.attributes[InCase(o, name) := name], isSelfClosing := false);
            q.tags == p.tags + [tag] && q.out == Feed(o, p.out, [OnAttribute(InCase(o, name), name), OnOpenTag(tag)])
  {
    var name := p.buf.attribName;
    var tag := p.tag.(attributes := p.tag.attributes[InCase(o, name) := name], isSelfClosing := false);
    FeedTwo(o, p.out, OnAttribute(InCase(o, name), name), OnOpenTag(tag));
    hide NodeOut, InCase, Feed;
  }

  lemma BareThenMore(o: Options, p: Parser, c: char)
    requires !o.strict && p.state == AttribNameSawWhite && NameStart(c)
    ensures var q, name := Step(o, p, c), p.buf.attribName;
            && q.state == AttribName && q.buf.attribName == [c] && q.tags == p.tags
            && q.tag == p.tag.(attributes := p.tag.attributes[name := ""])
            && q.out == Feed(o, p.out, [OnAttribute(name, "")])
  {
    NameChars(c);
    FeedOne(o, p.out, OnAttribute(p.buf.attribName, ""));
    hide NodeOut, Feed, NameStart;
  }

  lemma StepQuote(o: Options, p: Parser, quote: char)
    requires p.state == AttribValue && IsQuote(quote)
    ensures Norm(Step(o, p, quote)) == Norm(p).(state := AttribValueQuoted, buf := p.buf.(q := [quote]))
  {
  }

  lemma EqualsQuote(o: Options, p: Parser, quote: char)
    requires p.state == AttribName && IsQuote(quote)
    ensures Norm(Run(o, p, "=" + [quote])) == Norm(p).(state := AttribValueQuoted, buf := p.buf.(q := [quote]))
  {
    hide Step, Run, IsQuote;
    assert "=" + [quote] == ['=', quote];
    RunTwo(o, p, '=', quote);
    StepEquals(o, p);
    StepQuote(o, Step(o, p, '='), quote);
  }

  // The name of an attribute.
  lemma NameRun(o: Options, p: Parser, name: string)
    requires p.state == Attrib && GoodName(name)
    ensures Norm(Run(o, p, name))
         == Norm(p).(state := AttribName, buf := p.buf.(attribName := name, attribValue := ""))
  {
    hide Step, NameBody, NameStart, Run;
    var c, rest := name[0], name[1..];
    assert name == [c] + rest;
    RunAppend(o, p, [c], rest);
    RunOne(o, p, c);
    FirstNameChar(o, p, c);
    AttribNameRun(o, Run(o, p, [c]), rest);
  }

  lemma AttributeStart(o: Options, p: Parser, name: string, quote: char)
    requires p.state == Attrib && GoodName(name) && IsQuote(quote)
    ensures Norm(Run(o, p, name + ("=" + [quote])))
         == Norm(p).(state := AttribValueQuoted, buf := p.buf.(attribName := name, attribValue := "", q := [quote]))
  {
    hide Step, Run, GoodName, IsQuote;
    RunAppend(o, p, name, "=" + [quote]);
    NameRun(o, p, name);
    EqualsQuote(o, Run(o, p, name), quote);
  }

  lemma ClosingQuote(o: Options, p: Parser, quote: char)
    requires p.state == AttribValueQuoted && p.buf.q == [quote] && InCase(o, p.buf.attribName) !in p.tag.attributes
    ensures var q, name := Step(o, p, quote), InCase(o, p.buf.attribName);
            && q.state == AttribValueClosed && Frame(p, q) && q.tagName == p.tagName
            && q.tag == p.tag.(attributes := p.tag.attributes[name := p.buf.attribValue])
            && q.out == NodeOut(o, p.out, OnAttribute(name, p.buf.attribValue))
  {
    hide NodeOut, InCase;
  }

  // Where the parser is in a start tag, after the name and some attributes.
  ghost predicate InStartTag(o: Options, p: Parser, q: Parser, name: string, done: seq<Attribute>) {
    && Frame(p, q)
    && if done == [] then q.state == OpenTag && q.tagName == name && q.out == p.out
       else (q.state == AttribValueClosed || q.state == Attrib) && TagRead(o, p, q, name, done)
  }

  // The tag that has been read so far, with the events of its name and attributes sent.
  ghost predicate TagRead(o: Options, p: Parser, q: Parser, name: string, done: seq<Attribute>) {
    && Frame(p, q) && q.tagName == InCase(o, name) && q.tag == TagOf(o, name, done, false)
    && q.out == Feed(o, p.out, StartEvents(o, name, done))
  }

  lemma {:induction false} AttributeKeys(o: Options, s: seq<Attribute>, name: string)
    ensures name in AttributeMap(o, s) <==> exists k :: 0 <= k < |s| && InCase(o, s[k].name) == name
  {
    hide InCase;
    if s != [] { AttributeKeys(o, s[..|s| - 1], name); }
  }

  lemma SpaceAfterName(o: Options, q: Parser)
    requires q.state == OpenTag
    ensures var r, name := Step(o, q, ' '), InCase(o, q.tagName);
            && r.state == Attrib && Frame(q, r) && r.tagName == name && r.tag == Tag(name, map[], false)
            && r.out == NodeOut(o, q.out, OnOpenTagStart(name))
  {
    hide NodeOut, InCase;
    assert !NameBody(' ');
  }

  lemma SpaceAfterValue(o: Options, q: Parser)
    requires q.state == AttribValueClosed || q.state == Attrib
    ensures var r := Step(o, q, ' ');
            r.state == Attrib && Frame(q, r) && r.tagName == q.tagName && r.tag == q.tag && r.out == q.out
  {
  }

  lemma NameEvent(o: Options, u: Out, name: string)
    ensures Feed(o, u, StartEvents(o, name, [])) == NodeOut(o, u, OnOpenTagStart(InCase(o, name)))
  {
    FeedOne(o, u, OnOpenTagStart(InCase(o, name)));
    assert StartEvents(o, name, []) == [OnOpenTagStart(InCase(o, name))];
  }

  lemma SpaceRun(o: Options, p: Parser, q: Parser, name: string, done: seq<Attribute>)
    requires InStartTag(o, p, q, name, done)
    ensures var r := Step(o, q, ' ');
            r.state == Attrib && TagRead(o, p, r, name, done)
  {
    hide Step, InCase, NodeOut, Feed, StartEvents;
    if done == [] {
      SpaceAfterName(o, q);
      NameEvent(o, p.out, name);
    } else {
      SpaceAfterValue(o, q);
    }
  }

  lemma AttributeEvent(o: Options, u: Out, name: string, done: seq<Attribute>, a: Attribute)
    ensures Feed(o, u, StartEvents(o, name, done + [a]))
         == NodeOut(o, Feed(o, u, StartEvents(o, name, done)), OnAttribute(InCase(o, a.name), a.value))
  {
    hide InCase, Feed, NodeOut;
    var es, e := StartEvents(o, name, done), OnAttribute(InCase(o, a.name), a.value);
    assert (done + [a])[..|done|] == done;
    assert StartEvents(o, name, done + [a]) == es + [e];
    FeedNext(o, u, es, e);
  }

  lemma AttributeTurn(o: Options, p: Parser, q: Parser, name: string, done: seq<Attribute>, a: Attribute)
    requires InStartTag(o, p, q, name, done) && GoodAttributes(o, done + [a]) && p.buf.entity == ""
    ensures InStartTag(o, p, Run(o, q, " " + AttributeText(a)), name, done + [a])
  {
    hide *;
    NewAttribute(o, done, a);
    RunAppend(o, q, " ", AttributeText(a));
    RunOne(o, q, ' ');
    SpaceRun(o, p, q, name, done);
    AddedTo(o, p, Step(o, q, ' '), name, done, a);
  }

  lemma AddedTo(o: Options, p: Parser, q: Parser, name: string, done: seq<Attribute>, a: Attribute)
    requires q.state == Attrib && TagRead(o, p, q, name, done) && GoodName(a.name) && p.buf.entity == ""
    requires a.style == Unquoted ==> !o.strict && GoodRaw(a.value)
    requires InCase(o, a.name) !in AttributeMap(o, done)
    requires AttributeMap(o, done + [a]) == AttributeMap(o, done)[InCase(o, a.name) := a.value]
    ensures InStartTag(o, p, Run(o, q, AttributeText(a)), name, done + [a])
  {
    hide Run, NodeOut, AttributeText, InCase, GoodName, Feed, StartEvents, AttributeMap, GoodRaw;
    AttributeRun(o, q, a);
    AttributeEvent(o, p.out, name, done, a);
  }

  lemma NewAttribute(o: Options, done: seq<Attribute>, a: Attribute)
    requires GoodAttributes(o, done + [a])
    ensures GoodName(a.name) && InCase(o, a.name) !in AttributeMap(o, done)
    ensures a.style == Unquoted ==> !o.strict && GoodRaw(a.value)
    ensures AttributeMap(o, done + [a]) == AttributeMap(o, done)[InCase(o, a.name) := a.value]
  {
    hide GoodName, InCase, GoodRaw;
    AttributeKeys(o, done, InCase(o, a.name));
    var all := done + [a];
    assert all[..|done|] == done && all[|done|] == a;
    assert forall k :: 0 <= k < |done| ==> all[k] == done[k];
  }

  lemma {:induction false} AttributesRun(o: Options, p: Parser, p1: Parser, name: string, s: seq<Attribute>)
    requires InStartTag(o, p, p1, name, []) && GoodAttributes(o, s) && p.buf.entity == ""
    ensures InStartTag(o, p, Run(o, p1, AttributesText(s)), name, s)
  {
    hide Step, GoodName, GoodRaw, InStartTag, AttributeText, InCase;
    if s != [] {
      var h, a := s[..|s| - 1], s[|s| - 1];
      assert s == h + [a];
      AttributesRun(o, p, p1, name, h);
      RunAppend(o, p1, AttributesText(h), " " + AttributeText(a));
      AttributeTurn(o, p, Run(o, p1, AttributesText(h)), name, h, a);
    }
  }

  // ---------- the ends of tags ----------

  lemma StartTagRun(o: Options, p: Parser, name: string, s: seq<Attribute>)
    requires CanOpen(o, p) && GoodTag(o, name, s) && p.buf.entity == ""
    ensures InStartTag(o, p, Run(o, p, "<" + name + AttributesText(s)), name, s)
  {
    hide Step, Run, GoodName, AttributesText, InCase, CanOpen, GoodAttributes;
    RunAppend(o, p, "<" + name, AttributesText(s));
    OpenRun(o, p, name);
    AttributesRun(o, p, Run(o, p, "<" + name), name, s);
  }

  lemma ReadTag(o: Options, p: Parser, q: Parser, name: string, s: seq<Attribute>)
    requires InStartTag(o, p, q, name, s)
    ensures TagRead(o, p, if s == [] then NewTag(o, q) else q, name, s)
  {
    hide NodeOut, InCase, Feed, StartEvents;
    if s == [] { NameEvent(o, p.out, name); }
  }

  lemma GreaterOpens(o: Options, q: Parser)
    ensures var q0 := q.(pos := Advance(o, q.pos, '>'));
            && (q.state == OpenTag ==> Step(o, q, '>') == OpenTheTag(o, NewTag(o, q0), false))
            && (q.state == AttribValueClosed || q.state == Attrib ==> Step(o, q, '>') == OpenTheTag(o, q0, false))
  {
    hide OpenTheTag, NewTag;
    assert !NameBody('>');
  }

  lemma SlashGoesOn(o: Options, q: Parser)
    ensures var q0 := q.(pos := Advance(o, q.pos, '/'));
            && (q.state == OpenTag ==> Step(o, q, '/') == NewTag(o, q0).(state := OpenTagSlash))
            && (q.state == AttribValueClosed || q.state == Attrib ==>
                  Step(o, q, '/') == q0.(state := OpenTagSlash))
  {
    hide NewTag;
    assert !NameBody('/');
  }

  lemma GreaterStep(o: Options, p: Parser, q: Parser, name: string, s: seq<Attribute>)
    requires InStartTag(o, p, q, name, s)
    ensures var r := Step(o, q, '>');
            && r.state == (if IsScript(o, name) then InScript else InText) && r.tagName == ""
            && r.tags == p.tags + [TagOf(o, name, s, false)] && r.sawRoot
            && r.closedRoot == p.closedRoot && r.script == p.script && r.buf.entity == p.buf.entity
            && r.out == Feed(o, p.out, TagEvents(o, name, s, false))
  {
    hide Step, NodeOut, NewTag, InCase, Feed, StartEvents;
    var q0 := q.(pos := Advance(o, q.pos, '>'));
    ReadTag(o, p, q0, name, s);
    GreaterOpens(o, q);
    FeedNext(o, p.out, StartEvents(o, name, s), OnOpenTag(TagOf(o, name, s, false)));
  }

  lemma SlashStep(o: Options, p: Parser, q: Parser, name: string, s: seq<Attribute>)
    requires InStartTag(o, p, q, name, s)
    ensures var r := Step(o, q, '/');
            r.state == OpenTagSlash && TagRead(o, p, r, name, s)
  {
    hide Step, NodeOut, NewTag, InCase, Feed, StartEvents, TagOf;
    ReadTag(o, p, q.(pos := Advance(o, q.pos, '/')), name, s);
    SlashGoesOn(o, q);
  }

  // What an end tag changes.
  predicate Closed(o: Options, p: Parser, r: Parser, name: string) {
    && r.state == InText && r.sawRoot == p.sawRoot && r.script == p.script && r.buf.entity == p.buf.entity
    && p.tags != [] && r.tags == p.tags[..|p.tags| - 1] && r.closedRoot == (p.closedRoot || |p.tags| == 1)
    && r.out == NodeOut(o, p.out, OnCloseTag(name))
  }

  lemma CloseDownOne(o: Options, p: Parser)
    requires p.tags != []
    ensures CloseDown(o, p, |p.tags| - 1) == CloseOne(o, p)
  {
    hide CloseOne;
    var q := CloseOne(o, p);
    assert CloseDown(o, q, |p.tags| - 1) == q;
  }

  lemma ClosesInnermost(o: Options, p: Parser)
    requires p.tags != [] && p.script == "" && p.tagName != ""
    requires p.tags[|p.tags| - 1].name == InCase(o, p.tagName)
    ensures Closed(o, p, CloseTheTag(o, p), InCase(o, p.tagName))
  {
    hide NodeOut, InCase;
    var name := InCase(o, p.tagName);
    assert FindTag(p.tags, name) == |p.tags| - 1;
    CloseDownOne(o, p.(tagName := name));
    hide CloseDown, Fail, FindTag;
  }

  lemma EmptyTagEnd(o: Options, p: Parser, q: Parser, name: string, s: seq<Attribute>)
    requires InStartTag(o, p, q, name, s) && GoodName(name) && p.script == "" && Nesting.GoodCase(o)
    ensures var r := Run(o, q, "/>");
            && r.state == InText && r.sawRoot && r.script == p.script && r.buf.entity == p.buf.entity
            && r.tags == p.tags && r.closedRoot == (p.closedRoot || p.tags == [])
            && r.out == Feed(o, p.out, TagEvents(o, name, s, true) + [OnCloseTag(InCase(o, name))])
  {
    CaseSettles(o, name);
    hide Step, Run, NodeOut, InCase, Feed, StartEvents, GoodName, InStartTag, Nesting.GoodCase;
    assert "/>" == "/" + ">";
    RunAppend(o, q, "/", ">");
    RunOne(o, q, '/');
    SlashStep(o, p, q, name, s);
    var q1 := Step(o, q, '/');
    RunOne(o, q1, '>');
    SlashGreater(o, q1);
    var tag := TagOf(o, name, s, true);
    FeedNext(o, p.out, StartEvents(o, name, s), OnOpenTag(tag));
    FeedNext(o, p.out, TagEvents(o, name, s, true), OnCloseTag(InCase(o, name)));
    assert (p.tags + [tag])[..|p.tags|] == p.tags;
  }

  lemma CaseSettles(o: Options, name: string)
    requires Nesting.GoodCase(o) && name != ""
    ensures InCase(o, InCase(o, name)) == InCase(o, name) != ""
  {
  }

  lemma SlashGreater(o: Options, p: Parser)
    requires p.state == OpenTagSlash && p.tag.name == p.tagName && p.script == ""
    requires InCase(o, p.tagName) == p.tagName != ""
    ensures var r, tag := Step(o, p, '>'), p.tag.(isSelfClosing := true);
            && r.state == InText && r.sawRoot && r.script == p.script && r.buf.entity == p.buf.entity
            && r.tags == (p.tags + [tag])[..|p.tags|] && r.closedRoot == (p.closedRoot || p.tags == [])
            && r.out == NodeOut(o, NodeOut(o, p.out, OnOpenTag(tag)), OnCloseTag(p.tagName))
  {
    SlashDispatch(o, p);
    var p0 := p.(pos := Advance(o, p.pos, '>'));
    hide Dispatch, Step, NodeOut, InCase, CloseTheTag;
    ClosesInnermost(o, OpenTheTag(o, p0, true));
  }

  lemma SlashDispatch(o: Options, p: Parser)
    requires p.state == OpenTagSlash
    ensures Step(o, p, '>') == CloseTheTag(o, OpenTheTag(o, p.(pos := Advance(o, p.pos, '>')), true))
  {
    hide CloseTheTag, OpenTheTag;
  }

  lemma CloseTagStart(o: Options, p: Parser, c: char)
    requires InRootText(p) && NameStart(c)
    ensures Norm(Run(o, p, "</" + [c])) == Norm(p).(state := CloseTag, tagName := [c])
  {
    hide Run, Step, NameStart;
    assert "</" + [c] == ['<', '/', c];
    RunThree(o, p, '<', '/', c);
    AngleStep(o, p);
    var p1 := Step(o, p, '<');
    SlashOpens(o, p1);
    FirstCloseChar(o, Step(o, p1, '/'), c);
  }

  lemma SlashOpens(o: Options, p: Parser)
    requires p.state == OpenWaka
    ensures Norm(Step(o, p, '/')) == Norm(p).(state := CloseTag, tagName := "")
  {
    assert !NameStart('/');
  }

  lemma FirstCloseChar(o: Options, p: Parser, c: char)
    requires p.state == CloseTag && p.tagName == "" && NameStart(c)
    ensures Norm(Step(o, p, c)) == Norm(p).(tagName := [c])
  {
    NameChars(c);
  }

  lemma CloseTagEnd(o: Options, p: Parser)
    requires p.state == CloseTag && p.tagName != "" && p.script == ""
    requires p.tags != [] && p.tags[|p.tags| - 1].name == InCase(o, p.tagName)
    ensures Closed(o, p, Step(o, p, '>'), InCase(o, p.tagName))
  {
    hide Step, CloseTheTag, InCase;
    GreaterCloses(o, p);
    ClosesInnermost(o, p.(pos := Advance(o, p.pos, '>')));
  }

  lemma GreaterCloses(o: Options, p: Parser)
    requires p.state == CloseTag && p.tagName != ""
    ensures Step(o, p, '>') == CloseTheTag(o, p.(pos := Advance(o, p.pos, '>')))
  {
    hide CloseTheTag;
  }

  lemma EndTagRun(o: Options, p: Parser, name: string)
    requires InRootText(p) && GoodName(name) && p.script == ""
    requires p.tags != [] && p.tags[|p.tags| - 1].name == InCase(o, name)
    ensures Closed(o, p, Run(o, p, "</" + name + ">"), InCase(o, name))
  {
    hide Step, Run, NameBody, NameStart, InCase;
    var c, rest := name[0], name[1..];
    assert [c] + rest == name;
    assert "</" + name == ("</" + [c]) + rest;
    RunAppend(o, p, "</" + name, ">");
    RunAppend(o, p, "</" + [c], rest);
    CloseTagStart(o, p, c);
    var p1 := Run(o, p, "</" + [c]);
    CloseNameRun(o, p1, rest);
    var p2 := Run(o, p1, rest);
    RunOne(o, p2, '>');
    CloseTagEnd(o, p2);
  }

  // ---------- scripts ----------

  // The parser within a script of which s has been read; a "<" at the end may be held back.
  predicate InScriptText(p: Parser, q: Parser, s: string) {
    && q.tags == p.tags && q.sawRoot == p.sawRoot && q.closedRoot == p.closedRoot
    && q.buf.entity == p.buf.entity && q.out == p.out && q.tagName == ""
    && (|| (q.state == InScript && q.script == s)
        || (q.state == ScriptEnding && s != "" && s[|s| - 1] == '<' && q.script == s[..|s| - 1]))
  }

  lemma ScriptStep(o: Options, q: Parser, c: char)
    requires q.state == InScript || (q.state == ScriptEnding && c != '/')
    ensures Norm(Step(o, q, c))
         == if q.state == ScriptEnding then Norm(q).(state := InScript, script := q.script + "<" + [c])
            else if c == '<' then Norm(q).(state := ScriptEnding)
            else Norm(q).(script := q.script + [c])
  {
  }

  lemma ScriptChar(o: Options, p: Parser, q: Parser, s: string, c: char)
    requires InScriptText(p, q, s) && !(s != "" && s[|s| - 1] == '<' && c == '/')
    ensures InScriptText(p, Step(o, q, c), s + [c])
  {
    hide Step;
    ScriptStep(o, q, c);
    assert (s + [c])[..|s|] == s;
    if q.state == ScriptEnding { assert s[..|s| - 1] + "<" + [c] == s + [c]; }
  }

  lemma {:induction false} ScriptRun(o: Options, p: Parser, q: Parser, s: string)
    requires InScriptText(p, q, "") && forall k :: 0 <= k < |s| - 1 ==> !(s[k] == '<' && s[k + 1] == '/')
    ensures InScriptText(p, Run(o, q, s), s)
  {
    hide Step, InScriptText;
    if s != "" {
      var t, c := s[..|s| - 1], s[|s| - 1];
      ScriptRun(o, p, q, t);
      assert t != "" ==> t[|t| - 1] == s[|s| - 2];
      ScriptChar(o, p, Run(o, q, t), t, c);
      assert t + [c] == s;
    }
  }

  lemma ScriptSlash(o: Options, p: Parser)
    requires p.state == ScriptEnding
    ensures Norm(Step(o, p, '/')) == Norm(p).(state := CloseTag)
  {
  }

  // The end tag of a script up to before its ">".
  lemma ScriptEndName(o: Options, p: Parser)
    requires p.state == InScript && p.tagName == ""
    ensures Norm(Run(o, p, "</script")) == Norm(p).(state := CloseTag, tagName := "script")
  {
    hide Run, Step;
    assert "</script" == "</s" + "cript" && "</s" == ['<', '/', 's'] && "s" + "cript" == "script" && ['s'] == "s";
    assert NameStart('s') && forall k :: 0 <= k < |"cript"| ==> NameBody("cript"[k]);
    RunAppend(o, p, "</s", "cript");
    RunThree(o, p, '<', '/', 's');
    ScriptStep(o, p, '<');
    var p1 := Step(o, p, '<');
    ScriptSlash(o, p1);
    FirstCloseChar(o, Step(o, p1, '/'), 's');
    CloseNameRun(o, Step(o, Step(o, p1, '/'), 's'), "cript");
  }

  lemma CloseScript(o: Options, p: Parser)
    requires p.tagName == "script"
    ensures CloseTheTag(o, p) == CloseTheTag(o, EndScript(o, p))
  {
    hide NodeOut, CloseNamed;
  }

  // The ">" of the end tag of a script sends its text and closes it.
  lemma ScriptCloses(o: Options, p: Parser)
    requires p.state == CloseTag && p.tagName == "script" && p.tags != []
    requires p.tags[|p.tags| - 1].name == InCase(o, "script")
    ensures var r, u := Step(o, p, '>'), if p.script != "" then NodeOut(o, p.out, OnScript(p.script)) else p.out;
            && r.state == InText && r.sawRoot == p.sawRoot && r.script == "" && r.buf.entity == p.buf.entity
            && r.tags == p.tags[..|p.tags| - 1] && r.closedRoot == (p.closedRoot || |p.tags| == 1)
            && r.out == NodeOut(o, u, OnCloseTag(InCase(o, "script")))
  {
    hide Step, CloseTheTag, InCase, NodeOut;
    GreaterCloses(o, p);
    var p0 := p.(pos := Advance(o, p.pos, '>'));
    CloseScript(o, p0);
    ClosesInnermost(o, EndScript(o, p0));
  }

  lemma ScriptContent(o: Options, p: Parser, text: string)
    requires p.state == InScript && p.script == "" && p.tagName == "" && p.tags != [] && GoodScript(text)
    requires p.tags[|p.tags| - 1].name == InCase(o, "script")
    ensures var r, es := Run(o, p, text + "</script>"), if text != "" then [OnScript(text)] else [];
            && r.state == InText && r.sawRoot == p.sawRoot && r.script == "" && r.buf.entity == p.buf.entity
            && r.tags == p.tags[..|p.tags| - 1] && r.closedRoot == (p.closedRoot || |p.tags| == 1)
            && r.out == Feed(o, p.out, es + [OnCloseTag(InCase(o, "script"))])
  {
    hide Run, Step, InCase, NodeOut, Feed;
    assert text + "</script>" == text + "</script" + ">";
    RunAppend(o, p, text + "</script", ">");
    RunAppend(o, p, text, "</script");
    ScriptRun(o, p, p, text);
    var q := Run(o, p, text);
    ScriptEndName(o, q);
    var q1 := Run(o, q, "</script");
    RunOne(o, q1, '>');
    ScriptCloses(o, q1);
    var e := OnCloseTag(InCase(o, "script"));
    FeedNothing(o, p.out);
    FeedOne(o, p.out, OnScript(text));
    FeedNext(o, p.out, if text != "" then [OnScript(text)] else [], e);
  }

  // ---------- whole trees ----------

  // Inside an element, ready for its content.
  predicate Inside(p: Parser) { InRootText(p) && p.tags != [] && p.script == "" && p.buf.entity == "" }

  // Before the root element.
  predicate Before(p: Parser) {
    && (p.state == Begin || p.state == InText) && !p.sawRoot && !p.closedRoot && p.tags == []
    && p.script == "" && p.buf.entity == ""
  }

  predicate Ready(p: Parser) { Inside(p) || Before(p) }

  lemma ReadyOpens(o: Options, p: Parser)
    requires Ready(p)
    ensures CanOpen(o, p)
  {
  }

  // What parsing content inside an element comes to.
  predicate Parsed(o: Options, p: Parser, r: Parser, es: seq<Event>) {
    Inside(r) && r.tags == p.tags && r.out == Feed(o, p.out, es)
  }

  lemma TextParsed(o: Options, p: Parser, text: string)
    requires Inside(p)
    ensures Parsed(o, p, Run(o, p, Escaped(text)), [OnText(text)])
  {
    hide Step, Run, Escaped, Feed;
    EscapedRun(o, p, text);
    FeedOne(o, p.out, OnText(text));
  }

  lemma MarkedInside(o: Options, p: Parser, r: Parser, es: seq<Event>)
    requires Inside(p) && Marked(o, p, r, es)
    ensures Parsed(o, p, r, es)
  {
    hide Feed;
  }

  // What an element comes to, inside another or as the root.
  predicate Complete(o: Options, p: Parser, r: Parser, es: seq<Event>) {
    && r.state == InText && r.sawRoot && r.script == "" && r.buf.entity == "" && r.tags == p.tags
    && r.closedRoot == (p.tags == []) && r.out == Feed(o, p.out, es)
  }

  lemma EmptyParsed(o: Options, p: Parser, name: string, s: seq<Attribute>)
    requires Ready(p) && GoodTag(o, name, s) && Nesting.GoodCase(o)
    ensures Complete(o, p, Run(o, p, "<" + name + AttributesText(s) + "/>"), NodeEvents(o, EmptyElement(name, s)))
  {
    hide Step, Run, NodeOut, GoodName, AttributesText, TagEvents, Feed, InCase, InStartTag, Nesting.GoodCase;
    hide GoodAttributes;
    ReadyOpens(o, p);
    RunAppend(o, p, "<" + name + AttributesText(s), "/>");
    StartTagRun(o, p, name, s);
    EmptyTagEnd(o, p, Run(o, p, "<" + name + AttributesText(s)), name, s);
  }

  // The start tag of an element leads inside it, or into a script.
  lemma StartParsed(o: Options, p: Parser, name: string, s: seq<Attribute>)
    requires Ready(p) && GoodTag(o, name, s)
    ensures var r := Run(o, p, "<" + name + AttributesText(s) + ">");
            && r.state == (if IsScript(o, name) then InScript else InText) && r.tagName == ""
            && r.sawRoot && !r.closedRoot && r.script == "" && r.buf.entity == ""
            && r.tags == p.tags + [TagOf(o, name, s, false)] && r.out == Feed(o, p.out, TagEvents(o, name, s, false))
  {
    hide Step, Run, GoodTag, AttributesText, Feed, TagEvents, InCase, InStartTag, IsScript;
    ReadyOpens(o, p);
    RunAppend(o, p, "<" + name + AttributesText(s), ">");
    StartTagRun(o, p, name, s);
    var q := Run(o, p, "<" + name + AttributesText(s));
    RunOne(o, q, '>');
    GreaterStep(o, p, q, name, s);
  }

  lemma EndParsed(o: Options, p: Parser, name: string)
    requires Inside(p) && GoodName(name) && p.tags[|p.tags| - 1].name == InCase(o, name)
    ensures var r := Run(o, p, "</" + name + ">");
            && r.state == InText && r.sawRoot && r.script == "" && r.buf.entity == ""
            && r.tags == p.tags[..|p.tags| - 1] && r.closedRoot == (|p.tags| == 1)
            && r.out == Feed(o, p.out, [OnCloseTag(InCase(o, name))])
  {
    hide Step, Run, NodeOut, GoodName, InCase, Feed;
    EndTagRun(o, p, name);
    FeedOne(o, p.out, OnCloseTag(InCase(o, name)));
  }

  // From the start tag, the content and the end tag.
  lemma ElementComplete(
    o: Options, p: Parser, p1: Parser, p2: Parser, r: Parser, tag: Tag, a: seq<Event>, b: seq<Event>, c: seq<Event>)
    requires p1.tags == p.tags + [tag] && p1.out == Feed(o, p.out, a) && Parsed(o, p1, p2, b)
    requires r.state == InText && r.sawRoot && r.script == "" && r.buf.entity == ""
    requires |p2.tags| >= 1 && r.tags == p2.tags[..|p2.tags| - 1] && r.closedRoot == (|p2.tags| == 1)
    requires r.out == Feed(o, p2.out, c)
    ensures Complete(o, p, r, a + b + c)
  {
    hide Feed;
    assert (p.tags + [tag])[..|p.tags|] == p.tags;
    FeedThree(o, p.out, a, b, c);
  }

  lemma ElementText(o: Options, n: Node)
    requires n.Element?
    ensures NodeText(n)
         == "<" + n.name + AttributesText(n.attributes) + ">" + NodesText(n.children) + ("</" + n.name + ">")
    ensures NodeEvents(o, n) == TagEvents(o, n.name, n.attributes, false) + NodesEvents(o, n.children)
                                  + [OnCloseTag(InCase(o, n.name))]
  {
    hide AttributesText, NodesText, TagEvents, NodesEvents, InCase;
  }

  // An element with its content.
  lemma ElementParsed(o: Options, p: Parser, n: Node)
    requires Ready(p) && n.Element? && GoodNode(o, n) && GoodUpper(o) && Nesting.GoodCase(o)
    ensures Complete(o, p, Run(o, p, NodeText(n)), NodeEvents(o, n))
    decreases n, 1
  {
    hide Step, Run, GoodName, AttributesText, NodesText, TagEvents, NodesEvents, GoodUpper, InCase, Feed;
    hide Nesting.GoodCase, NodeText, NodeEvents, Complete, IsScript, GoodAttributes, Before;
    ElementText(o, n);
    var start, body := "<" + n.name + AttributesText(n.attributes) + ">", NodesText(n.children);
    var end := "</" + n.name + ">";
    RunAppend(o, p, start + body, end);
    RunAppend(o, p, start, body);
    StartParsed(o, p, n.name, n.attributes);
    var p1 := Run(o, p, start);
    NodesParsed(o, p1, n.children);
    var p2 := Run(o, p1, body);
    EndParsed(o, p2, n.name);
    ElementComplete(
      o, p, p1, p2, Run(o, p2, end), TagOf(o, n.name, n.attributes, false),
      TagEvents(o, n.name, n.attributes, false), NodesEvents(o, n.children), [OnCloseTag(InCase(o, n.name))]);
  }

  lemma ScriptName()
    ensures GoodName("script")
  {
    assert NameStart('s');
  }

  // A script with its text.
  lemma ScriptParsed(o: Options, p: Parser, s: seq<Attribute>, text: string)
    requires Ready(p) && IsScript(o, "script") && GoodAttributes(o, s) && GoodScript(text)
    ensures Complete(o, p, Run(o, p, NodeText(Script(s, text))), NodeEvents(o, Script(s, text)))
  {
    ScriptText(o, s, text);
    hide Step, Run, AttributesText, TagEvents, InCase, Feed, NodeText, NodeEvents, IsScript, GoodAttributes, GoodScript;
    hide Before, Inside, GoodName;
    ScriptName();
    var start := "<script" + AttributesText(s) + ">";
    assert "<" + "script" == "<script";
    RunAppend(o, p, start, text + "</script>");
    StartParsed(o, p, "script", s);
    var p1 := Run(o, p, start);
    ScriptContent(o, p1, text);
    assert (p.tags + [TagOf(o, "script", s, false)])[..|p.tags|] == p.tags;
    var es := if text != "" then [OnScript(text)] else [];
    FeedBoth(o, p.out, TagEvents(o, "script", s, false), es + [OnCloseTag(InCase(o, "script"))]);
  }

  lemma ScriptText(o: Options, s: seq<Attribute>, text: string)
    ensures NodeText(Script(s, text)) == "<script" + AttributesText(s) + ">" + (text + "</script>")
    ensures var es: seq<Event> := if text != "" then [OnScript(text)] else [];
            NodeEvents(o, Script(s, text))
              == TagEvents(o, "script", s, false) + (es + [OnCloseTag(InCase(o, "script"))])
  {
    hide AttributesText, TagEvents, InCase;
    var a, b := "<script" + AttributesText(s) + ">", text + "</script>";
    assert a + text + "</script>" == a + b;
    var es: seq<Event> := if text != "" then [OnScript(text)] else [];
    var t, c := TagEvents(o, "script", s, false), [OnCloseTag(InCase(o, "script"))];
    assert t + es + c == t + (es + c);
  }

  lemma NodeParsed(o: Options, p: Parser, n: Node)
    requires Inside(p) && GoodNode(o, n) && GoodUpper(o) && Nesting.GoodCase(o)
    ensures Parsed(o, p, Run(o, p, NodeText(n)), NodeEvents(o, n))
    decreases n, 2
  {
    hide Step, Run, GoodTag, AttributesText, NodesText, NodesEvents, Feed, TagEvents, InCase, IsScript, GoodScript;
    hide Escaped, GoodUpper, Nesting.GoodCase, GoodComment, GoodCData, GoodTarget, GoodBody, GoodDeclaration;
    hide GoodAttributes, CommentEvents, CDataEvents, Marked;
    ReadyOpens(o, p);
    var r, es := Run(o, p, NodeText(n)), NodeEvents(o, n);
    match n
    case Element(_, _, _) => ElementParsed(o, p, n);
    case EmptyElement(name, s) => EmptyParsed(o, p, name, s);
    case Script(s, text) => ScriptParsed(o, p, s, text);
    case Text(text) => TextParsed(o, p, text);
    case Comment(text) =>
      CommentRead(o, p, text);
      MarkedInside(o, p, r, es);
    case CDataSection(text) =>
      CDataRead(o, p, text);
      MarkedInside(o, p, r, es);
    case Instruction(target, body) =>
      InstructionRead(o, p, target, body);
      MarkedInside(o, p, r, es);
    case Declaration(text) =>
      DeclarationRead(o, p, text);
      MarkedInside(o, p, r, es);
    case Doctype(_) =>
  }

  lemma NodesParsed(o: Options, p: Parser, s: seq<Node>)
    requires Inside(p) && (forall k :: 0 <= k < |s| ==> GoodNode(o, s[k])) && GoodUpper(o) && Nesting.GoodCase(o)
    ensures Parsed(o, p, Run(o, p, NodesText(s)), NodesEvents(o, s))
    decreases s
  {
    hide Step, GoodNode, NodeText, NodeEvents, Feed, GoodUpper, Nesting.GoodCase;
    if s == [] {
      FeedNothing(o, p.out);
    } else {
      var h, n := s[..|s| - 1], s[|s| - 1];
      NodesParsed(o, p, h);
      var q := Run(o, p, NodesText(h));
      RunAppend(o, p, NodesText(h), NodeText(n));
      NodeParsed(o, q, n);
      FeedBoth(o, p.out, NodesEvents(o, h), NodeEvents(o, n));
    }
  }

  // ---------- what stands before the root ----------

  lemma BeforeParsed(o: Options, p: Parser, n: Node)
    requires Before(p) && GoodBefore(o, n) && GoodUpper(o) && (n.Doctype? ==> NoDoctype(p))
    ensures var r := Run(o, p, NodeText(n));
            Before(r) && r.out == Feed(o, p.out, NodeEvents(o, n)) && (!n.Doctype? && NoDoctype(p) ==> NoDoctype(r))
  {
    hide Step, Run, Feed, GoodUpper, GoodComment, GoodTarget, GoodBody, GoodDeclaration, GoodDoctype, CommentEvents;
    ReadyOpens(o, p);
    match n
    case Comment(text) => CommentRead(o, p, text);
    case Instruction(target, body) => InstructionRead(o, p, target, body);
    case Declaration(text) => DeclarationRead(o, p, text);
    case Doctype(text) => DoctypeRead(o, p, text);
  }

  lemma {:induction false} PrologParsed(o: Options, s: seq<Node>)
    requires GoodProlog(o, s) && GoodUpper(o)
    ensures var r := Run(o, INITIAL, NodesText(s));
            && Before(r) && r.out == Feed(o, INITIAL.out, NodesEvents(o, s))
            && ((forall k :: 0 <= k < |s| ==> !s[k].Doctype?) ==> NoDoctype(r))
  {
    hide Step, GoodBefore, NodeText, NodeEvents, Feed, GoodUpper;
    if s == [] {
      FeedNothing(o, INITIAL.out);
    } else {
      var h, n := s[..|s| - 1], s[|s| - 1];
      PrologParsed(o, h);
      var q := Run(o, INITIAL, NodesText(h));
      RunAppend(o, INITIAL, NodesText(h), NodeText(n));
      hide Before, NoDoctype, Run;
      BeforeParsed(o, q, n);
      FeedBoth(o, INITIAL.out, NodesEvents(o, h), NodeEvents(o, n));
    }
  }

  // ---------- documents ----------

  function DocumentText(prolog: seq<Node>, root: Node): string { NodesText(prolog) + NodeText(root) }

  function DocumentEvents(o: Options, prolog: seq<Node>, root: Node): seq<Event> {
    Sent(o, NodesEvents(o, prolog) + NodeEvents(o, root))
  }

  ghost predicate GoodDocument(o: Options, prolog: seq<Node>, root: Node) {
    GoodProlog(o, prolog) && (root.Element? || root.EmptyElement? || root.Script?) && GoodNode(o, root)
  }

  lemma RootParsed(o: Options, p: Parser, n: Node)
    requires Before(p) && (n.Element? || n.EmptyElement? || n.Script?) && GoodNode(o, n)
    requires GoodUpper(o) && Nesting.GoodCase(o)
    ensures Complete(o, p, Run(o, p, NodeText(n)), NodeEvents(o, n))
  {
    hide Step, Run, GoodTag, AttributesText, NodesText, TagEvents, NodesEvents, GoodUpper, InCase, Feed;
    hide Nesting.GoodCase, IsScript, GoodAttributes, GoodScript;
    match n
    case Element(_, _, _) => ElementParsed(o, p, n);
    case EmptyElement(name, s) => EmptyParsed(o, p, name, s);
    case Script(s, text) => ScriptParsed(o, p, s, text);
  }

  // Parsing the text of a document sends the events of its tree, in order, with no
  // error, every tag closed and no text left.
  lemma DocumentParsed(o: Options, prolog: seq<Node>, root: Node)
    requires GoodDocument(o, prolog, root) && GoodUpper(o) && Nesting.GoodCase(o)
    ensures var r := Run(o, INITIAL, DocumentText(prolog, root));
            && r.out.events == DocumentEvents(o, prolog, root) && !r.out.error && r.out.textNode == ""
            && r.tags == [] && r.closedRoot && r.state == InText
  {
    hide Step, Run, GoodNode, GoodProlog, NodeText, NodesText, NodesEvents, NodeEvents, GoodUpper, Feed, Sent;
    hide Nesting.GoodCase;
    PrologParsed(o, prolog);
    var p := Run(o, INITIAL, NodesText(prolog));
    RunAppend(o, INITIAL, NodesText(prolog), NodeText(root));
    RootParsed(o, p, root);
    FeedBoth(o, INITIAL.out, NodesEvents(o, prolog), NodeEvents(o, root));
    FeedIs(o, NodesEvents(o, prolog) + NodeEvents(o, root));
    LastCloses(o, root);
    hide Waiting;
    WaitingAfter(NodesEvents(o, prolog) + NodeEvents(o, root));
  }

  lemma LastCloses(o: Options, n: Node)
    requires n.Element? || n.EmptyElement? || n.Script?
    ensures var es := NodeEvents(o, n);
            es != [] && es[|es| - 1].OnCloseTag?
  {
    hide TagEvents, NodesEvents, InCase;
  }

  lemma WaitingAfter(es: seq<Event>)
    requires es != [] && es[|es| - 1].OnCloseTag?
    ensures Waiting(es) == ""
  {
  }

  lemma {:induction false} ConcatBoth(a: seq<string>, b: seq<string>)
    ensures Nesting.Concat(a + b) == Nesting.Concat(a) + Nesting.Concat(b)
    decreases |a|
  {
    if a == [] {
      assert a + b == b;
    } else {
      assert (a + b)[0] == a[0] && (a + b)[1..] == a[1..] + b;
      ConcatBoth(a[1..], b);
      assert a[0] + (Nesting.Concat(a[1..]) + Nesting.Concat(b)) == (a[0] + Nesting.Concat(a[1..])) + Nesting.Concat(b);
    }
  }

  lemma ConcatOne(c: string)
    ensures Nesting.Concat([c]) == c
  {
    assert [c][1..] == [] && c + "" == c;
  }

  lemma ConcatLast(h: seq<string>, c: string)
    ensures Nesting.Concat(h + [c]) == Nesting.Concat(h) + c
  {
    hide *;
    ConcatBoth(h, [c]);
    ConcatOne(c);
  }

  // However its text is cut, a document is never refused and gives those events.
  lemma DocumentInChunks(o: Options, prolog: seq<Node>, root: Node, chunks: seq<string>)
    requires GoodDocument(o, prolog, root) && GoodUpper(o) && Nesting.GoodCase(o)
    requires chunks != [] && Nesting.Concat(chunks) == DocumentText(prolog, root)
    ensures var r := Nesting.Written(o, INITIAL, chunks);
            r.Ok? && r.value.out.events == DocumentEvents(o, prolog, root)
  {
    hide *;
    var h, last := chunks[..|chunks| - 1], chunks[|chunks| - 1];
    DocumentParsed(o, prolog, root);
    NoErrorBefore(o, chunks);
    Nesting.ChunkIndependence(o, INITIAL, chunks);
  }

  // Where the whole text gives no error, neither does it without the last chunk.
  lemma NoErrorBefore(o: Options, chunks: seq<string>)
    requires Nesting.GoodCase(o) && chunks != [] && !Run(o, INITIAL, Nesting.Concat(chunks)).out.error
    ensures !Run(o, INITIAL, Nesting.Concat(chunks[..|chunks| - 1])).out.error
  {
    hide *;
    var h, last := chunks[..|chunks| - 1], chunks[|chunks| - 1];
    assert chunks == h + [last];
    var head := Nesting.Concat(h);
    ConcatLast(h, last);
    RunAppend(o, INITIAL, head, last);
    Nesting.ErrorStays(o, Run(o, INITIAL, head), last);
  }

  // ---------- text sent twice ----------

  lemma UnknownEnds(o: Options, p: Parser)
    requires p.state == TextEntity && Decode(o, p.buf.entity) == None
    ensures var q := Step(o, p, ';');
            q.state == InText && Frame(p.(buf := p.buf.(entity := "")), q)
  {
    hide Decode, FailOut;
  }

  // The text x of an element before the entity y, which is unknown, up to its semicolon.
  lemma BeforeUnknown(p: Parser)
    requires Inside(p) && p.out.textNode == ""
    ensures var r := Run(Nesting.STRICT, p, "x&y");
            && r.state == TextEntity && r.buf.entity == "y" && Frame(p.(buf := p.buf.(entity := "y")), r)
            && r.out == p.out.(textNode := "x")
  {
    var o := Nesting.STRICT;
    hide Run, Step;
    assert "x&y" == ['x', '&', 'y'];
    RunThree(o, p, 'x', '&', 'y');
    PlainCharStep(o, p, 'x');
    assert "" + ['x'] == "x" && "" + ['y'] == "y";
    var p1 := Step(o, p, 'x');
    AmpersandStep(o, p1);
    EntityStepChar(o, Step(o, p1, '&'), 'y');
  }

  lemma UnknownName()
    ensures Decode(Nesting.STRICT, "y") == None
  {
  }

  lemma EntityTurn(p: Parser)
    requires Inside(p) && p.out.textNode == ""
    ensures var r := Run(Nesting.STRICT, p, "x&y;");
            && Inside(r) && r.tags == p.tags && r.out.textNode == "x&y;"
            && r.out.events == p.out.events + [OnText("x"), OnError]
  {
    var o := Nesting.STRICT;
    assert o.strict && o.textOpts("x") == "x";
    UnknownName();
    hide Run, Step, Decode;
    assert "x&y;" == "x&y" + ";" && "x" + ("&" + "y" + ";") == "x&y;";
    RunAppend(o, p, "x&y", ";");
    BeforeUnknown(p);
    var q := Run(o, p, "x&y");
    RunOne(o, q, ';');
    UnknownEnds(o, q);
    Nesting.UnknownEntity(o, q);
  }

  lemma EndOfA(p: Parser)
    requires Inside(p) && p.tags[|p.tags| - 1].name == "a" && p.out.textNode == "x&y;"
    ensures Run(Nesting.STRICT, p, "</a>").out.events == p.out.events + [OnText("x&y;"), OnCloseTag("a")]
  {
    var o, e := Nesting.STRICT, OnCloseTag("a");
    NameOfA();
    assert NodeOut(o, p.out, e).events == (p.out.events + [OnText("x&y;")]) + [e];
    assert (p.out.events + [OnText("x&y;")]) + [e] == p.out.events + [OnText("x&y;"), e];
    assert "</" + "a" + ">" == "</a>";
    FeedOne(o, p.out, e);
    hide *;
    EndParsed(o, p, "a");
  }

  lemma NameOfA()
    ensures GoodTag(Nesting.STRICT, "a", []) && GoodName("a") && InCase(Nesting.STRICT, "a") == "a"
  {
    assert NameStart('a') && NameBody('a');
  }

  lemma EventsOfA()
    ensures Feed(Nesting.STRICT, INITIAL.out, TagEvents(Nesting.STRICT, "a", [], false))
         == Out("", false, [OnOpenTagStart("a"), OnOpenTag(Tag("a", map[], false))])
    ensures TagOf(Nesting.STRICT, "a", [], false) == Tag("a", map[], false)
    ensures "<" + "a" + AttributesText([]) + ">" == "<a>" && !IsScript(Nesting.STRICT, "a")
  {
    var o := Nesting.STRICT;
    var e := OnOpenTag(Tag("a", map[], false));
    assert TagEvents(o, "a", [], false) == StartEvents(o, "a", []) + [e];
    NameEvent(o, INITIAL.out, "a");
    FeedNext(o, INITIAL.out, StartEvents(o, "a", []), e);
    hide Feed;
  }

  lemma StartOfA()
    ensures var r, tag := Run(Nesting.STRICT, INITIAL, "<a>"), Tag("a", map[], false);
            && Inside(r) && r.tags == [tag] && r.out.textNode == ""
            && r.out.events == [OnOpenTagStart("a"), OnOpenTag(tag)]
  {
    hide Run, Feed, GoodTag, TagEvents, AttributesText, TagOf, IsScript;
    NameOfA();
    EventsOfA();
    StartParsed(Nesting.STRICT, INITIAL, "a", []);
  }

  // A strict parser sends the x of this document twice.
  lemma TextSentTwice()
    ensures var tag := Tag("a", map[], false);
            Run(Nesting.STRICT, INITIAL, "<a>x&y;</a>").out.events
              == [OnOpenTagStart("a"), OnOpenTag(tag), OnText("x"), OnError, OnText("x&y;"), OnCloseTag("a")]
  {
    hide *;
    var o := Nesting.STRICT;
    TextOfA();
    RunAppend(o, INITIAL, "<a>", "x&y;" + "</a>");
    StartOfA();
    var p := Run(o, INITIAL, "<a>");
    RunAppend(o, p, "x&y;", "</a>");
    EntityTurn(p);
    EndOfA(Run(o, p, "x&y;"));
    var tag := Tag("a", map[], false);
    SixEvents(OnOpenTagStart("a"), OnOpenTag(tag), OnText("x"), OnError, OnText("x&y;"), OnCloseTag("a"));
  }

  lemma TextOfA()
    ensures "<a>x&y;</a>" == "<a>" + ("x&y;" + "</a>")
  {
  }

  lemma SixEvents(a: Event, b: Event, c: Event, d: Event, e: Event, f: Event)
    ensures ([a, b] + [c, d]) + [e, f] == [a, b, c, d, e, f]
  {
  }
}
