// Config.stringify and Config.parse of config.js: flat dotted keys, grouped under
// section headers and read back.
module ConfigFile {
  import opened Outcomes
  import opened ConfigText

  // The comments of an item stand on the lines before it.
  datatype Item = Item(value: string, comments: seq<string>)

  datatype Setting = Setting(name: string, item: Item)

  // ---------- settings in the order of their insertion ----------

  function Get(s: seq<Setting>, name: string): Option<Item> {
    if s == [] then None
    else if s[|s| - 1].name == name then Some(s[|s| - 1].item)
    else Get(s[..|s| - 1], name)
  }

  // Map.prototype.set: an old name keeps its place.
  function Put(s: seq<Setting>, x: Setting): seq<Setting> {
    if s == [] then [x]
    else if s[|s| - 1].name == x.name then s[..|s| - 1] + [x]
    else Put(s[..|s| - 1], x) + [s[|s| - 1]]
  }

  lemma {:induction false} GetPut(s: seq<Setting>, x: Setting, name: string)
    ensures Get(Put(s, x), name) == if name == x.name then Some(x.item) else Get(s, name)
  {
    if s != [] && s[|s| - 1].name != x.name {
      var h, t := s[..|s| - 1], s[|s| - 1];
      GetPut(h, x, name);
      assert (Put(h, x) + [t])[..|Put(h, x) + [t]| - 1] == Put(h, x);
    }
  }

  // ---------- grouping ----------

  // key.startsWith(base + '.')
  predicate Under(key: string, base: string) { |key| > |base| && key[..|base|] == base && key[|base|] == '.' }

  // The last section name that the key is under.
  function BaseOf(names: seq<string>, key: string): (r: Option<string>)
    ensures r.Some? ==> Under(key, r.value) && r.value in names
  {
    if names == [] then None
    else if Under(key, names[|names| - 1]) then Some(names[|names| - 1])
    else BaseOf(names[..|names| - 1], key)
  }

  function BaseName(names: seq<string>, key: string): string {
    match BaseOf(names, key) case None => "" case Some(b) => b
  }

  function LocalName(names: seq<string>, key: string): string {
    match BaseOf(names, key) case None => key case Some(b) => key[|b| + 1..]
  }

  // The settings of one section, under their local names.
  function Group(values: seq<Setting>, names: seq<string>, base: string): seq<Setting> {
    if values == [] then []
    else
      var g, s := Group(values[..|values| - 1], names, base), values[|values| - 1];
      if BaseName(names, s.name) == base then Put(g, Setting(LocalName(names, s.name), s.item)) else g
  }

  // ---------- printing ----------

  function ItemLines(s: Setting): seq<string> {
    s.item.comments + [s.name + "=" + Escape(Trim(s.item.value))]
  }

  function GroupLines(group: seq<Setting>): seq<string> {
    if group == [] then [] else GroupLines(group[..|group| - 1]) + ItemLines(group[|group| - 1])
  }

  function SectionLines(base: string, group: seq<Setting>): seq<string> {
    if group == [] then []
    else (if base == "" then [] else ["", "[" + base + "]"]) + GroupLines(group)
  }

  function AllLines(names: seq<string>, todo: seq<string>, values: seq<Setting>): seq<string> {
    if todo == [] then []
    else
      var base := todo[|todo| - 1];
      AllLines(names, todo[..|todo| - 1], values) + SectionLines(base, Group(values, names, base))
  }

  // The order of names by their characters.
  predicate Less(a: string, b: string)
    decreases |a|
  {
    b != "" && (a == "" || a[0] < b[0] || (a[0] == b[0] && Less(a[1..], b[1..])))
  }

  function Insert(s: seq<string>, x: string): seq<string>
    decreases |s|
  {
    if s == [] || Less(x, s[0]) then [x] + s else [s[0]] + Insert(s[1..], x)
  }

  function Sort(s: seq<string>): seq<string> {
    if s == [] then [] else Insert(Sort(s[..|s| - 1]), s[|s| - 1])
  }

  function SectionNames(sections: seq<string>): seq<string> { Sort([""] + sections) }

  function Print(sections: seq<string>, values: seq<Setting>): string {
    var names := SectionNames(sections);
    Unlines(AllLines(names, names, values))
  }

  // ---------- parsing ----------

  // s.indexOf(c, from), or -1
  function IndexOf(s: string, c: char, from: nat): (k: int)
    ensures k == -1 || (from <= k < |s| && s[k] == c)
    ensures forall j :: from <= j < (if k < 0 then |s| else k) ==> s[j] != c
    decreases |s| - from
  {
    if from >= |s| then -1 else if s[from] == c then from else IndexOf(s, c, from + 1)
  }

  function ParseValue(s: string): string {
    match Unescape(Trim(s)) case None => Trim(s) case Some(v) => v
  }

  // Where the parser is: the header it is under, if any, and the comments since the
  // last item or header.
  datatype ParseState = ParseState(
    values: seq<Setting>, base: Option<string>, comments: seq<string>, sections: seq<string>)

  function KeyIn(base: Option<string>, key: string): string {
    match base case None => key case Some(b) => b + "." + key
  }

  function HeaderName(line: string): string
    requires line != ""
  {
    var pos := IndexOf(line, ']', 1);
    line[1..if pos > 1 then pos else |line|]
  }

  // A section is listed where it is first met.
  function WithSection(sections: seq<string>, name: string): seq<string> {
    if name in sections then sections else sections + [name]
  }

  function ParseHeader(st: ParseState, line: string): ParseState
    requires line != ""
  {
    var name := HeaderName(line);
    var st1 := st.(comments := []);
    if name == "" then st1
    else st1.(base := Some(name), sections := WithSection(st.sections, name))
  }

  function ParseItem(st: ParseState, line: string): ParseState {
    var pos := IndexOf(line, '=', 0);
    if pos <= 0 then st.(comments := st.comments + [line])
    else
      var name := Trim(KeyIn(st.base, line[..pos]));
      st.(values := Put(st.values, Setting(name, Item(ParseValue(line[pos + 1..]), st.comments))), comments := [])
  }

  function ParseLine(st: ParseState, raw: string): ParseState {
    var line := Trim(raw);
    if line != "" && line[0] == '[' then ParseHeader(st, line)
    else if line != "" && (line[0] == '#' || line[0] == ';') then st.(comments := st.comments + [line])
    else ParseItem(st, line)
  }

  function ParseLines(st: ParseState, lines: seq<string>): ParseState {
    if lines == [] then st else ParseLine(ParseLines(st, lines[..|lines| - 1]), lines[|lines| - 1])
  }

  const START := ParseState([], None, [], [])

  function Parse(text: string): ParseState { ParseLines(START, SplitLines(text)) }

  // ---------- what can be printed ----------

  // A comment line as the parser makes it.
  predicate CommentLine(c: string) {
    && Neat(c) && '\n' !in c && (c == "" || c[0] != '[')
    && ((c != "" && (c[0] == '#' || c[0] == ';')) || IndexOf(c, '=', 0) <= 0)
  }

  predicate LocalGood(name: string) {
    name != "" && name[0] !in "[#;" && !IsSpace(name[0]) && '=' !in name && '\n' !in name
  }

  predicate ItemGood(item: Item) {
    Neat(item.value) && forall k :: 0 <= k < |item.comments| ==> CommentLine(item.comments[k])
  }

  // A trimmed key whose local name is well-formed, and whose section name, unless it
  // is empty, can stand in a header.
  predicate Printable(names: seq<string>, s: Setting) {
    && Neat(s.name) && LocalGood(LocalName(names, s.name)) && ItemGood(s.item)
    && (BaseName(names, s.name) != "" ==> BaseGood(BaseName(names, s.name)))
  }

  predicate BaseGood(base: string) { base != "" && ']' !in base && '\n' !in base }

  // The key of a local name under a section.
  function Whole(base: string, name: string): string { if base == "" then name else base + "." + name }

  // A key under a nonempty section name is the name followed by the local name; so is
  // every other key, but for a dot in front that the root section takes off.
  lemma WholeLocal(names: seq<string>, key: string)
    ensures Whole(BaseName(names, key), LocalName(names, key))
         == if BaseOf(names, key) == Some("") then key[1..] else key
  {
    match BaseOf(names, key) {
      case None =>
      case Some(b) => assert key == key[..|b|] + [key[|b|]] + key[|b| + 1..];
    }
  }

  lemma WholeNeat(names: seq<string>, key: string)
    requires Neat(key) && LocalGood(LocalName(names, key))
    ensures Neat(Whole(BaseName(names, key), LocalName(names, key)))
  {
    WholeLocal(names, key);
  }

  // ---------- one line ----------

  lemma CommentParsed(st: ParseState, c: string)
    requires CommentLine(c)
    ensures ParseLine(st, c) == st.(comments := st.comments + [c])
  {
    TrimNeat(c);
  }

  lemma HeaderParsed(st: ParseState, base: string)
    requires BaseGood(base)
    ensures var r := ParseLine(ParseLine(st, ""), "[" + base + "]");
            && r.values == st.values && r.base == Some(base) && r.comments == []
            && r.sections == WithSection(st.sections, base)
  {
    var line := "[" + base + "]";
    assert CommentLine("");
    CommentParsed(st, "");
    assert line[0] == '[' && line[|line| - 1] == ']' && !IsSpace('[') && !IsSpace(']');
    TrimNeat(line);
    assert forall j :: 1 <= j < |line| - 1 ==> line[j] == base[j - 1];
    assert IndexOf(line, ']', 1) == |line| - 1;
    assert line[1..|line| - 1] == base;
  }

  lemma ItemParsed(st: ParseState, base: string, name: string, value: string)
    requires LocalGood(name) && Neat(value) && Neat(Whole(base, name)) && (base == "" <==> st.base == None)
    requires st.base.Some? ==> st.base.value == base
    ensures ParseLine(st, name + "=" + Escape(Trim(value)))
         == st.(values := Put(st.values, Setting(Whole(base, name), Item(value, st.comments))), comments := [])
  {
    hide ParseLine, ParseItem, IndexOf, Put, Escape, Unescape, Neat, Trim;
    TrimNeat(value);
    EscapeRoundTrip(value);
    EscapePrintable(value);
    var e := Escape(value);
    TrimNeat(e);
    NameThenValue(name, e);
    TrimNeat(Whole(base, name));
    ItemLineParsed(st, name, e);
  }

  lemma ItemLineParsed(st: ParseState, name: string, e: string)
    requires LocalGood(name)
    requires var line := name + "=" + e;
             Trim(line) == line && IndexOf(line, '=', 0) == |name|
             && line[..|name|] == name && line[|name| + 1..] == e
    ensures ParseLine(st, name + "=" + e)
         == st.(values := Put(st.values, Setting(Trim(KeyIn(st.base, name)), Item(ParseValue(e), st.comments))),
                comments := [])
  {
    hide Trim, ParseValue, IndexOf, Put, KeyIn;
    assert (name + "=" + e)[0] == name[0];
  }

  // ---------- reading any item ----------

  // A value is read as the text that it spells after trimming, and as it stands, but for
  // white space around it, when it spells none.
  lemma ValueRead(v: string, s: string, w: string)
    requires AllSpace(v) && AllSpace(w) && Neat(s)
    ensures ParseValue(v + s + w) == ParseValue(s)
    ensures (forall t :: !SpelledBy(s, t)) ==> ParseValue(s) == s
    ensures forall t :: SpelledBy(s, t) ==> ParseValue(s) == t
  {
    TrimAround(v, s, w);
    TrimNeat(s);
    forall t ensures SpelledBy(s, t) <==> Unescape(s) == Some(t) { UnescapeIs(s, t); }
    hide Unescape, Trim, SpelledBy;
    if Unescape(s).Some? { assert SpelledBy(s, Unescape(s).value); }
  }

  // The text s between quotes is the JSON string t.
  ghost predicate SpelledBy(s: string, t: string) { exists pieces :: Cat(pieces) == s && Spelled(pieces, t) }

  // The name before the first equals sign and the value behind it, each with white space
  // around it.
  lemma ItemRead(st: ParseState, key: string, v: string, value: string, w: string)
    requires LocalGood(key) && AllSpace(v) && AllSpace(w) && Neat(value)
    ensures ParseLine(st, key + "=" + (v + value + w))
         == st.(values := Put(st.values, Setting(Trim(KeyIn(st.base, key)), Item(ParseValue(value), st.comments))),
                comments := [])
  {
    hide ParseLine, ParseValue, Put, IndexOf;
    var x := v + value + w;
    var e := TrimRight(x);
    TrimRightIs(x);
    LineTrimmed(key, x);
    ParseTrimmed(st, key + "=" + x);
    NameThenValue(key, e);
    ItemLineParsed(st, key, e);
    ValueTrimmed(v, value, w);
  }

  lemma ValueTrimmed(v: string, value: string, w: string)
    requires AllSpace(v) && AllSpace(w) && Neat(value)
    ensures ParseValue(TrimRight(v + value + w)) == ParseValue(value)
  {
    hide *;
    var x := v + value + w;
    var e := TrimRight(x);
    var tail := TrimmedOff(x);
    assert "" + e + tail == x by { assert "" + e == e; }
    NoSpace();
    TrimAround("", e, tail);
    TrimAround(v, value, w);
    SameTrimmed(e, value);
  }

  lemma NoSpace()
    ensures AllSpace("")
  {
  }

  lemma SameTrimmed(a: string, b: string)
    requires Trim(a) == Trim(b)
    ensures ParseValue(a) == ParseValue(b)
  {
    hide Trim, Unescape;
  }

  lemma {:induction false} TrimmedOff(x: string) returns (tail: string)
    ensures AllSpace(tail) && TrimRight(x) + tail == x
  {
    tail := "";
    if x != "" && IsSpace(x[|x| - 1]) {
      tail := TrimmedOff(x[..|x| - 1]);
      tail := tail + [x[|x| - 1]];
    }
  }

  lemma LineTrimmed(key: string, x: string)
    requires LocalGood(key)
    ensures Trim(key + "=" + x) == key + "=" + TrimRight(x)
  {
    var line := key + "=" + x;
    assert line[0] == key[0];
    assert TrimLeft(line) == line;
    TrimRightStops(key + "=", x);
  }

  lemma {:induction false} TrimRightStops(s: string, x: string)
    requires s != "" && s[|s| - 1] == '='
    ensures TrimRight(s + x) == s + TrimRight(x)
  {
    if x == "" {
      assert s + x == s;
    } else {
      var h := x[..|x| - 1];
      assert (s + x)[..|s + x| - 1] == s + h;
      TrimRightStops(s, h);
    }
  }

  // Only the trimmed line matters.
  lemma ParseTrimmed(st: ParseState, line: string)
    ensures ParseLine(st, line) == ParseLine(st, Trim(line))
  {
    TrimNeat(line);
    TrimNeat(Trim(line));
    hide Trim;
  }

  lemma NameThenValue(name: string, e: string)
    requires LocalGood(name) && (e == "" || !IsSpace(e[|e| - 1]))
    ensures var line := name + "=" + e;
            Trim(line) == line && IndexOf(line, '=', 0) == |name|
            && line[..|name|] == name && line[|name| + 1..] == e
  {
    var line := name + "=" + e;
    assert line[0] == name[0] && line[|name|] == '=' && !IsSpace('=');
    assert e != "" ==> line[|line| - 1] == e[|e| - 1];
    TrimNeat(line);
    assert forall j :: 0 <= j < |name| ==> line[j] == name[j];
  }

  // The name in a header ends at the first closing bracket, if one comes after it; a header
  // without a name there has all that follows as its name.
  lemma HeaderRead(name: string, rest: string)
    requires ']' !in name
    ensures HeaderName("[" + name + "]" + rest) == if name == "" then "]" + rest else name
    ensures HeaderName("[" + name) == name
  {
    var line, open := "[" + name + "]" + rest, "[" + name;
    assert line[|name| + 1] == ']' && forall j :: 1 <= j <= |name| ==> line[j] == name[j - 1];
    assert line[1..|name| + 1] == name && line[1..] == name + "]" + rest;
    assert forall j :: 1 <= j < |open| ==> open[j] == name[j - 1];
    assert open[1..] == name;
    if name == "" { assert "" + "]" + rest == "]" + rest; }
  }

  // ---------- many lines ----------

  lemma {:induction false} ParseAppend(st: ParseState, a: seq<string>, b: seq<string>)
    ensures ParseLines(st, a + b) == ParseLines(ParseLines(st, a), b)
  {
    hide ParseLine;
    if b == [] {
      assert a + b == a;
    } else {
      assert (a + b)[..|a + b| - 1] == a + b[..|b| - 1];
      ParseAppend(st, a, b[..|b| - 1]);
    }
  }

  lemma ParseOne(st: ParseState, line: string)
    ensures ParseLines(st, [line]) == ParseLine(st, line)
  {
    assert [line][..0] == [];
  }

  lemma {:induction false} CommentsParsed(st: ParseState, cs: seq<string>)
    requires forall k :: 0 <= k < |cs| ==> CommentLine(cs[k])
    ensures ParseLines(st, cs) == st.(comments := st.comments + cs)
  {
    hide ParseLine, CommentLine;
    if cs == [] {
      assert st.comments + cs == st.comments;
    } else {
      var h, c := cs[..|cs| - 1], cs[|cs| - 1];
      CommentsParsed(st, h);
      CommentParsed(ParseLines(st, h), c);
      assert (st.comments + h) + [c] == st.comments + cs;
    }
  }

  // A setting of a section, under its local name, that can be printed.
  predicate LocalPrintable(base: string, s: Setting) {
    LocalGood(s.name) && ItemGood(s.item) && Neat(Whole(base, s.name))
  }

  predicate AllLocal(base: string, s: seq<Setting>) { forall k :: 0 <= k < |s| ==> LocalPrintable(base, s[k]) }

  // Where the parser is at the start of an item of that section.
  predicate Under0(st: ParseState, base: string) {
    st.comments == [] && st.base == if base == "" then None else Some(base)
  }

  lemma ItemLinesParsed(st: ParseState, base: string, s: Setting)
    requires Under0(st, base) && LocalPrintable(base, s)
    ensures ParseLines(st, ItemLines(s)) == st.(values := Put(st.values, Setting(Whole(base, s.name), s.item)))
  {
    var cs, line := s.item.comments, s.name + "=" + Escape(Trim(s.item.value));
    ParseAppend(st, cs, [line]);
    CommentsParsed(st, cs);
    var st1 := st.(comments := cs);
    assert [] + cs == cs;
    ParseOne(st1, line);
    ItemParsed(st1, base, s.name, s.item.value);
  }

  function Renamed(base: string, group: seq<Setting>): seq<Setting> {
    if group == [] then []
    else Renamed(base, group[..|group| - 1])
           + [Setting(Whole(base, group[|group| - 1].name), group[|group| - 1].item)]
  }

  function OrElse(a: Option<Item>, b: Option<Item>): Option<Item> { if a.Some? then a else b }

  lemma {:induction false} GroupParsed(st: ParseState, base: string, group: seq<Setting>)
    requires Under0(st, base) && AllLocal(base, group)
    ensures var r := ParseLines(st, GroupLines(group));
            && Under0(r, base) && r.sections == st.sections
            && forall n :: Get(r.values, n) == OrElse(Get(Renamed(base, group), n), Get(st.values, n))
  {
    hide ParseLine, LocalPrintable, Whole, ItemLines;
    if group != [] {
      var g, s := group[..|group| - 1], group[|group| - 1];
      GroupParsed(st, base, g);
      var r := ParseLines(st, GroupLines(g));
      ParseAppend(st, GroupLines(g), ItemLines(s));
      ItemLinesParsed(r, base, s);
      var x := Setting(Whole(base, s.name), s.item);
      forall n ensures Get(Put(r.values, x), n) == OrElse(Get(Renamed(base, group), n), Get(st.values, n)) {
        GetPut(r.values, x, n);
        RenamedGet(base, g, x, n);
      }
    }
  }

  lemma RenamedGet(base: string, g: seq<Setting>, x: Setting, n: string)
    ensures Get(Renamed(base, g) + [x], n) == if n == x.name then Some(x.item) else Get(Renamed(base, g), n)
  {
    var s := Renamed(base, g) + [x];
    assert s[..|s| - 1] == Renamed(base, g);
  }

  lemma SectionParsed(st: ParseState, base: string, group: seq<Setting>)
    requires st.comments == [] && (base == "" ==> st.base == None)
    requires AllLocal(base, group)
    requires base != "" && group != [] ==> BaseGood(base)
    ensures var r := ParseLines(st, SectionLines(base, group));
            && r.comments == [] && (base == "" || group == [] ==> r.base == st.base)
            && r.sections == (if base == "" || group == [] then st.sections else WithSection(st.sections, base))
            && forall n :: Get(r.values, n) == OrElse(Get(Renamed(base, group), n), Get(st.values, n))
  {
    hide ParseLine, LocalPrintable, BaseGood;
    if group != [] {
      if base == "" {
        assert [] + GroupLines(group) == GroupLines(group);
        GroupParsed(st, base, group);
      } else {
        var header := ["", "[" + base + "]"];
        ParseAppend(st, header, GroupLines(group));
        assert header == [""] + ["[" + base + "]"];
        ParseAppend(st, [""], ["[" + base + "]"]);
        ParseOne(st, "");
        ParseOne(ParseLine(st, ""), "[" + base + "]");
        HeaderParsed(st, base);
        GroupParsed(ParseLines(st, header), base, group);
      }
    }
  }

  // ---------- what a group holds ----------

  predicate AllPrintable(names: seq<string>, values: seq<Setting>) {
    forall k :: 0 <= k < |values| ==> Printable(names, values[k])
  }

  lemma WholeInjective(base: string, a: string, b: string)
    ensures Whole(base, a) == Whole(base, b) <==> a == b
  {
    if base != "" {
      var x, y := base + "." + a, base + "." + b;
      assert x[|base| + 1..] == a && y[|base| + 1..] == b;
    }
  }

  lemma {:induction false} RenamedPut(base: string, g: seq<Setting>, x: Setting, n: string)
    ensures Get(Renamed(base, Put(g, x)), n)
         == if n == Whole(base, x.name) then Some(x.item) else Get(Renamed(base, g), n)
  {
    hide Whole;
    if g == [] {
      assert [x][..0] == [] && Renamed(base, []) == [];
      RenamedGet(base, [], Setting(Whole(base, x.name), x.item), n);
    } else {
      var h, t := g[..|g| - 1], g[|g| - 1];
      var t1, x1 := Setting(Whole(base, t.name), t.item), Setting(Whole(base, x.name), x.item);
      WholeInjective(base, t.name, x.name);
      RenamedGet(base, h, t1, n);
      if t.name == x.name {
        assert (h + [x])[..|h|] == h;
        RenamedGet(base, h, x1, n);
      } else {
        RenamedPut(base, h, x, n);
        assert (Put(h, x) + [t])[..|Put(h, x) + [t]| - 1] == Put(h, x);
        RenamedGet(base, Put(h, x), t1, n);
      }
    }
  }

  // The settings of one section, under the keys as which they are read back.
  function ReadBack(values: seq<Setting>, names: seq<string>, base: string): seq<Setting> {
    if values == [] then []
    else
      var r, s := ReadBack(values[..|values| - 1], names, base), values[|values| - 1];
      if BaseName(names, s.name) == base then r + [Setting(Whole(base, LocalName(names, s.name)), s.item)] else r
  }

  lemma GetLast(r: seq<Setting>, x: Setting, n: string)
    ensures Get(r + [x], n) == if n == x.name then Some(x.item) else Get(r, n)
  {
    assert (r + [x])[..|r|] == r;
  }

  // The group of a section holds just those settings.
  lemma {:induction false} GroupHolds(values: seq<Setting>, names: seq<string>, base: string, n: string)
    ensures Get(Renamed(base, Group(values, names, base)), n) == Get(ReadBack(values, names, base), n)
  {
    hide Whole, BaseName, LocalName;
    if values != [] {
      var v, s := values[..|values| - 1], values[|values| - 1];
      GroupHolds(v, names, base, n);
      if BaseName(names, s.name) == base {
        var local := LocalName(names, s.name);
        RenamedPut(base, Group(v, names, base), Setting(local, s.item), n);
        GetLast(ReadBack(v, names, base), Setting(Whole(base, local), s.item), n);
      }
    }
  }

  // Where no key loses a dot, they are the settings with the keys of the section.
  predicate NoDotLost(values: seq<Setting>, names: seq<string>) {
    forall k :: 0 <= k < |values| ==> BaseOf(names, values[k].name) != Some("")
  }

  lemma {:induction false} ReadBackIs(values: seq<Setting>, names: seq<string>, base: string, n: string)
    requires base != "" || NoDotLost(values, names)
    ensures Get(ReadBack(values, names, base), n) == if BaseName(names, n) == base then Get(values, n) else None
  {
    hide Whole, LocalName, BaseOf;
    if values != [] {
      var v, s := values[..|values| - 1], values[|values| - 1];
      ReadBackIs(v, names, base, n);
      WholeLocal(names, s.name);
      GetLast(ReadBack(v, names, base), Setting(Whole(base, LocalName(names, s.name)), s.item), n);
    }
  }

  // A key that loses a dot comes back only when another, with one dot more, does too.
  lemma {:induction false} DotGone(values: seq<Setting>, names: seq<string>, key: string)
    requires BaseOf(names, key) == Some("")
    requires forall k :: 0 <= k < |values| && BaseOf(names, values[k].name) == Some("") ==> |values[k].name| <= |key|
    ensures Get(ReadBack(values, names, ""), key) == None
  {
    hide Whole, LocalName, BaseOf;
    if values != [] {
      var v, s := values[..|values| - 1], values[|values| - 1];
      DotGone(v, names, key);
      WholeLocal(names, s.name);
      GetLast(ReadBack(v, names, ""), Setting(Whole("", LocalName(names, s.name)), s.item), key);
    }
  }

  // Of the keys that lose a dot, a longest one.
  lemma {:induction false} LongestDotted(values: seq<Setting>, names: seq<string>) returns (i: nat)
    requires !NoDotLost(values, names)
    ensures i < |values| && BaseOf(names, values[i].name) == Some("")
    ensures forall k :: 0 <= k < |values| && BaseOf(names, values[k].name) == Some("") ==>
      |values[k].name| <= |values[i].name|
  {
    hide BaseOf;
    var h := |values| - 1;
    var v := values[..h];
    if NoDotLost(v, names) {
      i := h;
      assert forall k :: 0 <= k < h ==> values[k] == v[k];
    } else {
      i := LongestDotted(v, names);
      assert forall k :: 0 <= k < h ==> values[k] == v[k];
      if BaseOf(names, values[h].name) == Some("") && |values[h].name| > |values[i].name| { i := h; }
    }
  }

  lemma {:induction false} GetMember(values: seq<Setting>, i: nat)
    requires i < |values|
    ensures Get(values, values[i].name).Some?
  {
    if i < |values| - 1 { GetMember(values[..|values| - 1], i); }
  }

  lemma PutKeeps(base: string, g: seq<Setting>, x: Setting)
    requires LocalPrintable(base, x) && AllLocal(base, g)
    ensures AllLocal(base, Put(g, x))
  {
    hide LocalPrintable;
    if g != [] && g[|g| - 1].name != x.name { PutKeeps(base, g[..|g| - 1], x); }
  }

  lemma {:induction false} GroupPrintable(values: seq<Setting>, names: seq<string>, base: string)
    requires AllPrintable(names, values)
    ensures var g := Group(values, names, base);
            && AllLocal(base, g)
            && (base != "" && g != [] ==> BaseGood(base))
  {
    if values != [] {
      var v, s := values[..|values| - 1], values[|values| - 1];
      GroupPrintable(v, names, base);
      hide AllLocal, Put;
      if BaseName(names, s.name) == base {
        assert Printable(names, s);
        WholeNeat(names, s.name);
        PutKeeps(base, Group(v, names, base), Setting(LocalName(names, s.name), s.item));
      }
    }
  }

  // ---------- the order of the sections ----------

  // The root section, whose name is empty, comes before all others.
  ghost predicate RootFirst(s: seq<string>) { forall i, j :: 0 <= i < j < |s| && s[j] == "" ==> s[i] == "" }

  lemma {:induction false} InsertIs(s: seq<string>, x: string)
    requires RootFirst(s)
    ensures RootFirst(Insert(s, x)) && forall y :: y in Insert(s, x) <==> y == x || y in s
    decreases |s|
  {
    if s != [] && !Less(x, s[0]) {
      assert RootFirst(s[1..]);
      InsertIs(s[1..], x);
      assert s == [s[0]] + s[1..];
      var t := Insert(s[1..], x);
      forall i, j | 0 <= i < j < |[s[0]] + t| && ([s[0]] + t)[j] == "" ensures ([s[0]] + t)[i] == "" {
        assert ([s[0]] + t)[j] == t[j - 1] && t[j - 1] in t;
        if i == 0 && "" in s[1..] {
          var k :| 0 <= k < |s[1..]| && s[1..][k] == "";
          assert s[k + 1] == "";
        }
      }
    }
  }

  lemma {:induction false} SortIs(s: seq<string>)
    ensures RootFirst(Sort(s)) && forall y :: y in Sort(s) <==> y in s
  {
    if s != [] {
      SortIs(s[..|s| - 1]);
      InsertIs(Sort(s[..|s| - 1]), s[|s| - 1]);
      assert s == s[..|s| - 1] + [s[|s| - 1]];
    }
  }

  lemma {:induction false} LessIsOrder(a: string, b: string, c: string)
    ensures !Less(a, a)
    ensures Less(a, b) && Less(b, c) ==> Less(a, c)
    ensures Less(a, b) || Less(b, a) || a == b
    decreases |a| + |b| + |c|
  {
    if a != "" && b != "" && c != "" {
      LessIsOrder(a[1..], b[1..], c[1..]);
      assert a == [a[0]] + a[1..] && b == [b[0]] + b[1..];
    } else if a != "" && b != "" {
      LessIsOrder(a[1..], b[1..], c);
      assert a == [a[0]] + a[1..] && b == [b[0]] + b[1..];
    } else if a != "" {
      LessIsOrder(a[1..], b, c);
    }
  }

  // A proper prefix comes first.
  lemma {:induction false} PrefixLess(a: string, b: string)
    requires a <= b && |a| < |b|
    ensures Less(a, b)
    decreases |a|
  {
    if a != "" {
      assert a[1..] <= b[1..];
      PrefixLess(a[1..], b[1..]);
    }
  }

  // The first characters that differ are in order.
  predicate DiffersUp(a: string, b: string) {
    exists k :: 0 <= k < |a| && k < |b| && a[..k] == b[..k] && a[k] < b[k]
  }

  lemma DiffersLater(c: char, x: string, y: string)
    ensures DiffersUp([c] + x, [c] + y) <==> DiffersUp(x, y)
  {
    var a, b := [c] + x, [c] + y;
    if k :| 0 <= k < |x| && k < |y| && x[..k] == y[..k] && x[k] < y[k] {
      assert a[..k + 1] == [c] + x[..k] && b[..k + 1] == [c] + y[..k] && a[k + 1] < b[k + 1];
    }
    if k :| 0 <= k < |a| && k < |b| && a[..k] == b[..k] && a[k] < b[k] {
      assert k > 0 && a[..k][1..] == x[..k - 1] && b[..k][1..] == y[..k - 1] && x[k - 1] < y[k - 1];
    }
  }

  lemma DiffersAtOnce(a: string, b: string)
    requires a != "" && b != "" && a[0] != b[0]
    ensures DiffersUp(a, b) <==> a[0] < b[0]
  {
    assert a[..0] == b[..0];
    forall k | 0 < k < |a| && k < |b| ensures a[..k] != b[..k] {
      assert a[..k][0] == a[0] && b[..k][0] == b[0];
    }
  }

  // The order is that of the first characters that differ, and a proper prefix comes first.
  lemma {:induction false} LessIs(a: string, b: string)
    ensures Less(a, b) <==> (a <= b && |a| < |b|) || DiffersUp(a, b)
    decreases |a|
  {
    if a != "" && b != "" {
      if a[0] == b[0] {
        LessIs(a[1..], b[1..]);
        DiffersLater(a[0], a[1..], b[1..]);
        assert a == [a[0]] + a[1..] && b == [a[0]] + b[1..];
      } else {
        DiffersAtOnce(a, b);
      }
      hide DiffersUp;
    }
  }

  ghost predicate Sorted(s: seq<string>) { forall i, j :: 0 <= i < j < |s| ==> !Less(s[j], s[i]) }

  lemma {:induction false} InsertSorted(s: seq<string>, x: string)
    requires Sorted(s)
    ensures Sorted(Insert(s, x)) && multiset(Insert(s, x)) == multiset(s) + multiset{x}
    decreases |s|
  {
    hide Less;
    if s != [] {
      var t := s[1..];
      assert s == [s[0]] + t;
      assert Sorted(t);
      InsertSorted(t, x);
      LessIsOrder(x, s[0], x);
      forall y | y in t ensures !Less(y, s[0]) && (Less(x, s[0]) ==> !Less(y, x)) {
        var k :| 0 <= k < |t| && t[k] == y;
        assert s[k + 1] == y;
        LessIsOrder(y, x, s[0]);
      }
      if !Less(x, s[0]) { FrontSorted(s[0], Insert(t, x), t, x); } else { FrontSorted(x, s, s, s[0]); }
    }
  }

  lemma FrontSorted(a: string, s: seq<string>, t: seq<string>, x: string)
    requires Sorted(s) && multiset(s) <= multiset(t) + multiset{x}
    requires (forall y :: y in t ==> !Less(y, a)) && !Less(x, a)
    ensures Sorted([a] + s)
  {
    hide Less;
    forall j | 0 <= j < |s| ensures !Less(s[j], a) {
      assert s[j] in multiset(s);
      assert s[j] in multiset(t) + multiset{x};
    }
  }

  // The section names are the declared ones and the empty one, in order.
  lemma {:induction false} SortSorted(s: seq<string>)
    ensures Sorted(Sort(s)) && multiset(Sort(s)) == multiset(s)
  {
    if s != [] {
      hide Sorted, Less, Insert;
      var h, x := s[..|s| - 1], s[|s| - 1];
      assert s == h + [x];
      SortSorted(h);
      InsertSorted(Sort(h), x);
    }
  }

  // The last name that a key is under.
  lemma {:induction false} BaseIsLast(names: seq<string>, key: string) returns (i: int)
    ensures -1 <= i < |names|
    ensures BaseOf(names, key) == if i == -1 then None else Some(names[i])
    ensures forall j :: i < j < |names| ==> !Under(key, names[j])
  {
    hide Under;
    i := |names| - 1;
    if names != [] && !Under(key, names[i]) {
      i := BaseIsLast(names[..|names| - 1], key);
    }
  }

  // A key goes into the section with the longest name that it is under, and into no
  // section exactly when it is under none.
  lemma LongestSection(sections: seq<string>, key: string)
    ensures match BaseOf(SectionNames(sections), key)
      case None => forall n :: n == "" || n in sections ==> !Under(key, n)
      case Some(b) => Under(key, b) && (b == "" || b in sections)
                      && forall n :: (n == "" || n in sections) && Under(key, n) ==> |n| <= |b|
  {
    var names := SectionNames(sections);
    SortIs([""] + sections);
    SortSorted([""] + sections);
    hide Less, Sort, BaseOf;
    var i := BaseIsLast(names, key);
    forall n | (n == "" || n in sections) && Under(key, n) ensures i >= 0 && |n| <= |names[i]| {
      assert n in [""] + sections;
      var j :| 0 <= j < |names| && names[j] == n;
      if i >= 0 && |names[i]| < |n| {
        UnderBoth(key, names[i], n);
        PrefixLess(names[i], n);
      }
    }
    if i >= 0 { assert names[i] in names; }
  }

  lemma UnderBoth(key: string, a: string, b: string)
    requires Under(key, a) && Under(key, b) && |a| <= |b|
    ensures a <= b
  {
    assert key[..|b|][..|a|] == key[..|a|];
  }

  // ---------- the round trip ----------

  // What comes back of the sections in todo: a key under a section name as it was, a key
  // of the root section as the last setting that is read back as that key.
  function Restored(names: seq<string>, todo: seq<string>, values: seq<Setting>, n: string): Option<Item> {
    var base := BaseName(names, n);
    OrElse(if base != "" && base in todo then Get(values, n) else None,
           if "" in todo then Get(ReadBack(values, names, ""), n) else None)
  }

  predicate RootOnly(s: seq<string>) { forall b :: b in s ==> b == "" }

  lemma RestoredNext(names: seq<string>, h: seq<string>, base: string, values: seq<Setting>, n: string)
    requires base == "" ==> RootOnly(h)
    ensures OrElse(Get(ReadBack(values, names, base), n), Restored(names, h, values, n))
         == Restored(names, h + [base], values, n)
  {
    hide BaseName, ReadBack, Get;
    if base != "" { ReadBackIs(values, names, base, n); }
  }

  lemma AllLinesLast(names: seq<string>, h: seq<string>, base: string, values: seq<Setting>)
    ensures AllLines(names, h + [base], values)
         == AllLines(names, h, values) + SectionLines(base, Group(values, names, base))
  {
    hide SectionLines, Group;
    assert (h + [base])[..|h|] == h;
  }

  lemma RootLast(h: seq<string>, base: string)
    requires RootFirst(h + [base])
    ensures RootFirst(h) && (base == "" ==> RootOnly(h)) && (RootOnly(h + [base]) ==> base == "" && RootOnly(h))
  {
    var s := h + [base];
    assert s[|h|] == base && base in s && forall k :: 0 <= k < |h| ==> s[k] == h[k];
    assert forall b :: b in h ==> b in s;
  }

  // The sections of todo that have settings.
  function Used(names: seq<string>, todo: seq<string>, values: seq<Setting>): seq<string> {
    if todo == [] then []
    else
      var r, base := Used(names, todo[..|todo| - 1], values), todo[|todo| - 1];
      if base == "" || Group(values, names, base) == [] then r else WithSection(r, base)
  }

  lemma UsedLast(names: seq<string>, h: seq<string>, base: string, values: seq<Setting>)
    ensures Used(names, h + [base], values)
         == var r := Used(names, h, values);
            if base == "" || Group(values, names, base) == [] then r else WithSection(r, base)
  {
    hide Group;
    assert (h + [base])[..|h|] == h;
  }

  lemma {:induction false} GroupUsed(values: seq<Setting>, names: seq<string>, base: string)
    ensures Group(values, names, base) == []
       <==> forall k :: 0 <= k < |values| ==> BaseName(names, values[k].name) != base
  {
    hide BaseName, LocalName;
    if values != [] {
      var h, x := values[..|values| - 1], values[|values| - 1];
      GroupUsed(h, names, base);
      assert forall k :: 0 <= k < |h| ==> h[k] == values[k];
      PutSome(Group(h, names, base), Setting(LocalName(names, x.name), x.item));
    }
  }

  lemma PutSome(s: seq<Setting>, x: Setting)
    ensures Put(s, x) != []
  {
  }

  lemma {:induction false} UsedIs(names: seq<string>, todo: seq<string>, values: seq<Setting>)
    ensures var r := Used(names, todo, values);
            && (forall i, j :: 0 <= i < j < |r| ==> r[i] != r[j])
            && forall b :: b in r <==> b != "" && b in todo && Group(values, names, b) != []
  {
    hide Group;
    if todo != [] {
      var h, base := todo[..|todo| - 1], todo[|todo| - 1];
      assert todo == h + [base];
      UsedIs(names, h, values);
      UsedLast(names, h, base, values);
      hide Used;
    }
  }

  // After the sections in todo, exactly their settings have been read.
  lemma {:induction false} AllParsed(names: seq<string>, todo: seq<string>, values: seq<Setting>)
    requires AllPrintable(names, values) && RootFirst(todo)
    ensures var r := ParseLines(START, AllLines(names, todo, values));
            && r.comments == [] && (RootOnly(todo) ==> r.base == None) && r.sections == Used(names, todo, values)
            && forall n :: Get(r.values, n) == Restored(names, todo, values, n)
  {
    if todo != [] {
      var h, base := todo[..|todo| - 1], todo[|todo| - 1];
      assert todo == h + [base];
      hide *;
      RootLast(h, base);
      AllParsed(names, h, values);
      var st := ParseLines(START, AllLines(names, h, values));
      var g := Group(values, names, base);
      GroupPrintable(values, names, base);
      AllLinesLast(names, h, base, values);
      UsedLast(names, h, base, values);
      ParseAppend(START, AllLines(names, h, values), SectionLines(base, g));
      SectionParsed(st, base, g);
      forall n ensures OrElse(Get(Renamed(base, g), n), Get(st.values, n)) == Restored(names, todo, values, n) {
        GroupHolds(values, names, base, n);
        RestoredNext(names, h, base, values, n);
      }
    }
  }

  // ---------- no line end within a line ----------

  predicate OneLine(lines: seq<string>) { forall k :: 0 <= k < |lines| ==> '\n' !in lines[k] }

  lemma ItemOneLine(base: string, s: Setting)
    requires LocalPrintable(base, s)
    ensures OneLine(ItemLines(s))
  {
    TrimNeat(s.item.value);
    EscapeClean(s.item.value);
    var e := Escape(s.item.value);
    assert '\n' < ' ';
    assert '\n' !in s.name + "=" + e;
  }

  lemma {:induction false} GroupOneLine(base: string, group: seq<Setting>)
    requires AllLocal(base, group)
    ensures OneLine(GroupLines(group))
  {
    hide LocalPrintable, ItemLines;
    if group != [] {
      GroupOneLine(base, group[..|group| - 1]);
      ItemOneLine(base, group[|group| - 1]);
    }
  }

  lemma {:induction false} AllOneLine(names: seq<string>, todo: seq<string>, values: seq<Setting>)
    requires AllPrintable(names, values)
    ensures OneLine(AllLines(names, todo, values))
  {
    hide AllPrintable, AllLocal;
    if todo != [] {
      var base := todo[|todo| - 1];
      AllOneLine(names, todo[..|todo| - 1], values);
      GroupPrintable(values, names, base);
      var g := Group(values, names, base);
      GroupOneLine(base, g);
      hide GroupLines, Group;
      SectionOneLine(base, g);
    }
  }

  lemma SectionOneLine(base: string, g: seq<Setting>)
    requires OneLine(GroupLines(g)) && (base != "" && g != [] ==> BaseGood(base))
    ensures OneLine(SectionLines(base, g))
  {
    hide GroupLines;
    if base != "" && g != [] {
      assert '\n' !in "[" + base + "]";
    }
  }

  // ---------- values with white space around them ----------

  function TidyOne(x: Setting): Setting { Setting(x.name, Item(Trim(x.item.value), x.item.comments)) }

  // The settings with their values trimmed.
  function Tidy(values: seq<Setting>): seq<Setting> {
    if values == [] then [] else Tidy(values[..|values| - 1]) + [TidyOne(values[|values| - 1])]
  }

  lemma TidyNext(h: seq<Setting>, x: Setting)
    ensures Tidy(h + [x]) == Tidy(h) + [TidyOne(x)]
  {
    assert (h + [x])[..|h|] == h;
  }

  lemma {:induction false} TidyAt(values: seq<Setting>)
    ensures |Tidy(values)| == |values| && forall k :: 0 <= k < |values| ==> Tidy(values)[k] == TidyOne(values[k])
  {
    if values != [] { TidyAt(values[..|values| - 1]); }
  }

  lemma {:induction false} TidyPut(s: seq<Setting>, x: Setting)
    ensures Tidy(Put(s, x)) == Put(Tidy(s), TidyOne(x))
  {
    TidyAt(s);
    if s == [] {
      TidyNext([], x);
      assert [] + [x] == [x];
    } else {
      var h, t := s[..|s| - 1], s[|s| - 1];
      TidyNext(h, x);
      TidyPut(h, x);
      TidyNext(Put(h, x), t);
      assert Tidy(s)[..|Tidy(s)| - 1] == Tidy(h);
    }
  }

  lemma {:induction false} TidyGroup(values: seq<Setting>, names: seq<string>, base: string)
    ensures Group(Tidy(values), names, base) == Tidy(Group(values, names, base))
  {
    if values != [] {
      var h, x := values[..|values| - 1], values[|values| - 1];
      TidyGroup(h, names, base);
      assert Tidy(values)[..|Tidy(values)| - 1] == Tidy(h);
      hide Put, BaseName, LocalName;
      TidyPut(Group(h, names, base), Setting(LocalName(names, x.name), x.item));
    }
  }

  lemma TidyItem(x: Setting)
    ensures ItemLines(TidyOne(x)) == ItemLines(x)
  {
    TrimNeat(x.item.value);
    TrimNeat(Trim(x.item.value));
  }

  lemma {:induction false} TidyLines(group: seq<Setting>)
    ensures GroupLines(Tidy(group)) == GroupLines(group)
  {
    if group != [] {
      var h, x := group[..|group| - 1], group[|group| - 1];
      TidyLines(h);
      TidyItem(x);
      assert Tidy(group)[..|Tidy(group)| - 1] == Tidy(h);
      hide ItemLines, TidyOne;
    }
  }

  lemma {:induction false} TidyAll(names: seq<string>, todo: seq<string>, values: seq<Setting>)
    ensures AllLines(names, todo, Tidy(values)) == AllLines(names, todo, values)
  {
    if todo != [] {
      var base := todo[|todo| - 1];
      TidyAll(names, todo[..|todo| - 1], values);
      TidyGroup(values, names, base);
      TidyLines(Group(values, names, base));
      TidyAt(Group(values, names, base));
      hide Group, GroupLines;
    }
  }

  // Printing trims the values.
  lemma PrintTidy(sections: seq<string>, values: seq<Setting>)
    ensures Print(sections, Tidy(values)) == Print(sections, values)
  {
    hide AllLines, Unlines;
    TidyAll(SectionNames(sections), SectionNames(sections), values);
  }

  // Settings whose values have no white space around them stay as they are.
  lemma {:induction false} TidyNeat(values: seq<Setting>)
    ensures Tidy(values) == values <==> forall k :: 0 <= k < |values| ==> Neat(values[k].item.value)
  {
    TidyAt(values);
    forall k | 0 <= k < |values| ensures TidyOne(values[k]) == values[k] <==> Neat(values[k].item.value) {
      TrimNeat(values[k].item.value);
    }
    hide Neat, TidyOne, Trim, Tidy;
  }

  // ---------- printing and parsing ----------

  // What printing and then parsing gives, for each key.
  lemma PrintParseGives(sections: seq<string>, values: seq<Setting>, name: string)
    requires AllPrintable(SectionNames(sections), values)
    ensures var names := SectionNames(sections);
            && Get(Parse(Print(sections, values)).values, name) == Restored(names, names, values, name)
            && Parse(Print(sections, values)).sections == Used(names, names, values)
  {
    var names := SectionNames(sections);
    SortIs([""] + sections);
    var lines := AllLines(names, names, values);
    AllOneLine(names, names, values);
    SplitUnlines(lines);
    AllParsed(names, names, values);
    hide AllLines, Unlines, SplitLines, Sort, Get;
    ParseAppend(START, lines, [""]);
    ParseOne(ParseLines(START, lines), "");
    assert CommentLine("");
    CommentParsed(ParseLines(START, lines), "");
  }

  // The sections that come back are those that a key is in, each of them once.
  lemma SectionsParsed(sections: seq<string>, values: seq<Setting>)
    requires AllPrintable(SectionNames(sections), Tidy(values))
    ensures var names, r := SectionNames(sections), Parse(Print(sections, values)).sections;
            && (forall i, j :: 0 <= i < j < |r| ==> r[i] != r[j])
            && forall b :: b in r <==>
                 b != "" && exists k :: 0 <= k < |values| && BaseOf(names, values[k].name) == Some(b)
  {
    var names, tidy := SectionNames(sections), Tidy(values);
    hide SectionNames, Parse, Print, Used, Group, Tidy, BaseOf;
    PrintTidy(sections, values);
    PrintParseGives(sections, tidy, "");
    UsedIs(names, names, tidy);
    TidyAt(values);
    forall b: string | b != ""
      ensures b in Used(names, names, tidy) <==>
        exists k :: 0 <= k < |values| && BaseOf(names, values[k].name) == Some(b)
    {
      GroupUsed(tidy, names, b);
      if k :| 0 <= k < |values| && BaseOf(names, values[k].name) == Some(b) {
        NamesHold(sections, values[k].name);
        assert tidy[k].name == values[k].name;
      }
    }
  }

  lemma NamesHold(sections: seq<string>, key: string)
    ensures "" in SectionNames(sections) && BaseName(SectionNames(sections), key) in SectionNames(sections)
  {
    SortIs([""] + sections);
    assert "" in [""] + sections;
  }

  // Printing and then parsing restores every key with its value, trimmed, and its comments,
  // whatever sections are declared, exactly when the root section takes no dot off a key.
  lemma PrintParse(sections: seq<string>, values: seq<Setting>)
    requires AllPrintable(SectionNames(sections), Tidy(values))
    ensures (forall n :: Get(Parse(Print(sections, values)).values, n) == Get(Tidy(values), n))
       <==> NoDotLost(values, SectionNames(sections))
  {
    hide Parse, Print, SectionNames;
    PrintTidy(sections, values);
    PrintParseNeat(sections, Tidy(values));
    TidyAt(values);
    hide Tidy;
  }

  lemma PrintParseNeat(sections: seq<string>, values: seq<Setting>)
    requires AllPrintable(SectionNames(sections), values)
    ensures (forall n :: Get(Parse(Print(sections, values)).values, n) == Get(values, n))
       <==> NoDotLost(values, SectionNames(sections))
  {
    var names := SectionNames(sections);
    hide Parse, Print, SectionNames, ReadBack, BaseName, BaseOf;
    if NoDotLost(values, names) {
      forall n ensures Get(Parse(Print(sections, values)).values, n) == Get(values, n) {
        PrintParseGives(sections, values, n);
        NamesHold(sections, n);
        ReadBackIs(values, names, "", n);
      }
    } else {
      var i := LongestDotted(values, names);
      var key := values[i].name;
      DotGone(values, names, key);
      RootName(names, key);
      GetMember(values, i);
      PrintParseGives(sections, values, key);
    }
  }

  lemma RootName(names: seq<string>, key: string)
    requires BaseOf(names, key) == Some("")
    ensures BaseName(names, key) == ""
  {
  }

  // So a lone key that begins with a dot comes back without it.
  lemma LeadingDotLost(value: string)
    requires Neat(value)
    ensures var values := [Setting(".a", Item(value, []))];
            var r := Parse(Print([], values)).values;
            Get(r, ".a") == None && Get(r, "a") == Some(Item(value, []))
  {
    var x := Setting(".a", Item(value, []));
    SortRoot();
    DotPrintable(x);
    DotReadBack(x, "a");
    DotReadBack(x, ".a");
    hide *;
    PrintParseGives([], [x], "a");
    PrintParseGives([], [x], ".a");
  }

  // What is printed for a setting of the root section and one with a comment in another.
  lemma PrintedText()
    ensures Print(["b"], [Setting("b.c", Item(" 2 ", ["# x"])), Setting("a", Item("1", []))])
         == "a=1\n\n[b]\n# x\nc=2\n"
  {
    hide *;
    var x, y := Setting("b.c", Item(" 2 ", ["# x"])), Setting("a", Item("1", []));
    var c := Setting("c", Item(" 2 ", ["# x"]));
    var names, values := ["", "b"], [x, y];
    PrintedNames();
    PrintedGroups(x, y);
    PrintedItem(y, "1", "a=1");
    PrintedItem(c, "2", "c=2");
    PrintedSection("", y, ["a=1"]);
    PrintedSection("b", c, ["# x", "c=2"]);
    NoSections(names, values);
    AllLinesLast(names, [], "", values);
    AllLinesLast(names, [""], "b", values);
    assert [] + [""] == [""] && [""] + ["b"] == names && [] + (["a=1"] + []) == ["a=1"];
    assert [] + ["a=1"] == ["a=1"] && "[" + "b" + "]" == "[b]";
    PrintIs(["b"], values);
    PrintedLines();
  }

  lemma PrintIs(sections: seq<string>, values: seq<Setting>)
    ensures var names := SectionNames(sections);
            Print(sections, values) == Unlines(AllLines(names, names, values))
  {
  }

  lemma NoSections(names: seq<string>, values: seq<Setting>)
    ensures AllLines(names, [], values) == []
  {
  }

  lemma PrintedSection(base: string, x: Setting, lines: seq<string>)
    requires ItemLines(x) == lines
    ensures SectionLines(base, [x]) == (if base == "" then [] else ["", "[" + base + "]"]) + lines
  {
    hide ItemLines;
    assert [x][..0] == [] && [] + lines == lines;
    assert GroupLines([]) == [] && GroupLines([x]) == [] + lines;
  }

  lemma PrintedNames()
    ensures SectionNames(["b"]) == ["", "b"]
  {
    var s: seq<string> := [""] + ["b"];
    assert s[..1] == [""] && [""][..0] == [];
    assert Insert([], "") == [""] + [] == [""];
    assert Sort([""]) == Insert(Sort([]), "");
    assert [""][1..] == [] && Insert([], "b") == ["b"] + [] == ["b"];
    assert Insert([""], "b") == [""] + ["b"];
  }

  lemma PrintedGroups(x: Setting, y: Setting)
    requires x.name == "b.c" && y.name == "a"
    ensures Group([x, y], ["", "b"], "") == [y]
    ensures Group([x, y], ["", "b"], "b") == [Setting("c", x.item)]
  {
    var names := ["", "b"];
    assert names[..1] == [""] && [""][..0] == [] && [x, y][..1] == [x] && [x][..0] == [];
    assert "b.c"[..1] == "b" && "b.c"[2..] == "c";
    assert Under("b.c", "b") && !Under("a", "b") && !Under("a", "");
    BaseOfLast([], "", "a");
    BaseOfLast([""], "b", "a");
    BaseOfLast([""], "b", "b.c");
    assert [] + [""] == [""] && [""] + ["b"] == names;
    assert BaseOf([], "a") == None;
    hide Under, BaseOf;
    assert LocalName(names, "b.c") == "c" && BaseName(names, "b.c") == "b" && BaseName(names, "a") == "";
    assert Group([], names, "") == [] && Group([], names, "b") == [];
    assert Group([x], names, "") == [] && Group([x], names, "b") == [Setting("c", x.item)];
  }

  lemma BaseOfLast(names: seq<string>, n: string, key: string)
    ensures BaseOf(names + [n], key) == if Under(key, n) then Some(n) else BaseOf(names, key)
  {
    assert (names + [n])[..|names|] == names;
  }

  lemma PrintedItem(x: Setting, v: string, line: string)
    requires x.item.value == v || x.item.value == " " + v + " "
    requires |v| == 1 && '0' <= v[0] <= '9' && line == x.name + "=" + v
    ensures ItemLines(x) == x.item.comments + [line]
  {
    PrintedValue(x.item.value, v);
    hide Escape, Trim;
  }

  lemma PrintedValue(value: string, v: string)
    requires value == v || value == " " + v + " "
    requires |v| == 1 && '0' <= v[0] <= '9'
    ensures Escape(Trim(value)) == v
  {
    assert AllSpace(" ");
    TrimAround(" ", v, " ");
    TrimNeat(v);
    assert !IsSpace(v[0]);
    hide Trim;
    assert v[1..] == "" && [v[0]] + "" == v;
  }

  lemma PrintedLines()
    ensures Unlines(["a=1"] + (["", "[b]"] + ["# x", "c=2"])) == "a=1\n\n[b]\n# x\nc=2\n"
  {
    var s1, s2, s3, s4 := ["a=1"], ["a=1", ""], ["a=1", "", "[b]"], ["a=1", "", "[b]", "# x"];
    assert ["a=1"] + (["", "[b]"] + ["# x", "c=2"]) == s4 + ["c=2"];
    assert [] + ["a=1"] == s1 && s1 + [""] == s2 && s2 + ["[b]"] == s3 && s3 + ["# x"] == s4;
    hide Unlines;
    NoLines();
    UnlinesNext([], "a=1", "a=1\n");
    UnlinesNext(s1, "", "a=1\n\n");
    UnlinesNext(s2, "[b]", "a=1\n\n[b]\n");
    UnlinesNext(s3, "# x", "a=1\n\n[b]\n# x\n");
    UnlinesNext(s4, "c=2", "a=1\n\n[b]\n# x\nc=2\n");
  }

  lemma NoLines()
    ensures Unlines([]) == ""
  {
  }

  lemma UnlinesNext(h: seq<string>, line: string, text: string)
    requires Unlines(h) + line + "\n" == text
    ensures Unlines(h + [line]) == text
  {
    assert (h + [line])[..|h|] == h;
  }

  lemma DotPrintable(x: Setting)
    requires x.name == ".a" && Neat(x.item.value) && x.item.comments == []
    ensures AllPrintable([""], [x])
  {
    DotKey();
    hide BaseOf;
  }

  lemma DotReadBack(x: Setting, n: string)
    requires x.name == ".a"
    ensures Restored([""], [""], [x], n) == if n == "a" then Some(x.item) else None
  {
    var names := [""];
    DotKey();
    assert [x][..0] == [];
    var y := Setting("a", x.item);
    assert ReadBack([x], names, "") == [] + [y];
    GetLast([], y, n);
    assert BaseName(names, n) == "" by { assert names[..0] == []; }
  }

  lemma DotKey()
    ensures BaseOf([""], ".a") == Some("") && BaseOf([""], "a") == None && LocalName([""], ".a") == "a"
    ensures Neat(".a") && LocalGood("a")
  {
    assert [""][..0] == [];
    assert !Under("a", "") && Under(".a", "");
    assert ".a"[1..] == "a" && !IsSpace('a') && !IsSpace('.');
  }

  lemma SortRoot()
    ensures SectionNames([]) == [""]
  {
    var s: seq<string> := [""] + [];
    assert s == [""] && s[..|s| - 1] == [];
    assert Insert([], "") == [""] + [] == [""];
    assert Sort(s) == Insert(Sort([]), "");
  }

  // ---------- the methods ----------

  lemma ParseFirst(lines: seq<string>)
    ensures ParseLines(START, lines[..0]) == ParseState([], None, [], [])
  {
  }

  lemma ParseNext(lines: seq<string>, k: nat)
    requires k < |lines|
    ensures ParseLines(START, lines[..k + 1]) == ParseLine(ParseLines(START, lines[..k]), lines[k])
  {
    hide ParseLine;
    assert lines[..k + 1][..k] == lines[..k];
  }

  lemma ParseAll(text: string, lines: seq<string>)
    requires lines == SplitLines(text)
    ensures ParseLines(START, lines[..|lines|]) == Parse(text)
  {
    assert lines[..|lines|] == lines;
  }

  lemma AllLinesNext(names: seq<string>, i: nat, values: seq<Setting>)
    requires i < |names|
    ensures AllLines(names, names[..i + 1], values)
         == AllLines(names, names[..i], values) + SectionLines(names[i], Group(values, names, names[i]))
  {
    hide SectionLines, Group;
    assert names[..i + 1][..i] == names[..i];
  }

  class Config {
    var values: seq<Setting>
    var sections: seq<string>

    constructor ()
      ensures values == [] && sections == []
    {
      values, sections := [], [];
    }

    // Config.parse of a text that is not empty; an empty one only clears the values.
    method ParseText(text: string) returns (ok: bool)
      modifies this
      ensures ok <==> text != ""
      ensures ok ==> values == Parse(text).values && sections == Parse(text).sections
      ensures !ok ==> values == [] && sections == old(sections)
    {
      values := [];
      if text == "" { return false; }
      var lines := SplitLines(text);
      var base: Option<string>, comments: seq<string>, names: seq<string> := None, [], [];
      ParseFirst(lines);
      hide *;
      var k := 0;
      while k < |lines|
        invariant 0 <= k <= |lines| && ParseState(values, base, comments, names) == ParseLines(START, lines[..k])
      {
        ParseNext(lines, k);
        base, comments, names := ParseOneLine(lines[k], base, comments, names);
        k := k + 1;
      }
      ParseAll(text, lines);
      sections := names;
      return true;
    }

    // One call of the function that Config.parse gives to forEach.
    method ParseOneLine(item: string, base0: Option<string>, comments0: seq<string>, names0: seq<string>)
      returns (base: Option<string>, comments: seq<string>, names: seq<string>)
      modifies this`values
      ensures ParseState(values, base, comments, names)
           == ParseLine(ParseState(old(values), base0, comments0, names0), item)
    {
      hide Trim, ParseValue, Put, IndexOf;
      base, comments, names := base0, comments0, names0;
      var line := Trim(item);
      if line != "" && line[0] == '[' {
        var pos := IndexOf(line, ']', 1);
        if !(pos > 1) { pos := |line|; }
        var name := line[1..pos];
        if name != "" {
          base := Some(name);
          if name !in names { names := names + [name]; }
        }
        comments := [];
      } else if line != "" && line[0] == '#' {
        comments := comments + [line];
      } else if line != "" && line[0] == ';' {
        comments := comments + [line];
      } else {
        var pos := IndexOf(line, '=', 0);
        if !(pos > 0) {
          comments := comments + [line];
          return;
        }
        var key := line[..pos];
        var value := ParseValue(line[pos + 1..]);
        var name := Trim(if base.Some? then base.value + "." + key else key);
        values := Put(values, Setting(name, Item(value, comments)));
        comments := [];
      }
    }

    // The first half of Config.stringify: the settings of each section.
    method GroupValues(names: seq<string>) returns (groups: map<string, seq<Setting>>)
      ensures forall base: string ::
        Group(values, names, base) == if base in groups then groups[base] else []
    {
      groups := map["" := []];
      hide BaseName, LocalName, Put;
      var k := 0;
      while k < |values|
        invariant 0 <= k <= |values|
        invariant forall base: string ::
          Group(values[..k], names, base) == if base in groups then groups[base] else []
      {
        var base, name := ChooseSection(names, values[k].name);
        var section := if base in groups then groups[base] else [];
        assert values[..k + 1][..k] == values[..k];
        groups := groups[base := Put(section, Setting(name, values[k].item))];
        k := k + 1;
      }
      assert values[..|values|] == values;
    }

    // The last section name that the key is under wins.
    static method ChooseSection(names: seq<string>, key: string) returns (base: string, name: string)
      ensures base == BaseName(names, key) && name == LocalName(names, key)
    {
      hide BaseName, LocalName;
      base, name := "", key;
      ChooseNone(key);
      assert names[..0] == [];
      var j := 0;
      while j < |names|
        invariant 0 <= j <= |names|
        invariant base == BaseName(names[..j], key) && name == LocalName(names[..j], key)
      {
        ChooseNext(names, j, key);
        if |key| > |names[j]| && key[..|names[j]|] == names[j] && key[|names[j]|] == '.' {
          base, name := names[j], key[|names[j]| + 1..];
        }
        j := j + 1;
      }
      assert names[..|names|] == names;
    }

    // Config.stringify
    method Stringify() returns (text: string)
      ensures text == Print(sections, values)
    {
      var names := SectionNames(sections);
      var groups := GroupValues(names);
      text := "";
      assert AllLines(names, names[..0], values) == [] && Unlines([]) == "";
      assert names[..|names|] == names;
      hide Group, SectionLines, AllLines, Unlines, SectionNames;
      var i := 0;
      while i < |names|
        invariant 0 <= i <= |names| && text == Unlines(AllLines(names, names[..i], values))
      {
        var base := names[i];
        AllLinesNext(names, i, values);
        var section := if base in groups then groups[base] else [];
        var lines := PrintSection(base, section);
        UnlinesAppend(AllLines(names, names[..i], values), SectionLines(base, section));
        text := text + lines;
        i := i + 1;
      }
    }

    static method PrintSection(base: string, section: seq<Setting>) returns (text: string)
      ensures text == Unlines(SectionLines(base, section))
    {
      text := "";
      if section == [] { return; }
      var lines := PrintGroup(section);
      if base == "" {
        assert [] + GroupLines(section) == GroupLines(section);
        return lines;
      }
      HeaderText(base);
      UnlinesAppend(["", "[" + base + "]"], GroupLines(section));
      return "\n[" + base + "]\n" + lines;
    }

    static method PrintGroup(section: seq<Setting>) returns (text: string)
      ensures text == Unlines(GroupLines(section))
    {
      hide ItemLines;
      text := "";
      var k := 0;
      while k < |section|
        invariant 0 <= k <= |section| && text == Unlines(GroupLines(section[..k]))
      {
        var lines := PrintItem(section[k]);
        assert section[..k + 1][..k] == section[..k];
        UnlinesAppend(GroupLines(section[..k]), ItemLines(section[k]));
        text := text + lines;
        k := k + 1;
      }
      assert section[..|section|] == section;
    }

    static method PrintItem(s: Setting) returns (text: string)
      ensures text == Unlines(ItemLines(s))
    {
      text := "";
      var comments := s.item.comments;
      var k := 0;
      while k < |comments|
        invariant 0 <= k <= |comments| && text == Unlines(comments[..k])
      {
        assert comments[..k + 1][..k] == comments[..k];
        text := text + comments[k] + "\n";
        k := k + 1;
      }
      assert comments[..|comments|] == comments;
      var line := s.name + "=" + Escape(Trim(s.item.value));
      assert (comments + [line])[..|comments|] == comments;
      text := text + line + "\n";
    }
  }

  lemma ChooseNone(key: string)
    ensures BaseName([], key) == "" && LocalName([], key) == key
  {
  }

  lemma ChooseNext(names: seq<string>, j: nat, key: string)
    requires j < |names|
    ensures BaseName(names[..j + 1], key) == if Under(key, names[j]) then names[j] else BaseName(names[..j], key)
    ensures LocalName(names[..j + 1], key)
         == if Under(key, names[j]) then key[|names[j]| + 1..] else LocalName(names[..j], key)
  {
    assert names[..j + 1][..j] == names[..j];
  }

  lemma {:induction false} UnlinesAppend(a: seq<string>, b: seq<string>)
    ensures Unlines(a + b) == Unlines(a) + Unlines(b)
  {
    if b == [] {
      assert a + b == a;
    } else {
      var h, t := b[..|b| - 1], b[|b| - 1];
      assert (a + b)[..|a + b| - 1] == a + h;
      UnlinesAppend(a, h);
      assert (Unlines(a) + Unlines(h)) + t + "\n" == Unlines(a) + (Unlines(h) + t + "\n");
    }
  }

  lemma HeaderText(base: string)
    ensures "\n[" + base + "]\n" == Unlines(["", "[" + base + "]"])
  {
    var line := "[" + base + "]";
    var s := ["", line];
    assert s[..1] == [""] && [""][..0] == [];
    assert Unlines([""]) == "" + "" + "\n" == "\n";
    assert "\n" + line + "\n" == "\n[" + base + "]\n";
  }
}
