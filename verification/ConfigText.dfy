// The text layer of config.js: trimming, lines, and the escapes of JSON strings
// (section 7 of RFC 8259).
module ConfigText {
  import opened Outcomes
  import opened Hexadecimal

  // ---------- trim ----------

  // White space and line ends, as String.prototype.trim takes them.
  predicate IsSpace(c: char) {
    || '\U{9}' <= c <= '\U{d}' || c == ' ' || c == '\U{a0}' || c == '\U{1680}' || '\U{2000}' <= c <= '\U{200a}'
    || c == '\U{2028}' || c == '\U{2029}' || c == '\U{202f}' || c == '\U{205f}' || c == '\U{3000}' || c == '\U{feff}'
  }

  // The white space and the line terminators of ECMA-262 (sections 12.2 and 12.3).
  lemma SpaceIs(c: char)
    ensures var n := c as int;
            IsSpace(c) <==>
              || n == 0x9 || n == 0xA || n == 0xB || n == 0xC || n == 0xD || n == 0x20 || n == 0xA0 || n == 0x1680
              || 0x2000 <= n <= 0x200A || n == 0x2028 || n == 0x2029 || n == 0x202F || n == 0x205F || n == 0x3000
              || n == 0xFEFF
  {
  }

  function TrimLeft(s: string): string {
    if s != "" && IsSpace(s[0]) then TrimLeft(s[1..]) else s
  }

  function TrimRight(s: string): string {
    if s != "" && IsSpace(s[|s| - 1]) then TrimRight(s[..|s| - 1]) else s
  }

  function Trim(s: string): string { TrimRight(TrimLeft(s)) }

  // No white space at either end.
  predicate Neat(s: string) { s == "" || (!IsSpace(s[0]) && !IsSpace(s[|s| - 1])) }

  lemma {:induction false} TrimLeftIs(s: string)
    ensures TrimLeft(s) == "" || !IsSpace(TrimLeft(s)[0])
  {
    if s != "" && IsSpace(s[0]) { TrimLeftIs(s[1..]); }
  }

  lemma {:induction false} TrimRightIs(s: string)
    ensures TrimRight(s) == "" || (!IsSpace(TrimRight(s)[|TrimRight(s)| - 1]) && TrimRight(s)[0] == s[0])
  {
    if s != "" && IsSpace(s[|s| - 1]) { TrimRightIs(s[..|s| - 1]); }
  }

  // Trimmed texts are those that trim leaves alone.
  lemma TrimNeat(s: string)
    ensures Neat(Trim(s)) && (Trim(s) == s <==> Neat(s))
  {
    TrimLeftIs(s);
    TrimRightIs(TrimLeft(s));
  }

  predicate AllSpace(w: string) { forall k :: 0 <= k < |w| ==> IsSpace(w[k]) }

  lemma {:induction false} TrimLeftMore(w: string, s: string)
    requires AllSpace(w)
    ensures TrimLeft(w + s) == TrimLeft(s)
  {
    if w == "" {
      assert w + s == s;
    } else {
      assert (w + s)[1..] == w[1..] + s;
      TrimLeftMore(w[1..], s);
    }
  }

  lemma {:induction false} TrimRightMore(s: string, w: string)
    requires AllSpace(w)
    ensures TrimRight(s + w) == TrimRight(s)
  {
    if w == "" {
      assert s + w == s;
    } else {
      var h := w[..|w| - 1];
      assert (s + w)[..|s + w| - 1] == s + h;
      TrimRightMore(s, h);
    }
  }

  lemma {:induction false} TrimLeftStops(s: string, w: string)
    ensures TrimLeft(s + w) == if TrimLeft(s) == "" then TrimLeft(w) else TrimLeft(s) + w
  {
    if s == "" {
      assert s + w == w;
    } else if IsSpace(s[0]) {
      assert (s + w)[1..] == s[1..] + w;
      TrimLeftStops(s[1..], w);
    }
  }

  // White space around a text does not matter.
  lemma TrimAround(v: string, s: string, w: string)
    requires AllSpace(v) && AllSpace(w)
    ensures Trim(v + s + w) == Trim(s)
  {
    assert v + s + w == v + (s + w) && w + "" == w;
    TrimLeftMore(v, s + w);
    TrimLeftStops(s, w);
    TrimLeftMore(w, "");
    TrimRightMore(TrimLeft(s), w);
  }

  // ---------- lines ----------

  // The lines of a text that ends each of them.
  function Unlines(lines: seq<string>): string {
    if lines == [] then "" else Unlines(lines[..|lines| - 1]) + lines[|lines| - 1] + "\n"
  }

  // s.split('\n')
  function SplitLines(s: string): (r: seq<string>)
    ensures r != []
  {
    if s == "" then [""]
    else
      var r, c := SplitLines(s[..|s| - 1]), s[|s| - 1];
      if c == '\n' then r + [""] else r[|r| - 1 := r[|r| - 1] + [c]]
  }

  lemma SplitMore(s: string, c: char)
    requires c != '\n'
    ensures var r := SplitLines(s);
            SplitLines(s + [c]) == r[|r| - 1 := r[|r| - 1] + [c]]
  {
    var t := s + [c];
    assert t[..|t| - 1] == s && t[|t| - 1] == c;
  }

  lemma {:induction false} SplitLine(s: string, line: string)
    requires '\n' !in line
    ensures var r := SplitLines(s);
            SplitLines(s + line) == r[|r| - 1 := r[|r| - 1] + line]
  {
    var r := SplitLines(s);
    hide SplitLines;
    if line == "" {
      assert s + line == s && r[|r| - 1] + line == r[|r| - 1];
    } else {
      var h, c := line[..|line| - 1], line[|line| - 1];
      assert c in line && forall x :: x in h ==> x in line;
      SplitLine(s, h);
      SplitMore(s + h, c);
      assert line == h + [c] && s + line == (s + h) + [c];
      assert (r[|r| - 1] + h) + [c] == r[|r| - 1] + line;
    }
  }

  lemma {:induction false} SplitUnlines(lines: seq<string>)
    requires forall k :: 0 <= k < |lines| ==> '\n' !in lines[k]
    ensures SplitLines(Unlines(lines)) == lines + [""]
  {
    if lines != [] {
      var k := |lines| - 1;
      var u, line := Unlines(lines[..k]), lines[k];
      SplitUnlines(lines[..k]);
      SplitLine(u, line);
      var t := u + line + "\n";
      assert t[..|t| - 1] == u + line && t[|t| - 1] == '\n';
      assert "" + line == line;
      assert (lines[..k] + [""])[k := line] == lines[..k] + [line] == lines;
    }
  }

  // ---------- escapes ----------

  // One character of JSON.stringify, without the quotes around the string.
  function EscapeChar(c: char): (r: string)
    ensures r != ""
  {
    if c == '"' then "\\\"" else if c == '\\' then "\\\\"
    else if c == '\U{8}' then "\\b" else if c == '\U{c}' then "\\f"
    else if c == '\n' then "\\n" else if c == '\r' then "\\r" else if c == '\t' then "\\t"
    else if c < ' ' then "\\u00" + [Digit(c as int / 16), Digit(c as int % 16)]
    else [c]
  }

  function Escape(s: string): string {
    if s == "" then "" else EscapeChar(s[0]) + Escape(s[1..])
  }

  function FourDigits(s: string): Option<char> {
    if |s| >= 4 && AllDigits(s[..4]) then
      var n := HexValue(s[..4]);
      if n < 0xd800 || 0xe000 <= n <= 0xffff then Some(n as char) else None
    else None
  }

  // The character at the front of a JSON string, and how many characters it takes.
  function FirstChar(s: string): (r: Option<(char, nat)>)
    requires s != ""
    ensures r.Some? ==> 1 <= r.value.1 <= |s|
  {
    if s[0] == '"' || s[0] < ' ' then None
    else if s[0] != '\\' then Some((s[0], 1))
    else if |s| < 2 then None
    else match s[1]
      case '"' => Some(('"', 2))
      case '\\' => Some(('\\', 2))
      case '/' => Some(('/', 2))
      case 'b' => Some(('\U{8}', 2))
      case 'f' => Some(('\U{c}', 2))
      case 'n' => Some(('\n', 2))
      case 'r' => Some(('\r', 2))
      case 't' => Some(('\t', 2))
      case 'u' =>
        (match FourDigits(s[2..]) case None => None case Some(c) => Some((c, 6)))
      case _ => None
  }

  // JSON.parse of the text between quotes, or None where it throws.
  function Unescape(s: string): Option<string>
    decreases |s|
  {
    if s == "" then Some("")
    else match FirstChar(s)
      case None => None
      case Some((c, k)) =>
        match Unescape(s[k..])
        case None => None
        case Some(t) => Some([c] + t)
  }

  lemma ControlDigits(c: char, rest: string)
    requires c < ' '
    ensures FourDigits("00" + [Digit(c as int / 16), Digit(c as int % 16)] + rest) == Some(c)
  {
    var h, l := Digit(c as int / 16), Digit(c as int % 16);
    var s := "00" + [h, l] + rest;
    var d := s[..4];
    assert d == ['0', '0', h, l];
    assert d[..3] == ['0', '0', h] && d[..3][..2] == ['0', '0'] && d[..3][..2][..1] == ['0'];
    assert HexValue(['0']) == 16 * HexValue(['0'][..0]) + 0 && HexValue(['0'][..0]) == 0;
    assert HexValue(['0', '0']) == 0;
    assert HexValue(['0', '0', h]) == c as int / 16;
    assert HexValue(d) == 16 * (c as int / 16) + c as int % 16;
  }

  lemma ControlEscaped(c: char, rest: string)
    requires |EscapeChar(c)| == 6
    ensures FirstChar(EscapeChar(c) + rest) == Some((c, 6))
  {
    var e, s := EscapeChar(c), EscapeChar(c) + rest;
    var digits := "00" + [Digit(c as int / 16), Digit(c as int % 16)];
    assert c < ' ' && e == "\\u" + digits;
    ControlDigits(c, rest);
    hide EscapeChar, FourDigits, Digit;
    assert s[0] == '\\' && s[1] == 'u';
    assert s[2..] == digits + rest;
  }

  lemma FirstEscaped(c: char, rest: string)
    ensures FirstChar(EscapeChar(c) + rest) == Some((c, |EscapeChar(c)|))
  {
    var e := EscapeChar(c);
    var s := e + rest;
    assert s[0] == e[0] && (|e| >= 2 ==> s[1] == e[1]);
    hide FourDigits, Digit;
    if |e| == 6 { ControlEscaped(c, rest); }
  }

  // Reading what was printed gives back the text.
  lemma {:induction false} EscapeRoundTrip(s: string)
    ensures Unescape(Escape(s)) == Some(s)
  {
    if s != "" {
      var e, rest := EscapeChar(s[0]), Escape(s[1..]);
      FirstEscaped(s[0], rest);
      EscapeRoundTrip(s[1..]);
      assert (e + rest)[|e|..] == rest && [s[0]] + s[1..] == s;
    }
  }

  // The spellings of a character in a string (section 7 of RFC 8259): itself, a backslash
  // and a letter or sign, or four hexadecimal digits of either case.
  predicate Spells(e: string, c: char) {
    || (e == [c] && c >= ' ' && c != '"' && c != '\\')
    || (|e| == 2 && e[0] == '\\' && Sign(e[1], c))
    || (|e| == 6 && e[0] == '\\' && e[1] == 'u' && AllDigits(e[2..]) && HexValue(e[2..]) == c as int)
  }

  predicate Sign(x: char, c: char) {
    || (x == c && (c == '"' || c == '\\' || c == '/')) || (x == 'b' && c as int == 8) || (x == 'f' && c as int == 12)
    || (x == 'n' && c as int == 10) || (x == 'r' && c as int == 13) || (x == 't' && c as int == 9)
  }

  lemma {:induction false} HexBound(d: string, top: int)
    requires AllDigits(d) && (if |d| == 0 then top == 1 else if |d| == 1 then top == 16 else if |d| == 2 then top == 256
                              else if |d| == 3 then top == 4096 else |d| == 4 && top == 65536)
    ensures HexValue(d) < top
  {
    if d != "" { HexBound(d[..|d| - 1], top / 16); }
  }

  lemma FirstSpelled(e: string, c: char, rest: string)
    requires Spells(e, c)
    ensures FirstChar(e + rest) == Some((c, |e|))
  {
    var s := e + rest;
    assert s[0] == e[0] && (|e| >= 2 ==> s[1] == e[1]);
    if |e| == 6 {
      assert s[2..][..4] == e[2..];
      HexBound(e[2..], 65536);
    }
    hide HexValue;
  }

  lemma FirstIsSpelling(s: string)
    requires s != "" && FirstChar(s).Some?
    ensures Spells(s[..FirstChar(s).value.1], FirstChar(s).value.0)
  {
    var e := s[..FirstChar(s).value.1];
    if |e| == 6 { assert e[2..] == s[2..][..4]; }
    hide HexValue;
  }

  function Cat(pieces: seq<string>): string {
    if pieces == [] then "" else pieces[0] + Cat(pieces[1..])
  }

  ghost predicate Spelled(pieces: seq<string>, v: string) {
    |pieces| == |v| && forall k :: 0 <= k < |v| ==> Spells(pieces[k], v[k])
  }

  lemma {:induction false} SpelledRead(pieces: seq<string>, v: string)
    requires Spelled(pieces, v)
    ensures Unescape(Cat(pieces)) == Some(v)
    decreases |pieces|
  {
    if pieces != [] {
      var e, rest := pieces[0], Cat(pieces[1..]);
      FirstSpelled(e, v[0], rest);
      SpelledRead(pieces[1..], v[1..]);
      assert (e + rest)[|e|..] == rest && [v[0]] + v[1..] == v;
      hide FirstChar, Spells;
    }
  }

  lemma {:induction false} ReadIsSpelled(t: string) returns (pieces: seq<string>)
    requires Unescape(t).Some?
    ensures Cat(pieces) == t && Spelled(pieces, Unescape(t).value)
    decreases |t|
  {
    pieces := [];
    if t != "" {
      var k := FirstChar(t).value.1;
      FirstIsSpelling(t);
      var more := ReadIsSpelled(t[k..]);
      hide FirstChar, Spells;
      pieces := [t[..k]] + more;
      assert pieces[1..] == more && t[..k] + t[k..] == t;
    }
  }

  // Reading a string gives a text exactly when the string spells it; it throws exactly
  // when it spells none.
  lemma UnescapeIs(t: string, v: string)
    ensures Unescape(t) == Some(v) <==> exists pieces :: Cat(pieces) == t && Spelled(pieces, v)
  {
    if Unescape(t) == Some(v) {
      var pieces := ReadIsSpelled(t);
    }
    hide Unescape, Spelled, Cat;
    if pieces :| Cat(pieces) == t && Spelled(pieces, v) { SpelledRead(pieces, v); }
  }

  lemma DigitPrintable(d: nat)
    requires d < 16
    ensures !IsSpace(Digit(d)) && Digit(d) >= ' '
  {
  }

  // An escaped text has no control character, and white space only where the text has.
  lemma {:induction false} EscapePrintable(s: string)
    ensures forall k :: 0 <= k < |Escape(s)| ==> Escape(s)[k] >= ' '
    ensures Neat(s) ==> Neat(Escape(s))
  {
    EscapeClean(s);
    if s != "" { EscapeEnds(s); }
  }

  lemma EscapeCharClean(c: char)
    ensures forall k :: 0 <= k < |EscapeChar(c)| ==> EscapeChar(c)[k] >= ' '
  {
    DigitPrintable(c as int % 16);
    if c < ' ' { DigitPrintable(c as int / 16); }
    hide Digit;
  }

  lemma {:induction false} EscapeClean(s: string)
    ensures forall k :: 0 <= k < |Escape(s)| ==> Escape(s)[k] >= ' '
  {
    if s != "" {
      EscapeClean(s[1..]);
      EscapeCharClean(s[0]);
      hide EscapeChar;
    }
  }

  lemma EscapeCharEnds(c: char)
    ensures !IsSpace(c) ==> var e := EscapeChar(c);
                            !IsSpace(e[0]) && !IsSpace(e[|e| - 1])
  {
    if c < ' ' {
      DigitPrintable(c as int % 16);
    }
  }

  lemma {:induction false} EscapeEnds(s: string)
    requires s != ""
    ensures Escape(s) != ""
    ensures !IsSpace(s[0]) ==> !IsSpace(Escape(s)[0])
    ensures !IsSpace(s[|s| - 1]) ==> !IsSpace(Escape(s)[|Escape(s)| - 1])
  {
    EscapeCharEnds(s[0]);
    var e, t := EscapeChar(s[0]), s[1..];
    if t != "" {
      EscapeEnds(t);
      assert (e + Escape(t))[|e + Escape(t)| - 1] == Escape(t)[|Escape(t)| - 1];
    } else {
      assert Escape(t) == "" && e + "" == e;
    }
  }

  // What is printed for each character: the signs that have one, four digits for the other
  // control characters, and itself for the rest.
  lemma EscapeIs(c: char)
    ensures var e := EscapeChar(c);
            && Spells(e, c)
            && (|e| == 1 <==> c >= ' ' && c != '"' && c != '\\')
            && (|e| == 2 <==> c == '"' || c == '\\' || c in "\U{8}\U{c}\n\r\t")
  {
    FirstEscaped(c, "");
    assert EscapeChar(c) + "" == EscapeChar(c);
    FirstIsSpelling(EscapeChar(c));
    hide HexValue, FirstChar;
  }
}
