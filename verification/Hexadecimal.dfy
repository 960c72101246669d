// Hexadecimal numbers, as lengths on the socket and in the escapes of strings.
module Hexadecimal {
  import opened Outcomes

  function Digit(d: nat): (c: char)
    requires d < 16
    ensures DigitValue(c) == d
  {
    "0123456789abcdef"[d]
  }

  // The value of a digit of either case, or -1.
  function DigitValue(c: char): (d: int)
    ensures -1 <= d < 16
  {
    if '0' <= c <= '9' then c as int - '0' as int
    else if 'a' <= c <= 'f' then c as int - 'a' as int + 10
    else if 'A' <= c <= 'F' then c as int - 'A' as int + 10
    else -1
  }

  // Number.prototype.toString(16)
  function Hex(n: nat): (s: string)
    ensures s != "" && AllDigits(s)
  {
    if n < 16 then [Digit(n)] else Hex(n / 16) + [Digit(n % 16)]
  }

  predicate AllDigits(s: string) { forall k :: 0 <= k < |s| ==> DigitValue(s[k]) >= 0 }

  function HexValue(s: string): nat
    requires AllDigits(s)
  {
    if s == "" then 0 else 16 * HexValue(s[..|s| - 1]) + DigitValue(s[|s| - 1])
  }

  // Number.parseInt(s, 16) of a text that is all digits; other headers are not modelled.
  function ParseHex(s: string): Option<nat> {
    if s != "" && AllDigits(s) then Some(HexValue(s)) else None
  }

  lemma {:induction false} HexRoundTrip(n: nat)
    ensures ParseHex(Hex(n)) == Some(n)
  {
    if n < 16 {
      assert [Digit(n)][..0] == "" && HexValue("") == 0;
    } else {
      HexRoundTrip(n / 16);
      var h := Hex(n / 16);
      assert (h + [Digit(n % 16)])[..|h|] == h;
    }
  }

  // toString writes no number longer than it is read.
  lemma {:induction false} HexShortest(s: string)
    requires ParseHex(s).Some?
    ensures |Hex(ParseHex(s).value)| <= |s|
  {
    var t := s[..|s| - 1];
    if t != "" {
      HexShortest(t);
      var d := DigitValue(s[|s| - 1]);
      var n := 16 * HexValue(t) + d;
      assert n / 16 == HexValue(t);
    } else {
      assert HexValue(t) == 0;
    }
  }

  // toString writes the letters in lower case, and parseInt reads both.
  lemma {:induction false} HexLower(n: nat)
    ensures forall k :: 0 <= k < |Hex(n)| ==> '0' <= Hex(n)[k] <= '9' || 'a' <= Hex(n)[k] <= 'f'
  {
    if n >= 16 { HexLower(n / 16); }
  }

  lemma EitherCase(c: char)
    requires 'a' <= c <= 'f'
    ensures DigitValue(c) == DigitValue((c as int - 32) as char) == c as int - 87
  {
    assert 'a' as int == 97 && 'A' as int == 65;
  }
}
