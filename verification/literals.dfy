/** JSON string literals as `json.dumps` writes them, in ASCII, and as a reader takes them back. */
module Literals {
  import opened Basics

  // ----- writing -----

  function HexDigit(n: nat): char
    requires n < 16
  {
    if n < 10 then '0' + n as char else 'a' + (n - 10) as char
  }

  /** One UTF-16 code unit as a six-character escape. */
  function UnitEscape(n: nat): string
    requires n < 0x1_0000
  {
    var sixteens, rest := n / 16, n / 16 / 16;
    ['\\', 'u', HexDigit(rest / 16), HexDigit(rest % 16), HexDigit(sixteens % 16), HexDigit(n % 16)]
  }

  /** Section 7 of RFC 8259: a code point beyond the first plane takes two units. */
  function CodeEscape(c: char): string {
    var n := c as nat;
    if n < 0x1_0000 then UnitEscape(n)
    else UnitEscape(0xD800 + (n - 0x1_0000) / 0x400) + UnitEscape(0xDC00 + (n - 0x1_0000) % 0x400)
  }

  function EscapedChar(c: char): string {
    if c == '\"' then "\\\""
    else if c == '\\' then "\\\\"
    else if c == '\n' then "\\n"
    else if c == '\r' then "\\r"
    else if c == '\t' then "\\t"
    else if c as nat == 8 then "\\b"
    else if c as nat == 12 then "\\f"
    else if ' ' <= c <= '~' then [c]
    else CodeEscape(c)
  }

  function Escaped(s: string): string {
    if s == [] then "" else EscapedChar(s[0]) + Escaped(s[1..])
  }

  /** A string value between quotes. */
  function Quoted(s: string): string {
    "\"" + Escaped(s) + "\""
  }

  // ----- reading -----

  function DigitValue(c: char): (r: Option<nat>)
    ensures r.Some? ==> r.value < 16
  {
    if '0' <= c <= '9' then Some(c as nat - '0' as nat)
    else if 'a' <= c <= 'f' then Some(c as nat - 'a' as nat + 10)
    else if 'A' <= c <= 'F' then Some(c as nat - 'A' as nat + 10)
    else None
  }

  /** The code unit a six-character escape at the start of the text stands for. */
  function UnitAt(t: string): (r: Option<nat>)
    ensures r.Some? ==> |t| >= 6 && r.value < 0x1_0000
  {
    if |t| < 6 || t[0] != '\\' || t[1] != 'u' then None
    else
      var a, b, c, d := DigitValue(t[2]), DigitValue(t[3]), DigitValue(t[4]), DigitValue(t[5]);
      if a.Some? && b.Some? && c.Some? && d.Some?
      then Some(0x1000 * a.value + 0x100 * b.value + 0x10 * c.value + d.value)
      else None
  }

  /** A code point by its escapes, with their length; a lone surrogate is no character here. */
  function CodeAt(t: string): (r: Option<(char, nat)>)
    ensures r.Some? ==> 0 < r.value.1 <= |t|
  {
    var first := UnitAt(t);
    if first.None? then None
    else if first.value < 0xD800 || 0xE000 <= first.value then Some((first.value as char, 6))
    else
      var second := UnitAt(t[6..]);
      if first.value < 0xDC00 && second.Some? && 0xDC00 <= second.value < 0xE000
      then Some(((0x1_0000 + 0x400 * (first.value - 0xD800) + (second.value - 0xDC00)) as char, 12))
      else None
  }

  /** The first character of a literal's text, with how much of the text it takes. */
  function CharAt(t: string): (r: Option<(char, nat)>)
    requires t != []
    ensures r.Some? ==> 0 < r.value.1 <= |t|
  {
    if t[0] < ' ' then None
    else if t[0] != '\\' then Some((t[0], 1))
    else if |t| < 2 then None
    else if t[1] == '\"' || t[1] == '\\' || t[1] == '/' then Some((t[1], 2))
    else if t[1] == 'n' then Some(('\n', 2))
    else if t[1] == 'r' then Some(('\r', 2))
    else if t[1] == 't' then Some(('\t', 2))
    else if t[1] == 'b' then Some((8 as char, 2))
    else if t[1] == 'f' then Some((12 as char, 2))
    else CodeAt(t)
  }

  /** The value of a literal after its opening quote, up to the closing one, and what follows. */
  function ReadBody(t: string): (r: Option<(string, string)>)
    ensures r.Some? ==> |r.value.1| < |t|
    decreases |t|
  {
    if t == [] then None
    else if t[0] == '\"' then Some(("", t[1..]))
    else
      var first := CharAt(t);
      if first.None? then None
      else
        var rest := ReadBody(t[first.value.1..]);
        if rest.None? then None else Some(([first.value.0] + rest.value.0, rest.value.1))
  }

  function ReadLiteral(t: string): (r: Option<(string, string)>)
    ensures r.Some? ==> |r.value.1| < |t|
  {
    if t == [] || t[0] != '\"' then None else ReadBody(t[1..])
  }

  /** Literals separated by commas, up to the end. */
  function ReadList(t: string): Option<seq<string>>
    decreases |t|
  {
    if t == [] then Some([])
    else
      var first := ReadLiteral(t);
      if first.None? then None
      else if first.value.1 == [] then Some([first.value.0])
      else
        var rest := ReadList(first.value.1[1..]);
        if first.value.1[0] != ',' || rest.None? then None else Some([first.value.0] + rest.value)
  }

  /** One literal of a list, and the comma after it. */
  lemma ListStep(t: string, value: string, tail: string)
    requires ReadLiteral(t) == Some((value, tail))
    ensures ReadList(t) ==
      if tail == [] then Some([value])
      else if tail[0] == ',' && ReadList(tail[1..]).Some? then Some([value] + ReadList(tail[1..]).value)
      else None
  {
    hide ReadLiteral;
  }

  // ----- round trip -----

  lemma UnitReadsBack(n: nat, tail: string)
    requires n < 0x1_0000
    ensures UnitAt(UnitEscape(n) + tail) == Some(n)
  {
    hide HexDigit, DigitValue;
    var t := UnitEscape(n) + tail;
    var sixteens, rest := n / 16, n / 16 / 16;
    DigitReadsBack(rest / 16);
    DigitReadsBack(rest % 16);
    DigitReadsBack(sixteens % 16);
    DigitReadsBack(n % 16);
    DigitsMakeUp(n);
    assert t[2] == HexDigit(rest / 16) && t[3] == HexDigit(rest % 16);
    assert t[4] == HexDigit(sixteens % 16) && t[5] == HexDigit(n % 16);
  }

  lemma DigitsMakeUp(n: nat)
    requires n < 0x1_0000
    ensures 0x1000 * (n / 16 / 16 / 16) + 0x100 * (n / 16 / 16 % 16) + 0x10 * (n / 16 % 16) + n % 16 == n
  {
  }

  lemma DigitReadsBack(n: nat)
    requires n < 16
    ensures DigitValue(HexDigit(n)) == Some(n)
  {
  }

  lemma CodeReadsBack(c: char, tail: string)
    ensures CodeAt(CodeEscape(c) + tail) == Some((c, |CodeEscape(c)|))
  {
    hide UnitAt, UnitEscape;
    var n := c as nat;
    if n < 0x1_0000 {
      UnitReadsBack(n, tail);
      SixLong(n);
    } else {
      var high, low := 0xD800 + (n - 0x1_0000) / 0x400, 0xDC00 + (n - 0x1_0000) % 0x400;
      var second := UnitEscape(low) + tail;
      UnitReadsBack(high, second);
      UnitReadsBack(low, tail);
      assert CodeEscape(c) + tail == UnitEscape(high) + second;
      SixLong(high);
      SixLong(low);
      assert (UnitEscape(high) + second)[6..] == second;
    }
  }

  lemma SixLong(n: nat)
    requires n < 0x1_0000
    ensures |UnitEscape(n)| == 6 && UnitEscape(n)[0] == '\\' && UnitEscape(n)[1] == 'u'
    ensures forall i | 0 <= i < 6 :: ' ' <= UnitEscape(n)[i] <= '~'
  {
  }

  lemma CodeStarts(c: char)
    ensures |CodeEscape(c)| >= 6 && CodeEscape(c)[0] == '\\' && CodeEscape(c)[1] == 'u'
    ensures forall i | 0 <= i < |CodeEscape(c)| :: ' ' <= CodeEscape(c)[i] <= '~'
  {
    hide UnitEscape;
    var n := c as nat;
    if n < 0x1_0000 {
      SixLong(n);
    } else {
      SixLong(0xD800 + (n - 0x1_0000) / 0x400);
      SixLong(0xDC00 + (n - 0x1_0000) % 0x400);
    }
  }

  lemma CharReadsBack(c: char, tail: string)
    ensures var e := EscapedChar(c);
      e != [] && e[0] != '\"' && CharAt(e + tail) == Some((c, |e|))
  {
    hide CodeAt, CodeEscape;
    CodeStarts(c);
    CodeReadsBack(c, tail);
  }

  lemma {:induction false} BodyReadsBack(s: string, tail: string)
    ensures ReadBody(Escaped(s) + "\"" + tail) == Some((s, tail))
  {
    hide EscapedChar, CharAt;
    if s == [] {
      assert (Escaped(s) + "\"" + tail)[1..] == tail;
    } else {
      var e, rest := EscapedChar(s[0]), Escaped(s[1..]) + "\"" + tail;
      assert Escaped(s) + "\"" + tail == e + rest;
      CharReadsBack(s[0], rest);
      assert (e + rest)[|e|..] == rest;
      BodyReadsBack(s[1..], tail);
      assert [s[0]] + s[1..] == s;
    }
  }

  /** A quoted value reads back as the value, whatever follows it. */
  lemma QuotedReadsBack(s: string, tail: string)
    ensures ReadLiteral(Quoted(s) + tail) == Some((s, tail))
  {
    hide Escaped, ReadBody;
    BodyReadsBack(s, tail);
    assert (Quoted(s) + tail)[1..] == Escaped(s) + "\"" + tail;
  }

  /** No quoted value begins another: only equal values share a literal, wherever the text goes on. */
  lemma QuotedTellsApart(a: string, b: string, after: string, beyond: string)
    requires Quoted(a) + after == Quoted(b) + beyond
    ensures a == b && after == beyond
  {
    hide Quoted, ReadLiteral;
    QuotedReadsBack(a, after);
    QuotedReadsBack(b, beyond);
  }

  /** What is written is printable ASCII, so a line is as many bytes long as it has characters. */
  lemma {:induction false} EscapedIsAscii(s: string, i: nat)
    requires i < |Escaped(s)|
    ensures ' ' <= Escaped(s)[i] <= '~'
  {
    hide EscapedChar;
    var e := EscapedChar(s[0]);
    EscapedCharIsAscii(s[0]);
    if i < |e| {
      assert Escaped(s)[i] == e[i];
    } else {
      assert Escaped(s)[i] == Escaped(s[1..])[i - |e|];
      EscapedIsAscii(s[1..], i - |e|);
    }
  }

  lemma EscapedCharIsAscii(c: char)
    ensures forall i | 0 <= i < |EscapedChar(c)| :: ' ' <= EscapedChar(c)[i] <= '~'
  {
    hide CodeEscape;
    CodeStarts(c);
  }
}
