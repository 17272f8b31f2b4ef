/** Texts in quotes, as `JSON.stringify` writes them and `JSON.parse` reads them back. */
module JsonText {
  import opened Options

  function HexChar(n: nat): char
    requires n < 16
  {
    "0123456789abcdef"[n]
  }

  function HexValue(c: char): Option<nat> {
    if '0' <= c <= '9' then Some(c as nat - '0' as nat)
    else if 'a' <= c <= 'f' then Some(c as nat - 'a' as nat + 10)
    else if 'A' <= c <= 'F' then Some(c as nat - 'A' as nat + 10)
    else None
  }

  function EscapeChar(c: char): string {
    if c == '\"' || c == '\\' then ['\\', c]
    else if c == '\n' then "\\n"
    else if c == '\t' then "\\t"
    else if c == '\r' then "\\r"
    else if c == '\U{08}' then "\\b"
    else if c == '\U{0C}' then "\\f"
    else if c < ' ' then "\\u00" + [HexChar(c as nat / 16), HexChar(c as nat % 16)]
    else [c]
  }

  function Escape(s: string): string {
    if s == "" then "" else EscapeChar(s[0]) + Escape(s[1..])
  }

  function Quoted(s: string): string {
    "\"" + Escape(s) + "\""
  }

  /** One character or escape at the start: its length and what it stands for. Escapes of single surrogates stand for
      nothing here. */
  function FirstChar(s: string): Option<(nat, char)> {
    if s == "" || s[0] < ' ' then None
    else if s[0] != '\\' then Some((1, s[0]))
    else if |s| < 2 then None
    else if s[1] == '\"' || s[1] == '\\' || s[1] == '/' then Some((2, s[1]))
    else if s[1] == 'n' then Some((2, '\n'))
    else if s[1] == 't' then Some((2, '\t'))
    else if s[1] == 'r' then Some((2, '\r'))
    else if s[1] == 'b' then Some((2, '\U{08}'))
    else if s[1] == 'f' then Some((2, '\U{0C}'))
    else if s[1] == 'u' && |s| >= 6 then
      var a, b, c, d := HexValue(s[2]), HexValue(s[3]), HexValue(s[4]), HexValue(s[5]);
      if a.None? || b.None? || c.None? || d.None? then None
      else
        var code := 4096 * a.value + 256 * b.value + 16 * c.value + d.value;
        if code < 0xD800 || 0xE000 <= code < 0x1_0000 then Some((6, code as char)) else None
    else None
  }

  /** What the text between the quotes stands for. */
  function Unescape(s: string): Option<string> {
    if s == "" then Some("")
    else
      var first := FirstChar(s);
      if first.None? || first.value.0 == 0 || first.value.0 > |s| then None
      else
        var rest := Unescape(s[first.value.0..]);
        if rest.None? then None else Some([first.value.1] + rest.value)
  }

  /** How far a quoted text reaches: the characters up to the first quote that no backslash precedes. */
  function LiteralLength(s: string): Option<nat> {
    if s == "" then None
    else if s[0] == '\"' then Some(0)
    else if s[0] == '\\' then
      if |s| < 2 then None
      else
        var n := LiteralLength(s[2..]);
        if n.None? then None else Some(n.value + 2)
    else
      var n := LiteralLength(s[1..]);
      if n.None? then None else Some(n.value + 1)
  }

  lemma HexBack(n: nat)
    requires n < 16
    ensures HexValue(HexChar(n)) == Some(n)
    ensures HexChar(n) != '\"' && HexChar(n) != '\\' && HexChar(n) != '\n'
  {
  }

  lemma EscapeShapes(c: char)
    ensures var e := EscapeChar(c);
      || (|e| == 1 && e[0] == c && c != '\"' && c != '\\')
      || (|e| == 2 && e[0] == '\\')
      || (c < ' ' && e == ['\\', 'u', '0', '0', HexChar(c as nat / 16), HexChar(c as nat % 16)])
  {
    hide HexChar;
  }

  lemma FirstHex(x: nat, y: nat, rest: string)
    requires x < 2 && y < 16
    ensures FirstChar(['\\', 'u', '0', '0', HexChar(x), HexChar(y)] + rest) == Some((6, (16 * x + y) as char))
  {
    HexBack(x);
    HexBack(y);
    hide HexChar;
    var s := ['\\', 'u', '0', '0', HexChar(x), HexChar(y)] + rest;
    assert HexValue(s[2]) == Some(0) && HexValue(s[3]) == Some(0) && HexValue(s[4]) == Some(x) &&
        HexValue(s[5]) == Some(y);
  }

  lemma FirstBack(c: char, rest: string)
    ensures FirstChar(EscapeChar(c) + rest) == Some((|EscapeChar(c)|, c))
  {
    var e := EscapeChar(c);
    EscapeShapes(c);
    if |e| == 6 {
      hide FirstChar, EscapeChar, HexChar;
      FirstHex(c as nat / 16, c as nat % 16, rest);
    } else {
      hide HexChar, HexValue;
    }
  }

  /** A text without quotes, backslashes and control characters is written as it is. */
  lemma {:induction false} PlainStays(s: string)
    requires forall c <- s :: c >= ' ' && c != '\"' && c != '\\'
    ensures Escape(s) == s
  {
    hide EscapeChar;
    if s != "" {
      assert s[0] in s && forall c <- s[1..] :: c in s;
      PlainChar(s[0]);
      PlainStays(s[1..]);
      assert s == [s[0]] + s[1..];
    }
  }

  lemma PlainChar(c: char)
    requires c >= ' ' && c != '\"' && c != '\\'
    ensures EscapeChar(c) == [c]
  {
  }

  /** Which characters are hexadecimal digits, and of what value. */
  lemma HexIff(c: char, n: nat)
    ensures HexValue(c) == Some(n) <==> n < 16 && (c == "0123456789abcdef"[n] || c == "0123456789ABCDEF"[n])
  {
  }

  /** What a quoted text may begin with, and what it then stands for: any character that is no control character and no
      backslash, or one of the escapes. */
  lemma UnescapeSteps(c: char, rest: string)
    ensures c < ' ' ==> Unescape([c] + rest) == None
    ensures c >= ' ' && c != '\\' ==> Unescape([c] + rest) == After(c, Unescape(rest))
    ensures Unescape(['\\', c] + rest) ==
            if c in {'\"', '\\', '/'} then After(c, Unescape(rest))
            else if c == 'n' then After('\n', Unescape(rest))
            else if c == 't' then After('\t', Unescape(rest))
            else if c == 'r' then After('\r', Unescape(rest))
            else if c == 'b' then After('\U{08}', Unescape(rest))
            else if c == 'f' then After('\U{0C}', Unescape(rest))
            else if c == 'u' then Unescape("\\u" + rest) else None
  {
    hide HexValue;
    assert ([c] + rest)[1..] == rest && (['\\', c] + rest)[2..] == rest;
    assert c == 'u' ==> ['\\', c] + rest == "\\u" + rest;
  }

  lemma UnescapeHex(a: nat, b: nat, c: nat, d: nat, rest: string)
    requires a < 16 && b < 16 && c < 16 && d < 16
    ensures var code := 4096 * a + 256 * b + 16 * c + d;
      Unescape(['\\', 'u', HexChar(a), HexChar(b), HexChar(c), HexChar(d)] + rest) ==
      if code < 0xD800 || 0xE000 <= code then After(code as char, Unescape(rest)) else None
  {
    HexBack(a);
    HexBack(b);
    HexBack(c);
    HexBack(d);
    hide HexChar, HexValue;
    var s := ['\\', 'u', HexChar(a), HexChar(b), HexChar(c), HexChar(d)] + rest;
    assert s[2] == HexChar(a) && s[3] == HexChar(b) && s[4] == HexChar(c) && s[5] == HexChar(d) && s[6..] == rest;
  }

  function After(c: char, text: Option<string>): Option<string> {
    if text.None? then None else Some([c] + text.value)
  }

  /** Every text comes back from its escapes. */
  lemma {:induction false} UnescapeBack(s: string)
    ensures Unescape(Escape(s)) == Some(s)
  {
    hide EscapeChar, FirstChar;
    if s != "" {
      var e := EscapeChar(s[0]);
      FirstBack(s[0], Escape(s[1..]));
      EscapeSome(s[0]);
      UnescapeBack(s[1..]);
      assert (e + Escape(s[1..]))[|e|..] == Escape(s[1..]);
      assert [s[0]] + s[1..] == s;
    }
  }

  lemma EscapeSome(c: char)
    ensures EscapeChar(c) != ""
  {
  }

  lemma LengthOfPlain(c: char, rest: string)
    requires c != '\"' && c != '\\'
    ensures LiteralLength([c] + rest) == if LiteralLength(rest).None? then None else Some(LiteralLength(rest).value + 1)
  {
    assert ([c] + rest)[1..] == rest;
  }

  lemma LengthOfPair(c: char, rest: string)
    ensures LiteralLength(['\\', c] + rest) == if LiteralLength(rest).None? then None
        else Some(LiteralLength(rest).value + 2)
  {
    assert (['\\', c] + rest)[2..] == rest;
  }

  lemma SixThen(x: char, y: char, rest: string)
    ensures ['\\', 'u', '0', '0', x, y] + rest == ['\\', 'u'] + (['0'] + (['0'] + ([x] + ([y] + rest))))
  {
  }

  lemma LengthOfHex(x: char, y: char, rest: string)
    requires x != '\"' && x != '\\' && y != '\"' && y != '\\'
    ensures LiteralLength(['\\', 'u', '0', '0', x, y] + rest) ==
            if LiteralLength(rest).None? then None else Some(LiteralLength(rest).value + 6)
  {
    hide LiteralLength;
    SixThen(x, y, rest);
    LengthOfPlain(y, rest);
    var a := [y] + rest;
    LengthOfPlain(x, a);
    var b := [x] + a;
    LengthOfPlain('0', b);
    var c := ['0'] + b;
    LengthOfPlain('0', c);
    LengthOfPair('u', ['0'] + c);
  }

  lemma LengthOfOne(c: char, rest: string)
    ensures LiteralLength(EscapeChar(c) + rest) ==
            if LiteralLength(rest).None? then None else Some(LiteralLength(rest).value + |EscapeChar(c)|)
  {
    hide LiteralLength, EscapeChar, HexChar;
    var e := EscapeChar(c);
    EscapeShapes(c);
    if |e| == 1 {
      LengthOfPlain(c, rest);
      assert e == [c];
    } else if |e| == 2 {
      LengthOfPair(e[1], rest);
      assert e == ['\\', e[1]];
    } else {
      HexBack(c as nat / 16);
      HexBack(c as nat % 16);
      LengthOfHex(HexChar(c as nat / 16), HexChar(c as nat % 16), rest);
    }
  }

  /** A quoted text reaches up to its own closing quote. */
  lemma {:induction false} LiteralEnds(s: string, rest: string)
    ensures LiteralLength(Escape(s) + ("\"" + rest)) == Some(|Escape(s)|)
  {
    hide EscapeChar;
    if s == "" {
      assert Escape(s) + ("\"" + rest) == "\"" + rest;
    } else {
      LiteralEnds(s[1..], rest);
      LengthOfOne(s[0], Escape(s[1..]) + ("\"" + rest));
      assert Escape(s) + ("\"" + rest) == EscapeChar(s[0]) + (Escape(s[1..]) + ("\"" + rest));
    }
  }

  lemma EscapeCharOneLine(c: char)
    ensures '\n' !in EscapeChar(c)
  {
    if c < ' ' {
      HexBack(c as nat / 16);
      HexBack(c as nat % 16);
      hide HexChar;
    }
  }

  /** A quoted text is on one line. */
  lemma {:induction false} EscapeOneLine(s: string)
    ensures '\n' !in Escape(s)
  {
    hide EscapeChar;
    if s != "" {
      EscapeCharOneLine(s[0]);
      EscapeOneLine(s[1..]);
    }
  }
}
