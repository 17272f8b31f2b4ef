/** The lines of the Steampipe connection file `src/aws_config.ts` writes, as text, and the expression that reads a
    setting of it back. */
module ConnectionFile {
  import opened Options
  import opened Strings
  import opened JsonText

  // ---- the lines ----------------------------------------------------------------------------------------------------

  /** Settings are aligned to the longest name of their block: `default_region`, or `connections` in the aggregator. */
  datatype SpcLine =
    | Comment(text: string)
    | Note(text: string)
    | Open(connection: string)
    | Setting(name: string, value: string)
    | ListSetting(list: string, values: seq<string>)
    | Narrow(name: string, value: string)
    | NarrowList(list: string, values: seq<string>)
    | Close
    | Blank
  {
    function Text(): string {
      match this
      case Comment(t) => "# " + t
      case Note(t) => "  # " + t
      case Open(c) => "connection " + Quoted(c) + " {"
      case Setting(n, v) => "  " + Padded(n, 14) + " = " + Quoted(v)
      case ListSetting(n, vs) => "  " + Padded(n, 14) + " = " + QuotedList(vs)
      case Narrow(n, v) => "  " + Padded(n, 11) + " = " + Quoted(v)
      case NarrowList(n, vs) => "  " + Padded(n, 11) + " = " + QuotedList(vs)
      case Close => "}"
      case Blank => ""
    }
  }

  function Padded(s: string, width: nat): string
    decreases width - |s|
  {
    if |s| >= width then s else Padded(s + " ", width)
  }

  function Listed(xs: seq<string>): string {
    if xs == [] then "" else if |xs| == 1 then Quoted(xs[0]) else Quoted(xs[0]) + ", " + Listed(xs[1..])
  }

  function QuotedList(xs: seq<string>): string {
    "[" + Listed(xs) + "]"
  }

  function SpcTexts(lines: seq<SpcLine>): seq<string> {
    seq(|lines|, i requires 0 <= i < |lines| => lines[i].Text())
  }

  /** The first setting of that name. */
  function SpcField(lines: seq<SpcLine>, name: string): Option<string> {
    if lines == [] then None
    else if lines[0].Setting? && lines[0].name == name then Some(lines[0].value)
    else SpcField(lines[1..], name)
  }

  lemma {:induction false} SpcFieldConcat(a: seq<SpcLine>, b: seq<SpcLine>, name: string)
    ensures SpcField(a + b, name) == if SpcField(a, name).Some? then SpcField(a, name) else SpcField(b, name)
  {
    if a == [] {
      assert a + b == b;
    } else {
      assert (a + b)[1..] == a[1..] + b;
      SpcFieldConcat(a[1..], b, name);
    }
  }

  // ---- the reader ---------------------------------------------------------------------------------------------------

  /** What stands between the quotes of a line that is the name, an equals sign and one quoted text, with spaces
      around them. */
  function LineLiteral(line: string, name: string): Option<string> {
    var l := SkipSpaces(line);
    if !(name <= l) then None
    else
      var r := SkipSpaces(l[|name|..]);
      if r == "" || r[0] != '=' then None
      else
        var v := SkipSpaces(r[1..]);
        if v == "" || v[0] != '\"' then None
        else
          var n := LiteralLength(v[1..]);
          if n.Some? && n.value + 2 <= |v| && AllSpace(v[n.value + 2..]) then Some(v[1..n.value + 1]) else None
  }

  /** The first line that matches decides, even when its text does not parse. */
  function TextField(lines: seq<string>, name: string): Option<string> {
    if lines == [] then None
    else
      var l := LineLiteral(lines[0], name);
      if l.Some? then Unescape(l.value) else TextField(lines[1..], name)
  }

  // ---- reading back what was written --------------------------------------------------------------------------------

  /** The names the file uses for settings, and the ones the keys are read by. */
  const NAMES := {"plugin", "regions", "default_region", "profile", "access_key", "secret_key", "session_token", "type",
                  "connections"}
  const KEY_NAMES := {"access_key", "secret_key", "session_token"}

  /** The lines the renderer writes: known names, and nothing that could break a line. */
  predicate Written(l: SpcLine) {
    match l
    case Comment(t) => '\n' !in t
    case Note(t) => '\n' !in t
    case Setting(n, _) => n in NAMES
    case ListSetting(n, _) => n in NAMES && n !in KEY_NAMES
    case Narrow(n, _) => n in NAMES && n !in KEY_NAMES
    case NarrowList(n, _) => n in NAMES && n !in KEY_NAMES
    case _ => true
  }

  lemma {:induction false} PaddedOf(s: string, width: nat) returns (k: nat)
    ensures Padded(s, width) == s + Spaces(k)
    decreases width - |s|
  {
    if |s| >= width {
      k := 0;
      assert s + Spaces(0) == s;
    } else {
      var n := PaddedOf(s + " ", width);
      k := n + 1;
      assert s + " " + Spaces(n) == s + (" " + Spaces(n));
    }
  }

  function Spaces(k: nat): string {
    if k == 0 then "" else " " + Spaces(k - 1)
  }

  lemma {:induction false} SkipsSpaces(k: nat, rest: string)
    ensures SkipSpaces(Spaces(k) + rest) == SkipSpaces(rest)
  {
    hide IsSpace;
    if k == 0 {
      assert Spaces(0) + rest == rest;
    } else {
      SpaceIsSpace();
      assert (Spaces(k) + rest)[1..] == Spaces(k - 1) + rest;
      SkipsSpaces(k - 1, rest);
    }
  }

  lemma SpaceIsSpace()
    ensures IsSpace(' ') && !IsSpace('=') && !IsSpace('\"') && !IsSpace('#') && !IsSpace('}')
  {
    assert " \t\n\r\U{0B}\U{0C}\U{A0}\U{1680}\U{2028}\U{2029}\U{202F}\U{205F}\U{3000}\U{FEFF}"[0] == ' ';
  }

  lemma StaysPut(rest: string)
    requires rest != "" && !IsSpace(rest[0])
    ensures SkipSpaces(rest) == rest
  {
  }

  lemma AlignedText(name: string, width: nat, q: string) returns (k: nat)
    ensures "  " + Padded(name, width) + " = " + q == Spaces(2) + (name + (Spaces(k) + (" = " + q)))
  {
    k := PaddedOf(name, width);
    hide Padded;
    assert Spaces(2) == "  ";
    hide Spaces;
  }

  lemma EqualsThen(k: nat, q: string)
    requires q != "" && !IsSpace(q[0])
    ensures SkipSpaces(Spaces(k) + (" = " + q)) == "= " + q
    ensures SkipSpaces(("= " + q)[1..]) == q
  {
    assert Spaces(1) == " ";
    hide IsSpace, SkipSpaces, Spaces;
    SpaceIsSpace();
    SkipsSpaces(k, " = " + q);
    assert " = " + q == " " + ("= " + q);
    SkipsSpaces(1, "= " + q);
    StaysPut("= " + q);
    assert ("= " + q)[1..] == " " + q;
    SkipsSpaces(1, q);
    StaysPut(q);
  }

  /** A setting reads back as its value by its own name. */
  lemma SettingReads(name: string, value: string)
    requires name != "" && !IsSpace(name[0])
    ensures LineLiteral(Setting(name, value).Text(), name) == Some(Escape(value))
  {
    hide IsSpace, Escape, LiteralLength, SkipSpaces, Padded, Spaces;
    var q := Quoted(value);
    var k := AlignedText(name, 14, q);
    var l := name + (Spaces(k) + (" = " + q));
    SkipsSpaces(2, l);
    StaysPut(l);
    SpaceIsSpace();
    assert l[|name|..] == Spaces(k) + (" = " + q);
    EqualsThen(k, q);
    QuoteEnds(value);
  }

  lemma QuoteEnds(value: string)
    ensures LiteralLength(Quoted(value)[1..]) == Some(|Escape(value)|)
    ensures |Quoted(value)| == |Escape(value)| + 2 && Quoted(value)[1..|Escape(value)| + 1] == Escape(value)
    ensures Quoted(value)[|Escape(value)| + 2..] == ""
  {
    hide Escape, LiteralLength;
    LiteralEnds(value, "");
    assert Quoted(value)[1..] == Escape(value) + ("\"" + "");
  }

  // ---- what the reader finds in any line ----------------------------------------------------------------------------

  /** Characters other than quotes and backslashes, and pairs of a backslash and any character. */
  predicate LiteralBody(q: string) {
    || q == ""
    || (q[0] != '\"' && q[0] != '\\' && LiteralBody(q[1..]))
    || (q[0] == '\\' && |q| >= 2 && LiteralBody(q[2..]))
  }

  lemma {:induction false} LengthMeaning(s: string)
    ensures var n := LiteralLength(s);
      n.Some? ==> n.value < |s| && s[n.value] == '\"' && LiteralBody(s[..n.value])
  {
    var n := LiteralLength(s);
    if n.Some? && n.value > 0 {
      if s[0] == '\\' {
        LengthMeaning(s[2..]);
        assert s[..n.value][2..] == s[2..][..n.value - 2];
      } else {
        LengthMeaning(s[1..]);
        assert s[..n.value][1..] == s[1..][..n.value - 1];
      }
    }
  }

  lemma {:induction false} BodyEnds(q: string, d: string)
    requires LiteralBody(q)
    ensures LiteralLength(q + ("\"" + d)) == Some(|q|)
  {
    var s := q + ("\"" + d);
    if q == "" {
      assert s == "\"" + d;
    } else if q[0] == '\\' {
      BodyEnds(q[2..], d);
      assert s[2..] == q[2..] + ("\"" + d);
    } else {
      BodyEnds(q[1..], d);
      assert s[1..] == q[1..] + ("\"" + d);
    }
  }

  /** A line is the name, an equals sign and the quoted text `q`, with spaces around them only. */
  ghost predicate SaysLiteral(line: string, name: string, q: string) {
    exists a, b, c, d :: SaysLiteralAt(line, name, q, a, b, c, d)
  }

  predicate SaysLiteralAt(line: string, name: string, q: string, a: string, b: string, c: string, d: string) {
    && AllSpace(a) && AllSpace(b) && AllSpace(c) && AllSpace(d) && LiteralBody(q)
    && line == a + (name + (b + ("=" + (c + ("\"" + (q + ("\"" + d)))))))
  }

  /** What the reader's expression finds in any line. */
  lemma LiteralIff(line: string, name: string, q: string)
    requires name != "" && !IsSpace(name[0])
    ensures LineLiteral(line, name) == Some(q) <==> SaysLiteral(line, name, q)
  {
    if LineLiteral(line, name) == Some(q) {
      LiteralSays(line, name, q);
    }
    if SaysLiteral(line, name, q) {
      var a, b, c, d :| SaysLiteralAt(line, name, q, a, b, c, d);
      LiteralOf(line, name, q, a, b, c, d);
    }
  }

  lemma LiteralSays(line: string, name: string, q: string)
    requires LineLiteral(line, name) == Some(q)
    ensures SaysLiteral(line, name, q)
  {
    hide IsSpace, AllSpace, SkipSpaces, LiteralLength, LiteralBody;
    var l := SkipSpaces(line);
    var r := SkipSpaces(l[|name|..]);
    var v := SkipSpaces(r[1..]);
    var a := SpacesSkipped(line);
    var b := SpacesSkipped(l[|name|..]);
    var c := SpacesSkipped(r[1..]);
    LengthMeaning(v[1..]);
    var d := v[|q| + 2..];
    assert v[1..][..|q|] == q && v[1..][|q|] == '\"';
    assert v == "\"" + (q + ("\"" + d));
    assert r == "=" + r[1..] && l == name + l[|name|..];
    assert SaysLiteralAt(line, name, q, a, b, c, d);
  }

  lemma LiteralOf(line: string, name: string, q: string, a: string, b: string, c: string, d: string)
    requires name != "" && !IsSpace(name[0]) && SaysLiteralAt(line, name, q, a, b, c, d)
    ensures LineLiteral(line, name) == Some(q)
  {
    hide IsSpace, AllSpace, SkipSpaces, LiteralLength, LiteralBody;
    SpaceIsSpace();
    var v := "\"" + (q + ("\"" + d));
    var r := "=" + (c + v);
    var l := name + (b + r);
    SkipsAll(a, l);
    assert l[|name|..] == b + r;
    SkipsAll(b, r);
    assert r[1..] == c + v;
    SkipsAll(c, v);
    BodyEnds(q, d);
    assert v[1..] == q + ("\"" + d) && v[1..|q| + 1] == q && v[|q| + 2..] == d;
  }

  // ---- the lists a file holds ---------------------------------------------------------------------------------------

  /** The quoted texts of a list, with a comma and a space between two. */
  function ItemsIn(s: string): Option<seq<string>> {
    if s == "" || s[0] != '\"' || LiteralLength(s[1..]).None? then None
    else
      var n := LiteralLength(s[1..]).value;
      if n + 2 > |s| || Unescape(s[1..n + 1]).None? then None
      else
        var first, rest := Unescape(s[1..n + 1]).value, s[n + 2..];
        if rest == "" then Some([first])
        else if !(", " <= rest) then None
        else
          var others := ItemsIn(rest[2..]);
          if others.None? then None else Some([first] + others.value)
  }

  /** A list reads back as its texts, whatever they hold. */
  lemma {:induction false} ListReadsBack(xs: seq<string>)
    requires xs != []
    ensures ItemsIn(Listed(xs)) == Some(xs)
  {
    hide *;
    ListedParts(xs);
    if |xs| == 1 {
      FirstItem(xs[0], "");
    } else {
      var rest := ", " + Listed(xs[1..]);
      FirstItem(xs[0], rest);
      ListReadsBack(xs[1..]);
      assert rest[2..] == Listed(xs[1..]);
    }
  }

  lemma ListedParts(xs: seq<string>)
    requires xs != []
    ensures xs == [xs[0]] + xs[1..] && (|xs| == 1 ==> xs == [xs[0]])
    ensures |xs| == 1 ==> Listed(xs) == "\"" + (Escape(xs[0]) + ("\"" + ""))
    ensures |xs| > 1 ==> Listed(xs) == "\"" + (Escape(xs[0]) + ("\"" + (", " + Listed(xs[1..]))))
  {
    hide *;
    ListedOnce(xs);
    Alone("\"", Escape(xs[0]));
    Regrouped("\"", Escape(xs[0]), ", ", Listed(xs[1..]));
  }

  lemma Alone(q: string, e: string)
    ensures q + (e + (q + "")) == q + e + q
  {
    assert q + "" == q;
  }

  lemma ListedOnce(xs: seq<string>)
    requires xs != []
    ensures |xs| == 1 ==> Listed(xs) == "\"" + Escape(xs[0]) + "\""
    ensures |xs| > 1 ==> Listed(xs) == "\"" + Escape(xs[0]) + "\"" + ", " + Listed(xs[1..])
  {
    hide Escape;
  }

  lemma Regrouped(q: string, e: string, c: string, d: string)
    ensures q + e + q + c + d == q + (e + (q + (c + d)))
  {
  }

  lemma FirstItem(x: string, rest: string)
    ensures ItemsIn("\"" + (Escape(x) + ("\"" + rest))) ==
            if rest == "" then Some([x]) else if !(", " <= rest) then None
            else
              match ItemsIn(rest[2..])
              case None => None
              case Some(others) => Some([x] + others)
  {
    hide Escape, Unescape, LiteralLength;
    ItemThen(Escape(x), rest);
    LiteralEnds(x, rest);
    UnescapeBack(x);
  }

  lemma ItemThen(e: string, rest: string)
    ensures var s := "\"" + (e + ("\"" + rest));
      s[1..] == e + ("\"" + rest) && s[1..|e| + 1] == e && s[|e| + 2..] == rest && |s| == |e| + |rest| + 2
  {
  }

  /** A line is the name and the list of `xs`, with spaces around the name. */
  ghost predicate SaysList(line: string, name: string, xs: seq<string>) {
    exists a, b, items ::
      AllSpace(a) && AllSpace(b) && line == a + (name + (b + (" = [" + items + "]"))) && ItemsIn(items) == Some(xs)
  }

  lemma ListLineReads(name: string, xs: seq<string>)
    requires xs != []
    ensures SaysList(ListSetting(name, xs).Text(), name, xs) && SaysList(NarrowList(name, xs).Text(), name, xs)
  {
    hide IsSpace, ItemsIn, Listed, Padded, Spaces, AllSpace;
    ListReadsBack(xs);
    var wide := AlignedText(name, 14, QuotedList(xs));
    var narrow := AlignedText(name, 11, QuotedList(xs));
    SpacesAreSpaces(2);
    SpacesAreSpaces(wide);
    SpacesAreSpaces(narrow);
    assert " = " + QuotedList(xs) == " = [" + Listed(xs) + "]";
    assert ListSetting(name, xs).Text() == "  " + Padded(name, 14) + " = " + QuotedList(xs);
    assert NarrowList(name, xs).Text() == "  " + Padded(name, 11) + " = " + QuotedList(xs);
  }

  lemma {:induction false} SpacesAreSpaces(k: nat)
    ensures AllSpace(Spaces(k))
  {
    hide IsSpace;
    SpaceIsSpace();
    if k > 0 {
      SpacesAreSpaces(k - 1);
    }
  }

  /** Indentation first, then a text that starts unlike the name: no field. */
  lemma OtherStart(k: nat, rest: string, name: string, at: nat)
    requires rest != "" && !IsSpace(rest[0]) && at < |name| && at < |rest| && name[at] != rest[at]
    ensures LineLiteral(Spaces(k) + rest, name).None?
  {
    hide IsSpace, LiteralLength, SkipSpaces;
    SkipsSpaces(k, rest);
    StaysPut(rest);
  }

  lemma BlankIsNone(name: string)
    requires name != ""
    ensures LineLiteral("", name).None?
  {
  }

  /** Names of settings that are not a key's name differ from it at a place both have. */
  lemma NamesDiffer(n: string, name: string) returns (at: nat)
    requires n in NAMES && name in KEY_NAMES
    ensures n != "" && name != "" && !IsSpace(n[0]) && !IsSpace(name[0]) && (name[0] == 'a' || name[0] == 's')
    ensures n != name ==> at < |n| && at < |name| && n[at] != name[at]
  {
    at := if n[0] == name[0] then 2 else 0;
  }

  /** Read by the name of a key, a line gives the key when it is its setting, and nothing otherwise. */
  lemma LineReads(l: SpcLine, name: string)
    requires Written(l) && name in KEY_NAMES
    ensures LineLiteral(l.Text(), name) == if l.Setting? && l.name == name then Some(Escape(l.value)) else None
  {
    hide LineLiteral, Padded, Quoted, QuotedList, IsSpace;
    SpaceIsSpace();
    match l
    case Comment(x) => StartsOther(0, "# " + x, name);
    case Note(x) =>
      assert "  # " + x == "  " + ("# " + x);
      StartsOther(2, "# " + x, name);
    case Open(c) =>
      assert "connection " + Quoted(c) + " {" == "connection " + (Quoted(c) + " {");
      StartsOther(0, "connection " + (Quoted(c) + " {"), name);
    case Setting(n, v) =>
      if n == name {
        var at := NamesDiffer(n, name);
        SettingReads(n, v);
      } else {
        AlignedOther(n, 14, Quoted(v), name);
      }
    case ListSetting(n, vs) => AlignedOther(n, 14, QuotedList(vs), name);
    case Narrow(n, v) => AlignedOther(n, 11, Quoted(v), name);
    case NarrowList(n, vs) => AlignedOther(n, 11, QuotedList(vs), name);
    case Close => StartsOther(0, "}", name);
    case Blank =>
      var at := NamesDiffer(name, name);
      BlankIsNone(name);
  }

  lemma StartsOther(k: nat, rest: string, name: string)
    requires (k == 0 || k == 2) && name in KEY_NAMES
    requires rest != "" && (rest[0] == '#' || rest[0] == 'c' || rest[0] == '}')
    ensures LineLiteral((if k == 0 then "" else "  ") + rest, name).None?
    ensures LineLiteral(rest, name).None?
  {
    assert Spaces(2) == "  " && Spaces(0) == "" && !IsSpace('c');
    hide LineLiteral, IsSpace, Spaces;
    SpaceIsSpace();
    var at := NamesDiffer(name, name);
    OtherStart(0, rest, name, 0);
    OtherStart(2, rest, name, 0);
    assert "" + rest == rest;
  }

  lemma AlignedOther(n: string, width: nat, q: string, name: string)
    requires n in NAMES && name in KEY_NAMES && n != name
    ensures LineLiteral("  " + Padded(n, width) + " = " + q, name).None?
  {
    hide LineLiteral, IsSpace, Spaces, Padded;
    var at := NamesDiffer(n, name);
    var k := AlignedText(n, width, q);
    OtherStart(2, n + (Spaces(k) + (" = " + q)), name, at);
  }

  /** So the reader finds in the text what is in the lines. */
  lemma {:induction false} TextReads(lines: seq<SpcLine>, name: string)
    requires (forall l <- lines :: Written(l)) && name in KEY_NAMES
    ensures TextField(SpcTexts(lines), name) == SpcField(lines, name)
  {
    hide LineLiteral, Written, SpcLine.Text, Unescape, Escape;
    if lines != [] {
      assert lines[0] in lines;
      LineReads(lines[0], name);
      TextReads(lines[1..], name);
      assert SpcTexts(lines)[1..] == SpcTexts(lines[1..]);
      if lines[0].Setting? {
        UnescapeBack(lines[0].value);
      }
    }
  }

  lemma QuotedOneLine(s: string)
    ensures '\n' !in Quoted(s)
  {
    hide Escape;
    EscapeOneLine(s);
  }

  lemma {:induction false} ListedOneLine(xs: seq<string>)
    ensures '\n' !in Listed(xs)
  {
    hide Quoted;
    if xs != [] {
      QuotedOneLine(xs[0]);
      if |xs| > 1 {
        ListedOneLine(xs[1..]);
      }
    }
  }

  lemma {:induction false} PaddedOneLine(s: string, width: nat)
    requires '\n' !in s
    ensures '\n' !in Padded(s, width)
    decreases width - |s|
  {
    if |s| < width {
      PaddedOneLine(s + " ", width);
    }
  }

  lemma NameOneLine(n: string)
    requires n in NAMES
    ensures '\n' !in n
  {
  }

  lemma AlignedOneLine(n: string, width: nat, q: string)
    requires n in NAMES && '\n' !in q
    ensures '\n' !in "  " + Padded(n, width) + " = " + q
  {
    hide Padded, NAMES;
    NameOneLine(n);
    PaddedOneLine(n, width);
  }

  lemma LineOneLine(l: SpcLine)
    requires Written(l)
    ensures '\n' !in l.Text()
  {
    hide Quoted, Listed, Padded, NAMES, KEY_NAMES;
    match l
    case Open(c) => QuotedOneLine(c);
    case Setting(n, v) =>
      QuotedOneLine(v);
      AlignedOneLine(n, 14, Quoted(v));
    case ListSetting(n, vs) =>
      ListedOneLine(vs);
      AlignedOneLine(n, 14, QuotedList(vs));
    case Narrow(n, v) =>
      QuotedOneLine(v);
      AlignedOneLine(n, 11, Quoted(v));
    case NarrowList(n, vs) =>
      ListedOneLine(vs);
      AlignedOneLine(n, 11, QuotedList(vs));
    case _ =>
  }

  /** And the written file splits into its lines again, whatever the values are. */
  lemma FileReads(lines: seq<SpcLine>, name: string)
    requires lines != [] && (forall l <- lines :: Written(l)) && name in KEY_NAMES
    ensures TextField(Split(Join(SpcTexts(lines), '\n'), '\n'), name) == SpcField(lines, name)
  {
    hide Written, SpcLine.Text, TextField, Split, Join;
    forall i | 0 <= i < |lines|
      ensures '\n' !in SpcTexts(lines)[i]
    {
      assert lines[i] in lines;
      LineOneLine(lines[i]);
    }
    SplitJoin(SpcTexts(lines), '\n');
    TextReads(lines, name);
  }
}
