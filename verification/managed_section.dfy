/** The section `src/aws_config.ts` keeps in the user's AWS files: found by the module's regular expression
    (an optional newline, the begin line, the shortest body, a newline and the end marker, an optional newline),
    replaced, removed and read back. */
module ManagedSection {
  import opened Options

  const BEGIN := "# >>> aws-advisor managed"
  const END := "# <<< aws-advisor managed"
  const BEGIN_LINE := BEGIN + "\n"
  const END_MARK := "\n" + END

  predicate StartsAt(text: string, i: nat, pat: string) {
    i + |pat| <= |text| && text[i..i + |pat|] == pat
  }

  /** The first place at or after `from` where `pat` starts. */
  function Find(text: string, pat: string, from: nat): (r: Option<nat>)
    ensures r.Some? ==> from <= r.value && StartsAt(text, r.value, pat) && forall k: nat :: from <= k < r.value ==>
        !StartsAt(text, k, pat)
    ensures r.None? ==> forall k: nat :: from <= k ==> !StartsAt(text, k, pat)
    decreases |text| - from
  {
    if from > |text| then None
    else if StartsAt(text, from, pat) then Some(from)
    else if from == |text| then None
    else Find(text, pat, from + 1)
  }

  // ---- the regular expression ---------------------------------------------------------------------------------------

  /** Where the whole match, and the body inside it, start and end. */
  datatype Match = Match(start: nat, bodyStart: nat, bodyEnd: nat, end: nat)

  predicate NewlineAt(text: string, i: nat) {
    i < |text| && text[i] == '\n'
  }

  /** The rest of the expression after the optional newline: the begin line at `j`, the shortest body, the end marker,
      and the newline behind it when there is one. */
  function MatchFrom(text: string, start: nat, j: nat): Option<Match> {
    if !StartsAt(text, j, BEGIN_LINE) then None
    else
      var e := Find(text, END_MARK, j + |BEGIN_LINE|);
      if e.None? then None
      else
        var after := e.value + |END_MARK|;
        Some(Match(start, j + |BEGIN_LINE|, e.value, if NewlineAt(text, after) then after + 1 else after))
  }

  function MatchAt(text: string, i: nat): Option<Match> {
    var taken := if NewlineAt(text, i) then MatchFrom(text, i, i + 1) else None;
    if taken.Some? then taken else MatchFrom(text, i, i)
  }

  /** The leftmost match at or after `i`. */
  function Exec(text: string, i: nat): Option<Match>
    decreases |text| - i
  {
    if i > |text| then None
    else if MatchAt(text, i).Some? then MatchAt(text, i)
    else if i == |text| then None
    else Exec(text, i + 1)
  }

  // ---- replace and read ---------------------------------------------------------------------------------------------

  function Block(body: string): string {
    BEGIN_LINE + body + END_MARK + "\n"
  }

  function EndsWithNewline(text: string): bool {
    text != "" && text[|text| - 1] == '\n'
  }

  function Slice(text: string, i: nat, j: nat): string {
    if i <= j <= |text| then text[i..j] else ""
  }

  function Replace(text: string, body: Option<string>): string {
    var m := Exec(text, 0);
    if m.Some? then
      var before := Slice(text, 0, m.value.start);
      var after := Slice(text, m.value.end, |text|);
      if body.None? then before + after
      else before + (if NewlineAt(text, m.value.start) then "\n" else "") + Block(body.value) + after
    else if body.None? then text
    else if text == "" then Block(body.value)
    else text + (if EndsWithNewline(text) then "\n" else "\n\n") + Block(body.value)
  }

  function Read(text: string): Option<string> {
    var m := Exec(text, 0);
    if m.None? then None else Some(Slice(text, m.value.bodyStart, m.value.bodyEnd))
  }

  // ---- where the markers are ----------------------------------------------------------------------------------------

  /** No begin line anywhere in the text. */
  ghost predicate NoMarker(text: string) {
    forall k: nat :: !StartsAt(text, k, BEGIN_LINE)
  }

  /** No end-marker line in the body. */
  ghost predicate Clean(body: string) {
    forall k: nat :: !StartsAt(body, k, END_MARK)
  }

  ghost predicate HasSection(text: string) {
    Exec(text, 0).Some?
  }

  /** Text without a section that stays unambiguous when one is appended: no begin marker at the end of a line. */
  ghost predicate Unmarked(text: string) {
    NoMarker(text + "\n")
  }

  lemma CharAt(text: string, i: nat, pat: string, k: nat)
    requires StartsAt(text, i, pat) && k < |pat|
    ensures text[i + k] == pat[k]
  {
    assert text[i..i + |pat|][k] == text[i + k];
  }

  lemma StartsInside(a: string, b: string, k: nat, pat: string)
    ensures k + |pat| <= |a| ==> (StartsAt(a + b, k, pat) <==> StartsAt(a, k, pat))
    ensures StartsAt(a, k, pat) ==> StartsAt(a + b, k, pat)
    ensures StartsAt(a + b, |a| + k, pat) <==> StartsAt(b, k, pat)
  {
    if k + |pat| <= |a| {
      assert (a + b)[k..k + |pat|] == a[k..k + |pat|];
    }
    if k + |pat| <= |b| {
      assert (a + b)[|a| + k..|a| + k + |pat|] == b[k..k + |pat|];
    }
  }

  /** The begin line has its hash first and its newline last, the end mark its newline first; neither occurs elsewhere
      in them, so no occurrence can straddle the start of a marker. */
  lemma MarkerShapes()
    ensures |BEGIN_LINE| == 26 && |END_MARK| == 26 && BEGIN_LINE[1] == ' ' && BEGIN_LINE[2] == '>'
    ensures forall k :: 0 <= k < |BEGIN_LINE| ==>
        (BEGIN_LINE[k] == '#' <==> k == 0) && (BEGIN_LINE[k] == '\n' <==> k == 25)
    ensures forall k :: 0 <= k < |END_MARK| ==> (END_MARK[k] == '\n' <==> k == 0)
  {
  }

  // ---- the expression in closed form --------------------------------------------------------------------------------

  lemma {:induction false} ExecSkips(text: string, i: nat, to: nat)
    requires i <= to <= |text| && forall k: nat :: i <= k < to ==> MatchAt(text, k).None?
    ensures Exec(text, i) == Exec(text, to)
    decreases if i <= to then to - i else 0
  {
    if i < to {
      ExecSkips(text, i + 1, to);
    }
  }

  /** The leftmost match sits at the first begin line, with the newline before it when there is one; without an end
      mark behind that line there is no match at all. */
  lemma ExecClosedForm(text: string)
    ensures var first := Find(text, BEGIN_LINE, 0);
      Exec(text, 0) ==
      if first.None? then None
      else MatchFrom(text, if first.value > 0 && text[first.value - 1] == '\n' then first.value - 1
          else first.value, first.value)
  {
    hide StartsAt, Find, MatchAt, Exec;
    var first := Find(text, BEGIN_LINE, 0);
    if first.Some? && MatchFrom(text, 0, first.value).Some? {
      var j := first.value;
      BeginHasNoNewlineFirst(text, j);
      var start := if j > 0 && text[j - 1] == '\n' then j - 1 else j;
      forall k: nat | k < start
        ensures MatchAt(text, k).None?
      {
        NoMatchAt(text, k);
      }
      ExecSkips(text, 0, start);
      MatchesAt(text, start, j);
    } else {
      forall k: nat | k < |text|
        ensures MatchAt(text, k).None?
      {
        NoMatchAt(text, k);
      }
      ExecSkips(text, 0, |text|);
      NoMatchAtEnd(text);
    }
  }

  lemma BeginHasNoNewlineFirst(text: string, j: nat)
    requires MatchFrom(text, 0, j).Some?
    ensures j < |text| && text[j] == '#' && StartsAt(text, j, BEGIN_LINE)
  {
    MarkerShapes();
    CharAt(text, j, BEGIN_LINE, 0);
  }

  lemma NoMatchAt(text: string, k: nat)
    requires MatchFrom(text, 0, k).None? && (NewlineAt(text, k) ==> MatchFrom(text, 0, k + 1).None?)
    ensures MatchAt(text, k).None?
  {
  }

  lemma NoMatchAtEnd(text: string)
    ensures Exec(text, |text|) == None
  {
  }

  lemma MatchesAt(text: string, start: nat, j: nat)
    requires MatchFrom(text, 0, j).Some? && j < |text| && text[j] == '#'
    requires start == j || (start + 1 == j && text[start] == '\n')
    ensures Exec(text, start) == MatchFrom(text, start, j)
  {
  }

  // ---- a text around its section ------------------------------------------------------------------------------------

  function Newline(b: bool): string {
    if b then "\n" else ""
  }

  /** A text with a section: what precedes it, whether a newline separates the two, the body, whether a newline
      follows the end marker, and what follows that. */
  datatype Layout = Layout(before: string, lead: bool, body: string, trail: bool, after: string) {

    function Section(): string {
      Newline(lead) + (BEGIN_LINE + (body + (END_MARK + Newline(trail))))
    }

    function Text(): string {
      before + (Section() + after)
    }

    /** The section is the one the expression finds, whole: no begin line before it, no end mark in the body, and the
        newlines around it counted when they are there. */
    ghost predicate Proper() {
      && NoMarker(before + Newline(lead)) && Clean(body)
      && (lead || !EndsWithNewline(before)) && (trail || !NewlineAt(after, 0))
    }

    /** The same text with another body, as `replaceManagedSection` writes it. */
    function With(b: string): Layout {
      Layout(before, lead, b, true, after)
    }

    /** Where the body starts and ends. */
    function BodyStart(): nat {
      |before| + |Newline(lead)| + |BEGIN_LINE|
    }
  }

  lemma Assoc(a: string, b: string, c: string)
    ensures (a + b) + c == a + (b + c)
  {
  }

  /** The text from its begin line on, and from its body on. */
  lemma LayoutSplits(l: Layout)
    ensures l.Text() == (l.before + Newline(l.lead)) + (BEGIN_LINE +
        (l.body + (END_MARK + (Newline(l.trail) + l.after))))
    ensures l.Text() == (l.before + Newline(l.lead) + BEGIN_LINE) + (l.body + (END_MARK + (Newline(l.trail) + l.after)))
  {
    var e := END_MARK + Newline(l.trail);
    Assoc(END_MARK, Newline(l.trail), l.after);
    Assoc(l.body, e, l.after);
    Assoc(BEGIN_LINE, l.body + e, l.after);
    Assoc(Newline(l.lead), BEGIN_LINE + (l.body + e), l.after);
    var rest := l.body + (END_MARK + (Newline(l.trail) + l.after));
    Assoc(l.before, Newline(l.lead), BEGIN_LINE + rest);
    Assoc(l.before + Newline(l.lead), BEGIN_LINE, rest);
  }

  /** A marker's first character occurs nowhere else in it. */
  ghost predicate SelfSynchronising(mark: string) {
    mark != "" && forall k :: 0 < k < |mark| ==> mark[k] != mark[0]
  }

  /** So an occurrence cannot start in a text free of the marker and run into the marker that follows. */
  lemma NoStraddle(body: string, mark: string, rest: string, k: nat)
    requires SelfSynchronising(mark) && (forall i: nat :: !StartsAt(body, i, mark)) && k < |body|
    ensures !StartsAt(body + (mark + rest), k, mark)
  {
    var t := body + (mark + rest);
    StartsInside(body, mark + rest, k, mark);
    assert !StartsAt(body, k, mark);
    assert t[|body|] == mark[0];
    if k + |mark| > |body| && StartsAt(t, k, mark) {
      CharAt(t, k, mark, |body| - k);
    }
  }

  /** Behind `front`, the first occurrence is the one after the free text. */
  lemma FirstOccurrence(front: string, body: string, mark: string, rest: string)
    requires SelfSynchronising(mark) && forall i: nat :: !StartsAt(body, i, mark)
    ensures Find(front + (body + (mark + rest)), mark, |front|) == Some(|front| + |body|)
  {
    hide SelfSynchronising, StartsAt;
    var t := front + (body + (mark + rest));
    forall k: nat | |front| <= k < |front| + |body|
      ensures !StartsAt(t, k, mark)
    {
      NoStraddle(body, mark, rest, k - |front|);
      StartsInside(front, body + (mark + rest), k - |front|, mark);
    }
    StartsInside(front, body + (mark + rest), |body|, mark);
    FoundAt(t, mark, |front|, |front| + |body|);
  }

  lemma FoundAt(text: string, pat: string, from: nat, e: nat)
    requires from <= e && StartsAt(text, e, pat) && forall k: nat :: from <= k < e ==> !StartsAt(text, k, pat)
    ensures Find(text, pat, from) == Some(e)
  {
    var r := Find(text, pat, from);
    assert r.Some?;
  }

  lemma BeginFound(l: Layout)
    requires l.Proper()
    ensures Find(l.Text(), BEGIN_LINE, 0) == Some(|l.before + Newline(l.lead)|)
  {
    LayoutSplits(l);
    var lead, rest := l.before + Newline(l.lead), l.body + (END_MARK + (Newline(l.trail) + l.after));
    FirstOccurrence("", lead, BEGIN_LINE, rest);
    assert "" + (lead + (BEGIN_LINE + rest)) == lead + (BEGIN_LINE + rest);
  }

  lemma EndFound(l: Layout)
    requires l.Proper()
    ensures Find(l.Text(), END_MARK, l.BodyStart()) == Some(l.BodyStart() + |l.body|)
  {
    hide Layout.Text, Layout.Section, Newline, Find, StartsAt;
    LayoutSplits(l);
    FirstOccurrence(l.before + Newline(l.lead) + BEGIN_LINE, l.body, END_MARK, Newline(l.trail) + l.after);
  }

  lemma CharsOf(a: string, b: string)
    ensures a != "" ==> (a + b)[|a| - 1] == a[|a| - 1]
    ensures b != "" ==> (a + b)[|a|] == b[0]
  {
  }

  /** The expression finds a proper layout's section, whole. */
  lemma SectionFound(l: Layout)
    requires l.Proper()
    ensures Exec(l.Text(), 0) ==
            Some(Match(|l.before|, l.BodyStart(), l.BodyStart() + |l.body|, |l.before| + |l.Section()|))
    ensures NewlineAt(l.Text(), |l.before|) <==> l.lead
  {
    hide StartsAt, Find, Exec, NoMarker, Clean;
    MarkerShapes();
    BeginFound(l);
    EndFound(l);
    ExecClosedForm(l.Text());
    LayoutSplits(l);
    var rest := l.body + (END_MARK + (Newline(l.trail) + l.after));
    CharsOf(l.before + Newline(l.lead), BEGIN_LINE + rest);
    CharsOf(BEGIN_LINE, rest);
    CharsOf(l.before, Newline(l.lead));
    assert |l.Text()| == |l.before| + |l.Section()| + |l.after|;
    TrailingNewline(l);
  }

  lemma TrailingNewline(l: Layout)
    ensures NewlineAt(l.Text(), l.BodyStart() + |l.body| + |END_MARK|) <==> l.trail || NewlineAt(l.after, 0)
  {
    LayoutSplits(l);
    var front := l.before + Newline(l.lead) + BEGIN_LINE;
    var tail := Newline(l.trail) + l.after;
    Assoc(front, l.body, END_MARK + tail);
    Assoc(front + l.body, END_MARK, tail);
    CharsOf(front + l.body + END_MARK, tail);
    CharsOf(Newline(l.trail), l.after);
  }

  lemma SliceOf(a: string, b: string, c: string)
    ensures Slice(a + (b + c), 0, |a|) == a
    ensures Slice(a + (b + c), |a|, |a| + |b|) == b
    ensures Slice(a + (b + c), |a| + |b|, |a + (b + c)|) == c
  {
    var t := a + (b + c);
    assert t[0..|a|] == a;
    assert t[|a|..|a| + |b|] == b;
    assert t[|a| + |b|..|t|] == c;
  }

  lemma BlockInLayout(l: Layout, b: string)
    ensures l.before + Newline(l.lead) + Block(b) + l.after == l.With(b).Text()
  {
    Assoc(BEGIN_LINE, b, END_MARK);
    Assoc(BEGIN_LINE, b + END_MARK, "\n");
    Assoc(b, END_MARK, "\n");
    Assoc(l.before, Newline(l.lead), Block(b));
    Assoc(l.before, l.With(b).Section(), l.after);
  }

  lemma LayoutText(l: Layout)
    ensures l.Text() == l.before + (l.Section() + l.after)
    ensures |l.Text()| == |l.before| + |l.Section()| + |l.after|
  {
  }

  lemma WithIsProper(l: Layout, b: string)
    requires l.Proper() && Clean(b)
    ensures l.With(b).Proper()
  {
  }

  /** What reading and replacing do to a proper layout. */
  lemma LayoutMeaning(l: Layout, b: string)
    requires l.Proper()
    ensures Read(l.Text()) == Some(l.body)
    ensures Replace(l.Text(), Some(b)) == l.With(b).Text()
    ensures Replace(l.Text(), None) == l.before + l.after
    ensures Clean(b) ==> l.With(b).Proper()
  {
    hide Layout.Proper, StartsAt, Find, Exec, NoMarker, Clean, Slice, Block, Layout.Text, Layout.Section,
         Layout.BodyStart, Layout.With;
    SectionFound(l);
    SliceOf(l.before, l.Section(), l.after);
    BodySlice(l);
    BlockInLayout(l, b);
    if Clean(b) {
      WithIsProper(l, b);
    }
    LayoutText(l);
  }

  lemma BodySlice(l: Layout)
    ensures Slice(l.Text(), l.BodyStart(), l.BodyStart() + |l.body|) == l.body
  {
    LayoutSplits(l);
    SliceOf(l.before + Newline(l.lead) + BEGIN_LINE, l.body, END_MARK + (Newline(l.trail) + l.after));
  }

  // ---- every text with a section is such a layout -------------------------------------------------------------------

  ghost function LayoutOf(text: string): Layout
    requires HasSection(text)
  {
    var m := Exec(text, 0).value;
    Layout(Slice(text, 0, m.start), NewlineAt(text, m.start), Slice(text, m.bodyStart, m.bodyEnd),
           NewlineAt(text, m.bodyEnd + |END_MARK|), Slice(text, m.end, |text|))
  }

  /** A match cuts the text at its marks. */
  ghost predicate Cut(text: string, start: nat, j: nat, e: nat, end: nat) {
    && start <= j && j + |BEGIN_LINE| <= e && e + |END_MARK| <= end <= |text|
    && Find(text, BEGIN_LINE, 0) == Some(j) && Find(text, END_MARK, j + |BEGIN_LINE|) == Some(e)
    && start == (if j > 0 && text[j - 1] == '\n' then j - 1 else j)
    && end == (if NewlineAt(text, e + |END_MARK|) then e + |END_MARK| + 1 else e + |END_MARK|)
  }

  lemma MatchCuts(text: string)
    requires HasSection(text)
    ensures var m := Exec(text, 0).value;
      m.bodyStart >= |BEGIN_LINE| && Cut(text, m.start, m.bodyStart - |BEGIN_LINE|, m.bodyEnd, m.end)
  {
    hide Exec;
    ExecClosedForm(text);
  }

  lemma SplitAt(text: string, i: nat, j: nat)
    requires i <= j <= |text|
    ensures text[i..] == text[i..j] + text[j..] && text[..j] == text[..i] + text[i..j] && text == text[..j] + text[j..]
  {
  }

  lemma CutMarks(text: string, start: nat, j: nat, e: nat, end: nat)
    requires Cut(text, start, j, e, end)
    ensures text[j..j + |BEGIN_LINE|] == BEGIN_LINE && text[e..e + |END_MARK|] == END_MARK
    ensures text[start..j] == Newline(start < j) && text[e + |END_MARK|..end] == Newline(end > e + |END_MARK|)
  {
  }

  lemma CutRejoins(text: string, start: nat, j: nat, e: nat, end: nat)
    requires Cut(text, start, j, e, end)
    ensures Layout(text[..start], start < j, text[j + |BEGIN_LINE|..e], end > e + |END_MARK|, text[end..]).Text() ==
        text
  {
    hide Find, StartsAt, Layout.Text, Newline;
    var bs, ee := j + |BEGIN_LINE|, e + |END_MARK|;
    CutMarks(text, start, j, e, end);
    SplitAt(text, ee, end);
    SplitAt(text, e, ee);
    SplitAt(text, bs, e);
    SplitAt(text, j, bs);
    SplitAt(text, start, j);
    LayoutSplits(Layout(text[..start], start < j, text[bs..e], end > ee, text[end..]));
  }

  /** Before the first occurrence there is none. */
  lemma FreeBefore(text: string, mark: string, from: nat, e: nat)
    requires from <= e <= |text| && Find(text, mark, from) == Some(e)
    ensures forall k: nat :: mark != "" ==> !StartsAt(text[from..e], k, mark)
  {
    forall k: nat | mark != ""
      ensures !StartsAt(text[from..e], k, mark)
    {
      if k < e - from {
        assert text == text[..from] + (text[from..e] + text[e..]);
        StartsInside(text[from..e], text[e..], k, mark);
        StartsInside(text[..from], text[from..e] + text[e..], k, mark);
      }
    }
  }

  lemma CutIsProper(text: string, start: nat, j: nat, e: nat, end: nat)
    requires Cut(text, start, j, e, end)
    ensures Layout(text[..start], start < j, text[j + |BEGIN_LINE|..e], end > e + |END_MARK|, text[end..]).Proper()
  {
    FreeBefore(text, BEGIN_LINE, 0, j);
    FreeBefore(text, END_MARK, j + |BEGIN_LINE|, e);
    hide Find, StartsAt;
    assert text[..start] + Newline(start < j) == text[0..j];
  }

  lemma LayoutExists(text: string)
    requires HasSection(text)
    ensures LayoutOf(text).Text() == text && LayoutOf(text).Proper()
  {
    hide Exec, Find, Layout.Text, Layout.Proper;
    MatchCuts(text);
    var m := Exec(text, 0).value;
    var j := m.bodyStart - |BEGIN_LINE|;
    CutRejoins(text, m.start, j, m.bodyEnd, m.end);
    CutIsProper(text, m.start, j, m.bodyEnd, m.end);
    CutLead(text, m.start, j, m.bodyEnd, m.end);
    assert LayoutOf(text) ==
           Layout(text[..m.start], m.start < j, text[m.bodyStart..m.bodyEnd], m.end > m.bodyEnd + |END_MARK|,
               text[m.end..]);
  }

  lemma CutLead(text: string, start: nat, j: nat, e: nat, end: nat)
    requires Cut(text, start, j, e, end)
    ensures NewlineAt(text, start) <==> start < j
    ensures NewlineAt(text, e + |END_MARK|) <==> end > e + |END_MARK|
  {
    MarkerShapes();
    CharAt(text, j, BEGIN_LINE, 0);
  }

  // ---- a first section, appended ------------------------------------------------------------------------------------

  /** The layout `replaceManagedSection` gives a text that had no section. */
  function Appended(text: string, body: string): Layout {
    if text == "" then Layout("", false, body, true, "")
    else Layout(if EndsWithNewline(text) then text else text + "\n", true, body, true, "")
  }

  lemma AppendedMeaning(text: string, body: string)
    requires !HasSection(text) && Unmarked(text) && Clean(body)
    ensures Replace(text, Some(body)) == Appended(text, body).Text()
    ensures Appended(text, body).Proper()
  {
    AppendedText(text, body);
    AppendedLead(text);
  }

  lemma AppendedText(text: string, body: string)
    requires !HasSection(text)
    ensures Replace(text, Some(body)) == Appended(text, body).Text()
  {
    hide Exec;
    var l := Appended(text, body);
    BlockInLayout(l, body);
    assert l.With(body) == l;
    assert l.before + Newline(l.lead) + Block(body) + "" == l.before + Newline(l.lead) + Block(body);
    if text == "" {
      assert "" + "" + Block(body) == Block(body);
    } else if !EndsWithNewline(text) {
      assert text + "\n" + "\n" == text + "\n\n";
    }
  }

  lemma AppendedLead(text: string)
    requires Unmarked(text)
    ensures NoMarker(if text == "" then "" else if EndsWithNewline(text) then text + "\n" else text + "\n" + "\n")
  {
    MarkerShapes();
    var once := text + "\n";
    forall k: nat
      ensures !StartsAt(once + "\n", k, BEGIN_LINE)
    {
      StartsInside(once, "\n", k, BEGIN_LINE);
      assert (once + "\n")[|once| - 1] == '\n';
      if k + |BEGIN_LINE| == |once| + 1 && StartsAt(once + "\n", k, BEGIN_LINE) {
        CharAt(once + "\n", k, BEGIN_LINE, |BEGIN_LINE| - 2);
      }
    }
  }

  // ---- what the module promises -------------------------------------------------------------------------------------

  /** Where `replaceManagedSection` is unambiguous: the text has a section, or no begin marker ends one of its lines. */
  ghost predicate Placeable(text: string) {
    HasSection(text) || Unmarked(text)
  }

  ghost function Placed(text: string, body: string): Layout {
    if HasSection(text) then LayoutOf(text).With(body) else Appended(text, body)
  }

  lemma PlacedMeaning(text: string, body: string)
    requires Placeable(text) && Clean(body)
    ensures Replace(text, Some(body)) == Placed(text, body).Text() && Placed(text, body).Proper()
    ensures Placed(text, body).body == body
  {
    hide Layout.Text, Layout.Proper, Exec;
    if HasSection(text) {
      LayoutExists(text);
      LayoutMeaning(LayoutOf(text), body);
    } else {
      AppendedMeaning(text, body);
    }
  }

  /** What is written is what is read back. */
  lemma ReplaceThenRead(text: string, body: string)
    requires Placeable(text) && Clean(body)
    ensures Read(Replace(text, Some(body))) == Some(body)
  {
    hide Layout.Text, Layout.Proper, Exec;
    PlacedMeaning(text, body);
    LayoutMeaning(Placed(text, body), body);
  }

  lemma PlacedText(text: string, body: string)
    requires Placeable(text)
    ensures Replace(text, Some(body)) == Placed(text, body).Text()
  {
    hide Layout.Text, Layout.Proper, Exec, NoMarker;
    if HasSection(text) {
      LayoutExists(text);
      LayoutMeaning(LayoutOf(text), body);
    } else {
      AppendedText(text, body);
    }
  }

  /** A second replacement leaves what replacing once with the later body would. */
  lemma ReplaceTwice(text: string, body: string, later: string)
    requires Placeable(text) && Clean(body)
    ensures Replace(Replace(text, Some(body)), Some(later)) == Replace(text, Some(later))
    ensures Placeable(Replace(text, Some(body)))
  {
    hide Layout.Text, Layout.Proper, Exec;
    PlacedMeaning(text, body);
    PlacedText(text, later);
    LayoutMeaning(Placed(text, body), later);
    SectionFound(Placed(text, body));
  }

  /** What is before and after the section stays, byte for byte. */
  lemma OutsideIsKept(text: string, body: string)
    requires HasSection(text) && Clean(body)
    ensures var t := Replace(text, Some(body));
      && HasSection(t) && LayoutOf(t).before == LayoutOf(text).before && LayoutOf(t).after == LayoutOf(text).after
      && LayoutOf(t).lead == LayoutOf(text).lead
    ensures Replace(text, None) == LayoutOf(text).before + LayoutOf(text).after
  {
    LayoutExists(text);
    var l := LayoutOf(text);
    LayoutMeaning(l, body);
    SectionFound(l.With(body));
    AroundSection(l.With(body));
  }

  lemma AroundSection(l: Layout)
    requires l.Proper()
    ensures HasSection(l.Text()) && LayoutOf(l.Text()) == l
  {
    hide Layout.Text, Layout.Section, Layout.Proper, Exec, Slice;
    SectionFound(l);
    LayoutText(l);
    SliceOf(l.before, l.Section(), l.after);
    BodySlice(l);
    ProperTrail(l);
    TrailingNewline(l);
  }

  lemma ProperTrail(l: Layout)
    requires l.Proper()
    ensures l.trail || NewlineAt(l.after, 0) <==> l.trail
  {
  }

  /** The text with a newline at its end, as inserting and removing a section leaves it. */
  function Settled(text: string): string {
    if text == "" || EndsWithNewline(text) then text else text + "\n"
  }

  lemma InsertThenRemove(text: string, body: string)
    requires !HasSection(text) && Unmarked(text) && Clean(body)
    ensures Replace(Replace(text, Some(body)), None) == Settled(text)
  {
    hide Layout.Text, Layout.Proper, Exec;
    AppendedMeaning(text, body);
    LayoutMeaning(Appended(text, body), body);
    assert text + "" == text && text + "\n" + "" == text + "\n";
  }

  // ---- over any history of writes -----------------------------------------------------------------------------------

  lemma UnmarkedHasNoSection(text: string)
    requires Unmarked(text)
    ensures !HasSection(text)
  {
    ExecClosedForm(text);
    var first := Find(text, BEGIN_LINE, 0);
    if first.Some? {
      StartsInside(text, "\n", first.value, BEGIN_LINE);
    }
  }

  lemma SettledIsTheSame(text: string, body: string)
    requires Unmarked(text)
    ensures Unmarked(Settled(text)) && Settled(Settled(text)) == Settled(text)
    ensures Replace(Settled(text), Some(body)) == Replace(text, Some(body))
    ensures Replace(text, None) == text
  {
    AppendedLead(text);
    hide Exec, Block;
    UnmarkedHasNoSection(text);
    UnmarkedHasNoSection(Settled(text));
    if Settled(text) != text {
      assert text + "\n" + "\n" == text + "\n\n";
    }
  }

  /** A file after a list of writes: `Some` replaces the section, `None` removes it. */
  function AfterWrites(text: string, writes: seq<Option<string>>): string {
    if writes == [] then text
    else Replace(AfterWrites(text, writes[..|writes| - 1]), writes[|writes| - 1])
  }

  /** Whatever was written before, a file holds the user's text with the last section written, or without one when the
      last write removed it: nothing of earlier sections is left but, at most, one newline at the end. */
  lemma {:induction false} HistoryLeavesTheLast(text: string, writes: seq<Option<string>>)
    requires Unmarked(text) && forall w <- writes :: w.Some? ==> Clean(w.value)
    ensures AfterWrites(text, writes) ==
      if writes != [] && writes[|writes| - 1].Some? then Replace(text, writes[|writes| - 1])
      else if exists w <- writes :: w.Some? then Settled(text)
      else text
  {
    hide Exec, Replace, Clean, NoMarker, Settled;
    if writes != [] {
      var n := |writes| - 1;
      HistoryLeavesTheLast(text, writes[..n]);
      assert writes == writes[..n] + [writes[n]];
      var before, last := AfterWrites(text, writes[..n]), writes[n];
      SettledIsTheSame(text, last.GetOr(""));
      SettledIsTheSame(Settled(text), last.GetOr(""));
      if n > 0 && writes[n - 1].Some? {
        assert writes[n - 1] in writes;
        UnmarkedHasNoSection(text);
        if last.Some? {
          ReplaceTwice(text, writes[n - 1].value, last.value);
        } else {
          InsertThenRemove(text, writes[n - 1].value);
        }
      }
    }
  }

  // ---- and nowhere else ---------------------------------------------------------------------------------------------

  /** An end mark inside the body cuts the body short when it is read. */
  lemma UncleanIsCut(l: Layout)
    requires NoMarker(l.before + Newline(l.lead)) && !Clean(l.body)
    ensures Read(l.Text()) != Some(l.body)
  {
    hide Layout.Text, Layout.Section, StartsAt, Newline, Find;
    var k: nat :| StartsAt(l.body, k, END_MARK);
    var lead, rest := l.before + Newline(l.lead), END_MARK + (Newline(l.trail) + l.after);
    LayoutSplits(l);
    FirstOccurrence("", lead, BEGIN_LINE, l.body + rest);
    assert "" + (lead + (BEGIN_LINE + (l.body + rest))) == lead + (BEGIN_LINE + (l.body + rest));
    StartsInside(l.body, rest, k, END_MARK);
    StartsInside(lead + BEGIN_LINE, l.body + rest, k, END_MARK);
    StartsWithin(l.body, k, END_MARK);
    CutShort(l.Text(), |lead|, |l.body|, k);
  }

  lemma StartsWithin(text: string, k: nat, pat: string)
    requires StartsAt(text, k, pat) && pat != ""
    ensures k < |text|
  {
  }

  lemma CutShort(t: string, j: nat, n: nat, k: nat)
    requires Find(t, BEGIN_LINE, 0) == Some(j) && StartsAt(t, j + |BEGIN_LINE| + k, END_MARK) && k < n
    ensures Read(t).None? || |Read(t).value| < n
  {
    hide Exec;
    ExecClosedForm(t);
  }

  /** Where the first begin marker at the end of a line of the text stands. */
  ghost function Stray(text: string): nat
    requires !Unmarked(text)
  {
    Find(text + "\n", BEGIN_LINE, 0).value
  }

  /** With a stray marker, what is read back of a body that does not begin with the end marker is something else. */
  lemma StrayReadsOther(text: string, body: string)
    requires !HasSection(text) && !Unmarked(text) && !StartsAt(body, 0, END)
    ensures Read(Replace(text, Some(body))) != Some(body)
  {
    hide Exec, StartsAt, Find, Block, NoMarker;
    var sep := if EndsWithNewline(text) then "\n" else "\n\n";
    var t := text + sep + Block(body);
    var j := StrayFound(text, sep, Block(body));
    if ReadsAt(t, j, body) {
      NoEndThere(text, sep, body, j);
    }
    if Read(t) == Some(body) {
      StrayRead(t, body, j);
    }
  }

  lemma StrayFound(text: string, sep: string, rest: string) returns (j: nat)
    requires !Unmarked(text) && sep != "" && sep[0] == '\n'
    ensures Find(text + sep + rest, BEGIN_LINE, 0) == Some(j) && j + |BEGIN_LINE| <= |text| + 1
    ensures j + |BEGIN_LINE| <= |text| ==> Find(text, BEGIN_LINE, 0) == Some(j)
  {
    var once, t := text + "\n", text + sep + rest;
    assert t == once + (sep[1..] + rest);
    j := Find(once, BEGIN_LINE, 0).value;
    forall k: nat | k < j
      ensures !StartsAt(t, k, BEGIN_LINE) && !StartsAt(text, k, BEGIN_LINE)
    {
      StartsInside(once, sep[1..] + rest, k, BEGIN_LINE);
      StartsInside(text, "\n", k, BEGIN_LINE);
    }
    StartsInside(once, sep[1..] + rest, j, BEGIN_LINE);
    StartsInside(text, "\n", j, BEGIN_LINE);
    FoundAt(t, BEGIN_LINE, 0, j);
    if j + |BEGIN_LINE| <= |text| {
      FoundAt(text, BEGIN_LINE, 0, j);
    }
  }

  /** The body stands behind the stray marker too, with no end mark before its end. */
  ghost predicate ReadsAt(t: string, j: nat, body: string) {
    var from, e := j + |BEGIN_LINE|, j + |BEGIN_LINE| + |body|;
    e <= |t| && t[from..e] == body && forall k: nat :: from <= k < e ==> !StartsAt(t, k, END_MARK)
  }

  lemma StrayRead(t: string, body: string, j: nat)
    requires Find(t, BEGIN_LINE, 0) == Some(j) && Read(t) == Some(body)
    ensures ReadsAt(t, j, body) && StartsAt(t, j + |BEGIN_LINE| + |body|, END_MARK)
  {
    hide Exec;
    ExecClosedForm(t);
  }

  /** But then no end mark follows it: not in the appended copy, not across the begin line, not in the user's text. */
  lemma NoEndThere(text: string, sep: string, body: string, j: nat)
    requires !HasSection(text) && !StartsAt(body, 0, END)
    requires sep == "\n" || sep == "\n\n"
    requires j + |BEGIN_LINE| <= |text| + 1 && (j + |BEGIN_LINE| <= |text| ==> Find(text, BEGIN_LINE, 0) == Some(j))
    requires ReadsAt(text + sep + Block(body), j, body)
    ensures !StartsAt(text + sep + Block(body), j + |BEGIN_LINE| + |body|, END_MARK)
  {
    hide Exec, StartsAt, Find, Block, ReadsAt;
    var t, q, e := text + sep + Block(body), |text| + |sep| + 26, j + |BEGIN_LINE| + |body|;
    Places(text, sep, body);
    MarkerShapes();
    if e >= q {
      EndRepeats(t, body, j, q, e);
    } else if e + 26 > q {
      EndAcrossBegin(t, body, q, e);
    } else if e + 26 <= |text| {
      assert t == text + (sep + Block(body));
      EndInText(text, sep + Block(body), j, e);
    } else {
      EndInGap(t, |text|, |text| + |sep|, e);
    }
  }

  /** Where things stand behind an appended section. */
  lemma Places(text: string, sep: string, body: string)
    requires sep == "\n" || sep == "\n\n"
    ensures var t, b := text + sep + Block(body), |text| + |sep|;
      && |t| == b + 26 + |body| + 26 + 1 && t[|text|] == '\n' && t[b - 1] == '\n'
      && t[b] == '#' && t[b + 1] == ' ' && t[b + 2] == '>' && t[b + 25] == '\n'
      && t[b + 26..b + 26 + |body|] == body && t[b + 26 + |body|] == '\n'
  {
    hide BEGIN_LINE, END_MARK, StartsAt;
    var t, b := text + sep + Block(body), |text| + |sep|;
    Assoc(BEGIN_LINE, body, END_MARK);
    Assoc(BEGIN_LINE, body + END_MARK, "\n");
    Assoc(body, END_MARK, "\n");
    assert t == (text + sep) + (BEGIN_LINE + (body + (END_MARK + "\n")));
    Parts(text + sep, BEGIN_LINE, body, END_MARK + "\n");
    CharsOf(text + sep, Block(body));
    CharsOf(text, sep);
    CharsOf(END_MARK, "\n");
    hide Block;
    MarkerShapes();
    CharAt(t, b, BEGIN_LINE, 0);
    CharAt(t, b, BEGIN_LINE, 1);
    CharAt(t, b, BEGIN_LINE, 2);
    CharAt(t, b, BEGIN_LINE, 25);
  }

  lemma Parts(a: string, b: string, c: string, d: string)
    ensures var t := a + (b + (c + d));
      && StartsAt(t, |a|, b) && t[|a| + |b|..|a| + |b| + |c|] == c && (d != "" ==> t[|a| + |b| + |c|] == d[0])
  {
    var t := a + (b + (c + d));
    assert t[|a|..|a| + |b|] == b;
    assert t[|a| + |b|..|a| + |b| + |c|] == c;
  }

  lemma SubSlice(t: string, a: nat, b: nat, o: nat, n: nat)
    requires a <= b <= |t| && o + n <= b - a
    ensures t[a..b][o..o + n] == t[a + o..a + o + n]
  {
    var x, y := t[a..b][o..o + n], t[a + o..a + o + n];
    assert forall k :: 0 <= k < n ==> x[k] == y[k];
    assert x == y;
  }

  /** An end mark inside the second copy of the body would stand in the first copy as well. */
  lemma EndRepeats(t: string, body: string, j: nat, q: nat, e: nat)
    requires ReadsAt(t, j, body) && e == j + |BEGIN_LINE| + |body|
    requires q <= e && q >= j + 51 && q + |body| < |t|
    requires t[q..q + |body|] == body && t[q + |body|] == '\n'
    ensures !StartsAt(t, e, END_MARK)
  {
    MarkerShapes();
    var from, o := j + |BEGIN_LINE|, e - q;
    if e + 26 > q + |body| {
      if StartsAt(t, e, END_MARK) {
        CharAt(t, e, END_MARK, q + |body| - e);
      }
    } else {
      SubSlice(t, q, q + |body|, o, 26);
      SubSlice(t, from, e, o, 26);
      assert !StartsAt(t, from + o, END_MARK);
    }
  }

  lemma EndAcrossBegin(t: string, body: string, q: nat, e: nat)
    requires e < q < e + 26 && q + |body| <= |t| && t[q - 1] == '\n' && t[q..q + |body|] == body
    requires !StartsAt(body, 0, END) && |body| >= e - q + 26
    ensures !StartsAt(t, e, END_MARK)
  {
    MarkerShapes();
    assert END_MARK[1..] == END;
    if e == q - 1 && e + 26 <= |t| {
      SubSlice(t, e, e + 26, 1, 25);
      SubSlice(t, q, q + |body|, 0, 25);
    }
    if StartsAt(t, e, END_MARK) {
      CharAt(t, e, END_MARK, q - 1 - e);
    }
  }

  lemma EndInText(text: string, rest: string, j: nat, e: nat)
    requires !HasSection(text) && j + |BEGIN_LINE| <= e && e + |END_MARK| <= |text|
    requires Find(text, BEGIN_LINE, 0) == Some(j)
    ensures !StartsAt(text + rest, e, END_MARK)
  {
    StartsInside(text, rest, e, END_MARK);
    ExecClosedForm(text);
  }

  lemma EndInGap(t: string, n: nat, b: nat, e: nat)
    requires n < b <= n + 2 && b + 26 <= |t| && n < e + 26 <= b + 26
    requires t[n] == '\n' && t[b - 1] == '\n' && t[b] == '#' && t[b + 1] == ' ' && t[b + 2] == '>'
    ensures !StartsAt(t, e, END_MARK)
  {
    MarkerShapes();
    hide StartsAt;
    if StartsAt(t, e, END_MARK) {
      if e < n {
        CharAt(t, e, END_MARK, n - e);
      } else {
        CharAt(t, e, END_MARK, 0);
        CharAt(t, e, END_MARK, 1);
        CharAt(t, e, END_MARK, 3);
      }
    }
  }

  lemma AppendedParts(text: string, body: string)
    ensures Appended(text, body).body == body
    ensures Appended(text, body).before + Newline(Appended(text, body).lead) ==
            if text == "" then "" else if EndsWithNewline(text) then text + "\n" else text + "\n" + "\n"
  {
  }

  lemma LayoutReplaced(l: Layout, b: string)
    requires l.Proper() && !Clean(b)
    ensures Read(Replace(l.Text(), Some(b))) != Some(b)
  {
    LayoutMeaning(l, b);
    UncleanIsCut(l.With(b));
  }

  // ---- what a stray marker costs ------------------------------------------------------------------------------------

  lemma BlockParts(text: string, sep: string, body: string)
    ensures text + sep + Block(body) == text + sep + (BEGIN_LINE + (body + (END_MARK + "\n")))
    ensures text + sep + Block(body) == (text + sep + BEGIN_LINE) + (body + (END_MARK + "\n"))
  {
    var head := text + sep;
    Assoc(body, END_MARK, "\n");
    Assoc(BEGIN_LINE, body, END_MARK);
    Assoc(BEGIN_LINE, body + END_MARK, "\n");
    Assoc(head, BEGIN_LINE, body + (END_MARK + "\n"));
  }

  lemma EndSynchronises()
    ensures SelfSynchronising(END_MARK)
  {
    MarkerShapes();
  }

  lemma EndAtBody(head: string, body: string, k: nat)
    requires k + 1 == |head| && !StartsAt(body, 0, END)
    ensures !StartsAt(head + (body + (END_MARK + "\n")), k, END_MARK)
  {
    var rest := body + (END_MARK + "\n");
    var t := head + rest;
    MarkerShapes();
    assert |END_MARK| == 1 + |END| && forall i :: 0 <= i < |END| ==> END_MARK[i + 1] == END[i];
    assert rest[|body|] == END_MARK[0];
    assert |body| >= |END| ==> rest[..|END|] == body[..|END|];
    if StartsAt(t, k, END_MARK) {
      forall i | 0 <= i < |END|
        ensures rest[i] == END[i]
      {
        CharAt(t, k, END_MARK, i + 1);
        assert t[k + 1 + i] == rest[i];
      }
    }
  }

  /** What a body holding an end mark, or beginning with the end marker, leaves behind the section that is found up to
      that mark; nothing for any other body. */
  function Leftover(body: string): string {
    var rest := "\n" + body + END_MARK + "\n";
    var e := Find(rest, END_MARK, 0);
    if e.None? then ""
    else
      var after := e.value + |END_MARK|;
      Slice(rest, if NewlineAt(rest, after) then after + 1 else after, |rest|)
  }

  /** Without an end mark of its own, nothing. */
  lemma NothingLeft(body: string)
    requires Clean(body) && !StartsAt(body, 0, END)
    ensures Leftover(body) == ""
  {
    hide StartsAt, Find, Clean;
    var rest := "\n" + body + END_MARK + "\n";
    RestShape(body);
    MarkerShapes();
    forall k: nat | k < 1 + |body|
      ensures !StartsAt(rest, k, END_MARK)
    {
      if k == 0 {
        EndAtBody("\n", body, 0);
      } else {
        EndSynchronises();
        NoStraddle(body, END_MARK, "\n", k - 1) by {
          CleanMeans(body);
        }
        StartsInside("\n", body + (END_MARK + "\n"), k - 1, END_MARK);
      }
    }
    FoundAt(rest, END_MARK, 0, 1 + |body|);
  }

  lemma CleanMeans(body: string)
    requires Clean(body)
    ensures forall k: nat :: !StartsAt(body, k, END_MARK)
  {
  }

  lemma RestShape(body: string)
    ensures var rest := "\n" + body + END_MARK + "\n";
      && rest == "\n" + (body + (END_MARK + "\n"))
      && |rest| == 1 + |body| + |END_MARK| + 1
      && StartsAt(rest, 1 + |body|, END_MARK)
  {
    var rest := "\n" + body + END_MARK + "\n";
    assert rest[1 + |body|..1 + |body| + |END_MARK|] == END_MARK;
  }

  /** The second write then loses every line of the user's from the stray marker on: what is before it stays, and the
      new section follows, with what the first body left over. */
  lemma SecondWriteLoses(text: string, body: string, later: string)
    requires !HasSection(text) && !Unmarked(text)
    ensures Stray(text) < |text|
    ensures Replace(Replace(text, Some(body)), Some(later)) == text[..Stray(text)] + Block(later) + Leftover(body)
  {
    hide HasSection, StartsAt, Find, Block, Unmarked, Leftover, BEGIN, BEGIN_LINE, END_MARK, Replace, Separator;
    var sep := Separator(text);
    var t, front := text + sep + Block(body), text + sep + BEGIN;
    var j, o := StrayEnd(text, body);
    NotEmpty(text);
    AppendsBehind(text, body);
    BlockRest(text, sep, body);
    LeftBehind(front, body, o);
    Assoc(text, sep, Block(body));
    CutAt(text, sep + Block(body), t, j, |front| + o, later);
  }

  /** The section found then runs from the stray marker to the first end mark of the appended one. */
  lemma StrayEnd(text: string, body: string) returns (j: nat, o: nat)
    requires !HasSection(text) && !Unmarked(text)
    ensures j == Stray(text) < |text|
    ensures var t, front := text + Separator(text) + Block(body), text + Separator(text) + BEGIN;
      && Find("\n" + body + END_MARK + "\n", END_MARK, 0) == Some(o)
      && Find(t, BEGIN_LINE, 0) == Some(j) && Find(t, END_MARK, j + |BEGIN_LINE|) == Some(|front| + o)
  {
    hide Exec, StartsAt, Find, Block, NoMarker;
    var sep, rest := Separator(text), "\n" + body + END_MARK + "\n";
    var front := text + sep + BEGIN;
    j := StrayFound(text, sep, Block(body));
    MarkerShapes();
    StrayIs(text, sep, Block(body), j);
    RestShape(body);
    BlockRest(text, sep, body);
    forall k: nat | j + |BEGIN_LINE| <= k < |front|
      ensures !StartsAt(front + rest, k, END_MARK)
    {
      NoEndBeforeBody(text, sep, body, j, k);
    }
    o := EndBehind(front, rest, j + |BEGIN_LINE|, 1 + |body|);
  }

  lemma BlockRest(text: string, sep: string, body: string)
    ensures text + sep + Block(body) == (text + sep + BEGIN) + ("\n" + body + END_MARK + "\n")
  {
  }

  /** Behind `front`, which holds no end mark from `from` on, the first end mark is the first one of `rest`. */
  lemma EndBehind(front: string, rest: string, from: nat, some: nat) returns (o: nat)
    requires from <= |front| && StartsAt(rest, some, END_MARK)
    requires forall k: nat :: from <= k < |front| ==> !StartsAt(front + rest, k, END_MARK)
    ensures Find(rest, END_MARK, 0) == Some(o) && Find(front + rest, END_MARK, from) == Some(|front| + o)
  {
    hide StartsAt;
    o := Find(rest, END_MARK, 0).value;
    StartsInside(front, rest, o, END_MARK);
    forall k: nat | from <= k < |front| + o
      ensures !StartsAt(front + rest, k, END_MARK)
    {
      if |front| <= k {
        StartsInside(front, rest, k - |front|, END_MARK);
      }
    }
    FoundAt(front + rest, END_MARK, from, |front| + o);
  }

  lemma LeftBehind(front: string, body: string, o: nat)
    requires Find("\n" + body + END_MARK + "\n", END_MARK, 0) == Some(o)
    ensures var rest := "\n" + body + END_MARK + "\n";
      var t, e := front + rest, |front| + o + |END_MARK|;
      e <= |t| && Leftover(body) == t[if NewlineAt(t, e) then e + 1 else e..]
  {
    var rest := "\n" + body + END_MARK + "\n";
    assert o + |END_MARK| <= |rest|;
    hide Find, StartsAt, END_MARK, END;
    var n := o + |END_MARK|;
    Behind(front, rest, n);
    if NewlineAt(rest, n) {
      Behind(front, rest, n + 1);
    }
  }

  lemma Behind(front: string, rest: string, n: nat)
    requires n <= |rest|
    ensures (front + rest)[|front| + n..] == rest[n..] == Slice(rest, n, |rest|)
    ensures NewlineAt(front + rest, |front| + n) <==> NewlineAt(rest, n)
  {
  }

  lemma AppendsBehind(text: string, body: string)
    requires !HasSection(text) && text != ""
    ensures Replace(text, Some(body)) == text + Separator(text) + Block(body)
  {
    hide Exec, Block;
  }

  lemma NotEmpty(text: string)
    requires !Unmarked(text)
    ensures text != ""
  {
    MarkerShapes();
    assert |text + "\n"| == |text| + 1;
  }

  lemma StrayIs(text: string, sep: string, rest: string, j: nat)
    requires !Unmarked(text) && sep != "" && sep[0] == '\n' && j + |BEGIN_LINE| <= |text| + 1
    requires Find(text + sep + rest, BEGIN_LINE, 0) == Some(j)
    ensures Stray(text) == j
  {
    hide StartsAt, Find, NoMarker;
    var once := text + "\n";
    assert text + sep + rest == once + (sep[1..] + rest);
    StartsInside(once, sep[1..] + rest, j, BEGIN_LINE);
    forall k: nat | k < j
      ensures !StartsAt(once, k, BEGIN_LINE)
    {
      StartsInside(once, sep[1..] + rest, k, BEGIN_LINE);
    }
    FoundAt(once, BEGIN_LINE, 0, j);
  }

  lemma Rejoined(t: string, j: nat)
    requires j < |t|
    ensures j > 0 && t[j - 1] == '\n' ==> Slice(t, 0, j - 1) + "\n" == t[..j]
    ensures Slice(t, 0, j) + "" == t[..j]
  {
  }

  lemma CutAt(text: string, rest: string, t: string, j: nat, e: nat, later: string)
    requires t == text + rest && j < |text|
    requires Find(t, BEGIN_LINE, 0) == Some(j) && Find(t, END_MARK, j + |BEGIN_LINE|) == Some(e)
    ensures e + |END_MARK| <= |t|
    ensures Replace(t, Some(later)) ==
            text[..j] + Block(later) + t[if NewlineAt(t, e + |END_MARK|) then e + |END_MARK| + 1 else e + |END_MARK|..]
  {
    hide Find, Block, Replace;
    MarkerShapes();
    CharAt(t, j, BEGIN_LINE, 0);
    Matched(t, j, e);
    hide StartsAt, BEGIN_LINE, END_MARK, HasSection;
    var m := Exec(t, 0).value;
    hide Exec;
    assert NewlineAt(t, m.start) <==> m.start < j;
    assert t[..j] == text[..j];
    Rejoined(t, j);
    ReplacedAt(t, m, j, later);
  }

  lemma Matched(t: string, j: nat, e: nat)
    requires Find(t, BEGIN_LINE, 0) == Some(j) && Find(t, END_MARK, j + |BEGIN_LINE|) == Some(e)
    ensures HasSection(t) && e + |END_MARK| <= |t|
    ensures var m := Exec(t, 0).value;
      && m.start == (if j > 0 && t[j - 1] == '\n' then j - 1 else j)
      && m.end == (if NewlineAt(t, e + |END_MARK|) then e + |END_MARK| + 1 else e + |END_MARK|)
      && m.end <= |t|
  {
    hide Exec, Find, BEGIN_LINE, END_MARK, BEGIN, END;
    assert e + |END_MARK| <= |t|;
    hide StartsAt;
    ExecClosedForm(t);
  }

  lemma ReplacedAt(t: string, m: Match, j: nat, later: string)
    requires Exec(t, 0) == Some(m) && m.end <= |t| && j <= |t| && (NewlineAt(t, m.start) <==> m.start < j)
    requires Slice(t, 0, m.start) + (if m.start < j then "\n" else "") == t[..j]
    ensures Replace(t, Some(later)) == t[..j] + Block(later) + t[m.end..]
  {
    hide Exec, Block;
    assert Slice(t, m.end, |t|) == t[m.end..];
  }

  /** A body with an end mark leaves something behind when the section is replaced. */
  lemma UncleanLeaves(l: Layout, later: string)
    requires NoMarker(l.before + Newline(l.lead)) && !Clean(l.body) && l.trail
    ensures |Replace(l.Text(), Some(later))| > |l.With(later).Text()|
  {
    hide Layout.Text, Layout.Section, StartsAt, Newline, Find, Exec;
    var k: nat :| StartsAt(l.body, k, END_MARK);
    var lead, rest := l.before + Newline(l.lead), END_MARK + (Newline(l.trail) + l.after);
    LayoutSplits(l);
    FirstOccurrence("", lead, BEGIN_LINE, l.body + rest);
    assert "" + (lead + (BEGIN_LINE + (l.body + rest))) == lead + (BEGIN_LINE + (l.body + rest));
    StartsInside(l.body, rest, k, END_MARK);
    StartsInside(lead + BEGIN_LINE, l.body + rest, k, END_MARK);
    StartsWithin(l.body, k, END_MARK);
    ReplacedLength(l.Text(), |lead|, |lead| + |BEGIN_LINE| + k, later);
    LayoutSplits(l.With(later));
    BlockLength(later);
  }

  lemma BlockLength(body: string)
    ensures |Block(body)| == |BEGIN_LINE| + |body| + |END_MARK| + 1
    ensures |Newline(true)| == 1
  {
  }

  lemma ReplacedLength(t: string, j: nat, k: nat, later: string)
    requires Find(t, BEGIN_LINE, 0) == Some(j) && j + |BEGIN_LINE| <= k && StartsAt(t, k, END_MARK)
    ensures |Replace(t, Some(later))| >= j + |Block(later)| + |t| - (k + |END_MARK| + 1)
  {
    hide Exec, Find, Block;
    MarkerShapes();
    CharAt(t, j, BEGIN_LINE, 0);
    ExecClosedForm(t);
    var e := Find(t, END_MARK, j + |BEGIN_LINE|);
    assert e.Some? && e.value <= k;
    var m := Exec(t, 0).value;
    assert m.end <= |t| && m.start <= j <= m.start + 1;
    assert NewlineAt(t, m.start) <==> m.start < j;
  }

  /** For every text and every two bodies: a second write leaves what one write of the later body would exactly when
      the text has a section or no begin marker at the end of a line, and the first body holds no end mark. Behind a
      stray marker it does only if what the first body left over makes up for the lines that are lost, letter by
      letter. */
  lemma ReplaceTwiceIff(text: string, body: string, later: string)
    ensures Replace(Replace(text, Some(body)), Some(later)) == Replace(text, Some(later)) <==>
      if Placeable(text) then Clean(body)
      else Block(later) + Leftover(body) == text[Stray(text)..] + Separator(text) + Block(later)
    ensures !Placeable(text) && Clean(body) && !StartsAt(body, 0, END) ==>
      Replace(Replace(text, Some(body)), Some(later)) != Replace(text, Some(later))
  {
    hide Exec, Block, NoMarker, Clean, StartsAt, Leftover, Layout.Text;
    if Placeable(text) {
      if Clean(body) {
        ReplaceTwice(text, body, later);
      } else {
        PlacedText(text, body);
        PlacedText(text, later);
        PlacedUnclean(text, body);
        UncleanLeaves(Placed(text, body), later);
        assert Placed(text, body).With(later) == Placed(text, later);
      }
    } else {
      SecondWriteLoses(text, body, later);
      NotEmpty(text);
      var front, rest := text[..Stray(text)], text[Stray(text)..];
      assert text == front + rest;
      assert Replace(text, Some(later)) == text + Separator(text) + Block(later);
      SameFront(front, Block(later) + Leftover(body), rest + Separator(text) + Block(later));
      Assoc(front, Block(later), Leftover(body));
      Assoc(front, rest, Separator(text));
      Assoc(front, rest + Separator(text), Block(later));
      if Clean(body) && !StartsAt(body, 0, END) {
        NothingLeft(body);
      }
    }
  }

  lemma SameFront(a: string, b: string, c: string)
    ensures a + b == a + c <==> b == c
  {
    assert (a + b)[|a|..] == b && (a + c)[|a|..] == c;
  }

  lemma PlacedUnclean(text: string, body: string)
    requires Placeable(text)
    ensures var l := Placed(text, body);
      NoMarker(l.before + Newline(l.lead)) && l.body == body && l.trail
  {
    hide Exec, NoMarker, Layout.Text;
    if HasSection(text) {
      LayoutExists(text);
    } else {
      AppendedLead(text);
      AppendedParts(text, body);
    }
  }

  /** At its smallest: of a file that is only a begin line nothing is left after the second write. */
  lemma StrayLineIsLost()
    ensures Replace(Replace(BEGIN_LINE, Some("old")), Some("new")) == Block("new")
    ensures Replace(BEGIN_LINE, Some("new")) == BEGIN_LINE + "\n" + Block("new")
  {
    StrayLine();
    hide Exec, Block, NoMarker, BEGIN_LINE, END_MARK, END;
    SecondWriteLoses(BEGIN_LINE, "old", "new");
    NothingLeft("old") by {
      OldIsClean();
    }
    assert BEGIN_LINE[..0] + Block("new") + "" == Block("new");
  }

  lemma OldIsClean()
    ensures Clean("old") && !StartsAt("old", 0, END)
  {
    MarkerShapes();
    assert |END| == 25;
  }

  lemma StrayLine()
    ensures !HasSection(BEGIN_LINE) && !Unmarked(BEGIN_LINE) && Stray(BEGIN_LINE) == 0
    ensures EndsWithNewline(BEGIN_LINE) && BEGIN_LINE != ""
  {
    hide Exec;
    MarkerShapes();
    ExecClosedForm(BEGIN_LINE);
    assert BEGIN_LINE + "\n" == "" + (BEGIN_LINE + "\n");
    StartsInside(BEGIN_LINE, "\n", 0, BEGIN_LINE);
    assert BEGIN_LINE[0..|BEGIN_LINE|] == BEGIN_LINE;
    FoundAt(BEGIN_LINE + "\n", BEGIN_LINE, 0, 0);
  }

  function Separator(text: string): string {
    if EndsWithNewline(text) then "\n" else "\n\n"
  }

  /** Up to the appended section's body there is no end mark behind the stray marker. */
  lemma NoEndBeforeBody(text: string, sep: string, body: string, j: nat, k: nat)
    requires !HasSection(text) && (sep == "\n" || sep == "\n\n")
    requires j + |BEGIN_LINE| <= |text| + 1 && (j + |BEGIN_LINE| <= |text| ==> Find(text, BEGIN_LINE, 0) == Some(j))
    requires j + |BEGIN_LINE| <= k < |text| + |sep| + |BEGIN|
    ensures !StartsAt(text + sep + Block(body), k, END_MARK)
  {
    hide Exec, StartsAt, Find, Block;
    var t := text + sep + Block(body);
    Places(text, sep, body);
    MarkerShapes();
    if k > |text| + |sep| {
      BlockParts(text, sep, body);
      CharsOf(text + sep, BEGIN_LINE + (body + (END_MARK + "\n")));
      CharsOf(BEGIN_LINE, body + (END_MARK + "\n"));
      assert t[k] == BEGIN_LINE[k - |text + sep|];
      if StartsAt(t, k, END_MARK) {
        CharAt(t, k, END_MARK, 0);
      }
    } else if k + 26 <= |text| {
      assert t == text + (sep + Block(body));
      EndInText(text, sep + Block(body), j, k);
    } else {
      EndInGap(t, |text|, |text| + |sep|, k);
    }
  }

  lemma EndAtBodyStands(text: string, sep: string, body: string)
    requires StartsAt(body, 0, END)
    ensures StartsAt(text + sep + Block(body), |text| + |sep| + |BEGIN|, END_MARK)
  {
    var t, k := text + sep + Block(body), |text| + |sep| + |BEGIN|;
    var head, rest := text + sep + BEGIN_LINE, body + (END_MARK + "\n");
    BlockParts(text, sep, body);
    MarkerShapes();
    hide Block;
    assert head[k] == '\n' && |head| == k + 1;
    assert rest[..|END|] == body[..|END|] == END;
    assert t[k..k + |END_MARK|] == [head[k]] + rest[..|END|];
  }

  lemma BodyBegins(text: string, sep: string, body: string, j: nat)
    requires j <= |text + sep + BEGIN|
    ensures var k := |text| + |sep| + |BEGIN|;
      k <= |text + sep + Block(body)| && (text + sep + Block(body))[j..k] == (text + sep + BEGIN)[j..]
  {
    var k := |text| + |sep| + |BEGIN|;
    BlockParts(text, sep, body);
    var t := text + sep + BEGIN + ("\n" + (body + (END_MARK + "\n")));
    assert text + sep + Block(body) == t;
    assert t[..k] == text + sep + BEGIN;
  }

  /** A begin marker left at the end of an earlier line takes the section over: what is written is read back only when
      it happens to be what stands between that marker and the section, and begins with the end marker. */
  lemma StrayTakesOver(text: string, body: string)
    requires !HasSection(text) && !Unmarked(text)
    ensures Stray(text) + |BEGIN_LINE| <= |text + Separator(text) + BEGIN|
    ensures Read(Replace(text, Some(body))) == Some(body) <==>
      StartsAt(body, 0, END) && body == (text + Separator(text) + BEGIN)[Stray(text) + |BEGIN_LINE|..]
  {
    hide Exec, StartsAt, Find, Block, NoMarker;
    var sep := Separator(text);
    var t, k := text + sep + Block(body), |text| + |sep| + |BEGIN|;
    var j := StrayFound(text, sep, Block(body));
    StrayIs(text, sep, Block(body), j);
    MarkerShapes();
    NotEmpty(text);
    if StartsAt(body, 0, END) {
      forall i: nat | j + |BEGIN_LINE| <= i < k
        ensures !StartsAt(t, i, END_MARK)
      {
        NoEndBeforeBody(text, sep, body, j, i);
      }
      EndAtBodyStands(text, sep, body);
      FoundAt(t, END_MARK, j + |BEGIN_LINE|, k);
      BodyBegins(text, sep, body, j + |BEGIN_LINE|);
      ReadBetween(t, j, k);
    } else {
      StrayReadsOther(text, body);
    }
  }

  lemma ReadBetween(t: string, j: nat, k: nat)
    requires Find(t, BEGIN_LINE, 0) == Some(j) && Find(t, END_MARK, j + |BEGIN_LINE|) == Some(k)
    ensures Read(t) == Some(Slice(t, j + |BEGIN_LINE|, k))
  {
    hide Exec, Find;
    ExecClosedForm(t);
  }

  /** Reading back returns what was written exactly when the body holds no end mark and the text has a section or no
      begin marker at the end of a line; but for the one body a stray marker happens to read. */
  lemma ReplaceThenReadIff(text: string, body: string)
    ensures !Placeable(text) ==> Stray(text) + |BEGIN_LINE| <= |text + Separator(text) + BEGIN|
    ensures Read(Replace(text, Some(body))) == Some(body) <==>
      if Placeable(text) then Clean(body)
      else StartsAt(body, 0, END) && body == (text + Separator(text) + BEGIN)[Stray(text) + |BEGIN_LINE|..]
  {
    hide Exec, Layout.Text, Clean, NoMarker, StartsAt;
    if !Placeable(text) {
      StrayTakesOver(text, body);
    } else if !Clean(body) {
      if HasSection(text) {
        LayoutExists(text);
        LayoutReplaced(LayoutOf(text), body);
      } else {
        AppendedText(text, body);
        AppendedLead(text);
        AppendedParts(text, body);
        UncleanIsCut(Appended(text, body));
      }
    } else {
      ReplaceThenRead(text, body);
    }
  }
}
