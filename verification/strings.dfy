/** Strings as the sources use them: splitting and joining, and sorted lists without duplicates. */
module Strings {

  // ---- splitting and joining ----------------------------------------------------------------------------------------

  function Join(parts: seq<string>, sep: char): string {
    if parts == [] then "" else if |parts| == 1 then parts[0] else parts[0] + [sep] + Join(parts[1..], sep)
  }

  function Split(text: string, sep: char): (parts: seq<string>)
    ensures parts != []
  {
    if text == "" then [""]
    else
      var rest := Split(text[1..], sep);
      if text[0] == sep then [""] + rest else [[text[0]] + rest[0]] + rest[1..]
  }

  lemma {:induction false} SplitPart(part: string, rest: string, sep: char)
    requires sep !in part
    ensures Split(part + [sep] + rest, sep) == [part] + Split(rest, sep)
    ensures Split(part, sep) == [part]
  {
    if part == "" {
      assert "" + [sep] + rest == [sep] + rest;
    } else {
      SplitPart(part[1..], rest, sep);
      assert (part + [sep] + rest)[1..] == part[1..] + [sep] + rest;
      assert part[0] != sep && [part[0]] + part[1..] == part;
    }
  }

  /** Parts survive being joined and split. */
  lemma {:induction false} SplitJoin(parts: seq<string>, sep: char)
    requires parts != [] && forall p <- parts :: sep !in p
    ensures Split(Join(parts, sep), sep) == parts
  {
    assert parts[0] in parts;
    if |parts| == 1 {
      SplitPart(parts[0], "", sep);
    } else {
      SplitJoin(parts[1..], sep);
      SplitPart(parts[0], Join(parts[1..], sep), sep);
      assert [parts[0]] + parts[1..] == parts;
    }
  }

  /** Text survives being split and joined. */
  lemma {:induction false} JoinSplit(text: string, sep: char)
    ensures Join(Split(text, sep), sep) == text
    ensures forall p <- Split(text, sep) :: sep !in p
  {
    if text != "" {
      JoinSplit(text[1..], sep);
      var rest := Split(text[1..], sep);
      if text[0] == sep {
        assert ([""] + rest)[1..] == rest;
        assert "" + [sep] + text[1..] == text;
      } else {
        var longer := [[text[0]] + rest[0]] + rest[1..];
        assert longer[1..] == rest[1..];
        assert rest[0] in rest;
        if |rest| > 1 {
          assert [text[0]] + rest[0] + [sep] + Join(rest[1..], sep) ==
              [text[0]] + (rest[0] + [sep] + Join(rest[1..], sep));
        }
      }
    }
  }

  lemma {:induction false} JoinLast(parts: seq<string>, last: string, sep: char)
    requires parts != []
    ensures Join(parts + [last], sep) == Join(parts, sep) + [sep] + last
  {
    assert (parts + [last])[1..] == parts[1..] + [last];
    if |parts| > 1 {
      JoinLast(parts[1..], last, sep);
    } else {
      assert parts[1..] + [last] == [last];
    }
  }

  /** What follows the last separator. */
  function LastSegment(text: string, sep: char): (r: string)
    ensures sep !in r
  {
    if sep !in text then text else LastSegment(text[1..], sep)
  }

  lemma {:induction false} LastSegmentOf(before: string, last: string, sep: char)
    requires sep !in last
    ensures LastSegment(before + [sep] + last, sep) == last
  {
    var text := before + [sep] + last;
    assert text[|before|] == sep;
    if before == "" {
      assert text[1..] == last;
    } else {
      assert text[1..] == before[1..] + [sep] + last;
      LastSegmentOf(before[1..], last, sep);
    }
  }

  // ---- spaces and case ----------------------------------------------------------------------------------------------

  predicate IsSpace(c: char) {
    c in " \t\n\r\U{0B}\U{0C}\U{A0}\U{1680}\U{2028}\U{2029}\U{202F}\U{205F}\U{3000}\U{FEFF}" ||
        '\U{2000}' <= c <= '\U{200A}'
  }

  predicate AllSpace(s: string) {
    forall c <- s :: IsSpace(c)
  }

  function SkipSpaces(s: string): string {
    if s != "" && IsSpace(s[0]) then SkipSpaces(s[1..]) else s
  }

  function TrimEnd(s: string): string {
    if s != "" && IsSpace(s[|s| - 1]) then TrimEnd(s[..|s| - 1]) else s
  }

  function Trim(s: string): string {
    TrimEnd(SkipSpaces(s))
  }

  function LowerChar(c: char): char {
    if 'A' <= c <= 'Z' then c - 'A' + 'a' else c
  }

  function Lower(s: string): string {
    seq(|s|, i requires 0 <= i < |s| => LowerChar(s[i]))
  }

  lemma {:induction false} SpacesSkipped(s: string) returns (a: string)
    ensures AllSpace(a) && s == a + SkipSpaces(s)
  {
    hide IsSpace;
    if s != "" && IsSpace(s[0]) {
      a := SpacesSkipped(s[1..]);
      a := [s[0]] + a;
    } else {
      a := "";
    }
  }

  lemma {:induction false} SkipsAll(a: string, t: string)
    requires AllSpace(a) && t != "" && !IsSpace(t[0])
    ensures SkipSpaces(a + t) == t
  {
    hide IsSpace;
    if a == "" {
      assert a + t == t;
    } else {
      assert a[0] in a && (a + t)[1..] == a[1..] + t;
      SkipsAll(a[1..], t);
    }
  }

  const CAPITALS := "ABCDEFGHIJKLMNOPQRSTUVWXYZ"
  const SMALL := "abcdefghijklmnopqrstuvwxyz"

  /** The capitals become the small letters in their places; every other character stays. */
  lemma LowerByLetter(c: char)
    ensures forall k :: 0 <= k < 26 ==> LowerChar(CAPITALS[k]) == SMALL[k]
    ensures c !in CAPITALS ==> LowerChar(c) == c
  {
    assert forall k :: 0 <= k < 26 ==> CAPITALS[k] == 'A' + k as char && SMALL[k] == 'a' + k as char;
    if 'A' <= c <= 'Z' {
      assert CAPITALS[c as int - 'A' as int] == c;
    }
  }

  /** The spaces, one by one. */
  lemma SpacesByName(c: char)
    ensures IsSpace(c) <==>
      c in {' ', '\t', '\n', '\r', '\U{0B}', '\U{0C}', '\U{A0}', '\U{1680}', '\U{2000}', '\U{2001}', '\U{2002}',
            '\U{2003}', '\U{2004}', '\U{2005}', '\U{2006}', '\U{2007}', '\U{2008}', '\U{2009}', '\U{200A}',
            '\U{2028}', '\U{2029}', '\U{202F}', '\U{205F}', '\U{3000}', '\U{FEFF}'}
  {
  }

  /** A trimmed text has no space at either end. */
  lemma TrimMeaning(s: string)
    ensures var r := Trim(s); r != "" ==> !IsSpace(r[0]) && !IsSpace(r[|r| - 1])
  {
    hide IsSpace;
    SkipMeaning(s);
    TrimEndMeaning(SkipSpaces(s));
  }

  lemma {:induction false} SkipMeaning(s: string)
    ensures var r := SkipSpaces(s); r != "" ==> !IsSpace(r[0])
  {
    hide IsSpace;
    if s != "" && IsSpace(s[0]) {
      SkipMeaning(s[1..]);
    }
  }

  lemma {:induction false} TrimEndMeaning(s: string)
    ensures var r := TrimEnd(s); r <= s && (r != "" ==> !IsSpace(r[|r| - 1]))
  {
    hide IsSpace;
    if s != "" && IsSpace(s[|s| - 1]) {
      TrimEndMeaning(s[..|s| - 1]);
    }
  }

  lemma LowerCharMeaning(c: char)
    ensures LowerChar(LowerChar(c)) == LowerChar(c)
    ensures IsSpace(LowerChar(c)) <==> IsSpace(c)
    ensures LowerChar(c) == '.' <==> c == '.'
  {
  }

  lemma LowerMeaning(s: string)
    ensures Lower(Lower(s)) == Lower(s)
  {
    hide LowerChar;
    forall i | 0 <= i < |s|
      ensures LowerChar(LowerChar(s[i])) == LowerChar(s[i])
    {
      LowerCharMeaning(s[i]);
    }
  }

  // ---- the order of strings -----------------------------------------------------------------------------------------

  predicate AtMost(a: string, b: string) {
    a == "" || (b != "" && (a[0] < b[0] || (a[0] == b[0] && AtMost(a[1..], b[1..]))))
  }

  lemma {:induction false} AtMostTotal(a: string, b: string)
    ensures AtMost(a, b) || AtMost(b, a)
    ensures AtMost(a, b) && AtMost(b, a) ==> a == b
  {
    if a != "" && b != "" {
      AtMostTotal(a[1..], b[1..]);
      assert a == [a[0]] + a[1..] && b == [b[0]] + b[1..];
    }
  }

  lemma {:induction false} AtMostTransitive(a: string, b: string, c: string)
    requires AtMost(a, b) && AtMost(b, c)
    ensures AtMost(a, c)
  {
    if a != "" && a[0] == b[0] && b[0] == c[0] {
      AtMostTransitive(a[1..], b[1..], c[1..]);
    }
  }

  // ---- sorted lists without duplicates ------------------------------------------------------------------------------

  predicate Ascending(xs: seq<string>) {
    forall i, j :: 0 <= i < j < |xs| ==> AtMost(xs[i], xs[j]) && xs[i] != xs[j]
  }

  predicate Least(x: string, s: set<string>) {
    x in s && forall y <- s :: AtMost(x, y)
  }

  lemma {:induction false} HasLeast(s: set<string>)
    requires s != {}
    ensures exists x :: Least(x, s)
    ensures forall x, y :: Least(x, s) && Least(y, s) ==> x == y
  {
    forall x, y | Least(x, s) && Least(y, s)
      ensures x == y
    {
      AtMostTotal(x, y);
    }
    var z :| z in s;
    AtMostTotal(z, z);
    if s == {z} {
      assert Least(z, s);
    } else {
      HasLeast(s - {z});
      var x :| Least(x, s - {z});
      AtMostTotal(x, z);
      if AtMost(x, z) {
        assert Least(x, s);
      } else {
        forall y | y in s
          ensures AtMost(z, y)
        {
          if y != z {
            AtMostTransitive(z, x, y);
          }
        }
        assert Least(z, s);
      }
    }
  }

  /** The elements in order. */
  function Sorted(s: set<string>): (r: seq<string>)
    ensures Ascending(r)
    ensures forall x :: x in r <==> x in s
  {
    if s == {} then []
    else
      HasLeast(s);
      var x :| x in s && Least(x, s);
      [x] + Sorted(s - {x})
  }

  lemma SortedNothing()
    ensures Sorted({}) == []
  {
  }

  /** There is only one way to put them in order. */
  lemma {:induction false} AscendingUnique(a: seq<string>, b: seq<string>)
    requires Ascending(a) && Ascending(b) && forall x :: x in a <==> x in b
    ensures a == b
  {
    assert b != [] ==> b[0] in b;
    if a != [] {
      assert a[0] in b && b != [];
      assert b[0] in a;
      AtMostTotal(a[0], b[0]);
      assert a[0] == b[0];
      forall x
        ensures x in a[1..] <==> x in b[1..]
      {
        assert x in a <==> x == a[0] || x in a[1..];
        assert x in b <==> x == b[0] || x in b[1..];
      }
      AscendingUnique(a[1..], b[1..]);
      assert a == [a[0]] + a[1..] && b == [b[0]] + b[1..];
    }
  }

  lemma SortedIs(r: seq<string>)
    requires Ascending(r)
    ensures Sorted(set x <- r) == r
  {
    AscendingUnique(Sorted(set x <- r), r);
  }

  /** Taking one element away takes it out of the list. */
  lemma SortedWithout(s: set<string>, x: string) returns (i: nat)
    requires x in s
    ensures i < |Sorted(s)| && Sorted(s)[i] == x
    ensures Sorted(s - {x}) == Sorted(s)[..i] + Sorted(s)[i + 1..]
  {
    var all := Sorted(s);
    i :| 0 <= i < |all| && all[i] == x;
    AscendingWithout(all, i);
    AscendingUnique(Sorted(s - {x}), all[..i] + all[i + 1..]);
  }

  lemma AscendingWithout(xs: seq<string>, i: nat)
    requires Ascending(xs) && i < |xs|
    ensures Ascending(xs[..i] + xs[i + 1..])
    ensures forall y :: y in xs[..i] + xs[i + 1..] <==> y in xs && y != xs[i]
  {
    hide AtMost;
    var rest := xs[..i] + xs[i + 1..];
    forall y
      ensures y in rest <==> y in xs && y != xs[i]
    {
      if y in rest {
        var j :| 0 <= j < |rest| && rest[j] == y;
        assert y == xs[if j < i then j else j + 1];
      }
      if y in xs && y != xs[i] {
        var j :| 0 <= j < |xs| && xs[j] == y;
        assert y == rest[if j < i then j else j - 1];
      }
    }
  }
}
