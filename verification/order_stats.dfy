/** Order statistics: what `[...xs].sort((a, b) => a - b)[k]` and `Math.max(...xs)` are, told by counting. The modules
    for the capacity pattern, the signals and the baselines share it. */
module OrderStats {

  function Insert(x: real, s: seq<real>): seq<real> {
    if s == [] then [x]
    else if x < s[|s| - 1] then Insert(x, s[..|s| - 1]) + [s[|s| - 1]]
    else s + [x]
  }

  function Sort(xs: seq<real>): (s: seq<real>)
    ensures |s| == |xs|
  {
    if xs == [] then []
    else
      InsertLength(xs[|xs| - 1], Sort(xs[..|xs| - 1]));
      Insert(xs[|xs| - 1], Sort(xs[..|xs| - 1]))
  }

  lemma InsertLength(x: real, s: seq<real>)
    ensures |Insert(x, s)| == |s| + 1
  {
  }

  /** The places of the list whose item meets the predicate. */
  ghost function Where<T>(xs: seq<T>, p: T -> bool): set<nat> {
    set k: nat | k < |xs| && p(xs[k])
  }

  lemma WhereGrows<T>(xs: seq<T>, x: T, p: T -> bool)
    ensures |Where(xs + [x], p)| == |Where(xs, p)| + if p(x) then 1 else 0
  {
    var last := if p(x) then {|xs|} else {};
    assert Where(xs + [x], p) == Where(xs, p) + last;
  }

  lemma WhereNothing<T>(p: T -> bool)
    ensures Where([], p) == {}
  {
  }

  ghost predicate Sorted(s: seq<real>) {
    forall i, j :: 0 <= i < j < |s| ==> s[i] <= s[j]
  }

  /** How many of the values are at most `v`. */
  function CountAtMost(xs: seq<real>, v: real): nat {
    if xs == [] then 0 else CountAtMost(xs[..|xs| - 1], v) + if xs[|xs| - 1] <= v then 1 else 0
  }

  lemma {:induction false} CountBounded(xs: seq<real>, v: real)
    ensures CountAtMost(xs, v) <= |xs|
  {
    if xs != [] {
      CountBounded(xs[..|xs| - 1], v);
    }
  }

  lemma {:induction false} InsertMembers(x: real, s: seq<real>)
    ensures forall y :: y in Insert(x, s) <==> y in s || y == x
  {
    if s != [] {
      InsertMembers(x, s[..|s| - 1]);
      assert s == s[..|s| - 1] + [s[|s| - 1]];
    }
  }

  lemma {:induction false} InsertSorts(x: real, s: seq<real>)
    requires Sorted(s)
    ensures Sorted(Insert(x, s))
  {
    if s != [] && x < s[|s| - 1] {
      var n := |s| - 1;
      InsertSorts(x, s[..n]);
      InsertMembers(x, s[..n]);
      forall i | 0 <= i < |Insert(x, s[..n])|
        ensures Insert(x, s[..n])[i] <= s[n]
      {
        assert Insert(x, s[..n])[i] in Insert(x, s[..n]);
      }
    }
  }

  lemma {:induction false} InsertCounts(x: real, s: seq<real>, v: real)
    ensures CountAtMost(Insert(x, s), v) == CountAtMost(s, v) + if x <= v then 1 else 0
  {
    if s != [] {
      var n := |s| - 1;
      if x < s[n] {
        InsertCounts(x, s[..n], v);
        assert Insert(x, s)[..|Insert(x, s)| - 1] == Insert(x, s[..n]);
      } else {
        assert Insert(x, s)[..|Insert(x, s)| - 1] == s;
      }
    }
  }

  lemma {:induction false} SortSorts(xs: seq<real>, v: real)
    ensures Sorted(Sort(xs))
    ensures forall y :: y in Sort(xs) <==> y in xs
    ensures CountAtMost(Sort(xs), v) == CountAtMost(xs, v)
  {
    hide Insert;
    if xs != [] {
      hide Sorted;
      var n := |xs| - 1;
      SortSorts(xs[..n], v);
      InsertSorts(xs[n], Sort(xs[..n]));
      InsertMembers(xs[n], Sort(xs[..n]));
      InsertCounts(xs[n], Sort(xs[..n]), v);
      assert xs == xs[..n] + [xs[n]];
    }
  }

  lemma {:induction false} CountWhenSorted(s: seq<real>, k: nat, v: real)
    requires Sorted(s) && k < |s|
    ensures s[k] <= v <==> CountAtMost(s, v) > k
  {
    var n := |s| - 1;
    CountBounded(s[..n], v);
    if k < n {
      CountWhenSorted(s[..n], k, v);
    } else if s[n] <= v {
      AllCounted(s, v);
    }
  }

  lemma {:induction false} AllCounted(s: seq<real>, v: real)
    requires forall i :: 0 <= i < |s| ==> s[i] <= v
    ensures CountAtMost(s, v) == |s|
  {
    if s != [] {
      AllCounted(s[..|s| - 1], v);
    }
  }

  lemma {:induction false} NoneCounted(s: seq<real>, v: real)
    requires forall i :: 0 <= i < |s| ==> s[i] > v
    ensures CountAtMost(s, v) == 0
  {
    if s != [] {
      NoneCounted(s[..|s| - 1], v);
    }
  }

  /** The value at place `k` of the sorted list is at most `v` exactly when more than `k` of the values are. */
  lemma PlaceByCount(xs: seq<real>, k: nat, v: real)
    requires k < |xs|
    ensures Sort(xs)[k] <= v <==> CountAtMost(xs, v) > k
  {
    SortSorts(xs, v);
    CountWhenSorted(Sort(xs), k, v);
  }

  lemma PlaceIsMember(xs: seq<real>, k: nat)
    requires k < |xs|
    ensures Sort(xs)[k] in xs
  {
    SortSorts(xs, 0.0);
    assert Sort(xs)[k] in Sort(xs);
  }

  lemma {:induction false} CountConcat(a: seq<real>, b: seq<real>, v: real)
    ensures CountAtMost(a + b, v) == CountAtMost(a, v) + CountAtMost(b, v)
  {
    if b == [] {
      assert a + b == a;
    } else {
      assert (a + b)[..|a + b| - 1] == a + b[..|b| - 1];
      CountConcat(a, b[..|b| - 1], v);
    }
  }

  function Without(ys: seq<real>, j: nat): seq<real>
    requires j < |ys|
  {
    ys[..j] + ys[j + 1..]
  }

  lemma WithoutCounts(ys: seq<real>, j: nat, v: real)
    requires j < |ys|
    ensures CountAtMost(ys, v) == CountAtMost(Without(ys, j), v) + if ys[j] <= v then 1 else 0
  {
    CountConcat(ys[..j], ys[j + 1..], v);
    CountConcat(ys[..j + 1], ys[j + 1..], v);
    assert ys == ys[..j + 1] + ys[j + 1..];
    assert ys[..j + 1][..j] == ys[..j];
  }

  lemma WithoutMultiset(ys: seq<real>, j: nat)
    requires j < |ys|
    ensures multiset(Without(ys, j)) == multiset(ys) - multiset{ys[j]}
  {
    assert ys == ys[..j] + [ys[j]] + ys[j + 1..];
  }

  /** Counting does not see the order. */
  lemma {:induction false} CountPermuted(xs: seq<real>, ys: seq<real>, v: real)
    requires multiset(xs) == multiset(ys)
    ensures CountAtMost(xs, v) == CountAtMost(ys, v)
    decreases |xs|
  {
    assert |xs| == |multiset(xs)| == |multiset(ys)| == |ys|;
    if xs != [] {
      var n := |xs| - 1;
      assert xs[n] in multiset(ys);
      var j :| 0 <= j < |ys| && ys[j] == xs[n];
      WithoutMultiset(xs, n);
      WithoutMultiset(ys, j);
      assert Without(xs, n) == xs[..n];
      CountPermuted(xs[..n], Without(ys, j), v);
      WithoutCounts(ys, j, v);
    }
  }

  /** Nor, then, do order statistics. */
  lemma PlacePermuted(xs: seq<real>, ys: seq<real>, k: nat)
    requires multiset(xs) == multiset(ys) && k < |xs|
    ensures |xs| == |ys| && Sort(xs)[k] == Sort(ys)[k]
  {
    assert |xs| == |multiset(xs)| == |multiset(ys)| == |ys|;
    var a, b := Sort(xs)[k], Sort(ys)[k];
    CountPermuted(xs, ys, a);
    CountPermuted(xs, ys, b);
    PlaceByCount(xs, k, a);
    PlaceByCount(ys, k, a);
    PlaceByCount(xs, k, b);
    PlaceByCount(ys, k, b);
  }

  ghost predicate Below(xs: seq<real>, ys: seq<real>) {
    |xs| == |ys| && forall i :: 0 <= i < |xs| ==> xs[i] <= ys[i]
  }

  lemma {:induction false} CountAntitone(xs: seq<real>, ys: seq<real>, v: real)
    requires Below(xs, ys)
    ensures CountAtMost(ys, v) <= CountAtMost(xs, v)
  {
    if xs != [] {
      CountAntitone(xs[..|xs| - 1], ys[..|ys| - 1], v);
    }
  }

  /** Raising values never lowers an order statistic. */
  lemma PlaceMonotone(xs: seq<real>, ys: seq<real>, k: nat)
    requires Below(xs, ys) && k < |xs|
    ensures Sort(xs)[k] <= Sort(ys)[k]
  {
    var v := Sort(ys)[k];
    PlaceByCount(ys, k, v);
    CountAntitone(xs, ys, v);
    PlaceByCount(xs, k, v);
  }

  function Max(a: real, b: real): real {
    if a < b then b else a
  }

  function MaxOf(xs: seq<real>): real
    requires xs != []
  {
    if |xs| == 1 then xs[0] else Max(MaxOf(xs[..|xs| - 1]), xs[|xs| - 1])
  }

  lemma {:induction false} MaxOfMeaning(xs: seq<real>)
    requires xs != []
    ensures MaxOf(xs) in xs && forall x <- xs :: x <= MaxOf(xs)
  {
    if |xs| > 1 {
      MaxOfMeaning(xs[..|xs| - 1]);
      assert xs == xs[..|xs| - 1] + [xs[|xs| - 1]];
    }
  }
}
