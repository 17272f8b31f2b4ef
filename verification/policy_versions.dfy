/** The versions of a managed policy, `src/autopark_grant.ts`: AWS keeps five, so room is made before one is added. */
module PolicyVersions {
  import opened Options
  import opened GrantDocument

  const MAX_VERSIONS := 5

  datatype Version = Version(number: nat, isDefault: bool, created: int, doc: Document)

  ghost predicate Distinct(vs: seq<Version>) {
    forall i, j :: 0 <= i < j < |vs| ==> vs[i].number != vs[j].number
  }

  /** The one version in force. */
  ghost predicate OneDefault(vs: seq<Version>, d: Version) {
    d in vs && d.isDefault && forall v <- vs :: v.isDefault ==> v == d
  }

  function Others(vs: seq<Version>): seq<Version> {
    if vs == [] then [] else (if vs[0].isDefault then [] else [vs[0]]) + Others(vs[1..])
  }

  function Placed(v: Version, vs: seq<Version>): seq<Version> {
    if vs == [] || v.created <= vs[0].created then [v] + vs else [vs[0]] + Placed(v, vs[1..])
  }

  function ByAge(vs: seq<Version>): seq<Version> {
    if vs == [] then [] else Placed(vs[0], ByAge(vs[1..]))
  }

  function Smaller(a: int, b: int): int {
    if a <= b then a else b
  }

  /** The versions to delete before one is added, oldest first, never the default. */
  function VersionsToPrune(vs: seq<Version>, max: int): seq<Version> {
    var aged, excess := ByAge(Others(vs)), |vs| - (max - 1);
    if excess > 0 then aged[..Smaller(excess, |aged|)] else []
  }

  lemma {:induction false} PlacedHolds(v: Version, vs: seq<Version>)
    ensures forall x :: x in Placed(v, vs) <==> x == v || x in vs
    ensures |Placed(v, vs)| == |vs| + 1
  {
    if vs != [] {
      PlacedHolds(v, vs[1..]);
      assert vs == [vs[0]] + vs[1..];
    }
  }

  lemma {:induction false} PlacedAged(v: Version, vs: seq<Version>)
    requires Aged(vs)
    ensures Aged(Placed(v, vs))
  {
    if vs != [] && vs[0].created < v.created {
      PlacedAged(v, vs[1..]);
      PlacedHolds(v, vs[1..]);
      AgedFront(vs[0], Placed(v, vs[1..]));
    }
  }

  lemma AgedFront(x: Version, vs: seq<Version>)
    requires Aged(vs) && forall v <- vs :: x.created <= v.created
    ensures Aged([x] + vs)
  {
  }

  lemma {:induction false} PlacedDistinct(v: Version, vs: seq<Version>)
    requires Distinct(vs) && forall x <- vs :: x.number != v.number
    ensures Distinct(Placed(v, vs))
  {
    if vs != [] && vs[0].created < v.created {
      PlacedDistinct(v, vs[1..]);
      PlacedHolds(v, vs[1..]);
      DistinctFront(vs[0], Placed(v, vs[1..]));
    }
  }

  lemma DistinctFront(x: Version, vs: seq<Version>)
    requires Distinct(vs) && forall v <- vs :: x.number != v.number
    ensures Distinct([x] + vs)
  {
  }

  ghost predicate Aged(vs: seq<Version>) {
    forall i, j :: 0 <= i < j < |vs| ==> vs[i].created <= vs[j].created
  }

  /** The same versions, oldest first. */
  lemma {:induction false} ByAgeMeaning(vs: seq<Version>)
    requires Distinct(vs)
    ensures Aged(ByAge(vs)) && Distinct(ByAge(vs)) && |ByAge(vs)| == |vs|
    ensures forall v :: v in ByAge(vs) <==> v in vs
  {
    if vs != [] {
      hide Placed, Aged;
      var rest := ByAge(vs[1..]);
      ByAgeMeaning(vs[1..]);
      PlacedHolds(vs[0], rest);
      PlacedAged(vs[0], rest);
      PlacedDistinct(vs[0], rest);
      assert vs == [vs[0]] + vs[1..];
    }
  }

  lemma {:induction false} OthersHold(vs: seq<Version>)
    ensures forall v :: v in Others(vs) <==> v in vs && !v.isDefault
    ensures (forall v <- vs :: !v.isDefault) ==> |Others(vs)| == |vs|
  {
    if vs != [] {
      OthersHold(vs[1..]);
      assert vs == [vs[0]] + vs[1..];
    }
  }

  lemma {:induction false} OthersDistinct(vs: seq<Version>)
    requires Distinct(vs)
    ensures Distinct(Others(vs))
  {
    if vs != [] {
      OthersDistinct(vs[1..]);
      OthersHold(vs[1..]);
      DistinctFront(vs[0], Others(vs[1..]));
    }
  }

  /** All versions but one are not in force. */
  lemma {:induction false} OthersMeaning(vs: seq<Version>, d: Version)
    requires Distinct(vs) && OneDefault(vs, d)
    ensures forall v :: v in Others(vs) <==> v in vs && !v.isDefault
    ensures Distinct(Others(vs)) && |Others(vs)| == |vs| - 1
  {
    var rest := vs[1..];
    assert vs == [vs[0]] + rest;
    OthersHold(vs);
    OthersDistinct(vs);
    if vs[0].isDefault {
      OthersHold(rest);
    } else {
      OthersMeaning(rest, d);
    }
  }

  /** Pruning takes just enough of the versions that are not in force, none younger than one it leaves. */
  lemma PruneMeaning(vs: seq<Version>, max: int, d: Version)
    requires Distinct(vs) && OneDefault(vs, d) && max >= 2
    ensures var gone := VersionsToPrune(vs, max);
      && (forall v <- gone :: v in vs && !v.isDefault)
      && Distinct(gone)
      && |vs| - |gone| == Smaller(|vs|, max - 1)
      && forall v, w :: v in gone && w in vs && !w.isDefault && w !in gone ==> v.created <= w.created
  {
    hide ByAge, Others;
    var others := Others(vs);
    var aged, gone := ByAge(others), VersionsToPrune(vs, max);
    OthersMeaning(vs, d);
    ByAgeMeaning(others);
    assert forall v <- gone :: v in aged;
    forall v, w | v in gone && w in vs && !w.isDefault && w !in gone
      ensures v.created <= w.created
    {
      assert w in aged;
      var i, j :| 0 <= i < |gone| && gone[i] == v && 0 <= j < |aged| && aged[j] == w;
      assert forall k :: 0 <= k < |gone| ==> aged[k] == gone[k] && gone[k] != w;
      assert aged[i] == v;
    }
  }

  function Remaining(vs: seq<Version>, gone: set<nat>): seq<Version> {
    if vs == [] then [] else (if vs[0].number in gone then [] else [vs[0]]) + Remaining(vs[1..], gone)
  }

  lemma {:induction false} RemainingMeaning(vs: seq<Version>, gone: set<nat>)
    requires Distinct(vs)
    ensures forall v :: v in Remaining(vs, gone) <==> v in vs && v.number !in gone
    ensures Distinct(Remaining(vs, gone))
  {
    if vs != [] {
      var rest := vs[1..];
      RemainingMeaning(rest, gone);
      assert vs == [vs[0]] + rest;
    }
  }

  lemma {:induction false} OneRemoved(vs: seq<Version>, v: Version)
    requires Distinct(vs) && v in vs
    ensures |Remaining(vs, {v.number})| == |vs| - 1
  {
    var rest := vs[1..];
    if vs[0] == v {
      NoneRemoved(rest, v.number);
    } else {
      assert vs == [vs[0]] + rest;
      OneRemoved(rest, v);
    }
  }

  lemma {:induction false} NoneRemoved(vs: seq<Version>, number: nat)
    requires forall v <- vs :: v.number != number
    ensures Remaining(vs, {number}) == vs
  {
    if vs != [] {
      assert vs[0] in vs;
      NoneRemoved(vs[1..], number);
    }
  }

  lemma {:induction false} RemainingTwice(vs: seq<Version>, gone: set<nat>, more: set<nat>)
    ensures Remaining(Remaining(vs, gone), more) == Remaining(vs, gone + more)
  {
    if vs != [] {
      RemainingTwice(vs[1..], gone, more);
      var rest := Remaining(vs[1..], gone);
      if vs[0].number !in gone {
        assert ([vs[0]] + rest)[1..] == rest;
      } else {
        assert [] + rest == rest;
      }
    }
  }

  lemma {:induction false} NothingGone(vs: seq<Version>)
    ensures Remaining(vs, {}) == vs
  {
    if vs != [] {
      NothingGone(vs[1..]);
    }
  }

  function Demoted(vs: seq<Version>): seq<Version> {
    seq(|vs|, i requires 0 <= i < |vs| => vs[i].(isDefault := false))
  }

  /** A new version, in force from now on. */
  function Added(vs: seq<Version>, number: nat, now: int, doc: Document): seq<Version> {
    Demoted(vs) + [Version(number, true, now, doc)]
  }

  lemma AddedMeaning(vs: seq<Version>, number: nat, now: int, doc: Document)
    requires Distinct(vs) && forall v <- vs :: v.number < number
    ensures var after := Added(vs, number, now, doc);
      && Distinct(after) && OneDefault(after, Version(number, true, now, doc))
      && (forall v <- after :: v.number <= number)
      && |after| == |vs| + 1
  {
    var after := Added(vs, number, now, doc);
    forall i | 0 <= i < |vs|
      ensures after[i] == vs[i].(isDefault := false) && after[i].number < number
    {
      assert vs[i] in vs;
    }
    assert after[|vs|] == Version(number, true, now, doc);
  }

  /** The versions kept stay, no longer in force. */
  lemma AddedKeeps(before: seq<Version>, kept: seq<Version>, number: nat, now: int, doc: Document)
    requires Distinct(before) && forall v <- kept :: v in before
    ensures forall v <- before :: v.(isDefault := false) in Added(kept, number, now, doc) <==> v in kept
  {
    var after := Added(kept, number, now, doc);
    forall v | v in before
      ensures v.(isDefault := false) in after <==> v in kept
    {
      if v in kept {
        var i :| 0 <= i < |kept| && kept[i] == v;
        assert after[i] == v.(isDefault := false);
      }
      if v.(isDefault := false) in after {
        var i :| 0 <= i < |after| && after[i] == v.(isDefault := false);
        assert i < |kept| && kept[i] in before && kept[i].number == v.number;
      }
    }
  }

  /** The document in force. */
  function Current(vs: seq<Version>): Option<Document> {
    if vs == [] then None else if vs[0].isDefault then Some(vs[0].doc) else Current(vs[1..])
  }

  lemma {:induction false} CurrentMeaning(vs: seq<Version>, d: Version)
    requires OneDefault(vs, d)
    ensures Current(vs) == Some(d.doc)
  {
    assert vs == [vs[0]] + vs[1..];
    if !vs[0].isDefault {
      CurrentMeaning(vs[1..], d);
    }
  }
}
