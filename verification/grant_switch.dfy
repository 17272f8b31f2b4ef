/** `setGrant` of `src/autopark_grant.ts`: one switch of Auto-park, as the calls it makes on the actuator role's grant
    policy. */
module GrantSwitch {
  import opened Options
  import opened Strings
  import opened GrantDocument
  import opened GrantRoundTrip
  import opened GrantSize
  import opened GrantPolicy
  import opened PolicyVersions
  import opened GrantDrift
  import opened GrantHistory

  /** The grant policy of one actuator role, and what IAM does with it. Each IAM call asks for what AWS asks for: room
      for a version, a version that is not in force, a policy that is detached and has no other version. */
  class ActuatorPolicy {
    const account: string
    /** Empty while the policy does not exist. */
    var versions: seq<Version>
    var attached: bool
    var issued: nat
    /** What the document in force says is granted. */
    ghost var grants: Grants
    /** What it was printed for. */
    ghost var printed: Grants

    ghost predicate Numbered()
      reads this
    {
      Distinct(versions) && forall v <- versions :: v.number < issued
    }

    /** The policy exists, attached, exactly while something is granted; the version in force was printed for some
        grants, says them reprinted, and fits. */
    ghost predicate Valid()
      reads this
    {
      && PrintedFor(account, Current(versions), printed)
      && grants == Reread(printed)
      && Numbered()
      && |versions| <= 5
      && attached == (versions != [])
      && (versions != [] ==> exists d :: OneDefault(versions, d))
    }

    constructor (account: string)
      requires Account(account)
      ensures Valid() && grants == map[] && versions == [] && !attached && this.account == account
    {
      this.account, versions, attached, issued := account, [], false, 0;
      this.grants, this.printed := map[], map[];
      new;
      hide Account, PrintedFor;
      NothingPrinted(account);
    }

    // the IAM calls

    method AttachRolePolicy()
      requires versions != []
      modifies this`attached
      ensures attached
    {
      attached := true;
    }

    method DetachRolePolicy()
      modifies this`attached
      ensures !attached
    {
      attached := false;
    }

    method CreatePolicy(doc: Document, now: int)
      requires versions == []
      modifies this`versions, this`issued
      ensures versions == Added([], old(issued), now, doc) && issued == old(issued) + 1
    {
      versions := Added([], issued, now, doc);
      issued := issued + 1;
    }

    method CreatePolicyVersion(doc: Document, now: int)
      requires 0 < |versions| < 5
      modifies this`versions, this`issued
      ensures versions == Added(old(versions), old(issued), now, doc) && issued == old(issued) + 1
    {
      versions := Added(versions, issued, now, doc);
      issued := issued + 1;
    }

    method DeletePolicyVersion(v: Version)
      requires v in versions && !v.isDefault
      modifies this`versions
      ensures versions == Remaining(old(versions), {v.number})
    {
      versions := Remaining(versions, {v.number});
    }

    method DeletePolicy()
      requires |versions| == 1 && !attached
      modifies this`versions
      ensures versions == []
    {
      versions := [];
    }

    // the steps of one switch

    /** Deletes versions that are not in force. */
    method DeleteAll(gone: seq<Version>, ghost d: Version)
      requires Numbered() && OneDefault(versions, d) && Distinct(gone)
      requires forall v <- gone :: v in versions && !v.isDefault
      modifies this`versions
      ensures Numbered() && OneDefault(versions, d) && |versions| == |old(versions)| - |gone|
      ensures forall v :: v in versions <==> v in old(versions) && v !in gone
    {
      for k := 0 to |gone|
        invariant Numbered() && OneDefault(versions, d) && |versions| == |old(versions)| - k
        invariant forall v :: v in versions <==> v in old(versions) && v !in gone[..k]
      {
        var v := gone[k];
        assert v in gone;
        assert v !in gone[..k];
        OneRemoved(versions, v);
        RemainingMeaning(versions, {v.number});
        DeletePolicyVersion(v);
        assert gone[..k + 1] == gone[..k] + [v];
      }
      assert gone[..|gone|] == gone;
    }

    /** Makes the document the version in force, in a new policy or in a new version of it. */
    method Publish(doc: Document, now: int)
      requires Numbered() && |versions| <= 5 && (versions != [] ==> exists d :: OneDefault(versions, d))
      modifies this`versions, this`issued, this`attached
      ensures Numbered() && attached
      ensures |versions| == Smaller(|old(versions)|, MAX_VERSIONS - 1) + 1
      ensures OneDefault(versions, Version(old(issued), true, now, doc))
      ensures forall v <- old(versions) ::
        v.(isDefault := false) in versions <==> v !in VersionsToPrune(old(versions), MAX_VERSIONS)
    {
      if versions == [] {
        AddedMeaning(versions, issued, now, doc);
        CreatePolicy(doc, now);
      } else {
        ghost var d :| OneDefault(versions, d);
        ghost var before := versions;
        PruneMeaning(versions, MAX_VERSIONS, d);
        DeleteAll(VersionsToPrune(versions, MAX_VERSIONS), d);
        AddedMeaning(versions, issued, now, doc);
        AddedKeeps(before, versions, issued, now, doc);
        CreatePolicyVersion(doc, now);
      }
      AttachRolePolicy();
    }

    /** Detaches the policy and deletes it with all its versions. */
    method Withdraw()
      requires Numbered() && exists d :: OneDefault(versions, d)
      modifies this`versions, this`attached
      ensures versions == [] && !attached
    {
      DetachRolePolicy();
      ghost var d :| OneDefault(versions, d);
      OthersMeaning(versions, d);
      DeleteAll(Others(versions), d);
      DeletePolicy();
    }

    /** What is granted is what the policy's document says; the policy exists exactly while something is. */
    lemma WhatIsRead()
      requires Valid()
      ensures Says(account, Current(versions), grants) && HasInstances(account, grants)
      ensures Current(versions).Some? <==> versions != []
    {
      hide Says, HasInstances, PolicyDocument, Fits, Reread;
      PrintedSays(account, printed);
      if versions != [] {
        var d :| OneDefault(versions, d);
        CurrentMeaning(versions, d);
      }
    }

    /** What the version in force allows is what is granted. */
    lemma WhatIsAllowed()
      requires Valid()
      ensures versions != [] ==>
        && Current(versions).Some? && Current(versions).value != []
        && DocumentLength(Current(versions).value) <= 6016
        && StartsAndStops(account, grants.Keys, Current(versions).value[0])
        && Allows(account, Current(versions).value, printed)
    {
      hide *;
      WhatIsRead();
      if versions != [] {
        PrintedNow();
        FitsIff(Current(versions));
        RereadKeys(printed);
        AllowsPrinted(account, Current(versions).value, printed);
      }
    }

    lemma PrintedNow()
      requires Valid()
      ensures PrintedFor(account, Current(versions), printed) && grants == Reread(printed)
      ensures Fits(Current(versions))
    {
      hide HasInstances, PolicyDocument, Fits, Reread, Current;
    }

    /** Adds or removes one instance of the role's account. Unless the document would not fit, it becomes one that is
        printed for what the call asks for, and what is granted is what that document says. For DNS grants that last,
        this is exactly what was asked for. */
    method SetGrant(c: Call, now: int) returns (ok: bool)
      requires Valid() && InAccount(account, c)
      modifies this
      ensures Valid()
      ensures ok <==> AcceptedAny(account, old(grants), c)
      ensures Current(versions) == Switched(old(Current(versions)), c)
      ensures grants == NextRead(account, old(grants), c) && Says(account, Current(versions), grants)
      ensures !Writes(account, old(grants), c) ==> versions == old(versions) && attached == old(attached)
      ensures !ok ==>
        && c.on && versions == old(versions)
        && PolicyDocument(account, Wanted(grants, c)).Some?
        && DocumentLength(PolicyDocument(account, Wanted(grants, c)).value) > 6016
      ensures versions != [] ==>
        && Current(versions).Some? && Current(versions).value != []
        && DocumentLength(Current(versions).value) <= 6016
        && StartsAndStops(account, grants.Keys, Current(versions).value[0])
        && Allows(account, Current(versions).value, printed)
      ensures WellFormed(account, old(grants)) && Callable(account, c) ==>
        && WellFormed(account, grants)
        && grants == Step(account, old(grants), c)
        && (ok <==> Accepted(account, old(grants), c))
        && (grants == old(grants) ==> versions == old(versions) && attached == old(attached))
    {
      hide HasInstances, WellFormed, Callable, InAccount, Sorted, DocumentOf, GrantedArnsOf, DnsRead, WithArn, WithDns,
           Arns, Dns, Listed, Arn, PolicySize, PolicyDocument, NormalDns, Wanted, Reread, LastSegment, Switched, Says,
           PrintedFor, Step, Accepted, Allows, StartsAndStops, Fits, DocumentLength, DocumentJson;
      WhatIsRead();
      FitsIff(PolicyDocument(account, Wanted(grants, c)));
      SwitchFacts(account, Current(versions), grants, printed, c);
      var existing := Current(versions);
      var arns := if existing.Some? then GrantedArnsOf(existing.value) else [];
      var dns: DnsGrants := map[];
      if existing.Some? {
        dns := DnsGrantsOf(existing.value);
      }
      var id := LastSegment(Arn(c.instance), '/');
      var after := WithArn(arns, Arn(c.instance), c.on);
      var dnsAfter := WithDns(dns, id, if c.on then c.dns else None);
      if after == arns && dnsAfter == dns && (existing.Some? || !c.on) {
        if c.on && after != [] {
          AttachRolePolicy();
        }
        WhatIsAllowed();
        return true;
      }
      var doc := RenderDocument(after, dnsAfter);
      if doc.None? {
        Withdraw();
      } else {
        if c.on && !Fits(doc) {
          WhatIsAllowed();
          return false;
        }
        Publish(doc.value, now);
        CurrentMeaning(versions, Version(old(issued), true, now, doc.value));
      }
      printed := Wanted(grants, c);
      grants := Reread(printed);
      WhatIsAllowed();
      ok := true;
    }
  }

  /** What one call of setGrant does to the document in force, in terms of what the call asks for. */
  lemma SwitchFacts(account: string, doc: Option<Document>, g: Grants, w: Grants, c: Call)
    requires Says(account, doc, g) && HasInstances(account, g) && g == Reread(w) && PrintedFor(account, doc, w)
    requires InAccount(account, c)
    ensures var id := LastSegment(Arn(c.instance), '/');
      var after := WithArn(ArnsIn(doc), Arn(c.instance), c.on);
      var dnsAfter := WithDns(DnsIn(doc), id, if c.on then c.dns else None);
      && (after == ArnsIn(doc) && dnsAfter == DnsIn(doc) <==> Wanted(g, c) == g)
      && DocumentOf(after, dnsAfter) == PolicyDocument(account, Wanted(g, c))
    ensures PolicyDocument(account, Wanted(g, c)).None? <==> Wanted(g, c) == map[]
    ensures c.on && doc.None? ==> Wanted(g, c) != g
    ensures c.on ==> Wanted(g, c) != map[]
    ensures PrintedFor(account, Switched(doc, c), if Writes(account, g, c) then Wanted(g, c) else w)
    ensures Switched(doc, c) == if Writes(account, g, c) then PolicyDocument(account, Wanted(g, c)) else doc
    ensures Says(account, Switched(doc, c), NextRead(account, g, c))
    ensures doc.None? <==> g == map[]
    ensures WellFormed(account, g) && Callable(account, c) ==>
      && WellFormed(account, NextRead(account, g, c))
      && NextRead(account, g, c) == Step(account, g, c)
      && (AcceptedAny(account, g, c) <==> Accepted(account, g, c))
      && (Writes(account, g, c) <==> NextRead(account, g, c) != g)
  {
    hide HasInstances, PrintedFor, Switched, NextRead, Writes, Accepted, AcceptedAny, Step, WithArn, WithDns,
         WellFormed, Callable, InAccount, Wanted, Reread, DocumentOf, PolicyDocument, LastSegment, Arn;
    SwitchReads(account, doc, g, c);
    ComputesWanted(account, doc, g, c);
    SwitchFits(account, doc, w, c);
    if WellFormed(account, g) && Callable(account, c) {
      LastingCall(account, g, c);
    }
  }
}
