/**
 What the evaluator's loop amounts to: a declarative reading of Allow and Deny,
 the company every denial keeps, and the exact effect of an age exception.
 */
module Eligibility {
  import opened Domain
  import opened PolicyGraph
  import opened Evaluation

  // ---- The declarative reading ----

  /** One item establishes the claim at this time, up to its age when that is waived. */
  predicate Establishes(e: Evidence, claim: Byte, policy: Policy, now: int, ageWaived: bool) {
    && e.Valid() && e.claim == claim && e.observedAt <= now < e.expiresAt && e.status == VERIFIED
    && (claim == VULNERABILITIES ==> e.applicability == NO_KNOWN_APPLICABLE_FINDINGS)
    && (claim == PUBLICATION ==>
          && e.publication == VERIFIED_ATTESTATION && 0 < e.publishedAt <= e.observedAt
          && (ageWaived || now - e.publishedAt >= policy.minimumAgeSeconds))
  }

  /** The item at position i is the only one making its claim. */
  predicate OnlyOne(es: seq<Evidence>, i: nat)
    requires i < |es|
  {
    forall j :: 0 <= j < |es| && j != i ==> es[j].claim != es[i].claim
  }

  predicate ClaimEstablished(n: Node, claim: Byte, policy: Policy, now: int, ageWaived: bool) {
    exists i ::
      0 <= i < |n.evidence| && OnlyOne(n.evidence, i) && Establishes(n.evidence[i], claim, policy, now, ageWaived)
  }

  predicate NodeEligible(n: Node, policy: Policy, now: int, waivers: set<Artifact>) {
    && (forall e <- n.evidence :: e.subject == n.artifact && METADATA <= e.claim <= VULNERABILITIES)
    && forall c: Byte :: METADATA <= c <= VULNERABILITIES ==> ClaimEstablished(n, c, policy, now, n.artifact in waivers)
  }

  predicate ExceptionAcceptable(a: Assessment) {
    a.exception.Some? ==>
      var x := a.exception.value;
      && x.binding == a.binding && 0 < x.issuedAt <= a.now < x.expiresAt && |x.waivers| > 0
      && SoundWaivers(a.nodes, x.waivers) && DistinctWaivers(x.waivers)
  }

  ghost predicate Admissible(a: Assessment) {
    && a.policy.valid && a.now > 0 && a.binding.Valid()
    && WellFormedGraph(a.targets, a.nodes)
    && ExceptionAcceptable(a)
  }

  ghost predicate Eligible(a: Assessment) {
    && Admissible(a)
    && forall n <- a.nodes :: NodeEligible(n, a.policy, a.now, WaiversOf(a))
  }

  /** The item is of this artifact, and either fails an integrity claim or verifiedly finds the artifact affected. */
  predicate Damning(a: Artifact, e: Evidence, now: int) {
    e.subject == a
    && ((e.status == FAILED && e.claim in {METADATA, CHECKSUM, PROVENANCE})
        || (e.claim == VULNERABILITIES && e.status == VERIFIED && e.applicability == AFFECTED
            && e.Valid() && e.observedAt <= now))
  }

  predicate Condemned(nodes: seq<Node>, now: int) {
    exists n <- nodes :: exists e <- n.evidence :: Damning(n.artifact, e, now)
  }

  // ---- From lists of findings to their meaning ----

  lemma {:induction false} AddAllOutcome(fs: seq<Finding>)
    ensures AddAll(Decision(Allow, [], []), fs).outcome.Deny? <==> exists f <- fs :: f.outcome.Deny?
    ensures AddAll(Decision(Allow, [], []), fs).outcome.Allow? <==> forall f <- fs :: f.outcome.Allow?
  {
    if fs != [] {
      var init, last := fs[..|fs| - 1], fs[|fs| - 1];
      AddAllOutcome(init);
      assert fs == init + [last];
    }
  }

  lemma {:induction false} AddAllReasons(fs: seq<Finding>, r: Reason)
    ensures r in AddAll(Decision(Allow, [], []), fs).reasons <==> exists f <- fs :: f.reason == r
  {
    if fs != [] {
      var init, last := fs[..|fs| - 1], fs[|fs| - 1];
      AddAllReasons(init, r);
      assert fs == init + [last];
    }
  }

  lemma {:induction false} EvidenceMembership(a: Artifact, es: seq<Evidence>, now: int, f: Finding)
    ensures f in AllEvidenceFindings(a, es, now) <==> exists e <- es :: f in EvidenceFindings(a, e, now)
  {
    if es != [] {
      var init, last := es[..|es| - 1], es[|es| - 1];
      EvidenceMembership(a, init, now, f);
      assert es == init + [last];
    }
  }

  lemma {:induction false} ClaimsMembership(
    n: Node, limit: Byte, policy: Policy, now: int, waivers: set<Artifact>, f: Finding)
    ensures f in ClaimsFindings(n, limit, policy, now, waivers)
       <==> exists c: Byte :: METADATA <= c < limit && f in ClaimFindings(n, c, policy, now, waivers)
    decreases limit
  {
    if limit > METADATA {
      ClaimsMembership(n, limit - 1, policy, now, waivers, f);
    }
  }

  lemma {:induction false} NodesMembership(
    nodes: seq<Node>, policy: Policy, now: int, waivers: set<Artifact>, f: Finding)
    ensures f in AllFindings(nodes, policy, now, waivers)
       <==> exists n <- nodes :: f in NodeFindings(n, policy, now, waivers)
  {
    if nodes != [] {
      var init, last := nodes[..|nodes| - 1], nodes[|nodes| - 1];
      NodesMembership(init, policy, now, waivers, f);
      assert nodes == init + [last];
    }
  }

  /** The items kept for a claim are the well-subjected ones that make it. */
  lemma {:induction false} ItemsMembership(a: Artifact, es: seq<Evidence>, claim: Byte, e: Evidence)
    ensures e in ItemsFor(a, es, claim) <==> e in es && WellSubjected(a, e) && e.claim == claim
  {
    if es != [] {
      var init, last := es[..|es| - 1], es[|es| - 1];
      ItemsMembership(a, init, claim, e);
      assert es == init + [last];
    }
  }

  lemma ItemsEmpty(a: Artifact, es: seq<Evidence>, claim: Byte)
    requires forall e <- es :: e.claim != claim
    ensures ItemsFor(a, es, claim) == []
  {
    if ItemsFor(a, es, claim) != [] {
      ItemsMembership(a, es, claim, ItemsFor(a, es, claim)[0]);
    }
  }

  /** A claim has exactly one item exactly when one position alone makes it. */
  lemma ItemsSole(a: Artifact, es: seq<Evidence>, claim: Byte, i: nat)
    requires (forall e <- es :: WellSubjected(a, e)) && i < |es| && es[i].claim == claim && OnlyOne(es, i)
    ensures ItemsFor(a, es, claim) == [es[i]]
  {
    assert es == es[..i] + ([es[i]] + es[i + 1..]);
    ItemsConcat(a, es[..i], [es[i]] + es[i + 1..], claim);
    ItemsConcat(a, [es[i]], es[i + 1..], claim);
    ItemsEmpty(a, es[..i], claim);
    ItemsEmpty(a, es[i + 1..], claim);
    assert [es[i]][..0] == [];
  }

  lemma {:induction false} ItemsConcat(a: Artifact, xs: seq<Evidence>, ys: seq<Evidence>, claim: Byte)
    ensures ItemsFor(a, xs + ys, claim) == ItemsFor(a, xs, claim) + ItemsFor(a, ys, claim)
  {
    if ys == [] {
      assert xs + ys == xs;
    } else {
      assert (xs + ys)[..|xs + ys| - 1] == xs + ys[..|ys| - 1];
      ItemsConcat(a, xs, ys[..|ys| - 1], claim);
    }
  }

  lemma ItemsSoleConverse(a: Artifact, es: seq<Evidence>, claim: Byte) returns (i: nat)
    requires (forall e <- es :: WellSubjected(a, e)) && |ItemsFor(a, es, claim)| == 1
    ensures i < |es| && es[i].claim == claim && OnlyOne(es, i)
  {
    var e := ItemsFor(a, es, claim)[0];
    ItemsMembership(a, es, claim, e);
    i :| 0 <= i < |es| && es[i] == e;
    assert es == es[..i] + ([es[i]] + es[i + 1..]);
    ItemsConcat(a, es[..i], [es[i]] + es[i + 1..], claim);
    ItemsConcat(a, [es[i]], es[i + 1..], claim);
    assert [es[i]][..0] == [];
    forall j | 0 <= j < |es| && j != i
      ensures es[j].claim != claim
    {
      ItemsMembership(a, if j < i then es[..i] else es[i + 1..], claim, es[j]);
      assert j < i ==> es[..i][j] == es[j];
      assert j > i ==> es[i + 1..][j - i - 1] == es[j];
    }
  }

  /** Reading a claim off the list agrees with its declarative meaning. */
  lemma ClaimVerdict(n: Node, c: Byte, policy: Policy, now: int, waivers: set<Artifact>)
    requires (forall e <- n.evidence :: WellSubjected(n.artifact, e)) && METADATA <= c <= VULNERABILITIES
    ensures ClaimFindings(n, c, policy, now, waivers) == [] <==>
      ClaimEstablished(n, c, policy, now, n.artifact in waivers)
  {
    var items := ItemsFor(n.artifact, n.evidence, c);
    if |items| == 1 {
      var i := ItemsSoleConverse(n.artifact, n.evidence, c);
      ItemsSole(n.artifact, n.evidence, c, i);
      forall j | 0 <= j < |n.evidence| && OnlyOne(n.evidence, j) && n.evidence[j].claim == c
        ensures j == i
      {
      }
    } else {
      forall i | 0 <= i < |n.evidence| && OnlyOne(n.evidence, i)
        ensures !Establishes(n.evidence[i], c, policy, now, n.artifact in waivers)
      {
        if n.evidence[i].claim == c {
          ItemsSole(n.artifact, n.evidence, c, i);
        }
      }
    }
  }

  /** A node adds no finding exactly when it is eligible. */
  lemma NodeVerdict(n: Node, policy: Policy, now: int, waivers: set<Artifact>)
    ensures NodeFindings(n, policy, now, waivers) == [] <==> NodeEligible(n, policy, now, waivers)
  {
    if NodeEligible(n, policy, now, waivers) {
      if NodeFindings(n, policy, now, waivers) != [] {
        EligibleNodeIsSilent(n, policy, now, waivers, NodeFindings(n, policy, now, waivers)[0]);
        assert false;
      }
    } else if e :| e in n.evidence && !WellSubjected(n.artifact, e) {
      var f := EvidenceFindings(n.artifact, e, now)[0];
      EvidenceMembership(n.artifact, n.evidence, now, f);
    } else {
      var c: Byte :| METADATA <= c <= VULNERABILITIES && !ClaimEstablished(n, c, policy, now, n.artifact in waivers);
      ClaimVerdict(n, c, policy, now, waivers);
      ClaimsMembership(n, VULNERABILITIES + 1, policy, now, waivers, ClaimFindings(n, c, policy, now, waivers)[0]);
    }
  }

  lemma EligibleNodeIsSilent(n: Node, policy: Policy, now: int, waivers: set<Artifact>, f: Finding)
    requires NodeEligible(n, policy, now, waivers)
    ensures f !in NodeFindings(n, policy, now, waivers)
  {
    EvidenceMembership(n.artifact, n.evidence, now, f);
    ClaimsMembership(n, VULNERABILITIES + 1, policy, now, waivers, f);
    if f in AllEvidenceFindings(n.artifact, n.evidence, now) {
      var e :| e in n.evidence && f in EvidenceFindings(n.artifact, e, now);
      EligibleEvidenceIsSilent(n, policy, now, waivers, e);
      assert false;
    }
    if f in ClaimsFindings(n, VULNERABILITIES + 1, policy, now, waivers) {
      var c: Byte :| METADATA <= c < VULNERABILITIES + 1 && f in ClaimFindings(n, c, policy, now, waivers);
      ClaimVerdict(n, c, policy, now, waivers);
      assert false;
    }
  }

  lemma EligibleEvidenceIsSilent(n: Node, policy: Policy, now: int, waivers: set<Artifact>, e: Evidence)
    requires NodeEligible(n, policy, now, waivers) && e in n.evidence
    ensures EvidenceFindings(n.artifact, e, now) == []
  {
    var k :| 0 <= k < |n.evidence| && n.evidence[k] == e;
    assert ClaimEstablished(n, e.claim, policy, now, n.artifact in waivers);
    var i :| 0 <= i < |n.evidence| && OnlyOne(n.evidence, i)
             && Establishes(n.evidence[i], e.claim, policy, now, n.artifact in waivers);
    assert i == k;
  }

  // ---- The exception ----

  predicate SoundWaivers(nodes: seq<Node>, ws: seq<AgeWaiver>) {
    forall w <- ws :: ValidAgeReason(w.reason) && exists n <- nodes :: n.artifact == w.artifact
  }

  predicate DistinctWaivers(ws: seq<AgeWaiver>) {
    forall i, j :: 0 <= i < j < |ws| ==> ws[i].artifact != ws[j].artifact
  }

  lemma DistinctWaiversStep(init: seq<AgeWaiver>, last: AgeWaiver)
    ensures DistinctWaivers(init + [last]) <==> DistinctWaivers(init) && last.artifact !in WaiverArtifacts(init)
  {
    var ws := init + [last];
    if DistinctWaivers(ws) {
      forall i, j | 0 <= i < j < |init|
        ensures init[i].artifact != init[j].artifact
      {
        assert ws[i].artifact != ws[j].artifact;
      }
      forall w | w in init
        ensures w.artifact != last.artifact
      {
        var i :| 0 <= i < |init| && init[i] == w;
        assert ws[i].artifact != ws[|init|].artifact;
      }
    }
  }

  lemma SoundWaiversStep(nodes: seq<Node>, init: seq<AgeWaiver>, last: AgeWaiver)
    ensures SoundWaivers(nodes, init + [last])
       <==> SoundWaivers(nodes, init) && ValidAgeReason(last.reason) && InPlan(nodes, last.artifact)
  {
    assert last in init + [last];
    assert forall w <- init :: w in init + [last];
  }

  lemma {:induction false} WaiverFaultMeaning(nodes: seq<Node>, ws: seq<AgeWaiver>)
    ensures WaiverFault(nodes, ws).None? <==> SoundWaivers(nodes, ws) && DistinctWaivers(ws)
  {
    if ws != [] {
      var init, last := ws[..|ws| - 1], ws[|ws| - 1];
      WaiverFaultMeaning(nodes, init);
      DistinctWaiversStep(init, last);
      SoundWaiversStep(nodes, init, last);
      assert ws == init + [last];
    }
  }

  lemma AdmissibleOrRefused(a: Assessment)
    ensures Admissible(a) ==> Decide(a) == NodesDecision(a)
    ensures !Admissible(a) ==> Decide(a).outcome.Hold? && |Decide(a).reasons| == 1 && Decide(a).waived == []
    ensures !Admissible(a) ==> forall r <- Decide(a).reasons :: !Denies(r.code)
  {
    if a.exception.Some? {
      WaiverFaultMeaning(a.nodes, a.exception.value.waivers);
    }
  }

  // ---- Main results ----

  /** Allow is exactly eligibility; Deny exactly an admissible plan with damning evidence. */
  lemma OutcomeMeaning(a: Assessment)
    ensures Decide(a).outcome.Allow? <==> Eligible(a)
    ensures Decide(a).outcome.Deny? <==> Admissible(a) && exists n <- a.nodes :: exists e <- n.evidence ::
      e.subject == n.artifact
      && ((e.status == FAILED && (e.claim == METADATA || e.claim == CHECKSUM || e.claim == PROVENANCE))
          || (e.claim == VULNERABILITIES && e.status == VERIFIED && e.applicability == AFFECTED
              && e.Valid() && e.observedAt <= a.now))
  {
    AdmissibleOrRefused(a);
    CondemnedMeans(a.nodes, a.now);
    if Admissible(a) {
      AddAllOutcome(AllFindings(a.nodes, a.policy, a.now, WaiversOf(a)));
      AllowMeaning(a);
      DenyMeaning(a);
    }
  }

  lemma CondemnedMeans(nodes: seq<Node>, now: int)
    ensures Condemned(nodes, now) <==> exists n <- nodes :: exists e <- n.evidence ::
      e.subject == n.artifact
      && ((e.status == FAILED && (e.claim == METADATA || e.claim == CHECKSUM || e.claim == PROVENANCE))
          || (e.claim == VULNERABILITIES && e.status == VERIFIED && e.applicability == AFFECTED
              && e.Valid() && e.observedAt <= now))
  {
    forall n, e | n in nodes && e in n.evidence && e.subject == n.artifact && Damning(n.artifact, e, now)
      ensures Condemned(nodes, now)
    {
    }
    if Condemned(nodes, now) {
      var n :| n in nodes && exists e <- n.evidence :: Damning(n.artifact, e, now);
      var e :| e in n.evidence && Damning(n.artifact, e, now);
      assert n in nodes && e in n.evidence && e.subject == n.artifact;
    }
  }

  ghost function DeclaredOutcome(a: Assessment): Outcome {
    if Eligible(a) then Allow else if Admissible(a) && Condemned(a.nodes, a.now) then Deny else Hold
  }

  lemma OutcomeIsDeclared(a: Assessment)
    ensures Decide(a).outcome == DeclaredOutcome(a)
  {
    OutcomeMeaning(a);
  }

  lemma FindingsAreNotAllow(a: Assessment, f: Finding)
    requires f in AllFindings(a.nodes, a.policy, a.now, WaiversOf(a))
    ensures !f.outcome.Allow?
  {
    NodesMembership(a.nodes, a.policy, a.now, WaiversOf(a), f);
    var n :| n in a.nodes && f in NodeFindings(n, a.policy, a.now, WaiversOf(a));
    EvidenceMembership(n.artifact, n.evidence, a.now, f);
    ClaimsMembership(n, VULNERABILITIES + 1, a.policy, a.now, WaiversOf(a), f);
  }

  lemma AllowMeaning(a: Assessment)
    ensures (forall f <- AllFindings(a.nodes, a.policy, a.now, WaiversOf(a)) :: f.outcome.Allow?)
       <==> forall n <- a.nodes :: NodeEligible(n, a.policy, a.now, WaiversOf(a))
  {
    var fs := AllFindings(a.nodes, a.policy, a.now, WaiversOf(a));
    forall n | n in a.nodes
      ensures NodeEligible(n, a.policy, a.now, WaiversOf(a)) || exists f <- fs :: !f.outcome.Allow?
    {
      NodeVerdict(n, a.policy, a.now, WaiversOf(a));
      if NodeFindings(n, a.policy, a.now, WaiversOf(a)) != [] {
        var f := NodeFindings(n, a.policy, a.now, WaiversOf(a))[0];
        NodesMembership(a.nodes, a.policy, a.now, WaiversOf(a), f);
        FindingsAreNotAllow(a, f);
      }
    }
    if fs != [] {
      NodesMembership(a.nodes, a.policy, a.now, WaiversOf(a), fs[0]);
      FindingsAreNotAllow(a, fs[0]);
      var n :| n in a.nodes && fs[0] in NodeFindings(n, a.policy, a.now, WaiversOf(a));
      NodeVerdict(n, a.policy, a.now, WaiversOf(a));
    }
  }

  lemma DenyMeaning(a: Assessment)
    ensures (exists f <- AllFindings(a.nodes, a.policy, a.now, WaiversOf(a)) :: f.outcome.Deny?)
       <==> Condemned(a.nodes, a.now)
  {
    var fs := AllFindings(a.nodes, a.policy, a.now, WaiversOf(a));
    if f :| f in fs && f.outcome.Deny? {
      var n, e := DenialOrigin(a, f);
    }
    if Condemned(a.nodes, a.now) {
      var n :| n in a.nodes && exists e <- n.evidence :: Damning(n.artifact, e, a.now);
      var e :| e in n.evidence && Damning(n.artifact, e, a.now);
      var f := EvidenceFindings(n.artifact, e, a.now)[0];
      EvidenceMembership(n.artifact, n.evidence, a.now, f);
      NodesMembership(a.nodes, a.policy, a.now, WaiversOf(a), f);
    }
  }

  /** A denial comes from one damning item of the artifact it names. */
  lemma DenialOrigin(a: Assessment, f: Finding) returns (n: Node, e: Evidence)
    requires f in AllFindings(a.nodes, a.policy, a.now, WaiversOf(a)) && f.outcome.Deny?
    ensures n in a.nodes && e in n.evidence && Damning(n.artifact, e, a.now)
    ensures f.reason.artifact == n.artifact && f.reason.claim == e.claim
  {
    NodesMembership(a.nodes, a.policy, a.now, WaiversOf(a), f);
    n :| n in a.nodes && f in NodeFindings(n, a.policy, a.now, WaiversOf(a));
    if f in ClaimsFindings(n, VULNERABILITIES + 1, a.policy, a.now, WaiversOf(a)) {
      ClaimsOnlyHold(n, a.policy, a.now, WaiversOf(a), f);
      assert false;
    }
    EvidenceMembership(n.artifact, n.evidence, a.now, f);
    e :| e in n.evidence && f in EvidenceFindings(n.artifact, e, a.now);
    DenialIsDamning(n.artifact, e, a.now, f);
  }

  lemma ClaimsOnlyHold(n: Node, policy: Policy, now: int, waivers: set<Artifact>, f: Finding)
    requires f in ClaimsFindings(n, VULNERABILITIES + 1, policy, now, waivers)
    ensures f.outcome.Hold?
  {
    ClaimsMembership(n, VULNERABILITIES + 1, policy, now, waivers, f);
  }

  lemma DenialIsDamning(a: Artifact, e: Evidence, now: int, f: Finding)
    requires f in EvidenceFindings(a, e, now) && f.outcome.Deny?
    ensures Damning(a, e, now) && f.reason.artifact == a && f.reason.claim == e.claim
  {
  }

  predicate Denies(code: Code) {
    code == IntegrityVerificationFailed || code == KnownApplicableVulnerability
  }

  /** No denial stands alone: the same artifact and claim also carry a reason to hold. */
  lemma DenialsAreAlsoHeld(a: Assessment, r: Reason)
    requires r in Decide(a).reasons && Denies(r.code)
    ensures exists h <- Decide(a).reasons :: !Denies(h.code) && h.artifact == r.artifact && h.claim == r.claim
  {
    AdmissibleOrRefused(a);
    var fs := AllFindings(a.nodes, a.policy, a.now, WaiversOf(a));
    AddAllReasons(fs, r);
    var f :| f in fs && f.reason == r;
    FindingKind(a, f);
    var n, e := DenialOrigin(a, f);
    var h := HeldBeside(a, n, e);
    AddAllReasons(fs, h.reason);
    assert h.reason in Decide(a).reasons;
  }

  lemma HeldBeside(a: Assessment, n: Node, e: Evidence) returns (h: Finding)
    requires n in a.nodes && e in n.evidence && Damning(n.artifact, e, a.now)
    ensures h in AllFindings(a.nodes, a.policy, a.now, WaiversOf(a))
    ensures !Denies(h.reason.code) && h.reason.artifact == n.artifact && h.reason.claim == e.claim
  {
    DamningClaimIsHeld(n, e, a.policy, a.now, WaiversOf(a));
    h := ClaimFindings(n, e.claim, a.policy, a.now, WaiversOf(a))[0];
    HoldingKind(n, e.claim, a.policy, a.now, WaiversOf(a), h);
    ClaimsMembership(n, VULNERABILITIES + 1, a.policy, a.now, WaiversOf(a), h);
    NodesMembership(a.nodes, a.policy, a.now, WaiversOf(a), h);
  }

  lemma EvidenceKind(a: Artifact, e: Evidence, now: int, f: Finding)
    requires f in EvidenceFindings(a, e, now)
    ensures f.outcome.Deny? <==> Denies(f.reason.code)
  {
  }

  lemma FindingKind(a: Assessment, f: Finding)
    requires f in AllFindings(a.nodes, a.policy, a.now, WaiversOf(a))
    ensures f.outcome.Deny? <==> Denies(f.reason.code)
  {
    NodesMembership(a.nodes, a.policy, a.now, WaiversOf(a), f);
    var n :| n in a.nodes && f in NodeFindings(n, a.policy, a.now, WaiversOf(a));
    EvidenceMembership(n.artifact, n.evidence, a.now, f);
    if f in AllEvidenceFindings(n.artifact, n.evidence, a.now) {
      var e :| e in n.evidence && f in EvidenceFindings(n.artifact, e, a.now);
      EvidenceKind(n.artifact, e, a.now, f);
    } else {
      ClaimsMembership(n, VULNERABILITIES + 1, a.policy, a.now, WaiversOf(a), f);
      var c: Byte :| METADATA <= c < VULNERABILITIES + 1 && f in ClaimFindings(n, c, a.policy, a.now, WaiversOf(a));
      HoldingKind(n, c, a.policy, a.now, WaiversOf(a), f);
    }
  }

  lemma HoldingKind(n: Node, c: Byte, policy: Policy, now: int, waivers: set<Artifact>, f: Finding)
    requires f in ClaimFindings(n, c, policy, now, waivers)
    ensures f.outcome.Hold? && !Denies(f.reason.code) && f.reason.artifact == n.artifact && f.reason.claim == c
  {
  }

  lemma DamningClaimIsHeld(n: Node, e: Evidence, policy: Policy, now: int, waivers: set<Artifact>)
    requires e in n.evidence && Damning(n.artifact, e, now)
    ensures |ClaimFindings(n, e.claim, policy, now, waivers)| == 1
  {
    ItemsMembership(n.artifact, n.evidence, e.claim, e);
    var items := ItemsFor(n.artifact, n.evidence, e.claim);
    assert |items| == 1 ==> items[0] == e;
  }
}
