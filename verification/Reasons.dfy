/**
 Every reason of a decision, code by code: what in the evidence calls for it, and that nothing
 else is ever reported. A reason names the artifact and the claim it is about.
 */
module Reasons {
  import opened Domain
  import opened PolicyGraph
  import opened Evaluation
  import opened Eligibility

  /** The item at position i is the artifact's own, for this claim. */
  predicate Own(a: Artifact, es: seq<Evidence>, claim: Byte, i: int) {
    0 <= i < |es| && es[i].subject == a && es[i].claim == claim
  }

  /** It is the only one of its kind. */
  predicate Sole(a: Artifact, es: seq<Evidence>, claim: Byte, i: int) {
    Own(a, es, claim, i) && forall j | 0 <= j < |es| && j != i :: !Own(a, es, claim, j)
  }

  predicate Current(e: Evidence, now: int) {
    e.Valid() && e.observedAt <= now < e.expiresAt
  }

  predicate Attested(e: Evidence) {
    e.publication == VERIFIED_ATTESTATION && 0 < e.publishedAt <= e.observedAt
  }

  /** What is wrong with the one item there is for the claim. */
  predicate SoleItemCallsFor(e: Evidence, policy: Policy, now: int, waived: bool, code: Code) {
    match code
    case EvidenceInvalidOrStale => !Current(e, now)
    case RequiredEvidenceUnverified => Current(e, now) && e.status != VERIFIED
    case VulnerabilityApplicabilityUnresolved =>
      && Current(e, now) && e.status == VERIFIED
      && e.claim == VULNERABILITIES && e.applicability != NO_KNOWN_APPLICABLE_FINDINGS
    case PublicationUnknownOrConflicting =>
      Current(e, now) && e.status == VERIFIED && e.claim == PUBLICATION && !Attested(e)
    case ReleaseTooYoung => !waived && TooYoung(e, policy, now)
    case _ => false
  }

  predicate TooYoung(e: Evidence, policy: Policy, now: int) {
    && Current(e, now) && e.status == VERIFIED && e.claim == PUBLICATION && Attested(e)
    && e.publishedAt + policy.minimumAgeSeconds > now
  }

  /** A claim calls for a code when there is not exactly one item for it, or something is wrong with that item. */
  predicate ClaimCallsFor(n: Node, claim: Byte, policy: Policy, now: int, waived: bool, code: Code) {
    && METADATA <= claim <= VULNERABILITIES
    && if code == EvidenceMissingOrAmbiguous
       then forall i | 0 <= i < |n.evidence| :: !Sole(n.artifact, n.evidence, claim, i)
       else exists i | 0 <= i < |n.evidence| ::
         Sole(n.artifact, n.evidence, claim, i) && SoleItemCallsFor(n.evidence[i], policy, now, waived, code)
  }

  predicate CallsFor(n: Node, policy: Policy, now: int, waived: bool, r: Reason) {
    && r.artifact == n.artifact
    && ((exists e <- n.evidence :: e.claim == r.claim && ItemCallsFor(n.artifact, e, now, r.code))
        || ClaimCallsFor(n, r.claim, policy, now, waived, r.code))
  }

  // ---- The items of a claim ----

  lemma {:induction false} ItemsAreOwn(a: Artifact, es: seq<Evidence>, claim: Byte)
    requires METADATA <= claim <= VULNERABILITIES
    ensures ItemsFor(a, es, claim) == [] <==> forall i :: !Own(a, es, claim, i)
    ensures |ItemsFor(a, es, claim)| == 1 <==> exists i :: Sole(a, es, claim, i)
    ensures forall i :: Sole(a, es, claim, i) ==> ItemsFor(a, es, claim) == [es[i]]
  {
    if es != [] {
      var init, last := es[..|es| - 1], |es| - 1;
      ItemsAreOwn(a, init, claim);
      assert forall i | 0 <= i < last :: Own(a, init, claim, i) <==> Own(a, es, claim, i);
      if Own(a, es, claim, last) {
        LastIsOwn(a, init, es, claim);
      } else {
        assert forall i :: Sole(a, init, claim, i) <==> Sole(a, es, claim, i);
      }
    }
  }

  lemma LastIsOwn(a: Artifact, init: seq<Evidence>, es: seq<Evidence>, claim: Byte)
    requires METADATA <= claim <= VULNERABILITIES && es != [] && init == es[..|es| - 1] && Own(a, es, claim, |es| - 1)
    requires ItemsFor(a, init, claim) == [] <==> forall i :: !Own(a, init, claim, i)
    ensures ItemsFor(a, es, claim) != []
    ensures |ItemsFor(a, es, claim)| == 1 <==> exists i :: Sole(a, es, claim, i)
    ensures forall i :: Sole(a, es, claim, i) ==> ItemsFor(a, es, claim) == [es[i]]
    ensures exists i :: Own(a, es, claim, i)
  {
    var last := |es| - 1;
    assert forall i | 0 <= i < last :: Own(a, init, claim, i) <==> Own(a, es, claim, i);
    if ItemsFor(a, init, claim) == [] {
      assert Sole(a, es, claim, last);
    } else {
      var i :| Own(a, init, claim, i);
      assert Own(a, es, claim, i);
    }
  }

  // ---- One node ----

  lemma SoleReasonMeans(e: Evidence, policy: Policy, now: int, waived: bool, code: Code)
    ensures RequiredEvidenceReason([e], e.claim, policy, now) == Some(code) && !(code == ReleaseTooYoung && waived) <==>
      SoleItemCallsFor(e, policy, now, waived, code)
    ensures RequiredEvidenceReason([e], e.claim, policy, now) == Some(ReleaseTooYoung) <==> TooYoung(e, policy, now)
  {
  }

  lemma ClaimReasonMeans(n: Node, claim: Byte, policy: Policy, now: int, waivers: set<Artifact>, code: Code)
    requires METADATA <= claim <= VULNERABILITIES
    ensures Finding(Hold, Reason(code, n.artifact, claim)) in ClaimFindings(n, claim, policy, now, waivers) <==>
      ClaimCallsFor(n, claim, policy, now, n.artifact in waivers, code)
  {
    ItemsAreOwn(n.artifact, n.evidence, claim);
    if i :| Sole(n.artifact, n.evidence, claim, i) {
      assert forall j :: Sole(n.artifact, n.evidence, claim, j) ==> j == i;
      SoleReasonMeans(n.evidence[i], policy, now, n.artifact in waivers, code);
    }
  }

  lemma NodeReasonMeans(n: Node, policy: Policy, now: int, waivers: set<Artifact>, r: Reason)
    ensures (exists f <- NodeFindings(n, policy, now, waivers) :: f.reason == r) <==>
      CallsFor(n, policy, now, n.artifact in waivers, r)
  {
    ItemReasonsMean(n, now, r);
    ClaimReasonsMean(n, policy, now, waivers, r);
  }

  lemma ItemReasonsMean(n: Node, now: int, r: Reason)
    ensures (exists f <- AllEvidenceFindings(n.artifact, n.evidence, now) :: f.reason == r) <==>
      r.artifact == n.artifact && exists e <- n.evidence ::
        e.claim == r.claim && ItemCallsFor(n.artifact, e, now, r.code)
  {
    if f :| f in AllEvidenceFindings(n.artifact, n.evidence, now) && f.reason == r {
      EvidenceMembership(n.artifact, n.evidence, now, f);
    }
    if e :| && e in n.evidence && r.artifact == n.artifact && e.claim == r.claim
            && ItemCallsFor(n.artifact, e, now, r.code) {
      var f := ItemFinding(n.artifact, e, now, r);
      EvidenceMembership(n.artifact, n.evidence, now, f);
    }
  }

  lemma ClaimReasonsMean(n: Node, policy: Policy, now: int, waivers: set<Artifact>, r: Reason)
    ensures (exists f <- ClaimsFindings(n, VULNERABILITIES + 1, policy, now, waivers) :: f.reason == r) <==>
      r.artifact == n.artifact && ClaimCallsFor(n, r.claim, policy, now, n.artifact in waivers, r.code)
  {
    if f :| f in ClaimsFindings(n, VULNERABILITIES + 1, policy, now, waivers) && f.reason == r {
      ClaimsMembership(n, VULNERABILITIES + 1, policy, now, waivers, f);
      var c: Byte :| METADATA <= c < VULNERABILITIES + 1 && f in ClaimFindings(n, c, policy, now, waivers);
      ClaimReasonMeans(n, c, policy, now, waivers, r.code);
    }
    if r.artifact == n.artifact && ClaimCallsFor(n, r.claim, policy, now, n.artifact in waivers, r.code) {
      ClaimReasonMeans(n, r.claim, policy, now, waivers, r.code);
      ClaimsMembership(n, VULNERABILITIES + 1, policy, now, waivers, Finding(Hold, r));
    }
  }

  lemma ItemFinding(a: Artifact, e: Evidence, now: int, r: Reason) returns (f: Finding)
    requires r.artifact == a && r.claim == e.claim && ItemCallsFor(a, e, now, r.code)
    ensures f in EvidenceFindings(a, e, now) && f.reason == r
  {
    f := Finding(if r.code == EvidenceSubjectOrClaimMismatch then Hold else Deny, r);
  }

  // ---- The decision ----

  /** A reason is reported of an admissible plan exactly when some node calls for it. */
  lemma ReasonsMean(a: Assessment, r: Reason)
    requires Admissible(a)
    ensures r in Decide(a).reasons <==>
      exists n <- a.nodes :: CallsFor(n, a.policy, a.now, n.artifact in WaiversOf(a), r)
  {
    var fs, ws := AllFindings(a.nodes, a.policy, a.now, WaiversOf(a)), WaiversOf(a);
    AdmissibleOrRefused(a);
    AddAllReasons(fs, r);
    if f :| f in fs && f.reason == r {
      NodesMembership(a.nodes, a.policy, a.now, ws, f);
      var n :| n in a.nodes && f in NodeFindings(n, a.policy, a.now, ws);
      NodeReasonMeans(n, a.policy, a.now, ws, r);
    }
    if n :| n in a.nodes && CallsFor(n, a.policy, a.now, n.artifact in ws, r) {
      NodeReasonMeans(n, a.policy, a.now, ws, r);
      var f :| f in NodeFindings(n, a.policy, a.now, ws) && f.reason == r;
      NodesMembership(a.nodes, a.policy, a.now, ws, f);
    }
  }

  /** An artifact is reported as waived exactly when a waiver names it and its sole publication item is too young. */
  lemma WaivedMean(a: Assessment, x: Artifact)
    requires Admissible(a)
    ensures x in Decide(a).waived <==>
      && (a.exception.Some? && exists w <- a.exception.value.waivers :: w.artifact == x)
      && exists n <- a.nodes :: n.artifact == x && exists i | 0 <= i < |n.evidence| ::
        Sole(x, n.evidence, PUBLICATION, i) && TooYoung(n.evidence[i], a.policy, a.now)
  {
    AdmissibleOrRefused(a);
    WaivedMembers(a.nodes, a.policy, a.now, WaiversOf(a), x);
    forall n | n in a.nodes && n.artifact == x
      ensures WaivesAge(n, PUBLICATION, a.policy, a.now, WaiversOf(a)) <==>
        x in WaiversOf(a) && exists i | 0 <= i < |n.evidence| ::
          Sole(x, n.evidence, PUBLICATION, i) && TooYoung(n.evidence[i], a.policy, a.now)
    {
      WaivingMeans(n, a.policy, a.now, WaiversOf(a));
    }
  }

  lemma WaivingMeans(n: Node, policy: Policy, now: int, waivers: set<Artifact>)
    ensures WaivesAge(n, PUBLICATION, policy, now, waivers) <==>
      n.artifact in waivers && exists i | 0 <= i < |n.evidence| ::
        Sole(n.artifact, n.evidence, PUBLICATION, i) && TooYoung(n.evidence[i], policy, now)
  {
    ItemsAreOwn(n.artifact, n.evidence, PUBLICATION);
    if i :| Sole(n.artifact, n.evidence, PUBLICATION, i) {
      assert forall j :: Sole(n.artifact, n.evidence, PUBLICATION, j) ==> j == i;
      SoleReasonMeans(n.evidence[i], policy, now, false, ReleaseTooYoung);
    }
  }

  lemma {:induction false} WaivedMembers(
    nodes: seq<Node>, policy: Policy, now: int, waivers: set<Artifact>, x: Artifact)
    ensures x in WaivedArtifacts(nodes, policy, now, waivers) <==>
      exists n <- nodes :: n.artifact == x && WaivesAge(n, PUBLICATION, policy, now, waivers)
  {
    if nodes != [] {
      var init, last := nodes[..|nodes| - 1], nodes[|nodes| - 1];
      WaivedMembers(init, policy, now, waivers, x);
      assert nodes == init + [last];
    }
  }

  // ---- What an allowed plan has ----

  /**
   Every node of an allowed plan has for each claim exactly one item, and that item is its own, verified and
   current, found free of applicable findings or attested as published long enough ago.
   */
  lemma AllowedNodeHas(a: Assessment, n: Node, claim: Byte) returns (i: nat)
    requires Decide(a).outcome.Allow? && n in a.nodes && 1 <= claim <= 5
    ensures n.artifact.tap == "homebrew/core" && n.artifact.os == "macos" && ValidFormulaName(n.artifact.name)
    ensures i < |n.evidence| && forall j | 0 <= j < |n.evidence| && j != i :: n.evidence[j].claim != claim
    ensures var e := n.evidence[i];
      && e.claim == claim && e.subject == n.artifact && e.status == 1 && 1 <= e.provider <= 2
      && 0 < e.observedAt <= a.now < e.expiresAt && |e.rawSHA256| == 64
      && (claim == 5 ==> e.applicability == 1)
      && (claim == 4 ==> e.publication == 4 && 0 < e.publishedAt <= e.observedAt)
    ensures claim == 4 ==>
      || n.evidence[i].publishedAt + a.policy.minimumAgeSeconds <= a.now
      || (a.exception.Some? && exists w <- a.exception.value.waivers :: w.artifact == n.artifact)
  {
    OutcomeMeaning(a);
    assert ClaimEstablished(n, claim, a.policy, a.now, n.artifact in WaiversOf(a));
    i :| 0 <= i < |n.evidence| && OnlyOne(n.evidence, i)
         && Establishes(n.evidence[i], claim, a.policy, a.now, n.artifact in WaiversOf(a));
    assert n.evidence[i] in n.evidence;
  }

  // ---- Refusals ----

  /** The first k waivers are in order, and the next is unexplained, repeats one of them, or is outside the plan. */
  predicate FirstFaulty(nodes: seq<Node>, ws: seq<AgeWaiver>, k: nat)
    requires k < |ws|
  {
    && SoundWaivers(nodes, ws[..k]) && DistinctWaivers(ws[..k])
    && (!ValidAgeReason(ws[k].reason) || (forall n <- nodes :: n.artifact != ws[k].artifact)
        || exists w <- ws[..k] :: w.artifact == ws[k].artifact)
  }

  lemma {:induction false} FaultIsFirst(nodes: seq<Node>, ws: seq<AgeWaiver>) returns (k: nat)
    requires WaiverFault(nodes, ws).Some?
    ensures k < |ws| && FirstFaulty(nodes, ws, k) && WaiverFault(nodes, ws).value == ws[k].artifact
  {
    var init := ws[..|ws| - 1];
    if WaiverFault(nodes, init).Some? {
      k := FaultIsFirst(nodes, init);
      assert ws[..k] == init[..k];
    } else {
      k := |ws| - 1;
      WaiverFaultMeaning(nodes, init);
    }
  }

  /** What a refusal of the whole assessment says. */
  ghost predicate RefusedFor(a: Assessment, r: Reason) {
    if !a.policy.valid || a.now <= 0 || !a.binding.Valid() then r == Reason(AssessmentInvalidOrReplayed, NO_ARTIFACT, 0)
    else if !WellFormedGraph(a.targets, a.nodes) then r == Reason(DependencyGraphInvalid, NO_ARTIFACT, 0)
    else
      && r.code == AgeExceptionInvalid && r.claim == PUBLICATION && a.exception.Some?
      && var x := a.exception.value;
         if x.binding != a.binding || !(0 < x.issuedAt <= a.now < x.expiresAt) || x.waivers == []
         then r.artifact == NO_ARTIFACT
         else exists k | 0 <= k < |x.waivers| ::
           FirstFaulty(a.nodes, x.waivers, k) && r.artifact == x.waivers[k].artifact
  }

  /** An assessment that is not admissible is held for one reason, about the assessment and not its evidence. */
  lemma RefusalMeans(a: Assessment)
    requires !Admissible(a)
    ensures Decide(a).outcome == Hold && Decide(a).waived == []
    ensures |Decide(a).reasons| == 1 && RefusedFor(a, Decide(a).reasons[0])
  {
    if a.exception.Some? {
      var ws := a.exception.value.waivers;
      WaiverFaultMeaning(a.nodes, ws);
      if WaiverFault(a.nodes, ws).Some? {
        var k := FaultIsFirst(a.nodes, ws);
      }
    }
  }
}
