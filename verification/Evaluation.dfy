/**
 The policy evaluator: a loop that collects reasons and keeps the strictest
 outcome, and the list of findings it stands for.
 */
module Evaluation {
  import opened Domain
  import opened PolicyGraph

  // ---- Judging one claim ----

  /** None means one current, verified item establishes the claim. */
  function RequiredEvidenceReason(items: seq<Evidence>, claim: Byte, policy: Policy, now: int): Option<Code> {
    if |items| != 1 then Some(EvidenceMissingOrAmbiguous)
    else
      var e := items[0];
      if !e.Valid() || e.observedAt > now || e.expiresAt <= now then Some(EvidenceInvalidOrStale)
      else if e.status != VERIFIED then Some(RequiredEvidenceUnverified)
      else if claim == VULNERABILITIES && e.applicability != NO_KNOWN_APPLICABLE_FINDINGS then
        Some(VulnerabilityApplicabilityUnresolved)
      else if claim == PUBLICATION then
        if e.publication != VERIFIED_ATTESTATION || e.publishedAt <= 0 || e.publishedAt > e.observedAt then
          Some(PublicationUnknownOrConflicting)
        else if now - e.publishedAt < policy.minimumAgeSeconds then Some(ReleaseTooYoung)
        else None
      else None
  }

  // ---- Findings ----

  datatype Finding = Finding(outcome: Outcome, reason: Reason)

  predicate WellSubjected(a: Artifact, e: Evidence) {
    e.subject == a && METADATA <= e.claim <= VULNERABILITIES
  }

  predicate IntegrityFailure(e: Evidence) {
    e.status == FAILED && (e.claim == METADATA || e.claim == CHECKSUM || e.claim == PROVENANCE)
  }

  predicate KnownAffected(e: Evidence, now: int) {
    && e.claim == VULNERABILITIES && e.status == VERIFIED && e.applicability == AFFECTED
    && e.Valid() && e.observedAt <= now
  }

  /** What one evidence item adds, whatever the other items say. */
  function EvidenceFindings(a: Artifact, e: Evidence, now: int): seq<Finding> {
    if !WellSubjected(a, e) then [Finding(Hold, Reason(EvidenceSubjectOrClaimMismatch, a, e.claim))]
    else
      (if IntegrityFailure(e) then [Finding(Deny, Reason(IntegrityVerificationFailed, a, e.claim))] else [])
      + (if KnownAffected(e, now) then [Finding(Deny, Reason(KnownApplicableVulnerability, a, e.claim))] else [])
  }

  function AllEvidenceFindings(a: Artifact, es: seq<Evidence>, now: int): seq<Finding> {
    if es == [] then []
    else AllEvidenceFindings(a, es[..|es| - 1], now) + EvidenceFindings(a, es[|es| - 1], now)
  }

  /** The well-subjected items for one claim, in order. */
  function ItemsFor(a: Artifact, es: seq<Evidence>, claim: Byte): (items: seq<Evidence>) {
    if es == [] then []
    else
      var rest := ItemsFor(a, es[..|es| - 1], claim);
      var e := es[|es| - 1];
      if WellSubjected(a, e) && e.claim == claim then rest + [e] else rest
  }

  function ClaimReason(n: Node, claim: Byte, policy: Policy, now: int): Option<Code> {
    RequiredEvidenceReason(ItemsFor(n.artifact, n.evidence, claim), claim, policy, now)
  }

  predicate WaivesAge(n: Node, claim: Byte, policy: Policy, now: int, waivers: set<Artifact>) {
    claim == PUBLICATION && ClaimReason(n, claim, policy, now) == Some(ReleaseTooYoung) && n.artifact in waivers
  }

  function ClaimFindings(n: Node, claim: Byte, policy: Policy, now: int, waivers: set<Artifact>): seq<Finding> {
    var code := ClaimReason(n, claim, policy, now);
    if code.None? || WaivesAge(n, claim, policy, now, waivers) then []
    else [Finding(Hold, Reason(code.value, n.artifact, claim))]
  }

  /** Claims METADATA up to, but excluding, limit. */
  function ClaimsFindings(n: Node, limit: Byte, policy: Policy, now: int, waivers: set<Artifact>): seq<Finding>
    decreases limit
  {
    if limit <= METADATA then []
    else ClaimsFindings(n, limit - 1, policy, now, waivers) + ClaimFindings(n, limit - 1, policy, now, waivers)
  }

  function NodeFindings(n: Node, policy: Policy, now: int, waivers: set<Artifact>): seq<Finding> {
    AllEvidenceFindings(n.artifact, n.evidence, now) + ClaimsFindings(n, VULNERABILITIES + 1, policy, now, waivers)
  }

  function AllFindings(nodes: seq<Node>, policy: Policy, now: int, waivers: set<Artifact>): seq<Finding> {
    if nodes == [] then []
    else
      AllFindings(nodes[..|nodes| - 1], policy, now, waivers)
      + NodeFindings(nodes[|nodes| - 1], policy, now, waivers)
  }

  function WaivedArtifacts(nodes: seq<Node>, policy: Policy, now: int, waivers: set<Artifact>): seq<Artifact> {
    if nodes == [] then []
    else
      var n := nodes[|nodes| - 1];
      WaivedArtifacts(nodes[..|nodes| - 1], policy, now, waivers)
      + if WaivesAge(n, PUBLICATION, policy, now, waivers) then [n.artifact] else []
  }

  // ---- Summing up ----

  predicate Stricter(a: Outcome, b: Outcome) {
    (a.Deny? && !b.Deny?) || (a.Hold? && b.Allow?)
  }

  function AddReason(d: Decision, f: Finding): Decision {
    d.(outcome := if Stricter(f.outcome, d.outcome) then f.outcome else d.outcome, reasons := d.reasons + [f.reason])
  }

  function AddAll(d: Decision, fs: seq<Finding>): Decision {
    if fs == [] then d else AddReason(AddAll(d, fs[..|fs| - 1]), fs[|fs| - 1])
  }

  function Refusal(code: Code, artifact: Artifact, claim: Byte): Decision {
    Decision(Hold, [Reason(code, artifact, claim)], [])
  }

  // ---- The age exception ----

  predicate InPlan(nodes: seq<Node>, a: Artifact) {
    exists n <- nodes :: n.artifact == a
  }

  function WaiverArtifacts(ws: seq<AgeWaiver>): set<Artifact> {
    set w | w in ws :: w.artifact
  }

  /** The artifact of the first waiver that is unexplained, repeated or outside the plan. */
  function WaiverFault(nodes: seq<Node>, ws: seq<AgeWaiver>): Option<Artifact> {
    if ws == [] then None
    else
      var init, w := ws[..|ws| - 1], ws[|ws| - 1];
      var earlier := WaiverFault(nodes, init);
      if earlier.Some? then earlier
      else if !ValidAgeReason(w.reason) || w.artifact in WaiverArtifacts(init) || !InPlan(nodes, w.artifact) then
        Some(w.artifact)
      else None
  }

  predicate ExceptionInterval(x: AgeException, now: int) {
    x.issuedAt > 0 && x.issuedAt <= now && x.expiresAt > now
  }

  // ---- The decision ----

  function WaiversOf(a: Assessment): (r: set<Artifact>)
    ensures forall x :: x in r <==> a.exception.Some? && exists w <- a.exception.value.waivers :: w.artifact == x
  {
    if a.exception.None? then {} else WaiverArtifacts(a.exception.value.waivers)
  }

  function NodesDecision(a: Assessment): Decision {
    AddAll(Decision(Allow, [], []), AllFindings(a.nodes, a.policy, a.now, WaiversOf(a)))
      .(waived := WaivedArtifacts(a.nodes, a.policy, a.now, WaiversOf(a)))
  }

  /** The decision as a function of the assessment, reason by reason. */
  ghost function Decide(a: Assessment): Decision {
    if !a.policy.valid || a.now <= 0 || !a.binding.Valid() then Refusal(AssessmentInvalidOrReplayed, NO_ARTIFACT, 0)
    else if !WellFormedGraph(a.targets, a.nodes) then Refusal(DependencyGraphInvalid, NO_ARTIFACT, 0)
    else if a.exception.None? then NodesDecision(a)
    else
      var x := a.exception.value;
      if x.binding != a.binding || !ExceptionInterval(x, a.now) || |x.waivers| == 0 then
        Refusal(AgeExceptionInvalid, NO_ARTIFACT, PUBLICATION)
      else
        var fault := WaiverFault(a.nodes, x.waivers);
        if fault.Some? then Refusal(AgeExceptionInvalid, fault.value, PUBLICATION) else NodesDecision(a)
  }

  lemma {:induction false} AddAllConcat(d: Decision, fs: seq<Finding>, gs: seq<Finding>)
    ensures AddAll(d, fs + gs) == AddAll(AddAll(d, fs), gs)
  {
    if gs == [] {
      assert fs + gs == fs;
    } else {
      var init := gs[..|gs| - 1];
      assert (fs + gs)[..|fs + gs| - 1] == fs + init;
      AddAllConcat(d, fs, init);
    }
  }

  lemma {:induction false} AddAllKeepsWaived(d: Decision, w: seq<Artifact>, fs: seq<Finding>)
    ensures AddAll(d.(waived := w), fs) == AddAll(d, fs).(waived := w)
  {
    if fs != [] {
      AddAllKeepsWaived(d, w, fs[..|fs| - 1]);
    }
  }

  lemma {:induction false} WaiverFaultPersists(nodes: seq<Node>, ws: seq<AgeWaiver>, n: nat)
    requires n <= |ws| && WaiverFault(nodes, ws[..n]).Some?
    ensures WaiverFault(nodes, ws) == WaiverFault(nodes, ws[..n])
    decreases |ws|
  {
    if n < |ws| {
      var init := ws[..|ws| - 1];
      assert init[..n] == ws[..n];
      WaiverFaultPersists(nodes, init, n);
    } else {
      assert ws[..n] == ws;
    }
  }

  /** byClaim holds, claim by claim, the well-subjected items in order. */
  ghost predicate Grouped(byClaim: map<Byte, seq<Evidence>>, a: Artifact, es: seq<Evidence>) {
    forall c: Byte :: METADATA <= c <= VULNERABILITIES ==> Items(byClaim, c) == ItemsFor(a, es, c)
  }

  function Items(byClaim: map<Byte, seq<Evidence>>, claim: Byte): seq<Evidence> {
    if claim in byClaim then byClaim[claim] else []
  }

  /** The reports one well-subjected item calls for, made one after the other. */
  method ReportDenials(a: Artifact, e: Evidence, now: int, decision: Decision) returns (result: Decision)
    requires WellSubjected(a, e)
    ensures result == AddAll(decision, EvidenceFindings(a, e, now))
  {
    result := decision;
    if e.status == FAILED && (e.claim == METADATA || e.claim == CHECKSUM || e.claim == PROVENANCE) {
      result := AddReason(result, Finding(Deny, Reason(IntegrityVerificationFailed, a, e.claim)));
    }
    if && e.claim == VULNERABILITIES && e.status == VERIFIED && e.applicability == AFFECTED
       && e.Valid() && e.observedAt <= now {
      result := AddReason(result, Finding(Deny, Reason(KnownApplicableVulnerability, a, e.claim)));
    }
    ghost var fs := EvidenceFindings(a, e, now);
    assert |fs| <= 1;
    assert fs != [] ==> fs[..0] == [];
  }

  /** A denial or mismatch reported of one item, whatever the other items say. */
  predicate ItemCallsFor(a: Artifact, e: Evidence, now: int, code: Code) {
    match code
    case EvidenceSubjectOrClaimMismatch => e.subject != a || !(METADATA <= e.claim <= VULNERABILITIES)
    case IntegrityVerificationFailed =>
      e.subject == a && e.status == FAILED && (e.claim == METADATA || e.claim == CHECKSUM || e.claim == PROVENANCE)
    case KnownApplicableVulnerability =>
      && e.subject == a && e.claim == VULNERABILITIES && e.status == VERIFIED && e.applicability == AFFECTED
      && e.Valid() && e.observedAt <= now
    case _ => false
  }

  /** The findings of a node's evidence are reported, one for each item that calls for it, and nothing else. */
  lemma {:induction false} EvidenceReported(a: Artifact, es: seq<Evidence>, now: int, d: Decision, r: Reason)
    ensures r in AddAll(d, AllEvidenceFindings(a, es, now)).reasons <==>
      r in d.reasons
      || (r.artifact == a && exists e <- es :: e.claim == r.claim && ItemCallsFor(a, e, now, r.code))
  {
    if es != [] {
      var init, last := es[..|es| - 1], es[|es| - 1];
      var before := AddAll(d, AllEvidenceFindings(a, init, now));
      EvidenceReported(a, init, now, d, r);
      AddAllConcat(d, AllEvidenceFindings(a, init, now), EvidenceFindings(a, last, now));
      ItemReported(a, last, now, before, r);
      assert forall e <- es :: e in init || e == last;
    }
  }

  lemma ItemReported(a: Artifact, e: Evidence, now: int, d: Decision, r: Reason)
    ensures r in AddAll(d, EvidenceFindings(a, e, now)).reasons <==>
      r in d.reasons || (r.artifact == a && e.claim == r.claim && ItemCallsFor(a, e, now, r.code))
  {
    var fs := EvidenceFindings(a, e, now);
    if fs != [] {
      OneFinding(a, e, now);
      AddAllOne(d, fs[0]);
    }
    ItemMeans(a, e, now, r);
  }

  lemma OneFinding(a: Artifact, e: Evidence, now: int)
    requires EvidenceFindings(a, e, now) != []
    ensures EvidenceFindings(a, e, now) == [EvidenceFindings(a, e, now)[0]]
  {
  }

  lemma ItemMeans(a: Artifact, e: Evidence, now: int, r: Reason)
    ensures (exists f <- EvidenceFindings(a, e, now) :: f.reason == r) <==>
      r.artifact == a && e.claim == r.claim && ItemCallsFor(a, e, now, r.code)
  {
    var f := Finding(if r.code == EvidenceSubjectOrClaimMismatch then Hold else Deny, r);
    if r.artifact == a && e.claim == r.claim && ItemCallsFor(a, e, now, r.code) {
      assert f in EvidenceFindings(a, e, now);
    }
  }

  function Group(byClaim: map<Byte, seq<Evidence>>, e: Evidence): map<Byte, seq<Evidence>> {
    byClaim[e.claim := Items(byClaim, e.claim) + [e]]
  }

  lemma AddAllOne(d: Decision, f: Finding)
    ensures AddAll(d, [f]) == AddReason(d, f)
  {
    assert [f][..0] == [];
  }

  lemma ScanStep(a: Artifact, es: seq<Evidence>, i: nat, now: int, d: Decision, byClaim: map<Byte, seq<Evidence>>)
    requires i < |es| && Grouped(byClaim, a, es[..i])
    ensures AddAll(d, AllEvidenceFindings(a, es[..i + 1], now))
         == AddAll(AddAll(d, AllEvidenceFindings(a, es[..i], now)), EvidenceFindings(a, es[i], now))
    ensures Grouped(if WellSubjected(a, es[i]) then Group(byClaim, es[i]) else byClaim, a, es[..i + 1])
  {
    assert es[..i + 1][..i] == es[..i];
    AddAllConcat(d, AllEvidenceFindings(a, es[..i], now), EvidenceFindings(a, es[i], now));
    var grouped := if WellSubjected(a, es[i]) then Group(byClaim, es[i]) else byClaim;
    forall c: Byte | METADATA <= c <= VULNERABILITIES
      ensures Items(grouped, c) == ItemsFor(a, es[..i + 1], c)
    {
      assert Items(byClaim, c) == ItemsFor(a, es[..i], c);
    }
  }

  /** The first pass over a node's evidence: group by claim and report what cannot be concealed. */
  method ScanEvidence(node: Node, now: int, decision: Decision)
      returns (result: Decision, byClaim: map<Byte, seq<Evidence>>)
    ensures result == AddAll(decision, AllEvidenceFindings(node.artifact, node.evidence, now))
    ensures forall r :: r in result.reasons <==>
      r in decision.reasons
      || (r.artifact == node.artifact
          && exists e <- node.evidence :: e.claim == r.claim && ItemCallsFor(node.artifact, e, now, r.code))
    ensures Grouped(byClaim, node.artifact, node.evidence)
  {
    result := decision;
    byClaim := map[];
    for i := 0 to |node.evidence|
      invariant result == AddAll(decision, AllEvidenceFindings(node.artifact, node.evidence[..i], now))
      invariant Grouped(byClaim, node.artifact, node.evidence[..i])
    {
      var e := node.evidence[i];
      ScanStep(node.artifact, node.evidence, i, now, decision, byClaim);
      if e.subject != node.artifact || e.claim < METADATA || e.claim > VULNERABILITIES {
        var f := Finding(Hold, Reason(EvidenceSubjectOrClaimMismatch, node.artifact, e.claim));
        AddAllOne(result, f);
        result := AddReason(result, f);
      } else {
        byClaim := Group(byClaim, e);
        result := ReportDenials(node.artifact, e, now, result);
      }
    }
    assert node.evidence[..|node.evidence|] == node.evidence;
    forall r { EvidenceReported(node.artifact, node.evidence, now, decision, r); }
  }

  /** The decision once the claims before this one are checked. */
  ghost function ClaimsChecked(
    n: Node, limit: Byte, policy: Policy, now: int, waivers: set<Artifact>, d: Decision): Decision
  {
    var age := if limit > PUBLICATION && WaivesAge(n, PUBLICATION, policy, now, waivers) then [n.artifact] else [];
    AddAll(d, ClaimsFindings(n, limit, policy, now, waivers)).(waived := d.waived + age)
  }

  /** One claim: its reason is waived, reported, or absent. */
  lemma ClaimTurn(n: Node, claim: Byte, policy: Policy, now: int, waivers: set<Artifact>, d: Decision)
    requires METADATA <= claim <= VULNERABILITIES
    ensures var result := ClaimsChecked(n, claim, policy, now, waivers, d);
      var code := ClaimReason(n, claim, policy, now);
      ClaimsChecked(n, claim + 1, policy, now, waivers, d) ==
        if code.None? then result
        else if claim == PUBLICATION && code.value == ReleaseTooYoung && n.artifact in waivers then
          result.(waived := result.waived + [n.artifact])
        else AddReason(result, Finding(Hold, Reason(code.value, n.artifact, claim)))
  {
    var before, found := ClaimsFindings(n, claim, policy, now, waivers), ClaimFindings(n, claim, policy, now, waivers);
    var sum := AddAll(d, before);
    AddAllConcat(d, before, found);
    assert ClaimsFindings(n, claim + 1, policy, now, waivers) == before + found;
    if found != [] {
      assert found == [found[0]];
      AddAllOne(sum, found[0]);
      assert AddAll(d, before + found) == AddReason(sum, found[0]);
    } else {
      assert AddAll(d, before + found) == sum;
    }
  }

  lemma ItemsGrouped(byClaim: map<Byte, seq<Evidence>>, n: Node, claim: Byte)
    requires Grouped(byClaim, n.artifact, n.evidence) && METADATA <= claim <= VULNERABILITIES
    ensures Items(byClaim, claim) == ItemsFor(n.artifact, n.evidence, claim)
  {
  }

  /** What the verdict on one claim adds: nothing, a waived age, or a reason to hold. */
  method ReportClaim(a: Artifact, claim: Byte, code: Option<Code>, waivers: set<Artifact>, decision: Decision)
      returns (result: Decision)
    ensures code.None? ==> result == decision
    ensures code.Some? ==>
      if claim == PUBLICATION && code.value == ReleaseTooYoung && a in waivers
      then result == decision.(waived := decision.waived + [a])
      else result == AddReason(decision, Finding(Hold, Reason(code.value, a, claim)))
  {
    if code.None? {
      return decision;
    }
    if claim == PUBLICATION && code.value == ReleaseTooYoung && a in waivers {
      return decision.(waived := decision.waived + [a]);
    }
    return AddReason(decision, Finding(Hold, Reason(code.value, a, claim)));
  }

  /** The second pass: every claim must be established by exactly one item. */
  method CheckClaims(node: Node, policy: Policy, now: int, waivers: set<Artifact>, byClaim: map<Byte, seq<Evidence>>,
                     decision: Decision)
      returns (result: Decision)
    requires Grouped(byClaim, node.artifact, node.evidence)
    ensures result == ClaimsChecked(node, VULNERABILITIES + 1, policy, now, waivers, decision)
  {
    result := decision;
    var claim: Byte := METADATA;
    while claim <= VULNERABILITIES
      invariant METADATA <= claim <= VULNERABILITIES + 1
      invariant result == ClaimsChecked(node, claim, policy, now, waivers, decision)
    {
      ItemsGrouped(byClaim, node, claim);
      ClaimTurn(node, claim, policy, now, waivers, decision);
      var code := RequiredEvidenceReason(Items(byClaim, claim), claim, policy, now);
      result := ReportClaim(node.artifact, claim, code, waivers, result);
      claim := claim + 1;
    }
  }

  /** The evaluator in the program's order: guards first, then every node in full. */
  method Evaluate(a: Assessment) returns (decision: Decision)
    ensures decision == Decide(a)
  {
    if !a.policy.valid || a.now <= 0 || !a.binding.Valid() {
      return Refusal(AssessmentInvalidOrReplayed, NO_ARTIFACT, 0);
    }
    var wellFormed := ValidGraph(a.targets, a.nodes);
    if !wellFormed {
      return Refusal(DependencyGraphInvalid, NO_ARTIFACT, 0);
    }
    var waivers: set<Artifact> := {};
    if a.exception.Some? {
      var x := a.exception.value;
      if x.binding != a.binding || !ExceptionInterval(x, a.now) || |x.waivers| == 0 {
        return Refusal(AgeExceptionInvalid, NO_ARTIFACT, PUBLICATION);
      }
      for i := 0 to |x.waivers|
        invariant waivers == WaiverArtifacts(x.waivers[..i])
        invariant WaiverFault(a.nodes, x.waivers[..i]).None?
      {
        var waiver := x.waivers[i];
        assert x.waivers[..i + 1] == x.waivers[..i] + [waiver];
        if !ValidAgeReason(waiver.reason) || waiver.artifact in waivers || !InPlan(a.nodes, waiver.artifact) {
          WaiverFaultPersists(a.nodes, x.waivers, i + 1);
          return Refusal(AgeExceptionInvalid, waiver.artifact, PUBLICATION);
        }
        waivers := waivers + {waiver.artifact};
      }
      assert x.waivers[..|x.waivers|] == x.waivers;
    }
    decision := EvaluateNodes(a, waivers);
  }

  /** The decision once these nodes are judged. */
  ghost function NodesJudged(nodes: seq<Node>, policy: Policy, now: int, waivers: set<Artifact>): Decision {
    AddAll(Decision(Allow, [], []), AllFindings(nodes, policy, now, waivers))
      .(waived := WaivedArtifacts(nodes, policy, now, waivers))
  }

  /** Every node is judged in full; no finding stops the loop. */
  method EvaluateNodes(a: Assessment, waivers: set<Artifact>) returns (decision: Decision)
    ensures decision == NodesJudged(a.nodes, a.policy, a.now, waivers)
  {
    decision := Decision(Allow, [], []);
    for i := 0 to |a.nodes|
      invariant decision == NodesJudged(a.nodes[..i], a.policy, a.now, waivers)
    {
      var node := a.nodes[i];
      var byClaim;
      NodeTurn(a.nodes, i, a.policy, a.now, waivers);
      decision, byClaim := ScanEvidence(node, a.now, decision);
      decision := CheckClaims(node, a.policy, a.now, waivers, byClaim, decision);
    }
    assert a.nodes[..|a.nodes|] == a.nodes;
  }

  /** One node: both passes over it add exactly its findings, and at most its waiver. */
  lemma NodeTurn(nodes: seq<Node>, i: nat, policy: Policy, now: int, waivers: set<Artifact>)
    requires i < |nodes|
    ensures var n := nodes[i];
      var findings := AllEvidenceFindings(n.artifact, n.evidence, now);
      var scanned := AddAll(NodesJudged(nodes[..i], policy, now, waivers), findings);
      ClaimsChecked(n, VULNERABILITIES + 1, policy, now, waivers, scanned)
      == NodesJudged(nodes[..i + 1], policy, now, waivers)
  {
    var n, start := nodes[i], Decision(Allow, [], []);
    var before := AllFindings(nodes[..i], policy, now, waivers);
    var w := WaivedArtifacts(nodes[..i], policy, now, waivers);
    assert nodes[..i + 1][..i] == nodes[..i];
    NodeAdds(n, policy, now, waivers, start, before, w);
  }

  lemma NodeAdds(n: Node, policy: Policy, now: int, waivers: set<Artifact>, start: Decision, before: seq<Finding>,
                 w: seq<Artifact>)
    ensures
      var scanned := AddAll(AddAll(start, before).(waived := w), AllEvidenceFindings(n.artifact, n.evidence, now));
      && scanned.waived == w
      && forall v :: AddAll(scanned, ClaimsFindings(n, VULNERABILITIES + 1, policy, now, waivers)).(waived := v)
                  == AddAll(start, before + NodeFindings(n, policy, now, waivers)).(waived := v)
  {
    var es := AllEvidenceFindings(n.artifact, n.evidence, now);
    var cs := ClaimsFindings(n, VULNERABILITIES + 1, policy, now, waivers);
    AddAllConcat(start, before, es + cs);
    AddAllConcat(AddAll(start, before), es, cs);
    AddAllKeepsWaived(AddAll(start, before), w, es);
    AddAllKeepsWaived(AddAll(AddAll(start, before), es), w, cs);
    assert NodeFindings(n, policy, now, waivers) == es + cs;
  }
}
