/**
 The exact effect of an age exception: it removes the too-young reasons of the
 waived artifacts, lists those artifacts, and changes nothing else.
 */
module AgeException {
  import opened Domain
  import opened Evaluation
  import opened Eligibility

  predicate Waivable(r: Reason, waivers: set<Artifact>) {
    r.code == ReleaseTooYoung && r.artifact in waivers
  }

  function ReasonsOf(fs: seq<Finding>): seq<Reason> {
    if fs == [] then [] else ReasonsOf(fs[..|fs| - 1]) + [fs[|fs| - 1].reason]
  }

  /** The reasons an exception leaves standing, in order. */
  function Remaining(rs: seq<Reason>, waivers: set<Artifact>): seq<Reason> {
    if rs == [] then []
    else
      var last := rs[|rs| - 1];
      Remaining(rs[..|rs| - 1], waivers) + if Waivable(last, waivers) then [] else [last]
  }

  /** The artifacts of the reasons an exception removes, in order. */
  function Removed(rs: seq<Reason>, waivers: set<Artifact>): seq<Artifact> {
    if rs == [] then []
    else
      var last := rs[|rs| - 1];
      Removed(rs[..|rs| - 1], waivers) + if Waivable(last, waivers) then [last.artifact] else []
  }

  lemma {:induction false} ReasonsConcat(fs: seq<Finding>, gs: seq<Finding>)
    ensures ReasonsOf(fs + gs) == ReasonsOf(fs) + ReasonsOf(gs)
  {
    if gs == [] {
      assert fs + gs == fs;
    } else {
      assert (fs + gs)[..|fs + gs| - 1] == fs + gs[..|gs| - 1];
      ReasonsConcat(fs, gs[..|gs| - 1]);
    }
  }

  lemma {:induction false} SplitConcat(xs: seq<Reason>, ys: seq<Reason>, waivers: set<Artifact>)
    ensures Remaining(xs + ys, waivers) == Remaining(xs, waivers) + Remaining(ys, waivers)
    ensures Removed(xs + ys, waivers) == Removed(xs, waivers) + Removed(ys, waivers)
  {
    if ys == [] {
      assert xs + ys == xs;
    } else {
      assert (xs + ys)[..|xs + ys| - 1] == xs + ys[..|ys| - 1];
      SplitConcat(xs, ys[..|ys| - 1], waivers);
    }
  }

  lemma {:induction false} AddAllSpells(fs: seq<Finding>)
    ensures AddAll(Decision(Allow, [], []), fs).reasons == ReasonsOf(fs)
  {
    if fs != [] {
      AddAllSpells(fs[..|fs| - 1]);
    }
  }

  lemma {:induction false} EvidenceUntouched(a: Artifact, es: seq<Evidence>, now: int, waivers: set<Artifact>)
    ensures var rs := ReasonsOf(AllEvidenceFindings(a, es, now));
      Remaining(rs, waivers) == rs && Removed(rs, waivers) == []
  {
    if es != [] {
      var init, last := es[..|es| - 1], es[|es| - 1];
      EvidenceUntouched(a, init, now, waivers);
      ReasonsConcat(AllEvidenceFindings(a, init, now), EvidenceFindings(a, last, now));
      SplitConcat(ReasonsOf(AllEvidenceFindings(a, init, now)), ReasonsOf(EvidenceFindings(a, last, now)), waivers);
      OneEvidenceUntouched(a, last, now, waivers);
    }
  }

  lemma OneEvidenceUntouched(a: Artifact, e: Evidence, now: int, waivers: set<Artifact>)
    ensures var rs := ReasonsOf(EvidenceFindings(a, e, now)); Remaining(rs, waivers) == rs && Removed(rs, waivers) == []
  {
    var fs := EvidenceFindings(a, e, now);
    assert |fs| <= 1;
    if |fs| == 1 {
      SingleReason(fs[0]);
      assert fs == [fs[0]];
    }
  }

  lemma SingleReason(f: Finding)
    ensures ReasonsOf([f]) == [f.reason]
    ensures forall w :: Remaining([f.reason], w) == if Waivable(f.reason, w) then [] else [f.reason]
    ensures forall w :: Removed([f.reason], w) == if Waivable(f.reason, w) then [f.reason.artifact] else []
  {
    assert [f][..0] == [] && [f.reason][..0] == [];
  }

  /** with is what remains of without once the artifacts in removed are taken out. */
  predicate Split(with: seq<Finding>, without: seq<Finding>, removed: seq<Artifact>, waivers: set<Artifact>) {
    && ReasonsOf(with) == Remaining(ReasonsOf(without), waivers)
    && removed == Removed(ReasonsOf(without), waivers)
  }

  lemma SplitsJoin(w0: seq<Finding>, o0: seq<Finding>, r0: seq<Artifact>,
                   w1: seq<Finding>, o1: seq<Finding>, r1: seq<Artifact>, waivers: set<Artifact>)
    requires Split(w0, o0, r0, waivers) && Split(w1, o1, r1, waivers)
    ensures Split(w0 + w1, o0 + o1, r0 + r1, waivers)
  {
    ReasonsConcat(w0, w1);
    ReasonsConcat(o0, o1);
    SplitConcat(ReasonsOf(o0), ReasonsOf(o1), waivers);
  }

  function AgeWaived(n: Node, c: Byte, policy: Policy, now: int, waivers: set<Artifact>): seq<Artifact> {
    if WaivesAge(n, c, policy, now, waivers) then [n.artifact] else []
  }

  lemma ClaimSplit(n: Node, c: Byte, policy: Policy, now: int, waivers: set<Artifact>)
    ensures Split(ClaimFindings(n, c, policy, now, waivers), ClaimFindings(n, c, policy, now, {}),
                  AgeWaived(n, c, policy, now, waivers), waivers)
  {
    var code := ClaimReason(n, c, policy, now);
    if code.Some? {
      SingleReason(Finding(Hold, Reason(code.value, n.artifact, c)));
      TooYoungIsPublication(n, c, policy, now);
    }
  }

  lemma TooYoungIsPublication(n: Node, c: Byte, policy: Policy, now: int)
    ensures ClaimReason(n, c, policy, now) == Some(ReleaseTooYoung) ==> c == PUBLICATION
  {
  }

  /** What has been waived below a limit. */
  function WaivedBelow(n: Node, limit: Byte, policy: Policy, now: int, waivers: set<Artifact>): seq<Artifact> {
    if limit > PUBLICATION then AgeWaived(n, PUBLICATION, policy, now, waivers) else []
  }

  lemma WaivedBelowStep(n: Node, c: Byte, policy: Policy, now: int, waivers: set<Artifact>)
    requires c < 255
    ensures WaivedBelow(n, c + 1, policy, now, waivers) ==
      WaivedBelow(n, c, policy, now, waivers) + AgeWaived(n, c, policy, now, waivers)
  {
  }

  lemma {:induction false} ClaimsSplit(n: Node, limit: Byte, policy: Policy, now: int, waivers: set<Artifact>)
    ensures Split(ClaimsFindings(n, limit, policy, now, waivers), ClaimsFindings(n, limit, policy, now, {}),
                  WaivedBelow(n, limit, policy, now, waivers), waivers)
    decreases limit
  {
    if limit > METADATA {
      var c: Byte := limit - 1;
      ClaimsSplit(n, c, policy, now, waivers);
      ClaimSplit(n, c, policy, now, waivers);
      WaivedBelowStep(n, c, policy, now, waivers);
      SplitsJoin(
        ClaimsFindings(n, c, policy, now, waivers), ClaimsFindings(n, c, policy, now, {}),
        WaivedBelow(n, c, policy, now, waivers),
        ClaimFindings(n, c, policy, now, waivers), ClaimFindings(n, c, policy, now, {}),
        AgeWaived(n, c, policy, now, waivers), waivers);
    }
  }

  lemma NodeSplit(n: Node, policy: Policy, now: int, waivers: set<Artifact>)
    ensures Split(NodeFindings(n, policy, now, waivers), NodeFindings(n, policy, now, {}),
                  AgeWaived(n, PUBLICATION, policy, now, waivers), waivers)
  {
    var es := AllEvidenceFindings(n.artifact, n.evidence, now);
    EvidenceUntouched(n.artifact, n.evidence, now, waivers);
    ClaimsSplit(n, VULNERABILITIES + 1, policy, now, waivers);
    SplitsJoin(es, es, [], ClaimsFindings(n, VULNERABILITIES + 1, policy, now, waivers),
               ClaimsFindings(n, VULNERABILITIES + 1, policy, now, {}), AgeWaived(n, PUBLICATION, policy, now, waivers),
               waivers);
    assert [] + AgeWaived(n, PUBLICATION, policy, now, waivers) == AgeWaived(n, PUBLICATION, policy, now, waivers);
  }

  lemma {:induction false} NodesSplit(nodes: seq<Node>, policy: Policy, now: int, waivers: set<Artifact>)
    ensures Split(AllFindings(nodes, policy, now, waivers), AllFindings(nodes, policy, now, {}),
                  WaivedArtifacts(nodes, policy, now, waivers), waivers)
  {
    if nodes != [] {
      var init, last := nodes[..|nodes| - 1], nodes[|nodes| - 1];
      NodesSplit(init, policy, now, waivers);
      NodeSplit(last, policy, now, waivers);
      SplitsJoin(AllFindings(init, policy, now, waivers), AllFindings(init, policy, now, {}),
                 WaivedArtifacts(init, policy, now, waivers),
                 NodeFindings(last, policy, now, waivers), NodeFindings(last, policy, now, {}),
                 AgeWaived(last, PUBLICATION, policy, now, waivers), waivers);
    }
  }

  /**
   A valid exception removes exactly the too-young reasons of the artifacts it waives, and reports
   those artifacts.
   */
  lemma ExceptionRemovesExactlyTooYoung(a: Assessment)
    requires Admissible(a) && a.exception.Some?
    ensures
      var without := Decide(a.(exception := None));
      && Decide(a).reasons == Remaining(without.reasons, WaiversOf(a))
      && Decide(a).waived == Removed(without.reasons, WaiversOf(a))
      && without.waived == []
  {
    var b := a.(exception := None);
    AdmissibleOrRefused(a);
    AdmissibleOrRefused(b);
    NodesSplit(a.nodes, a.policy, a.now, WaiversOf(a));
    NothingWaived(a.nodes, a.policy, a.now);
    AddAllSpells(AllFindings(a.nodes, a.policy, a.now, WaiversOf(a)));
    AddAllSpells(AllFindings(a.nodes, a.policy, a.now, {}));
  }

  lemma {:induction false} NothingWaived(nodes: seq<Node>, policy: Policy, now: int)
    ensures WaivedArtifacts(nodes, policy, now, {}) == []
  {
    if nodes != [] {
      NothingWaived(nodes[..|nodes| - 1], policy, now);
    }
  }
}
