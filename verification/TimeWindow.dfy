/**
 When an assessment allows, as a function of time alone: a half-open interval
 whose ends are read off the assessment; and what that means for a frozen plan
 that is rechecked before every launch.
 */
module TimeWindow {
  import opened Domain
  import opened PolicyGraph
  import opened Evaluation
  import opened Eligibility

  const EVIDENCE_LIFETIME := 3600
  const PLAN_LIFETIME := 600

  /** The part of an item's acceptance that does not look at the clock. */
  predicate TimelesslyEstablishes(e: Evidence, claim: Byte) {
    && e.Valid() && e.claim == claim && e.status == VERIFIED
    && (claim == VULNERABILITIES ==> e.applicability == NO_KNOWN_APPLICABLE_FINDINGS)
    && (claim == PUBLICATION ==> e.publication == VERIFIED_ATTESTATION && 0 < e.publishedAt <= e.observedAt)
  }

  predicate TimelesslyEligible(n: Node) {
    && (forall e <- n.evidence :: WellSubjected(n.artifact, e))
    && forall c: Byte :: METADATA <= c <= VULNERABILITIES ==>
      TimelesslyEstablished(n, c)
  }

  predicate TimelesslyEstablished(n: Node, c: Byte) {
    exists i :: 0 <= i < |n.evidence| && OnlyOne(n.evidence, i) && TimelesslyEstablishes(n.evidence[i], c)
  }

  /** Everything Allow demands except the time. */
  ghost predicate Timeless(a: Assessment) {
    && a.policy.valid && a.binding.Valid()
    && WellFormedGraph(a.targets, a.nodes)
    && (a.exception.Some? ==>
          var x := a.exception.value;
          && x.binding == a.binding && x.issuedAt > 0 && |x.waivers| > 0
          && SoundWaivers(a.nodes, x.waivers) && DistinctWaivers(x.waivers))
    && forall n <- a.nodes :: TimelesslyEligible(n)
  }

  // ---- The ends of the window ----

  ghost function ObservationTimes(a: Assessment): set<int> {
    set n, e | n in a.nodes && e in n.evidence :: e.observedAt
  }

  /** The moments at which unwaived publications become old enough. */
  ghost function MaturityTimes(a: Assessment): set<int> {
    set n, e | n in a.nodes && e in n.evidence && e.claim == PUBLICATION && n.artifact !in WaiversOf(a)
      :: e.publishedAt + a.policy.minimumAgeSeconds
  }

  ghost function ExpiryTimes(a: Assessment): set<int> {
    set n, e | n in a.nodes && e in n.evidence :: e.expiresAt
  }

  ghost function Beginnings(a: Assessment): set<int> {
    {1} + ObservationTimes(a) + MaturityTimes(a) + if a.exception.Some? then {a.exception.value.issuedAt} else {}
  }

  ghost function Endings(a: Assessment): set<int> {
    ExpiryTimes(a) + if a.exception.Some? then {a.exception.value.expiresAt} else {}
  }

  ghost function Greatest(s: set<int>): (m: int)
    requires exists x :: x in s
    ensures m in s && forall x <- s :: x <= m
  {
    var x :| x in s;
    if forall z <- s :: z == x then x
    else
      assert exists z <- s :: z in s - {x};
      var y := Greatest(s - {x});
      assert forall z <- s :: z == x || z in s - {x};
      if x < y then y else x
  }

  ghost function Least(s: set<int>): (m: int)
    requires exists x :: x in s
    ensures m in s && forall x <- s :: m <= x
  {
    var x :| x in s;
    if forall z <- s :: z == x then x
    else
      assert exists z <- s :: z in s - {x};
      var y := Least(s - {x});
      assert forall z <- s :: z == x || z in s - {x};
      if x < y then x else y
  }

  ghost function WindowStart(a: Assessment): int {
    assert 1 in Beginnings(a);
    Greatest(Beginnings(a))
  }

  ghost function WindowEnd(a: Assessment): int {
    if exists b :: b in Endings(a) then Least(Endings(a)) else 0
  }

  // ---- Splitting acceptance into a timeless part and bounds ----

  predicate InItsTime(n: Node, e: Evidence, policy: Policy, t: int, waivers: set<Artifact>) {
    && e.observedAt <= t < e.expiresAt
    && (e.claim == PUBLICATION && n.artifact !in waivers ==> e.publishedAt + policy.minimumAgeSeconds <= t)
  }

  lemma EstablishesInTime(n: Node, e: Evidence, c: Byte, policy: Policy, t: int, waivers: set<Artifact>)
    ensures Establishes(e, c, policy, t, n.artifact in waivers)
       <==> TimelesslyEstablishes(e, c) && InItsTime(n, e, policy, t, waivers)
  {
  }

  lemma NodeInTime(n: Node, policy: Policy, t: int, waivers: set<Artifact>)
    ensures NodeEligible(n, policy, t, waivers)
       <==> TimelesslyEligible(n) && forall e <- n.evidence :: InItsTime(n, e, policy, t, waivers)
  {
    if NodeEligible(n, policy, t, waivers) {
      NodeEligibleIsInTime(n, policy, t, waivers);
    }
    if TimelesslyEligible(n) && forall e <- n.evidence :: InItsTime(n, e, policy, t, waivers) {
      forall c: Byte | METADATA <= c <= VULNERABILITIES
        ensures ClaimEstablished(n, c, policy, t, n.artifact in waivers)
      {
        assert TimelesslyEstablished(n, c);
        var i :| 0 <= i < |n.evidence| && OnlyOne(n.evidence, i) && TimelesslyEstablishes(n.evidence[i], c);
        EstablishesInTime(n, n.evidence[i], c, policy, t, waivers);
      }
    }
  }

  lemma NodeEligibleIsInTime(n: Node, policy: Policy, t: int, waivers: set<Artifact>)
    requires NodeEligible(n, policy, t, waivers)
    ensures TimelesslyEligible(n) && forall e <- n.evidence :: InItsTime(n, e, policy, t, waivers)
  {
    forall c: Byte | METADATA <= c <= VULNERABILITIES
      ensures TimelesslyEstablished(n, c)
    {
      assert ClaimEstablished(n, c, policy, t, n.artifact in waivers);
      var i :| 0 <= i < |n.evidence| && OnlyOne(n.evidence, i)
               && Establishes(n.evidence[i], c, policy, t, n.artifact in waivers);
      EstablishesInTime(n, n.evidence[i], c, policy, t, waivers);
    }
    forall e | e in n.evidence
      ensures InItsTime(n, e, policy, t, waivers)
    {
      var k :| 0 <= k < |n.evidence| && n.evidence[k] == e;
      assert ClaimEstablished(n, e.claim, policy, t, n.artifact in waivers);
      var i :| 0 <= i < |n.evidence| && OnlyOne(n.evidence, i)
               && Establishes(n.evidence[i], e.claim, policy, t, n.artifact in waivers);
      assert i == k;
      EstablishesInTime(n, e, e.claim, policy, t, waivers);
    }
  }

  predicate AllInTheirTime(a: Assessment, t: int) {
    forall n <- a.nodes :: forall e <- n.evidence :: InItsTime(n, e, a.policy, t, WaiversOf(a))
  }

  lemma OneItemsTimes(a: Assessment, n: Node, e: Evidence)
    requires n in a.nodes && e in n.evidence
    ensures e.observedAt in ObservationTimes(a) && e.expiresAt in ExpiryTimes(a)
    ensures e.claim == PUBLICATION && n.artifact !in WaiversOf(a)
        ==> e.publishedAt + a.policy.minimumAgeSeconds in MaturityTimes(a)
  {
  }

  lemma EvidenceTimesBound(a: Assessment, t: int)
    ensures AllInTheirTime(a, t)
       <==> && (forall b <- ObservationTimes(a) + MaturityTimes(a) :: b <= t)
            && (forall b <- ExpiryTimes(a) :: t < b)
  {
    if (forall b <- ObservationTimes(a) + MaturityTimes(a) :: b <= t) && (forall b <- ExpiryTimes(a) :: t < b) {
      forall n, e | n in a.nodes && e in n.evidence
        ensures InItsTime(n, e, a.policy, t, WaiversOf(a))
      {
        OneItemsTimes(a, n, e);
      }
    }
  }

  lemma EligibleInTime(a: Assessment, t: int)
    ensures Eligible(a.(now := t))
       <==> && Timeless(a) && t > 0 && AllInTheirTime(a, t)
            && (a.exception.Some? ==> ExceptionInterval(a.exception.value, t))
  {
    forall n | n in a.nodes
      ensures NodeEligible(n, a.policy, t, WaiversOf(a))
         <==> TimelesslyEligible(n) && forall e <- n.evidence :: InItsTime(n, e, a.policy, t, WaiversOf(a))
    {
      NodeInTime(n, a.policy, t, WaiversOf(a));
    }
  }

  lemma TimelessHasEnd(a: Assessment)
    requires Timeless(a)
    ensures exists b :: b in Endings(a)
  {
    var n := a.nodes[0];
    assert TimelesslyEligible(n);
    assert TimelesslyEstablished(n, METADATA);
    var i :| 0 <= i < |n.evidence| && OnlyOne(n.evidence, i) && TimelesslyEstablishes(n.evidence[i], METADATA);
    assert n.evidence[i].expiresAt in Endings(a);
  }

  lemma WindowIsBounds(a: Assessment, t: int)
    requires exists b :: b in Endings(a)
    ensures WindowStart(a) <= t <==> forall b <- Beginnings(a) :: b <= t
    ensures t < WindowEnd(a) <==> forall b <- Endings(a) :: t < b
  {
  }

  lemma BoundsOfWindow(a: Assessment, t: int)
    requires Timeless(a)
    ensures WindowStart(a) <= t < WindowEnd(a)
       <==> && t > 0 && AllInTheirTime(a, t)
            && (a.exception.Some? ==> ExceptionInterval(a.exception.value, t))
  {
    TimelessHasEnd(a);
    WindowIsBounds(a, t);
    EvidenceTimesBound(a, t);
    BeginningsBound(a, t);
    EndingsBound(a, t);
  }

  lemma BeginningsBound(a: Assessment, t: int)
    ensures (forall b <- Beginnings(a) :: b <= t)
       <==> && 1 <= t && (forall b <- ObservationTimes(a) + MaturityTimes(a) :: b <= t)
            && (a.exception.Some? ==> a.exception.value.issuedAt <= t)
  {
    var xs := if a.exception.Some? then {a.exception.value.issuedAt} else {};
    var rest := ObservationTimes(a) + MaturityTimes(a);
    assert forall b :: b in Beginnings(a) <==> b == 1 || b in rest || b in xs;
  }

  lemma EndingsBound(a: Assessment, t: int)
    ensures (forall b <- Endings(a) :: t < b)
       <==> (forall b <- ExpiryTimes(a) :: t < b) && (a.exception.Some? ==> t < a.exception.value.expiresAt)
  {
    var ys := if a.exception.Some? then {a.exception.value.expiresAt} else {};
    assert forall b :: b in Endings(a) <==> b in ExpiryTimes(a) || b in ys;
  }

  /** With all else fixed, the times at which the evaluator allows are exactly [WindowStart, WindowEnd). */
  lemma AllowedExactlyInWindow(a: Assessment, t: int)
    ensures Decide(a.(now := t)).outcome.Allow? <==> Timeless(a) && WindowStart(a) <= t < WindowEnd(a)
  {
    OutcomeMeaning(a.(now := t));
    EligibleInTime(a, t);
    if Timeless(a) {
      BoundsOfWindow(a, t);
    }
  }

  // ---- Rechecks inside the window of a frozen plan ----

  /** The recheck before every launch: inside the plan's window, and still allowed. */
  ghost predicate ExecutionAllowed(a: Assessment, issuedAt: int, expiresAt: int, t: int) {
    issuedAt <= t < expiresAt && Decide(a.(now := t)).outcome.Allow?
  }

  /**
   Once a recheck has passed, every later one inside the plan's window passes too,
   exactly when no piece of evidence and no exception runs out before the plan does.
   */
  lemma StaysAllowedIff(a: Assessment, issuedAt: int, expiresAt: int, t0: int)
    requires ExecutionAllowed(a, issuedAt, expiresAt, t0)
    ensures (forall t :: t0 <= t < expiresAt ==> ExecutionAllowed(a, issuedAt, expiresAt, t))
       <==> forall b <- Endings(a) :: expiresAt <= b
  {
    AllowedExactlyInWindow(a, t0);
    TimelessHasEnd(a);
    forall t
      ensures Decide(a.(now := t)).outcome.Allow? <==> WindowStart(a) <= t < WindowEnd(a)
    {
      AllowedExactlyInWindow(a, t);
    }
    if WindowEnd(a) < expiresAt {
      assert !ExecutionAllowed(a, issuedAt, expiresAt, WindowEnd(a));
    }
  }

  /** A plan as it is built: evidence lives an hour, the plan ten minutes and no longer than the evidence. */
  predicate BuiltPlan(a: Assessment, observedAt: int, issuedAt: int, expiresAt: int) {
    && expiresAt == (if issuedAt + PLAN_LIFETIME < observedAt + EVIDENCE_LIFETIME
                     then issuedAt + PLAN_LIFETIME else observedAt + EVIDENCE_LIFETIME)
    && (forall n <- a.nodes :: forall e <- n.evidence :: e.expiresAt == observedAt + EVIDENCE_LIFETIME)
    && (a.exception.Some? ==> a.exception.value.issuedAt == issuedAt && a.exception.value.expiresAt == expiresAt)
  }

  /** A plan allowed once inside its window stays allowed until the window closes. */
  lemma BuiltPlanStaysAllowed(a: Assessment, observedAt: int, issuedAt: int, expiresAt: int, t0: int, t: int)
    requires BuiltPlan(a, observedAt, issuedAt, expiresAt)
    requires ExecutionAllowed(a, issuedAt, expiresAt, t0) && t0 <= t < expiresAt
    ensures ExecutionAllowed(a, issuedAt, expiresAt, t)
  {
    StaysAllowedIff(a, issuedAt, expiresAt, t0);
    forall b | b in Endings(a)
      ensures expiresAt <= b
    {
      if b in ExpiryTimes(a) {
        var n, e :| n in a.nodes && e in n.evidence && e.expiresAt == b;
      }
    }
  }
}
