/**
 The parts joined: what the collector accepts, the policy graph accepts; what the
 policy allows, the scheduler finishes; and what it finishes is recognised as done.
 */
module EndToEnd {
  import opened Domain
  import F = Formulae
  import M = Metadata
  import opened PolicyGraph
  import E = Evaluation
  import opened Eligibility
  import opened CollectedPlan
  import opened Scheduler
  import opened ScheduleOrder
  import opened InstalledState
  import opened AfterRun
  import opened PreparedPlan
  import opened Session
  import opened Application
  import T = TimeWindow

  /** The plan was built from accepted metadata and from the state observed before it. */
  ghost predicate Collected(
    doc: M.Document, names: seq<string>, candidates: seq<F.Formula>, plan: ExecutionPlan, request: Request,
    before: World)
  {
    && M.Acceptable(doc, names)
    && F.SortedByName(candidates) && (forall f :: f in candidates <==> f in doc.formulae)
    && Assembled(candidates, plan.nodes)
    && plan.targets == NodesAmong(names, plan.nodes)
    && ActionsFor(before, plan.nodes, request) == Some(plan.actions)
    && NamesItself(before)
  }

  /** The observation reports the world for every node of the plan. */
  predicate Observes(states: seq<InstalledFormula>, world: World, nodes: seq<Node>) {
    && |states| == |nodes| && DistinctStates(states)
    && forall n <- nodes :: n.artifact.name in world && n.artifact.name in ByName(states)
                            && ByName(states)[n.artifact.name] == world[n.artifact.name]
  }

  lemma {:induction false} ActionsSeeOnlyTheNodes(some: World, other: World, nodes: seq<Node>, request: Request)
    requires forall n <- nodes ::
      n.artifact.name in some && n.artifact.name in other && some[n.artifact.name] == other[n.artifact.name]
    ensures ActionsFor(some, nodes, request) == ActionsFor(other, nodes, request)
  {
    if nodes != [] {
      ActionsSeeOnlyTheNodes(some, other, nodes[..|nodes| - 1], request);
    }
  }

  /** A collected plan is well formed and its schedule covers every pending action. */
  lemma CollectedPlanIsScheduled(
    doc: M.Document, names: seq<string>, candidates: seq<F.Formula>, plan: ExecutionPlan, request: Request,
    before: World)
    requires Collected(doc, names, candidates, plan, request, before)
    ensures WellFormedGraph(plan.targets, plan.nodes)
    ensures ActionsMatch(plan.actions, plan.nodes)
    ensures Filed(Pending(plan.actions))
    ensures Enumerates(Schedule(plan.nodes, FiledPending(plan.actions)), Pending(plan.actions))
    ensures DependenciesFirst(Schedule(plan.nodes, FiledPending(plan.actions)), plan.nodes, Pending(plan.actions))
  {
    CollectedPlanIsWellFormed(doc, names, candidates, plan.nodes);
    ActionsForMeans(before, plan.nodes, request);
    AllowedPlanIsScheduled(plan.targets, plan.nodes, plan.actions);
  }

  // ---- A collected plan succeeds ----

  /** The plan as the collector times it: evidence that lasts an hour, and a plan that lasts no longer. */
  predicate Timed(plan: ExecutionPlan, observedAt: int) {
    && plan.expiresAt == (if plan.issuedAt + T.PLAN_LIFETIME < observedAt + T.EVIDENCE_LIFETIME
                          then plan.issuedAt + T.PLAN_LIFETIME else observedAt + T.EVIDENCE_LIFETIME)
    && forall n <- plan.nodes :: forall e <- n.evidence :: e.expiresAt == observedAt + T.EVIDENCE_LIFETIME
  }

  /** The digest of an exception, where there is one, has the form of a digest. */
  predicate Identified(p: Platform, plan: ExecutionPlan) {
    var original := Original(p, plan);
    original.assessment.exception.Some? ==> ValidDigest(original.exceptionID)
  }

  predicate Unchanged(observed: Option<Observation>, plan: ExecutionPlan) {
    observed.Some? && observed.value.digest == plan.beforeState
  }

  /** Nobody cancels, and at both readings files and installation are as they were when the plan was made. */
  predicate Undisturbed(p: Platform, plan: ExecutionPlan, s: Surroundings) {
    && !s.canceledFirst && !s.canceledSecond
    && Frozen(p, s.revalidationFiles, plan) && Unchanged(s.revalidationState, plan)
    && Frozen(p, s.runFiles, plan) && Unchanged(s.runState, plan)
  }

  /** An undisturbed plan that policy allows at the start passes every gate, and its run goes through. */
  lemma AllowedPlanGoesThrough(p: Platform, plan: ExecutionPlan, observedAt: int, s: Surroundings)
    requires RoundTrips(p) && ValidPlan(p, plan) && Identified(p, plan)
    requires Timed(plan, observedAt) && Permitted(plan, Original(p, plan).assessment, s.now)
    requires Undisturbed(p, plan, s) && s.now <= s.runClock < plan.expiresAt && InTime(plan, s.runClock, s.world)
    ensures Admitted(p, Original(p, plan), Original(p, plan), false, s)
    ensures RunsThrough(p, plan, Original(p, plan), s)
  {
    var a := Original(p, plan).assessment;
    FrozenIsRead(p, s.revalidationFiles, plan);
    FrozenIsRead(p, s.runFiles, plan);
    T.BuiltPlanStaysAllowed(a, observedAt, plan.issuedAt, plan.expiresAt, s.now, s.runClock);
    BuiltPlanRunsSmoothly(plan, a, observedAt, s.runClock, s.world);
  }

  /** The observation after a run of a collected plan in which each command did what it is for. */
  ghost predicate CarriedOutAndSeen(worlds: seq<World>, plan: ExecutionPlan, after: Option<Observation>) {
    && |worlds| > 0 && Run(worlds, plan.nodes, WholeSchedule(plan))
    && after.Some? && ValidDigest(after.value.digest)
    && Observes(after.value.states, worlds[|worlds| - 1], plan.nodes)
  }

  /** What a run of a collected plan leaves behind is recognised exactly when there was room to record it. */
  lemma CollectedPlanIsVerified(
    doc: M.Document, names: seq<string>, candidates: seq<F.Formula>, plan: ExecutionPlan, request: Request,
    worlds: seq<World>, s: Surroundings)
    requires CarriedOutAndSeen(worlds, plan, s.after)
    requires Collected(doc, names, candidates, plan, request, worlds[0])
    ensures |plan.actions| == |plan.nodes|
    ensures Verified(plan, s) <==> RoomToRecord(worlds[0], Schedulable(plan))
  {
    var after := s.after.value;
    CollectedPlanIsScheduled(doc, names, candidates, plan, request, worlds[0]);
    KegsAreNamed(plan);
    var later := AfterRequest(plan.actions, plan.targets);
    ActionsSeeOnlyTheNodes(ByName(after.states), worlds[|worlds| - 1], plan.nodes, later);
    MatchesExactlyWithRoom(worlds, Schedulable(plan), request);
    AllKeepMeans(after.states, plan.nodes, later);
  }

  // ---- Any plan at all ----

  /**
   The plan has a node of this name that is old enough at this time by the plan's own minimum age, going by
   the one publication item it has; unless a waiver of the plan excuses it.
   */
  predicate OldEnough(plan: ExecutionPlan, name: string, t: int) {
    exists n <- plan.nodes :: n.artifact.name == name && (Excused(plan, n) || PublishedBy(n, t - plan.minimumAge))
  }

  /**
   The plan's own window is open, its own assessment is eligible at this moment, and the runtime is the
   reviewed one.
   */
  ghost predicate InWindow(p: Platform, plan: ExecutionPlan, m: Moment) {
    plan.issuedAt <= m.now < plan.expiresAt && Eligible(Original(p, plan).assessment.(now := m.now)) && m.runtimeOk
  }

  lemma PermittedInWindow(p: Platform, plan: ExecutionPlan, m: Moment)
    requires MayLaunch(Schedulable(plan), Original(p, plan).assessment, m)
    ensures InWindow(p, plan, m)
  {
    OutcomeMeaning(Original(p, plan).assessment.(now := m.now));
  }

  lemma LaunchesAreInWindow(p: Platform, plan: ExecutionPlan, world: nat -> Moment, launched: seq<Launch>)
    requires LaunchedUnderPolicy(p, plan, world, launched)
    ensures forall i {:trigger world(i)} :: 0 <= i < |launched| ==> InWindow(p, plan, world(i))
  {
    forall i {:trigger world(i)} | 0 <= i < |launched| ensures InWindow(p, plan, world(i)) {
      PermittedInWindow(p, plan, world(i));
    }
  }

  predicate Excused(plan: ExecutionPlan, n: Node) {
    exists w <- plan.waivers :: w.artifact == n.artifact
  }

  predicate PublishedBy(n: Node, t: int) {
    exists i | 0 <= i < |n.evidence| ::
      && n.evidence[i].subject == n.artifact && n.evidence[i].claim == PUBLICATION
      && n.evidence[i].status == VERIFIED && n.evidence[i].publication == VERIFIED_ATTESTATION
      && 0 < n.evidence[i].publishedAt <= t
      && forall j | 0 <= j < |n.evidence| && j != i :: n.evidence[j].claim != PUBLICATION
  }

  lemma LaunchesAreOldEnough(p: Platform, plan: ExecutionPlan, world: nat -> Moment, launched: seq<Launch>)
    requires LaunchedUnderPolicy(p, plan, world, launched)
    ensures forall i :: 0 <= i < |launched| ==> OldEnough(plan, launched[i].name, world(i).now)
  {
    var a := Original(p, plan).assessment;
    forall i | 0 <= i < |launched| ensures OldEnough(plan, launched[i].name, world(i).now) {
      var now := world(i).now;
      assert EligibleLaunch(plan, a.(now := now), world, launched, i);
      var n :| n in plan.nodes && n.artifact.name == launched[i].name && NodeEligible(n, a.policy, now, E.WaiversOf(a));
      EligibleIsOldEnough(p, plan, n, now);
    }
  }

  lemma EligibleIsOldEnough(p: Platform, plan: ExecutionPlan, n: Node, now: int)
    requires var a := Original(p, plan).assessment; NodeEligible(n, a.policy, now, E.WaiversOf(a))
    ensures Excused(plan, n) || PublishedBy(n, now - plan.minimumAge)
  {
    var a := Original(p, plan).assessment;
    assert ClaimEstablished(n, PUBLICATION, a.policy, now, n.artifact in E.WaiversOf(a));
    var i :| 0 <= i < |n.evidence| && OnlyOne(n.evidence, i)
             && Establishes(n.evidence[i], PUBLICATION, a.policy, now, n.artifact in E.WaiversOf(a));
    assert n.evidence[i] in n.evidence;
  }

  /** Before anything is launched the plan was read twice as it was written, and found eligible both times. */
  lemma LaunchNeeds(p: Platform, plan: ExecutionPlan, s: Surroundings)
    requires Injective(p.digest) && RoundTrips(p)
    requires Admitted(p, Original(p, plan), Original(p, plan), false, s) && MayStart(p, plan, Original(p, plan), s)
    ensures Undisturbed(p, plan, s) && s.now < plan.expiresAt && plan.issuedAt <= s.runClock < plan.expiresAt
    ensures Eligible(Original(p, plan).assessment.(now := s.now))
    ensures Eligible(Original(p, plan).assessment.(now := s.runClock))
  {
    var a := Original(p, plan).assessment;
    ReadingIsOriginal(p, s.revalidationFiles, plan);
    ReadingIsOriginal(p, s.runFiles, plan);
    OutcomeMeaning(a.(now := s.now));
    OutcomeMeaning(a.(now := s.runClock));
  }

  /**
   Planning and execution in one, for any plan and whatever surrounds it. Only a valid plan launches
   anything; every launch is of a node that policy holds eligible at that moment; and success is
   reported exactly when the plan's own gates pass, its run goes through and its result is verified.
   */
  method PlanAndExecute(p: Platform, plan: ExecutionPlan, s: Surroundings)
      returns (result: Execution, failed: bool, launched: seq<Launch>)
    ensures launched <= WholeSchedule(plan) && EarlierSucceeded(s.world, |launched|)
    ensures launched != [] ==> ValidPlan(p, plan)
    ensures Injective(p.digest) && RoundTrips(p) ==> LaunchedUnderPolicy(p, plan, s.world, launched)
    ensures Injective(p.digest) && RoundTrips(p) ==>
      forall i :: 0 <= i < |launched| ==> OldEnough(plan, launched[i].name, s.world(i).now)
    ensures Injective(p.digest) && RoundTrips(p) ==>
      forall i {:trigger s.world(i)} :: 0 <= i < |launched| ==> InWindow(p, plan, s.world(i))
    ensures Injective(p.digest) && RoundTrips(p) && launched != [] ==>
      && Undisturbed(p, plan, s) && s.now < plan.expiresAt && plan.issuedAt <= s.runClock < plan.expiresAt
      && Eligible(Original(p, plan).assessment.(now := s.now))
      && Eligible(Original(p, plan).assessment.(now := s.runClock))
    ensures result.outcome.AttemptSucceeded? <==> !failed
    ensures AllHonest(s.world, |launched|) ==>
      (!failed <==>
        && ValidPlan(p, plan) && Admitted(p, Original(p, plan), Original(p, plan), false, s)
        && RunsThrough(p, plan, Original(p, plan), s) && Verified(plan, s) && s.released)
    ensures CarriesOut(Schedulable(plan), Pending(plan.actions), launched)
    ensures s.released ==> BlameIsExact(Original(p, plan), result.outcome, launched, s)
    ensures !s.released && ValidPlan(p, plan) ==> result.outcome.AttemptUnknown?
    ensures ValidPlan(p, plan) && Admitted(p, Original(p, plan), Original(p, plan), false, s) ==>
      !result.outcome.NotAttempted?
    ensures (ValidPlan(p, plan) && Admitted(p, Original(p, plan), Original(p, plan), false, s)
             && RunsThrough(p, plan, Original(p, plan), s)) ==> launched == WholeSchedule(plan)
  {
    var session := OpenSession(p, plan);
    if session == null {
      return Execution(None, NotAttempted, false, 0), true, [];
    }
    result, failed, launched := Execute(session.prepared, session, s);
    if Injective(p.digest) && RoundTrips(p) {
      LaunchesAreOldEnough(p, plan, s.world, launched);
      LaunchesAreInWindow(p, plan, s.world, launched);
      if launched != [] { LaunchNeeds(p, plan, s); }
    }
  }

  /**
   A collected plan that policy allows, undisturbed and in time, by commands that do what they are
   for, is launched in full, and reported a success exactly when there was room to record it.
   */
  method ExecuteCollected(
    p: Platform, plan: ExecutionPlan, s: Surroundings, ghost observedAt: int, ghost doc: M.Document,
    ghost names: seq<string>, ghost candidates: seq<F.Formula>, ghost request: Request, ghost worlds: seq<World>)
      returns (result: Execution, launched: seq<Launch>)
    requires RoundTrips(p) && ValidPlan(p, plan) && Identified(p, plan)
    requires Timed(plan, observedAt) && Permitted(plan, Original(p, plan).assessment, s.now)
    requires Undisturbed(p, plan, s) && s.now <= s.runClock < plan.expiresAt
    requires InTime(plan, s.runClock, s.world) && s.released
    requires CarriedOutAndSeen(worlds, plan, s.after)
    requires Collected(doc, names, candidates, plan, request, worlds[0])
    ensures launched == WholeSchedule(plan) && (Injective(p.digest) ==> LaunchedUnderPolicy(p, plan, s.world, launched))
    ensures result.outcome == if RoomToRecord(worlds[0], Schedulable(plan)) then AttemptSucceeded else AttemptUnknown
  {
    AllowedPlanGoesThrough(p, plan, observedAt, s);
    CollectedPlanIsVerified(doc, names, candidates, plan, request, worlds, s);
    CollectedPlanIsScheduled(doc, names, candidates, plan, request, worlds[0]);
    var failed;
    result, failed, launched := PlanAndExecute(p, plan, s);
    assert forall i {:trigger s.world(i)} :: 0 <= i < |launched| ==> Scheduler.Succeeded(s.world(i).result);
  }

  lemma KegsAreNamed(plan: ExecutionPlan)
    requires AdmissibleNodes(plan.nodes)
    ensures forall n <- plan.nodes :: Keg(n.artifact) != ""
  {
    forall n | n in plan.nodes
      ensures Keg(n.artifact) != ""
    {
      KegIsNamed(n.artifact);
    }
  }
}
