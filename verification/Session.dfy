/**
 The one-use execution session: what it is opened on, what its one run launches and reports, and its close.
 */
module Session {
  import opened Domain
  import opened PolicyGraph
  import E = Evaluation
  import T = TimeWindow
  import opened Eligibility
  import opened Scheduler
  import opened ScheduleOrder
  import opened InstalledState
  import opened AfterRun
  import opened PreparedPlan

  /** One reading of the installed state, and the digest it is saved under. */
  datatype Observation = Observation(states: seq<InstalledFormula>, digest: Digest)

  datatype ExecutionResult = ExecutionResult(exitKnown: bool, exitCode: int, afterState: Digest, matchesPlan: bool)

  const NO_RESULT := ExecutionResult(false, 0, "", false)

  function Schedulable(plan: ExecutionPlan): (r: Plan)
    ensures r.nodes == plan.nodes && r.actions == plan.actions && r.targets == plan.targets
    ensures r.issuedAt == plan.issuedAt && r.expiresAt == plan.expiresAt
  {
    Plan(plan.nodes, plan.actions, plan.targets, plan.issuedAt, plan.expiresAt)
  }

  /** Policy allows the assessment at this time, inside the plan's window. */
  ghost predicate Permitted(plan: ExecutionPlan, a: Assessment, t: int) {
    T.ExecutionAllowed(a, plan.issuedAt, plan.expiresAt, t)
  }

  /** os/exec reports an error for every command that does not exit with zero. */
  predicate Honest(r: CommandResult) {
    !r.failed ==> r.exitKnown && r.exitCode == 0
  }

  /** What a run came to: nothing launched is ever called a success unless the state was verified. */
  datatype RunReport = RunReport(result: ExecutionResult, failed: bool, outcome: Option<RunOutcome>)

  /**
   The plan of this identity recomputed from the files, provided the installation has not changed since
   it was made.
   */
  function Current(p: Platform, id: Digest, files: Files, observed: Option<Observation>): Option<Prepared> {
    var reading := Reading(p, files, id);
    if reading.Some? && observed.Some? && observed.value.digest == reading.value.beforeState then reading else None
  }

  /** The observation covers exactly the plan's nodes and none of them needs anything more. */
  ghost predicate AfterMatches(after: Option<Observation>, plan: ExecutionPlan) {
    && after.Some? && |after.value.states| == |plan.nodes| && DistinctStates(after.value.states)
    && forall n <- plan.nodes :: Observed(after.value.states, n, AfterRequest(plan.actions, plan.targets), Keep)
  }

  /** The observation can be judged: it covers exactly the plan's nodes, none in a state to be repaired by hand. */
  ghost predicate Judgeable(after: Option<Observation>, plan: ExecutionPlan) {
    && after.Some? && |after.value.states| == |plan.nodes| && DistinctStates(after.value.states)
    && forall n <- plan.nodes :: Workable(after.value.states, n, AfterRequest(plan.actions, plan.targets))
  }

  function WholeSchedule(plan: ExecutionPlan): seq<Launch> {
    LaunchesOf(Schedulable(plan), Schedule(plan.nodes, FiledPending(plan.actions)))
  }

  /** Every check and command of the run goes well: the first recheck, and each launch with its own. */
  ghost predicate Smooth(plan: ExecutionPlan, a: Assessment, clock: int, world: nat -> Moment) {
    && Permitted(plan, a, clock)
    && |Schedule(plan.nodes, FiledPending(plan.actions))| == |Pending(plan.actions)|
    && SmoothUntil(Schedulable(plan), a, world, |Pending(plan.actions)|)
  }

  /** The schedule stops short of what is pending: some of it blocks the rest for good. */
  predicate CannotFinish(plan: ExecutionPlan) {
    |Schedule(plan.nodes, FiledPending(plan.actions))| < |Pending(plan.actions)|
  }

  // ---- What policy says of a run ----

  /** The command at position j was for this formula, and succeeded. */
  predicate DoneAt(launched: seq<Launch>, world: nat -> Moment, j: nat, name: string) {
    && j < |launched| && launched[j].name == name
    && !world(j).result.failed && world(j).result.exitKnown && world(j).result.exitCode == 0
  }

  /** Everything the node depends on that is to be changed was changed before position i. */
  predicate DependenciesDone(plan: ExecutionPlan, n: Node, launched: seq<Launch>, world: nat -> Moment, i: nat) {
    forall d <- n.dependencies :: d.name in Pending(plan.actions) ==>
      exists j | 0 <= j < i :: DoneAt(launched, world, j, d.name)
  }

  /** The launch is of a node that is eligible in this assessment, after what it depends on was done. */
  ghost predicate EligibleLaunch(
    plan: ExecutionPlan, a: Assessment, world: nat -> Moment, launched: seq<Launch>, i: nat)
    requires i < |launched|
  {
    exists n <- plan.nodes ::
      && n.artifact.name == launched[i].name && NodeEligible(n, a.policy, a.now, E.WaiversOf(a))
      && DependenciesDone(plan, n, launched, world, i)
  }

  /** Each command was launched while policy allowed the plan itself, for a node that was eligible at that moment. */
  ghost predicate LaunchedUnderPolicy(p: Platform, plan: ExecutionPlan, world: nat -> Moment, launched: seq<Launch>) {
    var a := Original(p, plan).assessment;
    && EachPermitted(Schedulable(plan), a, world, |launched|)
    && forall i :: 0 <= i < |launched| ==> EligibleLaunch(plan, a.(now := world(i).now), world, launched, i)
  }

  /** Allowed means well formed, with every node eligible. */
  lemma PermittedIsEligible(plan: ExecutionPlan, a: Assessment, t: int)
    requires Permitted(plan, a, t)
    ensures WellFormedGraph(a.targets, a.nodes)
    ensures forall n <- a.nodes :: NodeEligible(n, a.policy, t, E.WaiversOf(a))
  {
    OutcomeMeaning(a.(now := t));
  }

  /** Each launch of a well-formed plan has its node, and comes after what that node depends on was done. */
  lemma LaunchHasNode(plan: ExecutionPlan, world: nat -> Moment, launched: seq<Launch>, i: nat) returns (n: Node)
    requires WellFormedGraph(plan.targets, plan.nodes) && ActionsMatch(plan.actions, plan.nodes)
    requires launched <= WholeSchedule(plan) && EarlierSucceeded(world, |launched|) && i < |launched|
    ensures n in plan.nodes && n.artifact.name == launched[i].name && DependenciesDone(plan, n, launched, world, i)
  {
    AllowedPlanIsScheduled(plan.targets, plan.nodes, plan.actions);
    PendingIsWithin(plan.actions, plan.nodes);
    LaunchedNames(plan, launched);
    n := ScheduledNode(plan, Schedule(plan.nodes, FiledPending(plan.actions)), world, launched, i);
  }

  lemma LaunchedNames(plan: ExecutionPlan, launched: seq<Launch>)
    requires launched <= WholeSchedule(plan)
    ensures var s := Schedule(plan.nodes, FiledPending(plan.actions));
      |launched| <= |s| && forall j :: 0 <= j < |launched| ==> launched[j].name == s[j].name
  {
  }

  lemma ScheduledNode(plan: ExecutionPlan, s: seq<Action>, world: nat -> Moment, launched: seq<Launch>, i: nat)
      returns (n: Node)
    requires Enumerates(s, Pending(plan.actions)) && DependenciesFirst(s, plan.nodes, Pending(plan.actions))
    requires Within(Pending(plan.actions), plan.nodes)
    requires i < |launched| <= |s| && forall j :: 0 <= j < |launched| ==> launched[j].name == s[j].name
    requires EarlierSucceeded(world, |launched|)
    ensures n in plan.nodes && n.artifact.name == launched[i].name && DependenciesDone(plan, n, launched, world, i)
  {
    assert s[i] in s;
    n :| n in plan.nodes && n.artifact.name == s[i].name;
    forall d | d in n.dependencies && d.name in Pending(plan.actions)
      ensures exists j | 0 <= j < i :: DoneAt(launched, world, j, d.name)
    {
      assert RunsBefore(s, d.name, i);
      var j: nat :| 0 <= j < i && j < |s| && s[j].name == d.name;
      assert DoneAt(launched, world, j, d.name);
    }
  }

  /** What a plan permits, launched in its own order, is launched under policy. */
  lemma PermittedRunIsUnderPolicy(p: Platform, plan: ExecutionPlan, world: nat -> Moment, launched: seq<Launch>)
    requires ValidPlan(p, plan) && launched <= WholeSchedule(plan) && EarlierSucceeded(world, |launched|)
    requires EachPermitted(Schedulable(plan), Original(p, plan).assessment, world, |launched|)
    ensures LaunchedUnderPolicy(p, plan, world, launched)
  {
    var a := Original(p, plan).assessment;
    forall i | 0 <= i < |launched|
      ensures EligibleLaunch(plan, a.(now := world(i).now), world, launched, i)
    {
      PermittedIsEligible(plan, a, world(i).now);
      var n := LaunchHasNode(plan, world, launched, i);
    }
  }

  lemma GenuineRun(p: Platform, plan: ExecutionPlan, files: Files, world: nat -> Moment, launched: seq<Launch>)
    requires Injective(p.digest) && RoundTrips(p) && Reading(p, files, Identity(p, plan)).Some?
    requires launched <= WholeSchedule(plan) && EarlierSucceeded(world, |launched|)
    requires EachPermitted(Schedulable(plan), Reading(p, files, Identity(p, plan)).value.assessment, world, |launched|)
    ensures Reading(p, files, Identity(p, plan)).value == Original(p, plan)
    ensures LaunchedUnderPolicy(p, plan, world, launched)
  {
    ReadingIsOriginal(p, files, plan);
    PermittedRunIsUnderPolicy(p, plan, world, launched);
  }

  /**
   From this time on the clock stays inside the plan's window, the runtime is as reviewed and every
   command succeeds.
   */
  predicate InTime(plan: ExecutionPlan, clock: int, world: nat -> Moment) {
    forall i {:trigger world(i)} :: 0 <= i < |Pending(plan.actions)| ==>
      clock <= world(i).now < plan.expiresAt && world(i).runtimeOk && Scheduler.Succeeded(world(i).result)
  }

  /** Policy goes on allowing the assessment until the plan's window closes. */
  ghost predicate StaysPermitted(plan: ExecutionPlan, a: Assessment, clock: int) {
    forall t :: clock <= t < plan.expiresAt ==> Permitted(plan, a, t)
  }

  lemma LastingPlanRunsSmoothly(plan: ExecutionPlan, a: Assessment, clock: int, world: nat -> Moment)
    requires a.nodes == plan.nodes && ActionsMatch(plan.actions, plan.nodes)
    requires Permitted(plan, a, clock) && InTime(plan, clock, world)
    requires Pending(plan.actions) == map[] || StaysPermitted(plan, a, clock)
    ensures Smooth(plan, a, clock, world)
  {
    PermittedIsEligible(plan, a, clock);
    AllowedPlanIsScheduled(a.targets, plan.nodes, plan.actions);
    forall i {:trigger world(i)} | 0 <= i < |Pending(plan.actions)|
      ensures MayLaunch(Schedulable(plan), a, world(i))
    {
      assert Permitted(plan, a, world(i).now);
    }
  }

  /**
   A plan that is permitted now is certain to be carried out by commands that succeed in time,
   exactly when it has nothing to do or nothing it rests on runs out before it does.
   */
  lemma CertainExactlyIfNothingRunsOut(plan: ExecutionPlan, a: Assessment, clock: int)
    requires a.nodes == plan.nodes && ActionsMatch(plan.actions, plan.nodes) && Permitted(plan, a, clock)
    ensures (forall world: nat -> Moment :: InTime(plan, clock, world) ==> Smooth(plan, a, clock, world))
       <==> Pending(plan.actions) == map[] || forall b <- T.Endings(a) :: plan.expiresAt <= b
  {
    StaysPermittedIff(plan, a, clock);
    if Pending(plan.actions) == map[] || StaysPermitted(plan, a, clock) {
      forall world: nat -> Moment | InTime(plan, clock, world) ensures Smooth(plan, a, clock, world) {
        LastingPlanRunsSmoothly(plan, a, clock, world);
      }
    } else {
      var late := LateWorld(plan, a, clock);
    }
  }

  lemma StaysPermittedIff(plan: ExecutionPlan, a: Assessment, clock: int)
    requires Permitted(plan, a, clock)
    ensures StaysPermitted(plan, a, clock) <==> forall b <- T.Endings(a) :: plan.expiresAt <= b
  {
    T.StaysAllowedIff(a, plan.issuedAt, plan.expiresAt, clock);
    assert forall t {:trigger T.ExecutionAllowed(a, plan.issuedAt, plan.expiresAt, t)} ::
      T.ExecutionAllowed(a, plan.issuedAt, plan.expiresAt, t) <==> Permitted(plan, a, t);
  }

  /** Where something runs out too early, every command can be in time and the first still come too late. */
  lemma LateWorld(plan: ExecutionPlan, a: Assessment, clock: int) returns (late: nat -> Moment)
    requires Pending(plan.actions) != map[] && !StaysPermitted(plan, a, clock)
    ensures InTime(plan, clock, late) && !Smooth(plan, a, clock, late)
  {
    var t :| clock <= t < plan.expiresAt && !Permitted(plan, a, t);
    late := _ => Moment(t, true, CommandResult(false, true, 0, ""));
    PendingIsFiled(plan.actions);
    Interrupted(Schedulable(plan), Pending(plan.actions), a, late, 0);
  }

  /** A plan built by the collector is certain to be carried out. */
  lemma BuiltPlanRunsSmoothly(plan: ExecutionPlan, a: Assessment, observedAt: int, clock: int, world: nat -> Moment)
    requires T.BuiltPlan(a, observedAt, plan.issuedAt, plan.expiresAt)
    requires a.nodes == plan.nodes && ActionsMatch(plan.actions, plan.nodes)
    requires Permitted(plan, a, clock) && InTime(plan, clock, world)
    ensures Smooth(plan, a, clock, world)
  {
    forall t | clock <= t < plan.expiresAt ensures Permitted(plan, a, t) {
      T.BuiltPlanStaysAllowed(a, observedAt, plan.issuedAt, plan.expiresAt, clock, t);
    }
    LastingPlanRunsSmoothly(plan, a, clock, world);
  }

  function StoppedResult(r: CommandResult): ExecutionResult {
    ExecutionResult(r.exitKnown, r.exitCode, r.afterState, false)
  }

  /** What is reported of an outcome: nothing known, the failed command's own result, or an after-state of exit zero. */
  predicate Reports(report: RunReport, outcome: RunOutcome, after: Option<Observation>) {
    match outcome
    case Completed => report.result.exitKnown && report.result.exitCode == 0 && (after.None? ==> report.failed)
    case Stopped(r) =>
      if r.failed then report.failed && report.result == StoppedResult(r)
      else report.result.exitKnown && report.result.exitCode == 0 && (after.None? ==> report.failed)
    case _ => report.failed && report.result == NO_RESULT
  }

  /**
   Where no error is reported, the outcome had none and the after-state was judged; a completed
   run that matches reports none.
   */
  ghost predicate Concluded(report: RunReport, outcome: RunOutcome, after: Option<Observation>, plan: ExecutionPlan) {
    && Reports(report, outcome, after)
    && (!report.failed ==>
          && (outcome.Completed? || (outcome.Stopped? && !outcome.result.failed))
          && (report.result.matchesPlan <==> AfterMatches(after, plan))
          && (after.Some? ==> report.result.afterState == after.value.digest))
    && (outcome.Completed? && AfterMatches(after, plan) ==> !report.failed)
  }

  class PublicSession {
    const platform: Platform
    const plan: ExecutionPlan
    var prepared: Prepared
    var consumed: bool
    var locked: bool

    /** What is held is the session's own plan, and digests and encodings tell contents apart. */
    ghost predicate Genuine()
      reads this`prepared
    {
      Injective(platform.digest) && RoundTrips(platform) && prepared == Original(platform, plan)
    }

    constructor (platform: Platform, plan: ExecutionPlan, prepared: Prepared)
      ensures this.platform == platform && this.plan == plan && this.prepared == prepared
      ensures !consumed && locked
    {
      this.platform := platform;
      this.plan := plan;
      this.prepared := prepared;
      consumed := false;
      locked := true;
    }

    method Revalidate(files: Files, observed: Option<Observation>) returns (r: Option<Prepared>)
      ensures r == if consumed then None else Current(platform, prepared.assessment.binding.plan, files, observed)
      ensures r.Some? <==>
        && !consumed && observed.Some?
        && Reading(platform, files, prepared.assessment.binding.plan).Some?
        && Reading(platform, files, prepared.assessment.binding.plan).value.beforeState == observed.value.digest
    {
      if consumed {
        return None;
      }
      var current := ReadPrepared(platform, files, prepared.assessment.binding.plan);
      if current.None? || observed.None? || observed.value.digest != current.value.beforeState {
        return None;
      }
      return current;
    }

    /** The after-state verdict: an unreadable or unusable state is an error, a different one merely does not match. */
    method VerifyAfter(after: Option<Observation>, requestedInstalls: seq<string>)
        returns (result: ExecutionResult, failed: bool)
      ensures after.None? ==> failed && result == ExecutionResult(true, 0, "", false)
      ensures after.Some? ==> result.exitKnown && result.exitCode == 0 && result.afterState == after.value.digest
      ensures requestedInstalls == RequestedInstalls(plan.actions, plan.targets) ==>
        (failed <==> !Judgeable(after, plan)) && (result.matchesPlan <==> AfterMatches(after, plan))
      ensures result.matchesPlan ==> !failed
    {
      if after.None? {
        return ExecutionResult(true, 0, "", false), true;
      }
      var matches := VerifyAfterState(after.value.states, plan.nodes, requestedInstalls);
      return ExecutionResult(true, 0, after.value.digest, matches == Some(true)), matches.None?;
    }

    /**
     Run consumes the session before anything can be launched. A refusal launches nothing; a
     run launches a prefix of the plan's schedule, each command at a time at which policy allows
     the assessment just recomputed. In a genuine session that is the assessment of its own plan.
     */
    method Run(binding: Binding, files: Files, observed: Option<Observation>, clock: int, world: nat -> Moment,
               after: Option<Observation>)
        returns (report: RunReport, launched: seq<Launch>)
      modifies this`prepared, this`consumed
      ensures old(consumed) || binding != old(prepared).assessment.binding ==>
        report.failed && launched == [] && consumed == old(consumed) && prepared == old(prepared)
      ensures !old(consumed) && binding == old(prepared).assessment.binding ==> consumed
      ensures launched != [] ==> !old(consumed) && consumed && binding == old(prepared).assessment.binding
      ensures !old(consumed) && binding == old(prepared).assessment.binding ==>
        var current := Current(platform, binding.plan, files, observed);
        && (report.outcome.Some? <==> current.Some? && Permitted(plan, current.value.assessment, clock))
        && (report.outcome.Some? ==> prepared == current.value)
        && (launched != [] ==>
              current.Some? && EachPermitted(Schedulable(plan), current.value.assessment, world, |launched|))
        && (report.outcome == Some(Completed) <==>
              current.Some? && Smooth(plan, current.value.assessment, clock, world))
      ensures old(Genuine()) ==> Genuine() && LaunchedUnderPolicy(platform, plan, world, launched)
      ensures launched != [] ==> report.outcome.Some?
      ensures launched <= WholeSchedule(plan) && EarlierSucceeded(world, |launched|)
      ensures CarriesOut(Schedulable(plan), Pending(plan.actions), launched)
      ensures report.outcome == Some(Completed) ==> launched == WholeSchedule(plan)
      ensures report.outcome.None? ==> report.failed && report.result == NO_RESULT
      ensures report.outcome.Some? ==> Concluded(report, report.outcome.value, after, plan)
      ensures report.outcome == Some(Cyclic) ==> CannotFinish(plan)
      ensures report.outcome.Some? ==> EndedBy(report.outcome.value, world, launched)
    {
      if consumed || binding != prepared.assessment.binding {
        return RunReport(NO_RESULT, true, None), [];
      }
      var current := Revalidate(files, observed);
      consumed := true;
      if current.None? {
        return RunReport(NO_RESULT, true, None), [];
      }
      report, launched := Proceed(current.value, clock, world, after);
      if old(Genuine()) {
        GenuineRun(platform, plan, files, world, launched);
      }
    }

    /** The run of a recomputed plan: nothing unless policy permits it now, and then all that can be carried out. */
    method Proceed(current: Prepared, clock: int, world: nat -> Moment, after: Option<Observation>)
        returns (report: RunReport, launched: seq<Launch>)
      modifies this`prepared
      ensures report.outcome.Some? <==> Permitted(plan, current.assessment, clock)
      ensures prepared == if report.outcome.Some? then current else old(prepared)
      ensures launched <= WholeSchedule(plan) && EachPermitted(Schedulable(plan), current.assessment, world, |launched|)
      ensures EarlierSucceeded(world, |launched|) && CarriesOut(Schedulable(plan), Pending(plan.actions), launched)
      ensures report.outcome == Some(Completed) <==> Smooth(plan, current.assessment, clock, world)
      ensures report.outcome == Some(Completed) ==> launched == WholeSchedule(plan)
      ensures report.outcome.None? ==> report.failed && report.result == NO_RESULT && launched == []
      ensures report.outcome.Some? ==> Concluded(report, report.outcome.value, after, plan)
      ensures report.outcome == Some(Cyclic) ==> CannotFinish(plan)
      ensures report.outcome.Some? ==> EndedBy(report.outcome.value, world, launched)
    {
      var allowed := ExecutionAllowed(Schedulable(plan), current.assessment, clock);
      if !allowed {
        return RunReport(NO_RESULT, true, None), [];
      }
      prepared := current;
      report, launched := Carry(current.assessment, world, after);
    }

    /** The pending actions, one after the other, and what is reported of them. */
    method Carry(a: Assessment, world: nat -> Moment, after: Option<Observation>)
        returns (report: RunReport, launched: seq<Launch>)
      ensures report.outcome.Some? && launched <= WholeSchedule(plan)
      ensures report.outcome == Some(Completed) <==>
        |Schedule(plan.nodes, FiledPending(plan.actions))| == |Pending(plan.actions)|
        && SmoothUntil(Schedulable(plan), a, world, |Pending(plan.actions)|)
      ensures EachPermitted(Schedulable(plan), a, world, |launched|) && EarlierSucceeded(world, |launched|)
      ensures CarriesOut(Schedulable(plan), Pending(plan.actions), launched)
      ensures report.outcome == Some(Cyclic) ==> CannotFinish(plan)
      ensures report.outcome == Some(Completed) ==> launched == WholeSchedule(plan)
      ensures EndedBy(report.outcome.value, world, launched)
      ensures Concluded(report, report.outcome.value, after, plan)
    {
      var remaining, requestedInstalls := PendingActions(Schedulable(plan));
      PendingIsFiled(plan.actions);
      var outcome;
      outcome, launched := RunPendingActions(Schedulable(plan), remaining, a, world);
      ScheduleCarriesOut(Schedulable(plan), remaining, launched);
      report := Conclude(outcome, after, requestedInstalls);
    }

    /** What Run reports of an outcome: an error ends it, anything else is left to the after-state. */
    method Conclude(outcome: RunOutcome, after: Option<Observation>, requestedInstalls: seq<string>)
        returns (report: RunReport)
      requires requestedInstalls == RequestedInstalls(plan.actions, plan.targets)
      ensures report.outcome == Some(outcome) && Concluded(report, outcome, after, plan)
    {
      if outcome.Cyclic? || outcome.Expired? || outcome.RuntimeChanged? {
        return RunReport(NO_RESULT, true, Some(outcome));
      }
      if outcome.Stopped? && outcome.result.failed {
        return RunReport(StoppedResult(outcome.result), true, Some(outcome));
      }
      var result, failed := VerifyAfter(after, requestedInstalls);
      return RunReport(result, failed, Some(outcome));
    }

    method Close(released: bool) returns (ok: bool)
      modifies this`consumed, this`locked
      ensures consumed && !locked
      ensures ok <==> !old(locked) || released
    {
      consumed := true;
      if !locked {
        return true;
      }
      locked := false;
      return released;
    }
  }

  /** The end of planning: the plan is encoded, digested and prepared, and a valid one opens a session. */
  method OpenSession(platform: Platform, plan: ExecutionPlan) returns (session: PublicSession?)
    ensures session != null <==> ValidPlan(platform, plan)
    ensures session != null ==>
      && fresh(session) && session.platform == platform && session.plan == plan
      && session.prepared == Original(platform, plan) && !session.consumed && session.locked
  {
    var prepared := Prepare(platform, plan, platform.digest(platform.encodePlan(plan)));
    if prepared.None? {
      return null;
    }
    session := new PublicSession(platform, plan, prepared.value);
  }

  function FiledPending(actions: seq<Action>): (r: map<string, Action>)
    ensures Filed(r)
  {
    PendingIsFiled(actions);
    Pending(actions)
  }
}
