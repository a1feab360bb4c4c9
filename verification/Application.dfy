/**
 The workflow that owns a session: every gate before the run, the classification
 after it, and the release that can still turn success into the unknown.
 */
module Application {
  import opened Domain
  import E = Evaluation
  import opened Scheduler
  import opened PreparedPlan
  import opened Session

  datatype AttemptOutcome = NotAttempted | AttemptSucceeded | AttemptFailed | AttemptPartial | AttemptUnknown

  datatype Execution = Execution(decision: Option<Decision>, outcome: AttemptOutcome, exitKnown: bool, exitCode: int)

  /** Everything an execution meets that it does not control. */
  datatype Surroundings = Surroundings(
    canceledFirst: bool, canceledSecond: bool, now: int,
    revalidationFiles: Files, revalidationState: Option<Observation>,
    runFiles: Files, runState: Option<Observation>,
    runClock: int, world: nat -> Moment, after: Option<Observation>, released: bool)

  // ---- Classification ----

  function ExecutionOutcome(actual: ExecutionResult, before: Digest, runFailed: bool): AttemptOutcome {
    if !actual.exitKnown || !ValidDigest(actual.afterState) then AttemptUnknown
    else if actual.exitCode == 0 then if !runFailed && actual.matchesPlan then AttemptSucceeded else AttemptUnknown
    else if actual.afterState != before then AttemptPartial
    else AttemptFailed
  }

  // ---- The gates ----

  /** The plan is the one assessed before, it is in date and identified, and policy allows it now. */
  ghost predicate GatesPass(original: Prepared, current: Prepared, now: int) {
    && current.assessment.policy == original.assessment.policy
    && current.assessment.binding == original.assessment.binding
    && current.beforeState == original.beforeState && current.exceptionID == original.exceptionID
    && ValidDigest(current.beforeState)
    && now < current.expiresAt <= original.expiresAt
    && (current.exceptionID == "" <==> current.assessment.exception.None?)
    && (current.exceptionID == "" || ValidDigest(current.exceptionID))
    && E.Decide(current.assessment.(now := now)).outcome.Allow?
  }

  /** The run is reached: the session still holds the plan that was assessed, and policy allows it now. */
  ghost predicate Admitted(p: Platform, original: Prepared, held: Prepared, consumed: bool, s: Surroundings) {
    var current := Current(p, held.assessment.binding.plan, s.revalidationFiles, s.revalidationState);
    && !s.canceledFirst && !consumed && current.Some?
    && GatesPass(original, current.value, s.now) && !s.canceledSecond
    && current.value.assessment.binding == held.assessment.binding
  }

  /** The run itself goes well from the second reading to the last command. */
  ghost predicate RunsThrough(p: Platform, plan: ExecutionPlan, held: Prepared, s: Surroundings) {
    var current := Current(p, held.assessment.binding.plan, s.runFiles, s.runState);
    current.Some? && Smooth(plan, current.value.assessment, s.runClock, s.world)
  }

  ghost predicate Verified(plan: ExecutionPlan, s: Surroundings) {
    AfterMatches(s.after, plan) && ValidDigest(s.after.value.digest)
  }

  predicate AllHonest(world: nat -> Moment, n: nat) {
    forall i {:trigger world(i)} :: 0 <= i < n ==> Honest(world(i).result)
  }

  /** The run may start: the plan can still be recomputed from what is there, and policy allows it at this moment. */
  ghost predicate MayStart(p: Platform, plan: ExecutionPlan, held: Prepared, s: Surroundings) {
    var current := Current(p, held.assessment.binding.plan, s.runFiles, s.runState);
    current.Some? && Permitted(plan, current.value.assessment, s.runClock)
  }

  /** The last command launched failed with a known exit other than zero, and the state it left was observed. */
  predicate FailedExit(launched: seq<Launch>, s: Surroundings) {
    |launched| > 0 &&
    var last := s.world(|launched| - 1).result;
    last.failed && last.exitKnown && last.exitCode != 0 && ValidDigest(last.afterState)
  }

  /**
   A failed or partial change is reported exactly of such a command, told apart by whether the state
   it left is the one before the run; and "not attempted" only when nothing was launched.
   */
  predicate BlameIsExact(original: Prepared, outcome: AttemptOutcome, launched: seq<Launch>, s: Surroundings) {
    && (outcome.NotAttempted? ==> launched == [])
    && (outcome.AttemptFailed? <==>
          FailedExit(launched, s) && s.world(|launched| - 1).result.afterState == original.beforeState)
    && (outcome.AttemptPartial? <==>
          FailedExit(launched, s) && s.world(|launched| - 1).result.afterState != original.beforeState)
  }

  method CheckGates(original: Prepared, current: Prepared, now: int) returns (ok: bool, decision: Option<Decision>)
    ensures ok <==> GatesPass(original, current, now)
    ensures decision.Some? ==> decision.value == E.Decide(current.assessment.(now := now))
    ensures ok ==> decision.Some?
  {
    var planUnchanged :=
      && current.assessment.policy == original.assessment.policy
      && current.assessment.binding == original.assessment.binding
      && current.beforeState == original.beforeState && current.exceptionID == original.exceptionID;
    var beforeStateValid := ValidDigest(current.beforeState);
    var freshIsCurrent, originalIsCurrent := current.expiresAt > now, original.expiresAt > now;
    var windowNotExtended := current.expiresAt <= original.expiresAt;
    if !planUnchanged || !beforeStateValid || !freshIsCurrent || !originalIsCurrent || !windowNotExtended {
      return false, None;
    }
    var hasException, hasExceptionID := current.assessment.exception.Some?, current.exceptionID != "";
    if hasException != hasExceptionID || (hasExceptionID && !ValidDigest(current.exceptionID)) {
      return false, None;
    }
    var d := E.Evaluate(current.assessment.(now := now));
    return d.outcome.Allow?, Some(d);
  }

  /** The gates, the run, and the classification; the release comes after. */
  method Attempt(original: Prepared, session: PublicSession, s: Surroundings)
      returns (result: Execution, failed: bool, launched: seq<Launch>)
    modifies session
    ensures launched != [] ==> old(Admitted(session.platform, original, session.prepared, session.consumed, s))
    ensures launched <= WholeSchedule(session.plan) && EarlierSucceeded(s.world, |launched|)
    ensures old(session.Genuine()) ==>
      session.Genuine() && LaunchedUnderPolicy(session.platform, session.plan, s.world, launched)
    ensures result.outcome.AttemptSucceeded? <==> !failed
    ensures (old(Admitted(session.platform, original, session.prepared, session.consumed, s))
             && old(RunsThrough(session.platform, session.plan, session.prepared, s))
             && Verified(session.plan, s)) ==> !failed
    ensures old(Admitted(session.platform, original, session.prepared, session.consumed, s)) ==>
      !result.outcome.NotAttempted?
    ensures (old(Admitted(session.platform, original, session.prepared, session.consumed, s)
                 && RunsThrough(session.platform, session.plan, session.prepared, s))) ==>
      launched == WholeSchedule(session.plan)
    ensures !failed ==>
      && old(Admitted(session.platform, original, session.prepared, session.consumed, s)) && Verified(session.plan, s)
    ensures !failed && AllHonest(s.world, |launched|) ==>
      && old(RunsThrough(session.platform, session.plan, session.prepared, s))
      && launched == WholeSchedule(session.plan)
    ensures BlameIsExact(original, result.outcome, launched, s)
    ensures launched != [] ==> old(MayStart(session.platform, session.plan, session.prepared, s))
    ensures CarriesOut(Schedulable(session.plan), Pending(session.plan.actions), launched)
    ensures session.locked == old(session.locked)
  {
    result := Execution(None, NotAttempted, false, 0);
    launched := [];
    if s.canceledFirst {
      return result, true, launched;
    }
    var current := session.Revalidate(s.revalidationFiles, s.revalidationState);
    if current.None? {
      return result, true, launched;
    }
    var ok, decision := CheckGates(original, current.value, s.now);
    result := result.(decision := decision);
    if !ok || s.canceledSecond {
      return result, true, launched;
    }
    var binding := current.value.assessment.binding;
    result, launched := RunClassified(original, session, binding, s, decision);
    return result, !result.outcome.AttemptSucceeded?, launched;
  }

  /** What the classification of a run's report says of the run. */
  lemma ClassificationMeans(
    original: Prepared, report: RunReport, launched: seq<Launch>, s: Surroundings, plan: ExecutionPlan)
    requires report.outcome.None? ==> report.failed && report.result == NO_RESULT && launched == []
    requires report.outcome.Some? ==>
      Concluded(report, report.outcome.value, s.after, plan) && EndedBy(report.outcome.value, s.world, launched)
    ensures var outcome := ExecutionOutcome(report.result, original.beforeState, report.failed);
      && BlameIsExact(original, outcome, launched, s) && !outcome.NotAttempted?
      && (outcome.AttemptSucceeded? ==> report.outcome.Some? && Verified(plan, s))
      && (report.outcome == Some(Completed) && Verified(plan, s) ==> outcome.AttemptSucceeded?)
      && (outcome.AttemptSucceeded? && AllHonest(s.world, |launched|) ==> report.outcome == Some(Completed))
  {
  }

  /** The run and its classification. */
  method RunClassified(original: Prepared, session: PublicSession, binding: Binding, s: Surroundings,
                       decision: Option<Decision>)
      returns (result: Execution, launched: seq<Launch>)
    modifies session
    ensures launched != [] || result.outcome.AttemptSucceeded? ==>
      old(!session.consumed && binding == session.prepared.assessment.binding)
    ensures launched <= WholeSchedule(session.plan) && EarlierSucceeded(s.world, |launched|)
    ensures old(session.Genuine()) ==>
      session.Genuine() && LaunchedUnderPolicy(session.platform, session.plan, s.world, launched)
    ensures (old(!session.consumed && binding == session.prepared.assessment.binding
                 && RunsThrough(session.platform, session.plan, session.prepared, s))
             && Verified(session.plan, s)) ==> result.outcome.AttemptSucceeded?
    ensures (old(!session.consumed && binding == session.prepared.assessment.binding
                 && RunsThrough(session.platform, session.plan, session.prepared, s))) ==>
      launched == WholeSchedule(session.plan)
    ensures result.outcome.AttemptSucceeded? ==> Verified(session.plan, s)
    ensures result.outcome.AttemptSucceeded? && AllHonest(s.world, |launched|) ==>
      && old(RunsThrough(session.platform, session.plan, session.prepared, s))
      && launched == WholeSchedule(session.plan)
    ensures BlameIsExact(original, result.outcome, launched, s) && !result.outcome.NotAttempted?
    ensures launched != [] ==> old(MayStart(session.platform, session.plan, session.prepared, s))
    ensures CarriesOut(Schedulable(session.plan), Pending(session.plan.actions), launched)
    ensures session.locked == old(session.locked)
  {
    var report;
    report, launched := session.Run(binding, s.runFiles, s.runState, s.runClock, s.world, s.after);
    var outcome := ExecutionOutcome(report.result, original.beforeState, report.failed);
    ClassificationMeans(original, report, launched, s, session.plan);
    result := Execution(decision, outcome, report.result.exitKnown, report.result.exitCode);
  }

  /** Execute always ends with the session closed; a failed release leaves the outcome unknown. */
  method Execute(original: Prepared, session: PublicSession, s: Surroundings)
      returns (result: Execution, failed: bool, launched: seq<Launch>)
    modifies session
    ensures session.consumed && !session.locked
    ensures launched != [] ==> old(Admitted(session.platform, original, session.prepared, session.consumed, s))
    ensures launched <= WholeSchedule(session.plan) && EarlierSucceeded(s.world, |launched|)
    ensures old(session.Genuine()) ==>
      session.Genuine() && LaunchedUnderPolicy(session.platform, session.plan, s.world, launched)
    ensures result.outcome.AttemptSucceeded? <==> !failed
    ensures AllHonest(s.world, |launched|) && old(session.locked) ==>
      (!failed <==>
        && old(Admitted(session.platform, original, session.prepared, session.consumed, s)
               && RunsThrough(session.platform, session.plan, session.prepared, s))
        && Verified(session.plan, s) && s.released)
    ensures !failed && AllHonest(s.world, |launched|) ==> launched == WholeSchedule(session.plan)
    ensures old(Admitted(session.platform, original, session.prepared, session.consumed, s)) ==>
      !result.outcome.NotAttempted?
    ensures (old(Admitted(session.platform, original, session.prepared, session.consumed, s)
                 && RunsThrough(session.platform, session.plan, session.prepared, s))) ==>
      launched == WholeSchedule(session.plan)
    ensures launched != [] ==> old(MayStart(session.platform, session.plan, session.prepared, s))
    ensures CarriesOut(Schedulable(session.plan), Pending(session.plan.actions), launched)
    ensures s.released || !old(session.locked) ==> BlameIsExact(original, result.outcome, launched, s)
    ensures !s.released && old(session.locked) ==> result.outcome.AttemptUnknown?
  {
    result, failed, launched := Attempt(original, session, s);
    var closed := session.Close(s.released);
    if !closed {
      result := result.(outcome := AttemptUnknown);
      failed := true;
    }
  }

  // ---- One use ----

  datatype Call =
    | CallRevalidate(files: Files, observed: Option<Observation>)
    | CallRun(binding: Binding, files: Files, observed: Option<Observation>, clock: int, world: nat -> Moment,
              after: Option<Observation>)
    | CallClose(released: bool)

  /** What a call launches is launched under policy; calls other than Run launch nothing. */
  ghost predicate CallUnderPolicy(p: Platform, plan: ExecutionPlan, call: Call, launched: seq<Launch>) {
    if call.CallRun? then LaunchedUnderPolicy(p, plan, call.world, launched) else launched == []
  }

  method MakeCall(session: PublicSession, call: Call) returns (launched: seq<Launch>)
    modifies session
    ensures launched <= WholeSchedule(session.plan)
    ensures launched != [] ==> !old(session.consumed)
    ensures launched != [] || call.CallClose? || old(session.consumed) ==> session.consumed
    ensures old(session.Genuine()) ==>
      session.Genuine() && CallUnderPolicy(session.platform, session.plan, call, launched)
  {
    launched := [];
    match call {
      case CallRevalidate(files, observed) =>
        var r := session.Revalidate(files, observed);
      case CallRun(binding, files, observed, clock, world, after) =>
        var report;
        report, launched := session.Run(binding, files, observed, clock, world, after);
      case CallClose(released) =>
        var ok := session.Close(released);
    }
  }

  /**
   Whatever calls are made, in whatever order, at most one of them launches anything, and none
   after a close; in a genuine session every launch is under policy at its own time.
   */
  method UseSession(session: PublicSession, calls: seq<Call>) returns (launches: seq<seq<Launch>>)
    modifies session
    ensures |launches| == |calls|
    ensures forall i, j :: 0 <= i < j < |launches| ==> launches[i] == [] || launches[j] == []
    ensures forall i :: 0 <= i < |launches| ==> launches[i] <= WholeSchedule(session.plan)
    ensures forall i, j :: 0 <= i < j < |launches| && calls[i].CallClose? ==> launches[j] == []
    ensures old(session.Genuine()) ==> forall i :: 0 <= i < |launches| ==>
      CallUnderPolicy(session.platform, session.plan, calls[i], launches[i])
  {
    launches := [];
    for k := 0 to |calls|
      invariant |launches| == k
      invariant forall i :: 0 <= i < k ==> launches[i] <= WholeSchedule(session.plan)
      invariant forall i :: 0 <= i < k && (launches[i] != [] || calls[i].CallClose?) ==> session.consumed
      invariant forall i, j :: 0 <= i < j < k && (launches[i] != [] || calls[i].CallClose?) ==> launches[j] == []
      invariant old(session.Genuine()) ==> session.Genuine()
      invariant old(session.Genuine()) ==> forall i :: 0 <= i < k ==>
        CallUnderPolicy(session.platform, session.plan, calls[i], launches[i])
    {
      var launched := MakeCall(session, calls[k]);
      launches := launches + [launched];
    }
  }
}
