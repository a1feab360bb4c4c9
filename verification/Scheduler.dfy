/**
 Running the pending actions of a plan one command at a time: always the first
 node, in plan order, that is pending and has no pending direct dependency.
 */
module Scheduler {
  import opened Domain
  import E = Evaluation
  import T = TimeWindow

  datatype Operation = Install | Upgrade | Keep

  datatype Action = Action(name: string, operation: Operation)

  datatype Plan = Plan(
    nodes: seq<Node>, actions: seq<Action>, targets: seq<Artifact>, issuedAt: int, expiresAt: int)

  /** One command line: what is installed or upgraded, and whether only as a dependency. */
  datatype Launch = Launch(operation: Operation, name: string, asDependency: bool)

  /** afterState is the observation taken when a command failed; empty when there is none. */
  datatype CommandResult = CommandResult(failed: bool, exitKnown: bool, exitCode: int, afterState: Digest)

  /** What the outside world says around one launch: the time, the runtime check, the command's result. */
  datatype Moment = Moment(now: int, runtimeOk: bool, result: CommandResult)

  datatype RunOutcome = Completed | Cyclic | Expired | RuntimeChanged | Stopped(result: CommandResult)

  predicate Succeeded(r: CommandResult) {
    !r.failed && r.exitKnown && r.exitCode == 0
  }

  /** One action per node, under the node's name. */
  predicate ActionsMatch(actions: seq<Action>, nodes: seq<Node>) {
    |actions| == |nodes| && forall i :: 0 <= i < |nodes| ==> actions[i].name == nodes[i].artifact.name
  }

  predicate NamedIn(artifacts: seq<Artifact>, name: string) {
    exists a <- artifacts :: a.name == name
  }

  // ---- Pending actions ----

  function Pending(actions: seq<Action>): map<string, Action> {
    if actions == [] then map[]
    else
      var last := actions[|actions| - 1];
      var rest := Pending(actions[..|actions| - 1]);
      if last.operation.Keep? then rest else rest[last.name := last]
  }

  function RequestedInstalls(actions: seq<Action>, targets: seq<Artifact>): seq<string> {
    if actions == [] then []
    else
      var last := actions[|actions| - 1];
      RequestedInstalls(actions[..|actions| - 1], targets)
      + if last.operation.Install? && NamedIn(targets, last.name) then [last.name] else []
  }

  method PendingActions(plan: Plan) returns (remaining: map<string, Action>, requestedInstalls: seq<string>)
    ensures remaining == Pending(plan.actions)
    ensures requestedInstalls == RequestedInstalls(plan.actions, plan.targets)
  {
    remaining := map[];
    requestedInstalls := [];
    for i := 0 to |plan.actions|
      invariant remaining == Pending(plan.actions[..i])
      invariant requestedInstalls == RequestedInstalls(plan.actions[..i], plan.targets)
    {
      var action := plan.actions[i];
      assert plan.actions[..i + 1][..i] == plan.actions[..i];
      if action.operation.Install? && NamedIn(plan.targets, action.name) {
        requestedInstalls := requestedInstalls + [action.name];
      }
      if !action.operation.Keep? {
        remaining := remaining[action.name := action];
      }
    }
    assert plan.actions[..|plan.actions|] == plan.actions;
  }

  // ---- Choosing the next action ----

  predicate Blocked(n: Node, remaining: map<string, Action>) {
    exists d <- n.dependencies :: d.name in remaining
  }

  predicate Ready(n: Node, remaining: map<string, Action>) {
    n.artifact.name in remaining && !Blocked(n, remaining)
  }

  /** k is the first ready position. */
  predicate FirstReadyAt(nodes: seq<Node>, remaining: map<string, Action>, k: int) {
    0 <= k < |nodes| && Ready(nodes[k], remaining) && forall j :: 0 <= j < k ==> !Ready(nodes[j], remaining)
  }

  function FirstReady(nodes: seq<Node>, remaining: map<string, Action>): Option<Action> {
    if nodes == [] then None
    else
      var earlier := FirstReady(nodes[..|nodes| - 1], remaining);
      var last := nodes[|nodes| - 1];
      if earlier.Some? then earlier
      else if Ready(last, remaining) then Some(remaining[last.artifact.name])
      else None
  }

  /** The choice is the first ready node in plan order, or nothing when no node is ready. */
  lemma {:induction false} FirstReadyMeans(nodes: seq<Node>, remaining: map<string, Action>)
    ensures var r := FirstReady(nodes, remaining);
      r.Some? ==> exists k :: FirstReadyAt(nodes, remaining, k) && r.value == remaining[nodes[k].artifact.name]
    ensures FirstReady(nodes, remaining).None? ==> forall n <- nodes :: !Ready(n, remaining)
  {
    if nodes != [] {
      var init, last := nodes[..|nodes| - 1], nodes[|nodes| - 1];
      FirstReadyMeans(init, remaining);
      var earlier := FirstReady(init, remaining);
      if earlier.Some? {
        var k :| FirstReadyAt(init, remaining, k) && earlier.value == remaining[init[k].artifact.name];
        assert FirstReadyAt(nodes, remaining, k);
      } else if Ready(last, remaining) {
        assert FirstReadyAt(nodes, remaining, |nodes| - 1);
      } else {
        assert forall n <- nodes :: n in init || n == last;
      }
    }
  }

  /** One scan: skip what is not pending or is blocked, return the first that is left. */
  method NextReadyAction(nodes: seq<Node>, remaining: map<string, Action>) returns (r: Option<Action>)
    ensures r == FirstReady(nodes, remaining)
  {
    for i := 0 to |nodes|
      invariant FirstReady(nodes[..i], remaining).None?
    {
      var node := nodes[i];
      assert nodes[..i + 1][..i] == nodes[..i];
      if node.artifact.name in remaining {
        var blocked := exists d <- node.dependencies :: d.name in remaining;
        if !blocked {
          FirstReadyStays(nodes, remaining, i + 1);
          return Some(remaining[node.artifact.name]);
        }
      }
    }
    assert nodes[..|nodes|] == nodes;
    return None;
  }

  lemma {:induction false} FirstReadyStays(nodes: seq<Node>, remaining: map<string, Action>, n: nat)
    requires n <= |nodes| && FirstReady(nodes[..n], remaining).Some?
    ensures FirstReady(nodes, remaining) == FirstReady(nodes[..n], remaining)
    decreases |nodes|
  {
    if n < |nodes| {
      var init := nodes[..|nodes| - 1];
      assert init[..n] == nodes[..n];
      FirstReadyStays(init, remaining, n);
    } else {
      assert nodes[..n] == nodes;
    }
  }

  /** Every pending action is filed under its own name. */
  predicate Filed(remaining: map<string, Action>) {
    forall name <- remaining :: remaining[name].name == name && !remaining[name].operation.Keep?
  }

  lemma {:induction false} PendingIsFiled(actions: seq<Action>)
    ensures Filed(Pending(actions))
    ensures forall name <- Pending(actions) :: Pending(actions)[name] in actions
  {
    if actions != [] {
      PendingIsFiled(actions[..|actions| - 1]);
    }
  }

  lemma FirstReadyIsPending(nodes: seq<Node>, remaining: map<string, Action>)
    requires Filed(remaining) && FirstReady(nodes, remaining).Some?
    ensures FirstReady(nodes, remaining).value.name in remaining
    ensures remaining[FirstReady(nodes, remaining).value.name] == FirstReady(nodes, remaining).value
  {
    FirstReadyMeans(nodes, remaining);
  }

  // ---- The schedule ----

  /** The order in which actions run when every command succeeds; it depends on node order and the plan alone. */
  function Schedule(nodes: seq<Node>, remaining: map<string, Action>): seq<Action>
    requires Filed(remaining)
    decreases |remaining|
  {
    var next := FirstReady(nodes, remaining);
    if next.None? then []
    else
      FirstReadyIsPending(nodes, remaining);
      RemovalShrinks(remaining, next.value.name);
      [next.value] + Schedule(nodes, remaining - {next.value.name})
  }

  lemma RemovalShrinks(remaining: map<string, Action>, name: string)
    requires name in remaining
    ensures |remaining - {name}| == |remaining| - 1
  {
    assert (remaining - {name}).Keys == remaining.Keys - {name};
    assert |remaining| == |remaining.Keys|;
  }

  function LaunchOf(plan: Plan, a: Action): Launch {
    Launch(a.operation, a.name, a.operation.Install? && !NamedIn(plan.targets, a.name))
  }

  function LaunchesOf(plan: Plan, actions: seq<Action>): (r: seq<Launch>)
    ensures |r| == |actions| && forall i :: 0 <= i < |r| ==> r[i] == LaunchOf(plan, actions[i])
  {
    seq(|actions|, i requires 0 <= i < |actions| => LaunchOf(plan, actions[i]))
  }

  // ---- Permission ----

  /** The recheck itself: the window first, then the evaluator at this time. */
  method ExecutionAllowed(plan: Plan, a: Assessment, now: int) returns (allowed: bool)
    ensures allowed <==> T.ExecutionAllowed(a, plan.issuedAt, plan.expiresAt, now)
  {
    if now < plan.issuedAt || now >= plan.expiresAt {
      return false;
    }
    var decision := E.Evaluate(a.(now := now));
    return decision.outcome.Allow?;
  }

  /**
   What a launch needs: policy allows the assessment at this moment, inside the plan's window, in a
   reviewed runtime.
   */
  ghost predicate MayLaunch(plan: Plan, a: Assessment, m: Moment) {
    T.ExecutionAllowed(a, plan.issuedAt, plan.expiresAt, m.now) && m.runtimeOk
  }

  /** The first n launches were all permitted and all their commands succeeded. */
  ghost predicate SmoothUntil(plan: Plan, a: Assessment, world: nat -> Moment, n: nat) {
    forall i {:trigger world(i)} :: 0 <= i < n ==> MayLaunch(plan, a, world(i)) && Succeeded(world(i).result)
  }

  function MomentAt(world: nat -> Moment, i: nat): Moment {
    world(i)
  }

  /** Every one of the first n launches was permitted at its own moment. */
  ghost predicate EachPermitted(plan: Plan, a: Assessment, world: nat -> Moment, n: nat) {
    forall i {:trigger world(i)} :: 0 <= i < n ==> MayLaunch(plan, a, world(i))
  }

  /** Of the first n commands, all but the last succeeded. */
  predicate EarlierSucceeded(world: nat -> Moment, n: nat) {
    forall i {:trigger world(i)} :: 0 <= i < n - 1 ==>
      !world(i).result.failed && world(i).result.exitKnown && world(i).result.exitCode == 0
  }

  predicate WentWrong(r: CommandResult) {
    r.failed || !r.exitKnown || r.exitCode != 0
  }

  /** A run is stopped exactly by the last command it launched being no success, and with its result. */
  predicate EndedBy(outcome: RunOutcome, world: nat -> Moment, launched: seq<Launch>) {
    && (outcome.Stopped? <==> |launched| > 0 && WentWrong(world(|launched| - 1).result))
    && (outcome.Stopped? ==> outcome.result == world(|launched| - 1).result)
  }

  /**
   Each command installs or upgrades what a pending action names, with the action's operation, and as a
   dependency exactly when it is an install nobody asked for.
   */
  predicate CarriesOut(plan: Plan, pending: map<string, Action>, launched: seq<Launch>) {
    forall l <- launched ::
      && l.name in pending && l.operation == pending[l.name].operation
      && (l.asDependency <==> l.operation.Install? && forall t <- plan.targets :: t.name != l.name)
  }

  lemma {:induction false} ScheduleIsPending(nodes: seq<Node>, remaining: map<string, Action>)
    requires Filed(remaining)
    ensures forall a <- Schedule(nodes, remaining) :: a.name in remaining && remaining[a.name] == a
    decreases |remaining|
  {
    var next := FirstReady(nodes, remaining);
    if next.Some? {
      FirstReadyIsPending(nodes, remaining);
      RemovalShrinks(remaining, next.value.name);
      ScheduleIsPending(nodes, remaining - {next.value.name});
    }
  }

  lemma ScheduleCarriesOut(plan: Plan, pending: map<string, Action>, launched: seq<Launch>)
    requires Filed(pending) && launched <= LaunchesOf(plan, Schedule(plan.nodes, pending))
    ensures CarriesOut(plan, pending, launched)
  {
    var s := Schedule(plan.nodes, pending);
    ScheduleIsPending(plan.nodes, pending);
    forall l | l in launched
      ensures l.name in pending && l == LaunchOf(plan, pending[l.name])
    {
      var i :| 0 <= i < |launched| && launched[i] == l;
      assert LaunchesOf(plan, s)[i] == LaunchOf(plan, s[i]) && s[i] in s;
    }
  }

  lemma SmoothStep(plan: Plan, a: Assessment, world: nat -> Moment, n: nat)
    requires SmoothUntil(plan, a, world, n) && MayLaunch(plan, a, MomentAt(world, n))
    requires Succeeded(MomentAt(world, n).result)
    ensures SmoothUntil(plan, a, world, n + 1)
  {
  }

  /** What refuses a launch at a moment. */
  ghost predicate Refuses(plan: Plan, a: Assessment, m: Moment, outcome: RunOutcome) {
    var allowed := T.ExecutionAllowed(a, plan.issuedAt, plan.expiresAt, m.now);
    (outcome.Expired? ==> !allowed) && (outcome.RuntimeChanged? ==> allowed && !m.runtimeOk)
  }

  /** A run that ended before its next command was refused it at that command's moment. */
  ghost predicate RefusedAt(plan: Plan, a: Assessment, world: nat -> Moment, k: nat, outcome: RunOutcome) {
    Refuses(plan, a, world(k), outcome)
  }

  /**
   Each command was permitted at its own moment and launched after all before it succeeded; and the
   way the run ended says what came of the last one, or what refused the next.
   */
  ghost predicate Accounted(
    plan: Plan, a: Assessment, world: nat -> Moment, launched: seq<Launch>, outcome: RunOutcome) {
    && EachPermitted(plan, a, world, |launched|) && EarlierSucceeded(world, |launched|)
    && EndedBy(outcome, world, launched) && RefusedAt(plan, a, world, |launched|, outcome)
  }

  /** Up to here everything went well: the run has not been stopped by a command. */
  lemma SmoothSoFar(plan: Plan, a: Assessment, world: nat -> Moment, launched: seq<Launch>, outcome: RunOutcome)
    requires SmoothUntil(plan, a, world, |launched|) && !outcome.Stopped?
    requires RefusedAt(plan, a, world, |launched|, outcome)
    ensures Accounted(plan, a, world, launched, outcome)
  {
  }

  /** The last command alone went wrong. */
  lemma SmoothButTheLast(plan: Plan, a: Assessment, world: nat -> Moment, launched: seq<Launch>, n: nat)
    requires |launched| == n + 1 && SmoothUntil(plan, a, world, n) && MayLaunch(plan, a, MomentAt(world, n))
    requires !Succeeded(MomentAt(world, n).result)
    ensures Accounted(plan, a, world, launched, Stopped(MomentAt(world, n).result))
  {
    assert |launched| - 1 == n;
  }

  /** The two checks in front of a command. */
  method CheckLaunch(plan: Plan, a: Assessment, m: Moment) returns (refusal: Option<RunOutcome>)
    ensures refusal.None? <==> MayLaunch(plan, a, m)
    ensures refusal.Some? ==>
      (refusal.value.Expired? || refusal.value.RuntimeChanged?) && Refuses(plan, a, m, refusal.value)
  {
    var allowed := ExecutionAllowed(plan, a, m.now);
    if !allowed {
      return Some(Expired);
    }
    return if m.runtimeOk then None else Some(RuntimeChanged);
  }

  /** Where a run stands: what ran is the head of the schedule, what remains is its tail. */
  ghost predicate Running(plan: Plan, pending: map<string, Action>, ran: seq<Action>, remaining: map<string, Action>) {
    && Filed(pending) && Filed(remaining)
    && Schedule(plan.nodes, pending) == ran + Schedule(plan.nodes, remaining)
    && |ran| + |remaining| == |pending|
  }

  lemma RunningSteps(
    plan: Plan, pending: map<string, Action>, ran: seq<Action>, remaining: map<string, Action>, next: Action)
    requires Running(plan, pending, ran, remaining) && FirstReady(plan.nodes, remaining) == Some(next)
    ensures Running(plan, pending, ran + [next], remaining - {next.name})
    ensures LaunchesOf(plan, ran + [next]) == LaunchesOf(plan, ran) + [LaunchOf(plan, next)]
    ensures LaunchesOf(plan, ran + [next]) <= LaunchesOf(plan, Schedule(plan.nodes, pending))
  {
    FirstReadyIsPending(plan.nodes, remaining);
    RemovalShrinks(remaining, next.name);
    var rest := Schedule(plan.nodes, remaining - {next.name});
    assert ran + ([next] + rest) == (ran + [next]) + rest;
  }

  /** The schedule covers everything pending, and every launch of it is permitted and succeeds. */
  ghost predicate Finishes(plan: Plan, pending: map<string, Action>, a: Assessment, world: nat -> Moment)
    requires Filed(pending)
  {
    |Schedule(plan.nodes, pending)| == |pending| && SmoothUntil(plan, a, world, |pending|)
  }

  /** One refusal or failure leaves no complete run. */
  lemma Interrupted(plan: Plan, pending: map<string, Action>, a: Assessment, world: nat -> Moment, i: nat)
    requires Filed(pending) && i < |pending|
    requires !(MayLaunch(plan, a, MomentAt(world, i)) && Succeeded(MomentAt(world, i).result))
    ensures !Finishes(plan, pending, a, world)
  {
  }

  /** Nothing is ready any more: what ran is the schedule, and it either covers everything or the rest is blocked. */
  lemma RunningEnds(
    plan: Plan, pending: map<string, Action>, ran: seq<Action>, remaining: map<string, Action>, a: Assessment,
    world: nat -> Moment)
    requires Running(plan, pending, ran, remaining) && FirstReady(plan.nodes, remaining).None?
    ensures LaunchesOf(plan, ran) == LaunchesOf(plan, Schedule(plan.nodes, pending))
    ensures |remaining| == 0 && SmoothUntil(plan, a, world, |ran|) ==> Finishes(plan, pending, a, world)
    ensures |remaining| > 0 ==> |Schedule(plan.nodes, pending)| < |pending| && !Finishes(plan, pending, a, world)
  {
    assert ran + [] == ran;
  }

  lemma RunningFits(plan: Plan, pending: map<string, Action>, ran: seq<Action>, remaining: map<string, Action>)
    requires Running(plan, pending, ran, remaining)
    ensures LaunchesOf(plan, ran) <= LaunchesOf(plan, Schedule(plan.nodes, pending))
    ensures |Schedule(plan.nodes, pending)| <= |pending|
    ensures |remaining| == 0 ==> FirstReady(plan.nodes, remaining).None?
  {
    ScheduleFits(plan.nodes, pending);
    if FirstReady(plan.nodes, remaining).Some? {
      FirstReadyIsPending(plan.nodes, remaining);
    }
  }

  /**
   The run launches a prefix of the schedule. Every launch was permitted by the evaluator
   at its own time and every earlier command succeeded; the run completes exactly when
   nothing stopped it.
   */
  method RunPendingActions(plan: Plan, pending: map<string, Action>, a: Assessment, world: nat -> Moment)
      returns (outcome: RunOutcome, launched: seq<Launch>)
    requires Filed(pending)
    ensures launched <= LaunchesOf(plan, Schedule(plan.nodes, pending))
    ensures Accounted(plan, a, world, launched, outcome)
    ensures outcome.Completed? <==> Finishes(plan, pending, a, world)
    ensures outcome.Completed? ==> launched == LaunchesOf(plan, Schedule(plan.nodes, pending))
    ensures outcome.Cyclic? ==> |Schedule(plan.nodes, pending)| < |pending|
  {
    var remaining := pending;
    ghost var ran: seq<Action> := [];
    launched := [];
    while |remaining| != 0
      invariant Running(plan, pending, ran, remaining)
      invariant launched == LaunchesOf(plan, ran) && |launched| == |ran|
      invariant SmoothUntil(plan, a, world, |ran|)
      decreases |remaining|
    {
      var selected := NextReadyAction(plan.nodes, remaining);
      RunningFits(plan, pending, ran, remaining);
      if selected.None? {
        RunningEnds(plan, pending, ran, remaining, a, world);
        SmoothSoFar(plan, a, world, launched, Cyclic);
        return Cyclic, launched;
      }
      var moment := MomentAt(world, |launched|);
      var refusal := CheckLaunch(plan, a, moment);
      if refusal.Some? {
        Interrupted(plan, pending, a, world, |ran|);
        SmoothSoFar(plan, a, world, launched, refusal.value);
        return refusal.value, launched;
      }
      RunningSteps(plan, pending, ran, remaining, selected.value);
      launched := launched + [LaunchOf(plan, selected.value)];
      ran := ran + [selected.value];
      remaining := remaining - {selected.value.name};
      if !Succeeded(moment.result) {
        Interrupted(plan, pending, a, world, |ran| - 1);
        SmoothButTheLast(plan, a, world, launched, |ran| - 1);
        return Stopped(moment.result), launched;
      }
      SmoothStep(plan, a, world, |ran| - 1);
    }
    assert |ran| == |pending|;
    RunningFits(plan, pending, ran, remaining);
    RunningEnds(plan, pending, ran, remaining, a, world);
    SmoothSoFar(plan, a, world, launched, Completed);
    return Completed, launched;
  }

  lemma {:induction false} ScheduleFits(nodes: seq<Node>, remaining: map<string, Action>)
    requires Filed(remaining)
    ensures |Schedule(nodes, remaining)| <= |remaining|
    decreases |remaining|
  {
    var next := FirstReady(nodes, remaining);
    if next.Some? {
      FirstReadyIsPending(nodes, remaining);
      RemovalShrinks(remaining, next.value.name);
      ScheduleFits(nodes, remaining - {next.value.name});
    }
  }
}
