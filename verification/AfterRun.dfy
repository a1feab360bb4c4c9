/**
 The observation after a run in which every command succeeded: when it matches the
 plan, and the one bound that can keep it from matching.
 */
module AfterRun {
  import opened Domain
  import opened PolicyGraph
  import opened Scheduler
  import opened ScheduleOrder
  import opened InstalledState

  predicate AllKeep(actions: Option<seq<Action>>) {
    actions.Some? && forall a <- actions.value :: a.operation.Keep?
  }

  /** The request the after-state is judged by: an install of what the plan itself installed on request. */
  function AfterRequest(actions: seq<Action>, targets: seq<Artifact>): Request {
    Request(Install, RequestedInstalls(actions, targets))
  }

  /** Whether the observed states need nothing more; no verdict when they cannot be inspected. */
  method VerifyAfterState(states: seq<InstalledFormula>, nodes: seq<Node>, requestedInstalls: seq<string>)
      returns (matches: Option<bool>)
    ensures matches.Some? <==>
      && |states| == |nodes| && DistinctStates(states)
      && forall n <- nodes :: Workable(states, n, Request(Install, requestedInstalls))
    ensures matches == Some(true) <==>
      && |states| == |nodes| && DistinctStates(states)
      && AllKeep(ActionsFor(ByName(states), nodes, Request(Install, requestedInstalls)))
    ensures matches == Some(true) <==>
      && |states| == |nodes| && DistinctStates(states)
      && forall n <- nodes :: Observed(states, n, Request(Install, requestedInstalls), Keep)
  {
    if DistinctStates(states) {
      AllKeepMeans(states, nodes, Request(Install, requestedInstalls));
    }
    var needed := PublicActions(states, nodes, Request(Install, requestedInstalls));
    if needed.None? {
      return None;
    }
    return Some(!exists a <- needed.value :: !a.operation.Keep?);
  }

  lemma AllKeepMeans(states: seq<InstalledFormula>, nodes: seq<Node>, request: Request)
    requires DistinctStates(states)
    ensures AllKeep(ActionsFor(ByName(states), nodes, request)) <==>
      forall n <- nodes :: Observed(states, n, request, Keep)
  {
    AllKeepByNode(ByName(states), nodes, request);
    forall n { NodeActionMeans(states, n, request, Keep); }
    if forall i :: 0 <= i < |nodes| ==> NodeKept(ByName(states), nodes[i], request) {
      forall n | n in nodes ensures Observed(states, n, request, Keep) {
        var i :| 0 <= i < |nodes| && nodes[i] == n;
        assert NodeKept(ByName(states), nodes[i], request);
      }
    }
  }

  lemma {:induction false} RequestedMeans(actions: seq<Action>, targets: seq<Artifact>, name: string)
    ensures name in RequestedInstalls(actions, targets)
       <==> (exists a <- actions :: a.name == name && a.operation.Install?) && exists t <- targets :: t.name == name
  {
    if actions != [] {
      RequestedMeans(actions[..|actions| - 1], targets, name);
      assert forall a <- actions :: a in actions[..|actions| - 1] || a == actions[|actions| - 1];
    }
  }

  lemma {:induction false} PendingMeans(actions: seq<Action>, nodes: seq<Node>, i: nat)
    requires ActionsMatch(actions, nodes) && DistinctNames(nodes) && i < |actions|
    ensures if actions[i].operation.Keep? then actions[i].name !in Pending(actions)
            else actions[i].name in Pending(actions) && Pending(actions)[actions[i].name] == actions[i]
  {
    var init := actions[..|actions| - 1];
    var last := |actions| - 1;
    if i < last {
      PendingMeans(init, nodes[..|nodes| - 1], i);
      assert actions[i].name != actions[last].name;
    } else if actions[last].operation.Keep? {
      PendingIsWithin(init, nodes[..|nodes| - 1]);
    }
  }

  lemma KegIsNamed(a: Artifact)
    requires a.Valid()
    ensures Keg(a) != ""
  {
  }

  /** A formula on which its command took effect needs nothing more, as long as its kegs are few enough to inspect. */
  lemma SettledNeedsNothing(
    before: InstalledFormula, after: InstalledFormula, a: Artifact, launch: Launch, request: Request)
    requires Effect(before, after, Keg(a), launch) && Keg(a) != "" && request.operation.Install?
    requires after.name in request.targets ==> launch.operation.Install? && !launch.asDependency
    ensures ActionNeeded(after, a, request) == Some(Keep)
    ensures Actionable(after) <==> |OtherVersions(before.installed, Keg(a))| < MAX_INSTALLED
  {
    LastHasVersion(after.installed, Keg(a));
  }

  /** A kept formula stays kept: the after-request asks nothing of it. */
  lemma KeptStaysKept(world: World, n: Node, request: Request, later: Request)
    requires NodeAction(world, n, request) == Some(Action(n.artifact.name, Keep))
    requires world[n.artifact.name].name == n.artifact.name
    requires later.operation.Install? && n.artifact.name !in later.targets
    ensures NodeAction(world, n, later) == Some(Action(n.artifact.name, Keep))
  {
  }

  /** The formula of a node that is about to change has fewer kegs of other versions than an observation may list. */
  predicate NodeHasRoom(world: World, plan: Plan, i: nat)
    requires |plan.actions| == |plan.nodes| && i < |plan.nodes|
  {
    !plan.actions[i].operation.Keep? && plan.nodes[i].artifact.name in world ==>
      |OtherVersions(world[plan.nodes[i].artifact.name].installed, Keg(plan.nodes[i].artifact))| < MAX_INSTALLED
  }

  /** There is room to record one more keg for every formula that is about to change. */
  predicate RoomToRecord(world: World, plan: Plan)
    requires |plan.actions| == |plan.nodes|
  {
    forall i :: 0 <= i < |plan.nodes| ==> NodeHasRoom(world, plan, i)
  }

  predicate NamesItself(world: World) {
    forall name <- world :: world[name].name == name
  }

  /** The plan at hand: actions derived from the first observation, and a run that carried all of them out. */
  ghost predicate CarriedOut(worlds: seq<World>, plan: Plan, request: Request) {
    && |worlds| > 0
    && DistinctNames(plan.nodes) && (forall n <- plan.nodes :: Keg(n.artifact) != "")
    && NamesItself(worlds[0])
    && ActionsFor(worlds[0], plan.nodes, request) == Some(plan.actions)
    && ActionsMatch(plan.actions, plan.nodes) && Filed(Pending(plan.actions))
    && Enumerates(Schedule(plan.nodes, Pending(plan.actions)), Pending(plan.actions))
    && Run(worlds, plan.nodes, LaunchesOf(plan, Schedule(plan.nodes, Pending(plan.actions))))
  }

  lemma LaunchesAreDistinct(plan: Plan)
    requires Filed(Pending(plan.actions))
    requires Enumerates(Schedule(plan.nodes, Pending(plan.actions)), Pending(plan.actions))
    ensures DistinctLaunches(LaunchesOf(plan, Schedule(plan.nodes, Pending(plan.actions))))
  {
  }

  lemma KeptIsNotLaunched(plan: Plan, i: nat)
    requires DistinctNames(plan.nodes) && ActionsMatch(plan.actions, plan.nodes) && i < |plan.actions|
    requires Filed(Pending(plan.actions))
    requires Enumerates(Schedule(plan.nodes, Pending(plan.actions)), Pending(plan.actions))
    requires plan.actions[i].operation.Keep?
    ensures forall l <- LaunchesOf(plan, Schedule(plan.nodes, Pending(plan.actions))) ::
      l.name != plan.nodes[i].artifact.name
  {
    var schedule := Schedule(plan.nodes, Pending(plan.actions));
    PendingMeans(plan.actions, plan.nodes, i);
    forall k | 0 <= k < |schedule|
      ensures LaunchesOf(plan, schedule)[k].name != plan.nodes[i].artifact.name
    {
      assert schedule[k] in schedule;
    }
  }

  lemma ChangedIsLaunched(plan: Plan, i: nat) returns (k: nat)
    requires DistinctNames(plan.nodes) && ActionsMatch(plan.actions, plan.nodes) && i < |plan.actions|
    requires Filed(Pending(plan.actions))
    requires Enumerates(Schedule(plan.nodes, Pending(plan.actions)), Pending(plan.actions))
    requires !plan.actions[i].operation.Keep?
    ensures var launches := LaunchesOf(plan, Schedule(plan.nodes, Pending(plan.actions)));
      && k < |launches| && launches[k] == LaunchOf(plan, plan.actions[i])
      && launches[k].name == plan.nodes[i].artifact.name
  {
    var schedule := Schedule(plan.nodes, Pending(plan.actions));
    PendingMeans(plan.actions, plan.nodes, i);
    assert plan.actions[i] in schedule;
    k :| 0 <= k < |schedule| && schedule[k] == plan.actions[i];
  }

  /** What became of one node by the end of the run. */
  lemma NodeAtEnd(worlds: seq<World>, plan: Plan, request: Request, i: nat)
    requires CarriedOut(worlds, plan, request) && i < |plan.nodes|
    ensures
      var name := plan.nodes[i].artifact.name;
      var end := worlds[|worlds| - 1];
      && name in worlds[0] && name in end
      && if plan.actions[i].operation.Keep? then end[name] == worlds[0][name]
         else Effect(worlds[0][name], end[name], Keg(plan.nodes[i].artifact), LaunchOf(plan, plan.actions[i]))
  {
    var schedule := Schedule(plan.nodes, Pending(plan.actions));
    var launches := LaunchesOf(plan, schedule);
    LaunchesAreDistinct(plan);
    ActionsForMeans(worlds[0], plan.nodes, request);
    assert NodeAction(worlds[0], plan.nodes[i], request).Some?;
    RunEffect(worlds, plan.nodes, launches, |launches|, plan.nodes[i]);
    if plan.actions[i].operation.Keep? {
      KeptIsNotLaunched(plan, i);
      assert forall k :: 0 <= k < |launches| ==> launches[k] in launches;
    } else {
      var k := ChangedIsLaunched(plan, i);
      assert launches[k] == LaunchOf(plan, plan.actions[i]);
    }
  }

  /** At the end a node needs nothing more exactly if it was kept or had room. */
  lemma NodeMatchesAtEnd(worlds: seq<World>, plan: Plan, request: Request, i: nat)
    requires CarriedOut(worlds, plan, request) && i < |plan.nodes|
    ensures
      NodeKept(worlds[|worlds| - 1], plan.nodes[i], AfterRequest(plan.actions, plan.targets))
      <==> NodeHasRoom(worlds[0], plan, i)
  {
    var n := plan.nodes[i];
    var later := AfterRequest(plan.actions, plan.targets);
    NodeAtEnd(worlds, plan, request, i);
    ActionsForMeans(worlds[0], plan.nodes, request);
    RequestedMeans(plan.actions, plan.targets, n.artifact.name);
    OnlyActionNamed(plan, i);
    if plan.actions[i].operation.Keep? {
      KeptStaysKept(worlds[0], n, request, later);
    } else {
      SettledNeedsNothing(worlds[0][n.artifact.name], worlds[|worlds| - 1][n.artifact.name], n.artifact,
                          LaunchOf(plan, plan.actions[i]), later);
    }
  }

  lemma OnlyActionNamed(plan: Plan, i: nat)
    requires ActionsMatch(plan.actions, plan.nodes) && DistinctNames(plan.nodes) && i < |plan.actions|
    ensures forall a <- plan.actions :: a.name == plan.actions[i].name ==> a == plan.actions[i]
  {
    forall a | a in plan.actions && a.name == plan.actions[i].name
      ensures a == plan.actions[i]
    {
      var j :| 0 <= j < |plan.actions| && plan.actions[j] == a;
      assert plan.nodes[i].artifact.name == plan.nodes[j].artifact.name;
    }
  }

  /**
   A run that carried everything out is reported as matching exactly when no changed
   formula already had as many kegs of other versions as an observation may list.
   */
  lemma MatchesExactlyWithRoom(worlds: seq<World>, plan: Plan, request: Request)
    requires CarriedOut(worlds, plan, request)
    ensures AllKeep(ActionsFor(worlds[|worlds| - 1], plan.nodes, AfterRequest(plan.actions, plan.targets)))
       <==> RoomToRecord(worlds[0], plan)
  {
    var end, later := worlds[|worlds| - 1], AfterRequest(plan.actions, plan.targets);
    ActionsForMeans(end, plan.nodes, later);
    forall i | 0 <= i < |plan.nodes|
      ensures NodeKept(end, plan.nodes[i], later) <==> NodeHasRoom(worlds[0], plan, i)
    {
      NodeMatchesAtEnd(worlds, plan, request, i);
    }
    AllKeepByNode(end, plan.nodes, later);
  }

  predicate NodeKept(world: World, n: Node, request: Request) {
    NodeAction(world, n, request) == Some(Action(n.artifact.name, Keep))
  }

  lemma AllKeepByNode(world: World, nodes: seq<Node>, request: Request)
    ensures AllKeep(ActionsFor(world, nodes, request)) <==>
      forall i :: 0 <= i < |nodes| ==> NodeKept(world, nodes[i], request)
  {
    ActionsForMeans(world, nodes, request);
    if forall i :: 0 <= i < |nodes| ==> NodeKept(world, nodes[i], request) {
      forall n | n in nodes
        ensures NodeAction(world, n, request).Some?
      {
        var i :| 0 <= i < |nodes| && nodes[i] == n;
      }
    }
    if AllKeep(ActionsFor(world, nodes, request)) {
      forall i | 0 <= i < |nodes|
        ensures NodeKept(world, nodes[i], request)
      {
        assert ActionsFor(world, nodes, request).value[i] in ActionsFor(world, nodes, request).value;
      }
    }
  }

  /** A plan that keeps everything launches nothing, and the unchanged state matches. */
  lemma NothingToDo(world: World, plan: Plan, request: Request)
    requires DistinctNames(plan.nodes) && (forall n <- plan.nodes :: Keg(n.artifact) != "") && NamesItself(world)
    requires ActionsFor(world, plan.nodes, request) == Some(plan.actions) && AllKeep(Some(plan.actions))
    ensures Pending(plan.actions) == map[]
    ensures AllKeep(ActionsFor(world, plan.nodes, AfterRequest(plan.actions, plan.targets)))
  {
    AllKeptMeansNonePending(plan.actions);
    ActionsForMeans(world, plan.nodes, request);
    forall i | 0 <= i < |plan.nodes|
      ensures NodeKept(world, plan.nodes[i], AfterRequest(plan.actions, plan.targets))
    {
      RequestedMeans(plan.actions, plan.targets, plan.nodes[i].artifact.name);
      assert plan.actions[i] in plan.actions;
      KeptStaysKept(world, plan.nodes[i], request, AfterRequest(plan.actions, plan.targets));
    }
    AllKeepByNode(world, plan.nodes, AfterRequest(plan.actions, plan.targets));
  }

  lemma {:induction false} AllKeptMeansNonePending(actions: seq<Action>)
    requires forall a <- actions :: a.operation.Keep?
    ensures Pending(actions) == map[]
  {
    if actions != [] {
      assert actions[|actions| - 1] in actions;
      AllKeptMeansNonePending(actions[..|actions| - 1]);
    }
  }

  lemma {:induction false} AllOthers(installed: seq<InstalledVersion>, version: string)
    requires forall v <- installed :: v.version != version
    ensures OtherVersions(installed, version) == installed
  {
    if installed != [] {
      AllOthers(installed[..|installed| - 1], version);
      assert installed == installed[..|installed| - 1] + [installed[|installed| - 1]];
    }
  }

  /** One keg directory per version, as a rack has. */
  predicate OneKegPerVersion(installed: seq<InstalledVersion>) {
    forall i, j | 0 <= i < j < |installed| :: installed[i].version != installed[j].version
  }

  /** An older version for every number, none of them the planned keg. */
  function Older(keg: string, i: nat): InstalledVersion {
    InstalledVersion(seq(i + 1, _ => '0') + "." + keg, true, [], true, true)
  }

  function FullRack(keg: string): seq<InstalledVersion> {
    seq(MAX_INSTALLED, i requires 0 <= i < MAX_INSTALLED => Older(keg, i))
  }

  lemma FullRackIsOlder(keg: string)
    ensures |FullRack(keg)| == MAX_INSTALLED && OneKegPerVersion(FullRack(keg))
    ensures forall v <- FullRack(keg) :: v.version != keg && v.version != "" && SupportedBottle(v)
  {
    forall i | 0 <= i < MAX_INSTALLED ensures |FullRack(keg)[i].version| == i + 2 + |keg| {
      assert FullRack(keg)[i] == Older(keg, i);
    }
  }

  lemma RackTakesOneMore(kegs: seq<InstalledVersion>, planned: InstalledVersion)
    requires OneKegPerVersion(kegs) && forall v <- kegs :: v.version != planned.version
    ensures OneKegPerVersion(kegs + [planned])
    ensures forall v :: v in kegs + [planned] <==> v in kegs || v == planned
  {
  }

  /** The bound bites: upgrading a formula whose rack holds 32 older kegs succeeds and yet is not recognised as done. */
  lemma FullRackIsNotRecognised(a: Artifact) returns (before: InstalledFormula, after: InstalledFormula)
    requires Keg(a) != ""
    ensures OneKegPerVersion(before.installed) && OneKegPerVersion(after.installed)
    ensures Actionable(before) && ActionNeeded(before, a, Request(Upgrade, [a.name])) == Some(Upgrade)
    ensures Effect(before, after, Keg(a), Launch(Upgrade, a.name, false))
    ensures forall v <- before.installed :: v in after.installed
    ensures !Actionable(after)
  {
    var kegs, planned := FullRack(Keg(a)), InstalledVersion(Keg(a), true, [], true, true);
    FullRackIsOlder(Keg(a));
    RackTakesOneMore(kegs, planned);
    var active := kegs[0].version;
    assert kegs[0] in kegs && planned in kegs + [planned];
    before := InstalledFormula(a.name, false, true, Some(active), false, kegs);
    after := InstalledFormula(a.name, false, false, Some(Keg(a)), false, kegs + [planned]);
    AllOthers(kegs, Keg(a));
    LastHasVersion(kegs, active);
  }
}
