/**
 What the schedule guarantees for a plan whose graph is well formed: it never gets
 stuck, runs each pending action exactly once, and runs direct dependencies first.
 */
module ScheduleOrder {
  import opened Domain
  import opened Graph
  import opened PolicyGraph
  import opened Scheduler

  predicate Within(remaining: map<string, Action>, nodes: seq<Node>) {
    forall name <- remaining :: exists n <- nodes :: n.artifact.name == name
  }

  /** Some pending node has no pending direct dependency. */
  lemma SomethingIsReady(nodes: seq<Node>, remaining: map<string, Action>, name: string)
    requires DistinctNames(nodes) && ClosedKeys(DependencyGraph(nodes)) && Acyclic(DependencyGraph(nodes))
    requires Within(remaining, nodes) && name in remaining
    ensures FirstReady(nodes, remaining).Some?
  {
    var g := DependencyGraph(nodes);
    var s := set n | n in nodes && n.artifact.name in remaining :: n.artifact;
    var start :| start in nodes && start.artifact.name == name;
    assert start.artifact in s;
    var z := SinkExists(g, s, start.artifact);
    var n :| n in nodes && n.artifact.name in remaining && n.artifact == z;
    SinkIsReady(nodes, remaining, s, n);
    FirstReadyMeans(nodes, remaining);
  }

  lemma SinkIsReady(nodes: seq<Node>, remaining: map<string, Action>, s: set<Artifact>, n: Node)
    requires DistinctNames(nodes) && ClosedKeys(DependencyGraph(nodes)) && n in nodes && n.artifact.name in remaining
    requires forall m <- nodes :: m.artifact.name in remaining ==> m.artifact in s
    requires forall d :: Edge(DependencyGraph(nodes), n.artifact, d) ==> d !in s
    ensures Ready(n, remaining)
  {
    var g := DependencyGraph(nodes);
    IndexFindsNode(nodes, n);
    IndexNodesKeys(nodes);
    forall d | d in n.dependencies
      ensures d.name !in remaining
    {
      assert Edge(g, n.artifact, d);
      assert IndexNodes(nodes)[d] in nodes;
    }
  }

  /** s lists the pending actions, each exactly once. */
  ghost predicate Enumerates(s: seq<Action>, remaining: map<string, Action>) {
    && |s| == |remaining|
    && (forall i, j :: 0 <= i < j < |s| ==> s[i].name != s[j].name)
    && (forall a <- s :: a.name in remaining && remaining[a.name] == a)
    && (forall name <- remaining :: remaining[name] in s)
  }

  /** Every pending direct dependency of an action's node stands before the action. */
  ghost predicate DependenciesFirst(s: seq<Action>, nodes: seq<Node>, remaining: map<string, Action>) {
    forall i, n, d ::
      0 <= i < |s| && n in nodes && n.artifact.name == s[i].name && d in n.dependencies && d.name in remaining
      ==> RunsBefore(s, d.name, i)
  }

  predicate RunsBefore(s: seq<Action>, name: string, i: nat) {
    exists j :: 0 <= j < i && j < |s| && s[j].name == name
  }

  lemma {:induction false} ScheduleEnumerates(nodes: seq<Node>, remaining: map<string, Action>)
    requires DistinctNames(nodes) && ClosedKeys(DependencyGraph(nodes)) && Acyclic(DependencyGraph(nodes))
    requires Filed(remaining) && Within(remaining, nodes)
    ensures Enumerates(Schedule(nodes, remaining), remaining)
    decreases |remaining|
  {
    var next := FirstReady(nodes, remaining);
    if next.None? {
      if name :| name in remaining {
        SomethingIsReady(nodes, remaining, name);
        assert false;
      }
      assert remaining == map[];
    } else {
      var head := next.value;
      FirstReadyIsPending(nodes, remaining);
      RemovalShrinks(remaining, head.name);
      ScheduleEnumerates(nodes, remaining - {head.name});
      EnumeratesStep(Schedule(nodes, remaining - {head.name}), remaining, head);
    }
  }

  lemma EnumeratesStep(tail: seq<Action>, remaining: map<string, Action>, head: Action)
    requires head.name in remaining && remaining[head.name] == head && Enumerates(tail, remaining - {head.name})
    ensures Enumerates([head] + tail, remaining)
  {
    RemovalShrinks(remaining, head.name);
    var s := [head] + tail;
    forall i, j | 0 <= i < j < |s|
      ensures s[i].name != s[j].name
    {
      assert s[j] == tail[j - 1] && tail[j - 1] in tail;
      if i > 0 { assert s[i] == tail[i - 1]; }
    }
    forall name | name in remaining
      ensures remaining[name] in s
    {
      if name != head.name { assert name in remaining - {head.name}; }
    }
  }

  lemma {:induction false} ScheduleIsOrdered(nodes: seq<Node>, remaining: map<string, Action>)
    requires DistinctNames(nodes) && Filed(remaining)
    ensures DependenciesFirst(Schedule(nodes, remaining), nodes, remaining)
    decreases |remaining|
  {
    var next := FirstReady(nodes, remaining);
    if next.Some? {
      var head := next.value;
      FirstReadyIsPending(nodes, remaining);
      RemovalShrinks(remaining, head.name);
      ScheduleIsOrdered(nodes, remaining - {head.name});
      HeadIsUnblocked(nodes, remaining);
      OrderedStep(Schedule(nodes, remaining - {head.name}), nodes, remaining, head);
    }
  }

  lemma HeadIsUnblocked(nodes: seq<Node>, remaining: map<string, Action>)
    requires DistinctNames(nodes) && Filed(remaining) && FirstReady(nodes, remaining).Some?
    ensures forall n, d ::
      n in nodes && n.artifact.name == FirstReady(nodes, remaining).value.name && d in n.dependencies ==>
        d.name !in remaining
  {
    FirstReadyMeans(nodes, remaining);
    var head := FirstReady(nodes, remaining).value;
    var k :| FirstReadyAt(nodes, remaining, k) && head == remaining[nodes[k].artifact.name];
    forall n, d | n in nodes && n.artifact.name == head.name && d in n.dependencies
      ensures d.name !in remaining
    {
      var i :| 0 <= i < |nodes| && nodes[i] == n;
      assert nodes[i].artifact.name == nodes[k].artifact.name;
      assert i == k;
    }
  }

  lemma OrderedStep(tail: seq<Action>, nodes: seq<Node>, remaining: map<string, Action>, head: Action)
    requires head.name in remaining && DependenciesFirst(tail, nodes, remaining - {head.name})
    requires forall n, d :: n in nodes && n.artifact.name == head.name && d in n.dependencies ==> d.name !in remaining
    ensures DependenciesFirst([head] + tail, nodes, remaining)
  {
    var s := [head] + tail;
    forall i, n, d |
      0 <= i < |s| && n in nodes && n.artifact.name == s[i].name && d in n.dependencies && d.name in remaining
      ensures RunsBefore(s, d.name, i)
    {
      if d.name == head.name {
        assert s[0].name == d.name;
      } else {
        assert s[i] == tail[i - 1] && d.name in remaining - {head.name};
        assert RunsBefore(tail, d.name, i - 1);
        var j :| 0 <= j < i - 1 && tail[j].name == d.name;
        assert s[j + 1].name == d.name;
      }
    }
  }

  // ---- Plans ----

  lemma {:induction false} PendingIsWithin(actions: seq<Action>, nodes: seq<Node>)
    requires ActionsMatch(actions, nodes)
    ensures Within(Pending(actions), nodes)
  {
    if actions != [] {
      var init := nodes[..|nodes| - 1];
      PendingIsWithin(actions[..|actions| - 1], init);
      forall name | name in Pending(actions)
        ensures exists n <- nodes :: n.artifact.name == name
      {
        if name in Pending(actions[..|actions| - 1]) {
          var n :| n in init && n.artifact.name == name;
          assert n in nodes;
        } else {
          assert nodes[|nodes| - 1] in nodes;
        }
      }
    }
  }

  /** A plan that policy allows is scheduled completely: every pending action once, direct dependencies first. */
  lemma AllowedPlanIsScheduled(targets: seq<Artifact>, nodes: seq<Node>, actions: seq<Action>)
    requires WellFormedGraph(targets, nodes) && ActionsMatch(actions, nodes)
    ensures Filed(Pending(actions))
    ensures Enumerates(Schedule(nodes, Pending(actions)), Pending(actions))
    ensures DependenciesFirst(Schedule(nodes, Pending(actions)), nodes, Pending(actions))
  {
    PendingIsFiled(actions);
    PendingIsWithin(actions, nodes);
    ScheduleEnumerates(nodes, Pending(actions));
    ScheduleIsOrdered(nodes, Pending(actions));
  }
}
