/**
 Which orderings the scheduler guarantees whatever the order of the nodes: exactly those along
 chains of direct dependencies that are all pending. A node that is kept breaks the chain.
 */
module BlockingOrder {
  import opened Domain
  import opened Graph
  import opened PolicyGraph
  import opened Scheduler
  import opened ScheduleOrder
  import opened Reordering

  function PendingIn(deps: seq<Artifact>, remaining: map<string, Action>): (r: seq<Artifact>)
    ensures forall d :: d in r <==> d in deps && d.name in remaining
  {
    if deps == [] then []
    else
      assert forall d :: d in deps <==> d in deps[..|deps| - 1] || d == deps[|deps| - 1];
      PendingIn(deps[..|deps| - 1], remaining)
      + if deps[|deps| - 1].name in remaining then [deps[|deps| - 1]] else []
  }

  /** The edges that block: from a pending node to its pending direct dependencies. */
  ghost function Blocking(nodes: seq<Node>, remaining: map<string, Action>): map<Artifact, seq<Artifact>> {
    map a | a in IndexNodes(nodes) && a.name in remaining :: PendingIn(IndexNodes(nodes)[a].dependencies, remaining)
  }

  /** x runs, and runs before y does. */
  ghost predicate Precedes(s: seq<Action>, x: string, y: string) {
    exists i, j :: 0 <= i < j < |s| && s[i].name == x && s[j].name == y
  }

  /** The node of an artifact with a place in the plan. */
  ghost predicate PendingNode(nodes: seq<Node>, remaining: map<string, Action>, a: Artifact) {
    a in IndexNodes(nodes) && a.name in remaining
  }

  // ---- A chain of pending dependencies is respected ----

  lemma BlockingEdge(nodes: seq<Node>, remaining: map<string, Action>, a: Artifact, b: Artifact)
    requires DistinctNames(nodes) && ClosedKeys(DependencyGraph(nodes)) && Edge(Blocking(nodes, remaining), a, b)
    ensures Edge(DependencyGraph(nodes), a, b) && PendingNode(nodes, remaining, a) && PendingNode(nodes, remaining, b)
    ensures IndexNodes(nodes)[a] in nodes && IndexNodes(nodes)[a].artifact == a
    ensures b in IndexNodes(nodes)[a].dependencies
  {
    IndexNodesKeys(nodes);
    assert Edge(DependencyGraph(nodes), a, b);
  }

  /** Whatever a pending node reaches through pending nodes runs before it. */
  lemma ChainRunsFirst(
    nodes: seq<Node>, remaining: map<string, Action>, a: Artifact, c: Artifact, s: seq<Action>, i: nat)
    requires DistinctNames(nodes) && ClosedKeys(DependencyGraph(nodes))
    requires Enumerates(s, remaining) && DependenciesFirst(s, nodes, remaining)
    requires PendingNode(nodes, remaining, a) && i < |s| && s[i].name == a.name
    requires Reaches(Blocking(nodes, remaining), a, c) && a != c
    ensures RunsBefore(s, c.name, i)
  {
    var g := Blocking(nodes, remaining);
    var earlier := set x | x in IndexNodes(nodes) && (x == a || RunsBefore(s, x.name, i));
    forall x, y | x in earlier && Edge(g, x, y) ensures y in earlier {
      BlockingEdge(nodes, remaining, x, y);
      var k: nat :| k <= i && s[k].name == x.name;
      assert RunsBefore(s, y.name, k);
      var j :| 0 <= j < k && j < |s| && s[j].name == y.name;
      assert RunsBefore(s, y.name, i);
    }
    assert ClosedUnder(g, earlier);
  }

  // ---- Without one, some order of the nodes turns them round ----

  /** A front part of the node list that needs nothing pending outside itself. */
  ghost predicate SelfContained(front: seq<Node>, remaining: map<string, Action>) {
    forall n, d :: n in front && d in n.dependencies && d.name in remaining ==> NamesNode(front, d.name)
  }

  predicate NamesNode(nodes: seq<Node>, name: string) {
    exists n <- nodes :: n.artifact.name == name
  }

  /** While something of the front is pending, the next action is of the front. */
  lemma FrontGoesNext(front: seq<Node>, back: seq<Node>, remaining: map<string, Action>, n: Node)
    requires DistinctNames(front + back) && ClosedKeys(DependencyGraph(front + back))
    requires Acyclic(DependencyGraph(front + back))
    requires Filed(remaining) && SelfContained(front, remaining) && n in front && n.artifact.name in remaining
    ensures FirstReady(front + back, remaining).Some?
    ensures NamesNode(front, FirstReady(front + back, remaining).value.name)
  {
    var ready := ReadyInFront(front, back, remaining, n);
    FirstReadyMeans(front, remaining);
    var k :| FirstReadyAt(front, remaining, k)
             && FirstReady(front, remaining).value == remaining[front[k].artifact.name];
    assert front[k] in front && (front + back)[..|front|] == front;
    FirstReadyStays(front + back, remaining, |front|);
  }

  lemma ReadyInFront(front: seq<Node>, back: seq<Node>, remaining: map<string, Action>, n: Node) returns (ready: Node)
    requires DistinctNames(front + back) && ClosedKeys(DependencyGraph(front + back))
    requires Acyclic(DependencyGraph(front + back))
    requires SelfContained(front, remaining) && n in front && n.artifact.name in remaining
    ensures ready in front && Ready(ready, remaining)
  {
    var all := front + back;
    var g := DependencyGraph(all);
    var s := set m | m in front && m.artifact.name in remaining :: m.artifact;
    assert n.artifact in s;
    var z := SinkExists(g, s, n.artifact);
    ready :| ready in front && ready.artifact.name in remaining && ready.artifact == z;
    assert ready in all;
    IndexFindsNode(all, ready);
    forall d <- ready.dependencies ensures d.name !in remaining {
      if d.name in remaining {
        assert Edge(g, z, d);
        var m :| m in front && m.artifact.name == d.name;
        SameNameSameArtifact(all, m, d);
      }
    }
  }

  lemma SameNameSameArtifact(nodes: seq<Node>, m: Node, d: Artifact)
    requires DistinctNames(nodes) && m in nodes && d in IndexNodes(nodes) && m.artifact.name == d.name
    ensures m.artifact == d
  {
    IndexNodesKeys(nodes);
    var i :| 0 <= i < |nodes| && nodes[i] == m;
    var j :| 0 <= j < |nodes| && nodes[j] == IndexNodes(nodes)[d];
    assert nodes[i].artifact.name == nodes[j].artifact.name;
  }

  /** So every action of the front comes before every other. */
  ghost predicate FrontFirst(s: seq<Action>, front: seq<Node>) {
    forall i, j :: 0 <= i < j < |s| && NamesNode(front, s[j].name) ==> NamesNode(front, s[i].name)
  }

  lemma {:induction false} FrontRunsFirst(front: seq<Node>, back: seq<Node>, remaining: map<string, Action>)
    requires DistinctNames(front + back) && ClosedKeys(DependencyGraph(front + back))
    requires Acyclic(DependencyGraph(front + back))
    requires Filed(remaining) && Within(remaining, front + back) && SelfContained(front, remaining)
    ensures FrontFirst(Schedule(front + back, remaining), front)
    decreases |remaining|
  {
    var all := front + back;
    var next := FirstReady(all, remaining);
    if next.Some? {
      var head := next.value;
      FirstReadyIsPending(all, remaining);
      RemovalShrinks(remaining, head.name);
      var rest := remaining - {head.name};
      FrontRunsFirst(front, back, rest);
      FrontStep(front, back, remaining, head, Schedule(all, rest));
    }
  }

  lemma {:induction false} FrontStep(
    front: seq<Node>, back: seq<Node>, remaining: map<string, Action>, head: Action, tail: seq<Action>)
    requires DistinctNames(front + back) && ClosedKeys(DependencyGraph(front + back))
    requires Acyclic(DependencyGraph(front + back))
    requires Filed(remaining) && Within(remaining, front + back) && SelfContained(front, remaining)
    requires FirstReady(front + back, remaining) == Some(head) && head.name in remaining
    requires tail == Schedule(front + back, remaining - {head.name}) && FrontFirst(tail, front)
    ensures FrontFirst([head] + tail, front)
  {
    ScheduleEnumerates(front + back, remaining - {head.name});
    forall t | t in tail && NamesNode(front, t.name) ensures NamesNode(front, head.name) {
      var n :| n in front && n.artifact.name == t.name;
      FrontGoesNext(front, back, remaining, n);
    }
    FrontGrows(front, head, tail);
  }

  lemma FrontGrows(front: seq<Node>, head: Action, tail: seq<Action>)
    requires FrontFirst(tail, front) && forall t <- tail :: NamesNode(front, t.name) ==> NamesNode(front, head.name)
    ensures FrontFirst([head] + tail, front)
  {
    var s := [head] + tail;
    forall i, j | 0 <= i < j < |s| && NamesNode(front, s[j].name) ensures NamesNode(front, s[i].name) {
      assert s[j] == tail[j - 1] && tail[j - 1] in tail;
      if i > 0 {
        assert s[i] == tail[i - 1];
      }
    }
  }

  // ---- Putting what a reaches in front ----

  ghost function Reached(nodes: seq<Node>, g: map<Artifact, seq<Artifact>>, a: Artifact): seq<Node> {
    if nodes == [] then []
    else
      var last := nodes[|nodes| - 1];
      Reached(nodes[..|nodes| - 1], g, a) + if Reaches(g, a, last.artifact) then [last] else []
  }

  ghost function Unreached(nodes: seq<Node>, g: map<Artifact, seq<Artifact>>, a: Artifact): seq<Node> {
    if nodes == [] then []
    else
      var last := nodes[|nodes| - 1];
      Unreached(nodes[..|nodes| - 1], g, a) + if Reaches(g, a, last.artifact) then [] else [last]
  }

  lemma {:induction false} ReachedSplits(nodes: seq<Node>, g: map<Artifact, seq<Artifact>>, a: Artifact)
    ensures multiset(Reached(nodes, g, a)) + multiset(Unreached(nodes, g, a)) == multiset(nodes)
    ensures multiset(Reached(nodes, g, a) + Unreached(nodes, g, a)) == multiset(nodes)
  {
    if nodes != [] {
      var init, last := nodes[..|nodes| - 1], nodes[|nodes| - 1];
      ReachedSplits(init, g, a);
      assert nodes == init + [last];
      if Reaches(g, a, last.artifact) {
        OneMoreOf(init, Reached(init, g, a), Unreached(init, g, a), last);
      } else {
        OneMoreOf(init, Unreached(init, g, a), Reached(init, g, a), last);
      }
    }
  }

  lemma OneMoreOf(nodes: seq<Node>, xs: seq<Node>, ys: seq<Node>, n: Node)
    requires multiset(xs) + multiset(ys) == multiset(nodes)
    ensures multiset(xs + [n]) + multiset(ys) == multiset(nodes + [n])
    ensures multiset(ys) + multiset(xs + [n]) == multiset(nodes + [n])
  {
  }

  lemma {:induction false} ReachedAre(nodes: seq<Node>, g: map<Artifact, seq<Artifact>>, a: Artifact)
    ensures forall n :: n in Reached(nodes, g, a) <==> n in nodes && Reaches(g, a, n.artifact)
  {
    if nodes != [] {
      ReachedAre(nodes[..|nodes| - 1], g, a);
      assert forall n :: n in nodes <==> n in nodes[..|nodes| - 1] || n == nodes[|nodes| - 1];
    }
  }

  /** The same nodes in another order make the same plan. */
  lemma SamePlan(targets: seq<Artifact>, nodes: seq<Node>, ns: seq<Node>)
    requires WellFormedGraph(targets, nodes) && multiset(ns) == multiset(nodes)
    ensures WellFormedGraph(targets, ns) && IndexNodes(ns) == IndexNodes(nodes)
  {
    SameMembers(nodes, ns);
    MembersTwinned(nodes, ns);
    MembersTwinned(ns, nodes);
    GraphIgnoresOrder(targets, nodes, targets, ns);
    SameIndex(nodes, ns);
  }

  lemma MembersTwinned(nodes: seq<Node>, ns: seq<Node>)
    requires forall n <- nodes :: n in ns
    ensures Twinned(nodes, ns)
  {
    forall n {:trigger HasTwin(n, ns)} | n in nodes ensures HasTwin(n, ns) {
      assert SameNode(n, n);
    }
  }

  lemma SameIndex(nodes: seq<Node>, ns: seq<Node>)
    requires DistinctNames(nodes) && DistinctNames(ns) && forall n :: n in nodes <==> n in ns
    ensures IndexNodes(ns) == IndexNodes(nodes)
  {
    IndexNodesKeys(nodes);
    IndexNodesKeys(ns);
    forall a <- IndexNodes(nodes) ensures a in IndexNodes(ns) && IndexNodes(ns)[a] == IndexNodes(nodes)[a] {
      IndexFindsNode(ns, IndexNodes(nodes)[a]);
    }
  }

  lemma ReachedIsSelfContained(nodes: seq<Node>, remaining: map<string, Action>, a: Artifact)
    requires DistinctNames(nodes) && ClosedKeys(DependencyGraph(nodes)) && PendingNode(nodes, remaining, a)
    ensures SelfContained(Reached(nodes, Blocking(nodes, remaining), a), remaining)
  {
    var g := Blocking(nodes, remaining);
    var front := Reached(nodes, g, a);
    ReachedSplits(nodes, g, a);
    ReachedAre(nodes, g, a);
    ReachedIsPending(nodes, remaining, a);
    forall n, d | n in front && d in n.dependencies && d.name in remaining ensures NamesNode(front, d.name) {
      IndexFindsNode(nodes, n);
      assert Edge(g, n.artifact, d);
      assert Reaches(g, n.artifact, d);
      ReachesTransitive(g, a, n.artifact, d);
      BlockingEdge(nodes, remaining, n.artifact, d);
      IndexNodesKeys(nodes);
      assert IndexNodes(nodes)[d] in front;
    }
  }

  lemma ReachedIsPending(nodes: seq<Node>, remaining: map<string, Action>, a: Artifact)
    requires DistinctNames(nodes) && ClosedKeys(DependencyGraph(nodes)) && PendingNode(nodes, remaining, a)
    ensures forall x :: Reaches(Blocking(nodes, remaining), a, x) ==> PendingNode(nodes, remaining, x)
  {
    var g := Blocking(nodes, remaining);
    var pending := set x | x in IndexNodes(nodes) && x.name in remaining;
    forall x, y | x in pending && Edge(g, x, y) ensures y in pending {
      BlockingEdge(nodes, remaining, x, y);
    }
    assert ClosedUnder(g, pending);
  }

  /** The order of the nodes that puts a, and what it waits for, before c. */
  lemma TurnedRound(targets: seq<Artifact>, nodes: seq<Node>, remaining: map<string, Action>, a: Artifact, c: Artifact)
    returns (ns: seq<Node>)
    requires WellFormedGraph(targets, nodes) && Filed(remaining) && Within(remaining, nodes)
    requires PendingNode(nodes, remaining, a) && PendingNode(nodes, remaining, c)
    requires !Reaches(Blocking(nodes, remaining), a, c)
    ensures multiset(ns) == multiset(nodes) && !Precedes(Schedule(ns, remaining), c.name, a.name)
  {
    var g := Blocking(nodes, remaining);
    var front, back := Reached(nodes, g, a), Unreached(nodes, g, a);
    ns := front + back;
    ReachedSplits(nodes, g, a);
    ReachedAre(nodes, g, a);
    SamePlan(targets, nodes, ns);
    SameMembers(nodes, ns);
    ReachedIsSelfContained(nodes, remaining, a);
    FrontRunsFirst(front, back, remaining);
    IndexNodesKeys(nodes);
    assert Reaches(g, a, a);
    assert IndexNodes(nodes)[a] in front;
    var s := Schedule(ns, remaining);
    assert NamesNode(front, a.name);
    forall m <- front ensures m.artifact.name != c.name {
      if m.artifact.name == c.name { SameNameSameArtifact(nodes, m, c); }
    }
    assert !NamesNode(front, c.name);
  }

  /**
   The exact ordering guarantee. Of two pending actions one runs before the other however the
   plan lists its nodes if and only if the other reaches it through pending nodes alone.
   */
  lemma OrderedExactlyByPendingChains(
    targets: seq<Artifact>, nodes: seq<Node>, actions: seq<Action>, a: Artifact, c: Artifact)
    requires WellFormedGraph(targets, nodes) && ActionsMatch(actions, nodes) && a != c
    requires Filed(Pending(actions)) && PendingNode(nodes, Pending(actions), a)
    requires PendingNode(nodes, Pending(actions), c)
    ensures Reaches(Blocking(nodes, Pending(actions)), a, c) <==>
      forall ns | multiset(ns) == multiset(nodes) :: Precedes(Schedule(ns, Pending(actions)), c.name, a.name)
  {
    var remaining := Pending(actions);
    PendingIsWithin(actions, nodes);
    if Reaches(Blocking(nodes, remaining), a, c) {
      forall ns | multiset(ns) == multiset(nodes) ensures Precedes(Schedule(ns, remaining), c.name, a.name) {
        ChainPrecedes(targets, nodes, ns, remaining, a, c);
      }
    } else {
      var ns := TurnedRound(targets, nodes, remaining, a, c);
    }
  }

  lemma ChainPrecedes(targets: seq<Artifact>, nodes: seq<Node>, ns: seq<Node>, remaining: map<string, Action>,
                      a: Artifact, c: Artifact)
    requires WellFormedGraph(targets, nodes) && multiset(ns) == multiset(nodes)
    requires Filed(remaining) && Within(remaining, nodes) && PendingNode(nodes, remaining, a) && a != c
    requires Reaches(Blocking(nodes, remaining), a, c)
    ensures Precedes(Schedule(ns, remaining), c.name, a.name)
  {
    SamePlan(targets, nodes, ns);
    SameMembers(nodes, ns);
    var s := Schedule(ns, remaining);
    ScheduleEnumerates(ns, remaining);
    ScheduleIsOrdered(ns, remaining);
    assert remaining[a.name] in s;
    var i :| 0 <= i < |s| && s[i] == remaining[a.name];
    ChainRunsFirst(ns, remaining, a, c, s, i);
  }
}
