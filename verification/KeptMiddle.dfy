/**
 Ordering is not transitive through a kept node. The witness is a plan policy allows: a chain of
 three, every claim of every node established, whose middle is installed already.
 */
module KeptMiddle {
  import opened Domain
  import opened Graph
  import opened PolicyGraph
  import opened Evaluation
  import opened Eligibility
  import opened Scheduler
  import opened BlockingOrder

  function Zeros(): Digest {
    seq(64, _ => '0')
  }

  const POLICY := Policy(0, true)

  /** Verified at time 1, for an hour. */
  function Established(a: Artifact, claim: Byte): Evidence {
    Evidence(
      claim, a, VERIFIED, 1, "source", "1", Zeros(), 1, 3601, 1, VERIFIED_ATTESTATION, NO_KNOWN_APPLICABLE_FINDINGS)
  }

  function AllEstablished(a: Artifact): seq<Evidence> {
    [Established(a, METADATA), Established(a, CHECKSUM), Established(a, PROVENANCE), Established(a, PUBLICATION),
     Established(a, VULNERABILITIES)]
  }

  /** a depends on b, and b on c. */
  function ChainOfThree(a: Artifact, b: Artifact, c: Artifact): seq<Node> {
    [Node(a, [b], AllEstablished(a)), Node(b, [c], AllEstablished(b)), Node(c, [], AllEstablished(c))]
  }

  predicate Three(a: Artifact, b: Artifact, c: Artifact) {
    && a.Valid() && b.Valid() && c.Valid()
    && a.name != b.name && b.name != c.name && a.name != c.name
  }

  function Request(a: Artifact, b: Artifact, c: Artifact, binding: Binding): Assessment {
    Assessment(POLICY, binding, [a], ChainOfThree(a, b, c), 1, None)
  }

  /** Both ends are to be installed; the middle is kept. */
  function EndsOnly(a: Artifact, b: Artifact, c: Artifact): seq<Action> {
    [Action(a.name, Install), Action(b.name, Keep), Action(c.name, Install)]
  }

  lemma EstablishedNode(n: Node)
    requires n.artifact.Valid() && n.evidence == AllEstablished(n.artifact)
    ensures NodeEligible(n, POLICY, 1, {})
  {
    forall k: Byte | METADATA <= k <= VULNERABILITIES ensures ClaimEstablished(n, k, POLICY, 1, false) {
      assert n.evidence[k - 1] == Established(n.artifact, k);
      assert OnlyOne(n.evidence, k - 1);
      assert Establishes(n.evidence[k - 1], k, POLICY, 1, false);
    }
  }

  lemma ChainGraph(a: Artifact, b: Artifact, c: Artifact)
    requires Three(a, b, c)
    ensures DependencyGraph(ChainOfThree(a, b, c)) == map[a := [b], b := [c], c := []]
    ensures IndexNodes(ChainOfThree(a, b, c)).Keys == {a, b, c}
  {
    var nodes := ChainOfThree(a, b, c);
    IndexNodesKeys(nodes);
    IndexFindsNode(nodes, nodes[0]);
    IndexFindsNode(nodes, nodes[1]);
    IndexFindsNode(nodes, nodes[2]);
    assert ArtifactsOf(nodes) == {a, b, c} by {
      forall x ensures x in ArtifactsOf(nodes) <==> x in {a, b, c} {
        assert nodes[0] in nodes && nodes[1] in nodes && nodes[2] in nodes;
      }
    }
  }

  lemma ChainIsWellFormed(a: Artifact, b: Artifact, c: Artifact)
    requires Three(a, b, c)
    ensures WellFormedGraph([a], ChainOfThree(a, b, c))
    ensures Reaches(DependencyGraph(ChainOfThree(a, b, c)), a, c)
  {
    var g := DependencyGraph(ChainOfThree(a, b, c));
    ChainGraph(a, b, c);
    var order := [c, b, a];
    assert order[..1] == [c] && order[..2] == [c, b];
    assert Topological(g, order);
    TopologicalIsAcyclic(g, order);
    assert Edge(g, a, b) && Edge(g, b, c);
    assert Reaches(g, a, a) && Reaches(g, c, c) && Reaches(g, b, b);
    ReachesStep(g, b, c, c);
    ReachesStep(g, a, b, b);
    ReachesStep(g, a, b, c);
    assert a in [a];
    assert ReachedFrom(g, [a], a) && ReachedFrom(g, [a], b) && ReachedFrom(g, [a], c);
  }

  lemma ChainIsAllowed(a: Artifact, b: Artifact, c: Artifact, binding: Binding)
    requires Three(a, b, c) && binding.Valid()
    ensures Decide(Request(a, b, c, binding)).outcome.Allow?
  {
    ChainIsWellFormed(a, b, c);
    forall n <- ChainOfThree(a, b, c) ensures NodeEligible(n, POLICY, 1, {}) {
      EstablishedNode(n);
    }
    OutcomeMeaning(Request(a, b, c, binding));
  }

  lemma PendingEnds(a: Artifact, b: Artifact, c: Artifact)
    requires Three(a, b, c)
    ensures Pending(EndsOnly(a, b, c)) == map[a.name := Action(a.name, Install), c.name := Action(c.name, Install)]
    ensures Filed(Pending(EndsOnly(a, b, c)))
  {
    var actions := EndsOnly(a, b, c);
    assert actions[..2] == [actions[0], actions[1]] && actions[..1] == [actions[0]] && actions[..0] == [];
    assert actions[..2][..1] == actions[..1] && actions[..1][..0] == [];
    assert Pending(actions[..1]) == map[a.name := actions[0]];
    assert Pending(actions[..2]) == map[a.name := actions[0]];
  }

  lemma EndsScheduled(a: Artifact, b: Artifact, c: Artifact)
    requires Three(a, b, c) && Filed(Pending(EndsOnly(a, b, c)))
    ensures Schedule(ChainOfThree(a, b, c), Pending(EndsOnly(a, b, c)))
         == [Action(a.name, Install), Action(c.name, Install)]
  {
    var nodes := ChainOfThree(a, b, c);
    var x, z := Action(a.name, Install), Action(c.name, Install);
    var both, one := map[a.name := x, c.name := z], map[c.name := z];
    PendingEnds(a, b, c);
    assert both - {a.name} == one && one - {c.name} == map[];
    ReadyPicks(nodes, both, 0);
    ReadyPicks(nodes, one, 2);
    FirstReadyMeans(nodes, map[]);
    assert Schedule(nodes, map[]) == [];
    assert Schedule(nodes, one) == [z];
  }

  lemma ReadyPicks(nodes: seq<Node>, remaining: map<string, Action>, k: nat)
    requires k < |nodes| && Ready(nodes[k], remaining) && forall j | 0 <= j < k :: !Ready(nodes[j], remaining)
    ensures FirstReady(nodes, remaining) == Some(remaining[nodes[k].artifact.name])
  {
    FirstReadyMeans(nodes, remaining);
    assert nodes[k] in nodes;
  }

  /** Nothing blocks a: the middle is not pending. */
  lemma MiddleBreaksChain(a: Artifact, b: Artifact, c: Artifact, remaining: map<string, Action>)
    requires Three(a, b, c) && b.name !in remaining
    ensures !Reaches(Blocking(ChainOfThree(a, b, c), remaining), a, c)
  {
    var g := Blocking(ChainOfThree(a, b, c), remaining);
    ChainGraph(a, b, c);
    ChainIsWellFormed(a, b, c);
    forall y ensures !Edge(g, a, y) {
      if Edge(g, a, y) {
        BlockingEdge(ChainOfThree(a, b, c), remaining, a, y);
      }
    }
    assert ClosedUnder(g, {a});
  }

  /** a reaches c in the dependency graph, but not through pending nodes: a is allowed to run first, and does. */
  lemma KeptMiddleDoesNotBlock(a: Artifact, b: Artifact, c: Artifact, binding: Binding)
    requires Three(a, b, c) && binding.Valid()
    ensures Decide(Request(a, b, c, binding)).outcome.Allow? && ActionsMatch(EndsOnly(a, b, c), ChainOfThree(a, b, c))
    ensures Filed(Pending(EndsOnly(a, b, c)))
    ensures Schedule(ChainOfThree(a, b, c), Pending(EndsOnly(a, b, c)))
         == [Action(a.name, Install), Action(c.name, Install)]
    ensures Reaches(DependencyGraph(ChainOfThree(a, b, c)), a, c)
    ensures !Reaches(Blocking(ChainOfThree(a, b, c), Pending(EndsOnly(a, b, c))), a, c)
  {
    ChainIsWellFormed(a, b, c);
    ChainIsAllowed(a, b, c, binding);
    PendingEnds(a, b, c);
    EndsScheduled(a, b, c);
    MiddleBreaksChain(a, b, c, Pending(EndsOnly(a, b, c)));
  }
}
