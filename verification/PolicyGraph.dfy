/**
 The graph check of the policy: the candidate closure must be a well-formed
 acyclic graph in which every node is reached from a target.
 */
module PolicyGraph {
  import opened Domain
  import opened Graph

  const MAX_NODES := 4096
  const MAX_EVIDENCE := 32

  function IndexNodes(nodes: seq<Node>): map<Artifact, Node> {
    if nodes == [] then map[]
    else IndexNodes(nodes[..|nodes| - 1])[nodes[|nodes| - 1].artifact := nodes[|nodes| - 1]]
  }

  ghost function GraphOf(nodesByArtifact: map<Artifact, Node>): map<Artifact, seq<Artifact>> {
    map a | a in nodesByArtifact :: nodesByArtifact[a].dependencies
  }

  ghost function DependencyGraph(nodes: seq<Node>): map<Artifact, seq<Artifact>> {
    GraphOf(IndexNodes(nodes))
  }

  ghost function ArtifactsOf(nodes: seq<Node>): set<Artifact> {
    set n | n in nodes :: n.artifact
  }

  ghost predicate DistinctNames(nodes: seq<Node>) {
    forall i, j :: 0 <= i < j < |nodes| ==> nodes[i].artifact.name != nodes[j].artifact.name
  }

  ghost predicate AdmissibleNodes(nodes: seq<Node>) {
    && (forall n <- nodes :: n.artifact.Valid() && |n.evidence| <= MAX_EVIDENCE)
    && DistinctNames(nodes)
  }

  /** What a graph must satisfy to be accepted, with no mention of a search. */
  ghost predicate WellFormedGraph(targets: seq<Artifact>, nodes: seq<Node>) {
    && |targets| > 0 && 0 < |nodes| <= MAX_NODES
    && AdmissibleNodes(nodes)
    && RootedClosure(DependencyGraph(nodes), targets)
  }

  /** The search: the node index, the marks, and the order in which nodes were finished. */
  class Visitor {
    const nodesByArtifact: map<Artifact, Node>
    var visitState: map<Artifact, Mark>
    ghost var finished: seq<Artifact>

    constructor (nodesByArtifact: map<Artifact, Node>)
      ensures this.nodesByArtifact == nodesByArtifact
      ensures visitState == map[] && finished == [] && Searching([])
    {
      this.nodesByArtifact := nodesByArtifact;
      visitState := map[];
      finished := [];
    }

    ghost function Dependencies(): map<Artifact, seq<Artifact>> {
      GraphOf(nodesByArtifact)
    }

    ghost predicate Searching(stack: seq<Artifact>)
      reads this
    {
      && SearchInvariant(Dependencies(), visitState, stack, finished)
      && visitState.Keys <= nodesByArtifact.Keys
      && (forall x <- finished :: x in nodesByArtifact && Distinct(nodesByArtifact[x].dependencies))
    }

    /**
     Success finishes the artifact and everything below it; failure happens only
     on an artifact or a graph that has no acceptable reading.
     */
    method Visit(artifact: Artifact, ghost stack: seq<Artifact>) returns (ok: bool)
      requires Searching(stack) && MayVisit(Dependencies(), stack, artifact)
      modifies this
      ensures ok ==> Searching(stack)
      ensures ok ==> old(visitState.Keys) <= visitState.Keys && artifact in finished
      ensures ok ==> FinishedBelow(Dependencies(), old(finished), finished, artifact)
      ensures !ok ==> artifact !in nodesByArtifact || !Sound(Dependencies())
      decreases nodesByArtifact.Keys - visitState.Keys
    {
      ghost var g := Dependencies();
      if artifact !in nodesByArtifact {
        return false;
      }
      if artifact in visitState && visitState[artifact].Visiting? {
        SearchMeetsOpen(g, stack, artifact);
        return false;
      }
      if artifact in visitState && visitState[artifact].Visited? {
        return true;
      }
      var node := nodesByArtifact[artifact];
      SearchOpens(g, visitState, stack, finished, artifact);
      visitState := visitState[artifact := Visiting];
      ghost var inner := stack + [artifact];
      var seenDependencies: set<Artifact> := {};
      for i := 0 to |node.dependencies|
        invariant Searching(inner)
        invariant Distinct(node.dependencies[..i])
        invariant old(visitState.Keys) + {artifact} <= visitState.Keys
        invariant FinishedBelow(g, old(finished), finished, artifact)
        invariant seenDependencies == Elements(node.dependencies[..i])
        invariant forall d <- seenDependencies :: d in finished
      {
        var dependency := node.dependencies[i];
        assert Edge(g, artifact, dependency);
        DistinctExtends(node.dependencies, i);
        if dependency in seenDependencies {
          return false;
        }
        ghost var before := finished;
        var visited := Visit(dependency, inner);
        if !visited {
          return false;
        }
        FinishedThroughEdge(g, old(finished), before, finished, artifact, dependency);
        seenDependencies := seenDependencies + {dependency};
      }
      assert node.dependencies[..|node.dependencies|] == node.dependencies;
      SearchCloses(g, visitState, stack, finished, artifact);
      visitState := visitState[artifact := Visited];
      finished := finished + [artifact];
      return true;
    }
  }

  lemma {:induction false} IndexNodesKeys(nodes: seq<Node>)
    ensures IndexNodes(nodes).Keys == ArtifactsOf(nodes)
    ensures forall a <- IndexNodes(nodes) :: IndexNodes(nodes)[a] in nodes && IndexNodes(nodes)[a].artifact == a
  {
    if nodes != [] {
      IndexNodesKeys(nodes[..|nodes| - 1]);
    }
  }

  /** Under distinct names the index finds every node by its artifact. */
  lemma IndexFindsNode(nodes: seq<Node>, n: Node)
    requires DistinctNames(nodes) && n in nodes
    ensures n.artifact in IndexNodes(nodes) && IndexNodes(nodes)[n.artifact] == n
  {
    IndexNodesKeys(nodes);
    assert n.artifact in ArtifactsOf(nodes);
    var m := IndexNodes(nodes)[n.artifact];
    var i :| 0 <= i < |nodes| && nodes[i] == n;
    var j :| 0 <= j < |nodes| && nodes[j] == m;
    assert nodes[i].artifact.name == nodes[j].artifact.name;
  }

  /** Distinct names make the index as large as the list. */
  lemma {:induction false} IndexSize(nodes: seq<Node>)
    requires DistinctNames(nodes)
    ensures |IndexNodes(nodes)| == |nodes|
  {
    if nodes != [] {
      var init := nodes[..|nodes| - 1];
      var last := nodes[|nodes| - 1];
      IndexSize(init);
      IndexNodesKeys(init);
      assert last.artifact !in IndexNodes(init);
      assert IndexNodes(nodes).Keys == IndexNodes(init).Keys + {last.artifact};
    }
  }

  /** A distinct list of keys is no longer than the index; so the length bounds exclude nothing more. */
  lemma DistinctKeysFit(nodes: seq<Node>, s: seq<Artifact>)
    requires DistinctNames(nodes) && Distinct(s) && forall a <- s :: a in IndexNodes(nodes)
    ensures |s| <= |nodes|
  {
    IndexSize(nodes);
    DistinctSize(s);
    assert Elements(s) <= IndexNodes(nodes).Keys;
    SubsetSize(Elements(s), IndexNodes(nodes).Keys);
  }

  /** The bound the indexing loop puts on dependency lists. */
  ghost predicate BoundedLists(nodes: seq<Node>) {
    forall n <- nodes :: |n.dependencies| <= |nodes|
  }

  lemma SoundListsAreBounded(nodes: seq<Node>)
    requires DistinctNames(nodes) && ClosedKeys(DependencyGraph(nodes)) && DistinctSuccessors(DependencyGraph(nodes))
    ensures BoundedLists(nodes)
  {
    forall n | n in nodes
      ensures |n.dependencies| <= |nodes|
    {
      IndexFindsNode(nodes, n);
      assert forall d <- n.dependencies :: Edge(DependencyGraph(nodes), n.artifact, d);
      DistinctKeysFit(nodes, n.dependencies);
    }
  }

  ghost function NamesOf(nodes: seq<Node>): set<string> {
    set n | n in nodes :: n.artifact.name
  }

  /** One turn of the indexing loop. */
  lemma IndexStep(nodes: seq<Node>, i: nat)
    requires i < |nodes| && AdmissibleNodes(nodes[..i])
    requires nodes[i].artifact.Valid() && nodes[i].artifact.name !in NamesOf(nodes[..i])
    requires |nodes[i].evidence| <= MAX_EVIDENCE
    ensures AdmissibleNodes(nodes[..i + 1])
    ensures IndexNodes(nodes[..i + 1]) == IndexNodes(nodes[..i])[nodes[i].artifact := nodes[i]]
    ensures NamesOf(nodes[..i + 1]) == NamesOf(nodes[..i]) + {nodes[i].artifact.name}
  {
    var before, longer := nodes[..i], nodes[..i + 1];
    assert longer == before + [nodes[i]] && longer[..i] == before;
    forall j, k | 0 <= j < k < |longer| ensures longer[j].artifact.name != longer[k].artifact.name {
      assert longer[j] == before[j];
      if k < i {
        assert longer[k] == before[k];
      } else {
        assert before[j].artifact.name in NamesOf(before);
      }
    }
  }

  lemma IndexRefuses(nodes: seq<Node>, i: nat)
    requires i < |nodes|
    requires !nodes[i].artifact.Valid() || nodes[i].artifact.name in NamesOf(nodes[..i])
      || |nodes[i].dependencies| > |nodes| || |nodes[i].evidence| > MAX_EVIDENCE
    ensures !AdmissibleNodes(nodes) || !BoundedLists(nodes)
  {
    assert nodes[i] in nodes;
    if nodes[i].artifact.name in NamesOf(nodes[..i]) {
      var n :| n in nodes[..i] && n.artifact.name == nodes[i].artifact.name;
      var k :| 0 <= k < i && nodes[k] == n;
      assert !DistinctNames(nodes);
    }
  }

  /** The indexing loop: every node is admissible, and the index finds it by artifact. */
  method IndexAdmissible(nodes: seq<Node>)
      returns (ok: bool, nodesByArtifact: map<Artifact, Node>)
    ensures ok ==> AdmissibleNodes(nodes) && nodesByArtifact == IndexNodes(nodes)
    ensures !ok ==> !AdmissibleNodes(nodes) || !BoundedLists(nodes)
  {
    nodesByArtifact := map[];
    var seenNames: set<string> := {};
    for i := 0 to |nodes|
      invariant nodesByArtifact == IndexNodes(nodes[..i])
      invariant seenNames == NamesOf(nodes[..i])
      invariant AdmissibleNodes(nodes[..i])
    {
      var node := nodes[i];
      if !node.artifact.Valid() || node.artifact.name in seenNames || |node.dependencies| > |nodes|
         || |node.evidence| > MAX_EVIDENCE {
        IndexRefuses(nodes, i);
        return false, map[];
      }
      IndexStep(nodes, i);
      seenNames := seenNames + {node.artifact.name};
      nodesByArtifact := nodesByArtifact[node.artifact := node];
    }
    assert nodes[..|nodes|] == nodes;
    return true, nodesByArtifact;
  }

  /** Visiting every target, each named once. */
  method VisitTargets(visitor: Visitor, targets: seq<Artifact>) returns (ok: bool)
    requires visitor.Searching([]) && visitor.finished == []
    modifies visitor
    ensures ok ==>
      Distinct(targets) && SearchDone(visitor.Dependencies(), targets, visitor.visitState, visitor.finished)
    ensures !ok ==> !Distinct(targets) || !Sound(visitor.Dependencies())
                    || exists t <- targets :: t !in visitor.nodesByArtifact
  {
    ghost var g := visitor.Dependencies();
    var seenTargets: set<Artifact> := {};
    for i := 0 to |targets|
      invariant visitor.Searching([])
      invariant seenTargets == Elements(targets[..i])
      invariant RootsVisited(g, targets[..i], visitor.finished)
    {
      var target := targets[i];
      if target in seenTargets {
        var j :| 0 <= j < i && targets[..i][j] == target;
        assert targets[i] == targets[j];
        return false;
      }
      ghost var before := visitor.finished;
      var visited := visitor.Visit(target, []);
      if !visited {
        assert target in targets;
        return false;
      }
      assert targets[..i + 1] == targets[..i] + [target];
      NextRootVisited(g, targets[..i], target, before, visitor.finished);
      seenTargets := seenTargets + {target};
    }
    assert targets[..|targets|] == targets;
    return true;
  }

  /** The whole check, in the order the program performs it, decides exactly WellFormedGraph. */
  method ValidGraph(targets: seq<Artifact>, nodes: seq<Node>) returns (ok: bool)
    ensures ok <==> WellFormedGraph(targets, nodes)
  {
    if |targets| == 0 || |nodes| == 0 || |nodes| > MAX_NODES || |targets| > |nodes| {
      if WellFormedGraph(targets, nodes) { DistinctKeysFit(nodes, targets); }
      return false;
    }
    var admissible, nodesByArtifact := IndexAdmissible(nodes);
    if !admissible {
      if WellFormedGraph(targets, nodes) { SoundListsAreBounded(nodes); }
      return false;
    }
    var visitor := new Visitor(nodesByArtifact);
    var visited := VisitTargets(visitor, targets);
    if !visited {
      return false;
    }
    IndexSize(nodes);
    SearchVerdict(DependencyGraph(nodes), targets, visitor.visitState, visitor.finished);
    assert DependencyGraph(nodes).Keys == nodesByArtifact.Keys;
    return |visitor.visitState| == |nodes|;
  }
}
