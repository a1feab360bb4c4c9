/**
 From accepted metadata to the plan that policy judges: names become artifacts,
 and the closure on names becomes a graph the policy check accepts.
 */
module CollectedPlan {
  import opened Domain
  import opened Graph
  import F = Formulae
  import M = Metadata
  import opened PolicyGraph

  /** The artifacts of every candidate with this name, in candidate order. */
  function ArtifactsNamed(name: string, candidates: seq<F.Formula>): seq<Artifact> {
    if candidates == [] then []
    else
      var last := candidates[|candidates| - 1];
      ArtifactsNamed(name, candidates[..|candidates| - 1]) + if name == last.name then [last.Artifact()] else []
  }

  function ArtifactsAmong(names: seq<string>, candidates: seq<F.Formula>): seq<Artifact> {
    if names == [] then []
    else ArtifactsAmong(names[..|names| - 1], candidates) + ArtifactsNamed(names[|names| - 1], candidates)
  }

  /** For each dependency name, every candidate of that name. */
  method CandidateDependencies(candidate: F.Formula, candidates: seq<F.Formula>) returns (dependencies: seq<Artifact>)
    ensures dependencies == ArtifactsAmong(candidate.dependencies, candidates)
  {
    dependencies := [];
    for i := 0 to |candidate.dependencies|
      invariant dependencies == ArtifactsAmong(candidate.dependencies[..i], candidates)
    {
      var name := candidate.dependencies[i];
      ghost var before := dependencies;
      for j := 0 to |candidates|
        invariant dependencies == before + ArtifactsNamed(name, candidates[..j])
      {
        assert candidates[..j + 1][..j] == candidates[..j];
        if name == candidates[j].name {
          dependencies := dependencies + [candidates[j].Artifact()];
        }
      }
      assert candidates[..|candidates|] == candidates;
      assert candidate.dependencies[..i + 1][..i] == candidate.dependencies[..i];
    }
    assert candidate.dependencies[..|candidate.dependencies|] == candidate.dependencies;
  }

  predicate NodeOf(candidate: F.Formula, candidates: seq<F.Formula>, n: Node) {
    n.artifact == candidate.Artifact() && n.dependencies == ArtifactsAmong(candidate.dependencies, candidates)
  }

  /** nodes are the candidates in order, with their dependencies resolved. */
  predicate Assembled(candidates: seq<F.Formula>, nodes: seq<Node>) {
    && |nodes| == |candidates|
    && forall i :: 0 <= i < |nodes| ==>
      NodeOf(candidates[i], candidates, nodes[i]) && |nodes[i].evidence| <= MAX_EVIDENCE
  }

  /** The artifact is the candidate's own bottle, on the one platform there is. */
  predicate IsBottleOf(a: Artifact, c: F.Formula) {
    && a.tap == "homebrew/core" && a.os == "macos" && a.arch == "arm64"
    && a.name == c.name && a.version == c.version && a.revision == c.revision && a.rebuild == c.rebuild
    && a.bottleTag == c.bottleTag && a.sha256 == c.bottleSHA256
  }

  /** One node per candidate; each claim contributes one item. */
  method AssembleNodes(candidates: seq<F.Formula>, evidence: seq<seq<Evidence>>) returns (nodes: seq<Node>)
    requires |evidence| == |candidates| && forall es <- evidence :: |es| <= VULNERABILITIES
    ensures Assembled(candidates, nodes)
    ensures forall i :: 0 <= i < |nodes| ==> nodes[i].evidence == evidence[i]
    ensures forall i :: 0 <= i < |nodes| ==> IsBottleOf(nodes[i].artifact, candidates[i])
  {
    nodes := [];
    for i := 0 to |candidates|
      invariant |nodes| == i
      invariant forall j :: 0 <= j < i ==>
        NodeOf(candidates[j], candidates, nodes[j]) && nodes[j].evidence == evidence[j]
    {
      var dependencies := CandidateDependencies(candidates[i], candidates);
      ghost var before := nodes;
      nodes := nodes + [Node(candidates[i].Artifact(), dependencies, evidence[i])];
      assert forall j :: 0 <= j < i ==> nodes[j] == before[j];
    }
    forall j | 0 <= j < |nodes| ensures IsBottleOf(nodes[j].artifact, candidates[j]) {
      BottleOfNode(candidates[j], candidates, nodes[j]);
    }
  }

  lemma BottleOfNode(c: F.Formula, candidates: seq<F.Formula>, n: Node)
    requires NodeOf(c, candidates, n)
    ensures IsBottleOf(n.artifact, c)
  {
  }

  function NodesNamed(name: string, nodes: seq<Node>): seq<Artifact> {
    if nodes == [] then []
    else
      var last := nodes[|nodes| - 1];
      NodesNamed(name, nodes[..|nodes| - 1]) + if name == last.artifact.name then [last.artifact] else []
  }

  function NodesAmong(names: seq<string>, nodes: seq<Node>): seq<Artifact> {
    if names == [] then [] else NodesAmong(names[..|names| - 1], nodes) + NodesNamed(names[|names| - 1], nodes)
  }

  /** The target lookup of plan preparation. */
  method PlanTargets(names: seq<string>, nodes: seq<Node>) returns (targets: seq<Artifact>)
    ensures targets == NodesAmong(names, nodes)
  {
    targets := [];
    for i := 0 to |names|
      invariant targets == NodesAmong(names[..i], nodes)
    {
      ghost var before := targets;
      for j := 0 to |nodes|
        invariant targets == before + NodesNamed(names[i], nodes[..j])
      {
        assert nodes[..j + 1][..j] == nodes[..j];
        if names[i] == nodes[j].artifact.name {
          targets := targets + [nodes[j].artifact];
        }
      }
      assert nodes[..|nodes|] == nodes;
      assert names[..i + 1][..i] == names[..i];
    }
    assert names[..|names|] == names;
  }

  // ---- Resolving names ----

  lemma {:induction false} NamedNowhere(name: string, candidates: seq<F.Formula>)
    requires forall c <- candidates :: c.name != name
    ensures ArtifactsNamed(name, candidates) == []
  {
    if candidates != [] {
      NamedNowhere(name, candidates[..|candidates| - 1]);
    }
  }

  lemma {:induction false} NamedOnce(name: string, candidates: seq<F.Formula>, i: nat)
    requires F.DistinctNames(candidates) && i < |candidates| && candidates[i].name == name
    ensures ArtifactsNamed(name, candidates) == [candidates[i].Artifact()]
  {
    var init := candidates[..|candidates| - 1];
    if i == |candidates| - 1 {
      NamedNowhere(name, init);
    } else {
      NamedOnce(name, init, i);
    }
  }

  ghost function ArtifactOf(candidates: seq<F.Formula>): map<string, Artifact> {
    map name | name in F.Index(candidates) :: F.Index(candidates)[name].Artifact()
  }

  lemma NameResolves(name: string, candidates: seq<F.Formula>)
    requires F.DistinctNames(candidates) && name in F.Index(candidates)
    ensures ArtifactsNamed(name, candidates) == [ArtifactOf(candidates)[name]]
  {
    F.IndexKeys(candidates);
    var i :| 0 <= i < |candidates| && candidates[i] == F.Index(candidates)[name];
    NamedOnce(name, candidates, i);
  }

  lemma {:induction false} NamesResolve(names: seq<string>, candidates: seq<F.Formula>)
    requires F.DistinctNames(candidates) && forall name <- names :: name in F.Index(candidates)
    ensures Renamed(names, ArtifactsAmong(names, candidates), ArtifactOf(candidates))
  {
    if names != [] {
      var init, last := names[..|names| - 1], names[|names| - 1];
      NamesResolve(init, candidates);
      NameResolves(last, candidates);
      RenamedAppend(init, ArtifactsAmong(init, candidates), ArtifactOf(candidates), last);
      assert names == init + [last];
    }
  }

  lemma {:induction false} NodesNamedLikeCandidates(name: string, candidates: seq<F.Formula>, nodes: seq<Node>)
    requires |nodes| == |candidates| && forall i :: 0 <= i < |nodes| ==> nodes[i].artifact == candidates[i].Artifact()
    ensures NodesNamed(name, nodes) == ArtifactsNamed(name, candidates)
  {
    if nodes != [] {
      NodesNamedLikeCandidates(name, candidates[..|candidates| - 1], nodes[..|nodes| - 1]);
    }
  }

  lemma {:induction false} NodesAmongLikeCandidates(names: seq<string>, candidates: seq<F.Formula>, nodes: seq<Node>)
    requires Assembled(candidates, nodes)
    ensures NodesAmong(names, nodes) == ArtifactsAmong(names, candidates)
  {
    if names != [] {
      NodesAmongLikeCandidates(names[..|names| - 1], candidates, nodes);
      NodesNamedLikeCandidates(names[|names| - 1], candidates, nodes);
    }
  }

  // ---- The closure survives ----

  lemma AssembledNames(candidates: seq<F.Formula>, nodes: seq<Node>)
    requires Assembled(candidates, nodes) && F.DistinctNames(candidates)
    ensures DistinctNames(nodes)
  {
    forall i, j | 0 <= i < j < |nodes|
      ensures nodes[i].artifact.name != nodes[j].artifact.name
    {
      assert candidates[i].name != candidates[j].name;
    }
  }

  lemma AssembledNodeOf(candidates: seq<F.Formula>, nodes: seq<Node>, name: string) returns (n: Node)
    requires Assembled(candidates, nodes) && F.DistinctNames(candidates) && name in F.Index(candidates)
    ensures n in nodes && n.artifact == ArtifactOf(candidates)[name]
    ensures n.dependencies == ArtifactsAmong(F.Index(candidates)[name].dependencies, candidates)
  {
    F.IndexKeys(candidates);
    var i :| 0 <= i < |candidates| && candidates[i] == F.Index(candidates)[name];
    n := nodes[i];
  }

  lemma AssembledKeys(candidates: seq<F.Formula>, nodes: seq<Node>)
    requires Assembled(candidates, nodes) && F.DistinctNames(candidates)
    ensures forall a :: a in DependencyGraph(nodes) <==> a in ArtifactOf(candidates).Values
  {
    IndexNodesKeys(nodes);
    F.IndexKeys(candidates);
    forall a | a in DependencyGraph(nodes)
      ensures a in ArtifactOf(candidates).Values
    {
      var i :| 0 <= i < |nodes| && nodes[i].artifact == a;
      F.IndexFinds(candidates, candidates[i]);
      assert ArtifactOf(candidates)[candidates[i].name] == a;
    }
    forall a | a in ArtifactOf(candidates).Values
      ensures a in DependencyGraph(nodes)
    {
      var name :| name in ArtifactOf(candidates) && ArtifactOf(candidates)[name] == a;
      var n := AssembledNodeOf(candidates, nodes, name);
    }
  }

  /** The artifact graph is the name graph with names resolved. */
  lemma AssembledIsRenaming(candidates: seq<F.Formula>, nodes: seq<Node>)
    requires Assembled(candidates, nodes) && F.DistinctNames(candidates) && ClosedKeys(F.NameGraph(candidates))
    ensures Renaming(F.NameGraph(candidates), DependencyGraph(nodes), ArtifactOf(candidates))
  {
    var g, h, f := F.NameGraph(candidates), DependencyGraph(nodes), ArtifactOf(candidates);
    AssembledNames(candidates, nodes);
    AssembledKeys(candidates, nodes);
    F.IndexKeys(candidates);
    assert f.Keys == g.Keys;
    forall j, k | j in f && k in f && f[j] == f[k]
      ensures j == k
    {
      assert f[j].name == j && f[k].name == k;
    }
    forall k | k in g
      ensures f[k] in h && Renamed(g[k], h[f[k]], f)
    {
      var n := AssembledNodeOf(candidates, nodes, k);
      IndexFindsNode(nodes, n);
      assert forall d <- g[k] :: Edge(g, k, d);
      NamesResolve(g[k], candidates);
    }
  }

  /** Whatever metadata the collector accepts, the policy's graph check accepts the plan built from it. */
  lemma CollectedPlanIsWellFormed(
    doc: M.Document, targets: seq<string>, candidates: seq<F.Formula>, nodes: seq<Node>)
    requires M.Acceptable(doc, targets)
    requires F.SortedByName(candidates) && forall f :: f in candidates <==> f in doc.formulae
    requires Assembled(candidates, nodes)
    ensures WellFormedGraph(NodesAmong(targets, nodes), nodes)
  {
    F.SortedIsDistinct(candidates);
    F.SameFormulaeSameGraph(candidates, doc.formulae);
    var g := F.NameGraph(candidates);
    assert g == F.NameGraph(doc.formulae);
    AssembledIsRenaming(candidates, nodes);
    NamesResolve(targets, candidates);
    NodesAmongLikeCandidates(targets, candidates, nodes);
    RenamingClosure(g, DependencyGraph(nodes), ArtifactOf(candidates), targets, NodesAmong(targets, nodes));
    CandidateCount(doc, candidates);
    CollectedNodesAreAdmissible(doc, candidates, nodes);
  }

  lemma CandidateCount(doc: M.Document, candidates: seq<F.Formula>)
    requires F.DistinctNames(doc.formulae) && F.DistinctNames(candidates)
    requires forall f :: f in candidates <==> f in doc.formulae
    ensures |candidates| == |doc.formulae|
  {
    F.SameFormulaeSameGraph(candidates, doc.formulae);
    F.IndexSize(candidates);
    F.IndexSize(doc.formulae);
  }

  lemma CollectedNodesAreAdmissible(doc: M.Document, candidates: seq<F.Formula>, nodes: seq<Node>)
    requires (forall f <- doc.formulae :: M.SupportedBottle(f)) && F.DistinctNames(candidates)
    requires forall f :: f in candidates <==> f in doc.formulae
    requires Assembled(candidates, nodes)
    ensures AdmissibleNodes(nodes)
  {
    AssembledNames(candidates, nodes);
    forall n | n in nodes
      ensures n.artifact.Valid() && |n.evidence| <= MAX_EVIDENCE
    {
      var i :| 0 <= i < |nodes| && nodes[i] == n;
      assert candidates[i] in doc.formulae;
      assert M.SupportedBottle(candidates[i]);
    }
  }
}
