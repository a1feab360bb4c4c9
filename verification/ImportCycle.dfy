/**
 The repository's own import check: a depth-first search over package directories
 in which a directory without recorded imports is simply a leaf.
 */
module ImportCycle {
  import opened Graph

  datatype Finding = NoCycle | CycleAt(directory: string)

  class ImportVisitor {
    const graph: map<string, seq<string>>
    var state: map<string, Mark>
    ghost var finished: seq<string>

    constructor (graph: map<string, seq<string>>)
      ensures this.graph == graph
      ensures state == map[] && finished == [] && Searching([])
    {
      this.graph := graph;
      state := map[];
      finished := [];
    }

    ghost predicate Searching(stack: seq<string>)
      reads this
    {
      SearchInvariant(graph, state, stack, finished) && state.Keys <= Vertices(graph)
    }

    /** Either the directory and all it imports are finished, or a cycle is found where the result says. */
    method Visit(directory: string, ghost stack: seq<string>) returns (r: Finding)
      requires Searching(stack) && MayVisit(graph, stack, directory) && directory in Vertices(graph)
      modifies this
      ensures r.NoCycle? ==> Searching(stack) && old(state.Keys) <= state.Keys && directory in finished
      ensures r.NoCycle? ==> old(finished) <= finished
      ensures r.CycleAt? ==> OnCycle(graph, r.directory)
      decreases Vertices(graph) - state.Keys
    {
      if directory in state && state[directory].Visiting? {
        SearchMeetsOpen(graph, stack, directory);
        return CycleAt(directory);
      }
      if directory in state && state[directory].Visited? {
        return NoCycle;
      }
      SearchOpens(graph, state, stack, finished, directory);
      state := state[directory := Visiting];
      ghost var inner := stack + [directory];
      var imports := if directory in graph then graph[directory] else [];
      for i := 0 to |imports|
        invariant Searching(inner)
        invariant old(state.Keys) + {directory} <= state.Keys
        invariant old(finished) <= finished
        invariant forall d <- imports[..i] :: d in finished
      {
        var dependency := imports[i];
        assert Edge(graph, directory, dependency);
        assert dependency in Vertices(graph);
        r := Visit(dependency, inner);
        if r.CycleAt? {
          return r;
        }
        assert imports[..i + 1] == imports[..i] + [dependency];
      }
      assert imports[..|imports|] == imports;
      SearchCloses(graph, state, stack, finished, directory);
      state := state[directory := Visited];
      finished := finished + [directory];
      return NoCycle;
    }
  }

  /**
   Visiting the keys in any order that lists each of them: no finding exactly when
   the graph is acyclic, and otherwise the directory named lies on a cycle.
   */
  method DetectImportCycle(graph: map<string, seq<string>>, directories: seq<string>) returns (r: Finding)
    requires Elements(directories) == graph.Keys
    ensures r.NoCycle? <==> Acyclic(graph)
    ensures r.CycleAt? ==> OnCycle(graph, r.directory)
  {
    var visitor := new ImportVisitor(graph);
    for i := 0 to |directories|
      invariant visitor.graph == graph
      invariant visitor.Searching([])
      invariant forall d <- directories[..i] :: d in visitor.finished
    {
      assert directories[i] in Elements(directories);
      r := visitor.Visit(directories[i], []);
      if r.CycleAt? {
        return r;
      }
      assert directories[..i + 1] == directories[..i] + [directories[i]];
    }
    assert directories[..|directories|] == directories;
    forall d | d in graph
      ensures d in visitor.finished
    {
      assert d in Elements(directories);
    }
    TopologicalIsAcyclic(graph, visitor.finished);
    return NoCycle;
  }

  /** Whether there is a finding is a property of the graph: two visiting orders never disagree. */
  method SameVerdictInAnyOrder(graph: map<string, seq<string>>, some: seq<string>, other: seq<string>)
      returns (r: Finding, s: Finding)
    requires Elements(some) == graph.Keys && Elements(other) == graph.Keys
    ensures r.NoCycle? <==> s.NoCycle?
  {
    r := DetectImportCycle(graph, some);
    s := DetectImportCycle(graph, other);
  }
}
