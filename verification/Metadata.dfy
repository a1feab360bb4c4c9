/**
 Accepting a metadata document: a closed, acyclic set of formulae that covers
 exactly what the requested targets need, returned in name order.
 */
module Metadata {
  import opened Domain
  import opened Graph
  import opened Formulae

  const MAX_FORMULAE := 128

  datatype Document = Document(schema: int, platform: string, formulae: seq<Formula>)

  datatype Problem =
    | InvalidDocument
    | InvalidIdentity
    | IncompleteDependencies
    | InvalidDependency
    | IncompleteOrCyclicClosure
    | EmptySelection
    | DuplicateTarget
    | UnrequestedFormula
    | UnsupportedBottle

  datatype Result<+T> = Ok(value: T) | Err(problem: Problem)

  // ---- What a document must satisfy ----

  predicate ValidHeader(doc: Document) {
    doc.schema == 1 && doc.platform == "arm64_tahoe" && 0 < |doc.formulae| <= MAX_FORMULAE
  }

  predicate ValidIdentity(f: Formula) {
    ValidFormulaName(f.name) && f.revision >= 0 && f.rebuild >= 0
  }

  ghost predicate ValidDependencies(f: Formula) {
    && |f.dependencies| <= MAX_FORMULAE
    && (forall d <- f.dependencies :: ValidFormulaName(d))
    && Distinct(f.dependencies)
  }

  /** Package names carry an at sign where registry paths have a slash. */
  function RegistryPath(name: string): (r: string)
    ensures |r| == |name|
    ensures forall i :: 0 <= i < |r| ==> (name[i] == '@' ==> r[i] == '/') && (name[i] != '@' ==> r[i] == name[i])
  {
    seq(|name|, i requires 0 <= i < |name| => if name[i] == '@' then '/' else name[i])
  }

  predicate SupportedBottle(f: Formula) {
    && f.Artifact().Valid()
    && f.bottleTag in {"arm64_tahoe", "all"}
    && f.cellar in {":any", ":any_skip_relocation", "/opt/homebrew/Cellar"}
    && f.bottleURL == "https://ghcr.io/v2/homebrew/core/" + RegistryPath(f.name) + "/blobs/sha256:" + f.bottleSHA256
  }

  /** Where the registry keeps the bottle: under the name with its at signs read as slashes, by its digest. */
  predicate KeptAt(f: Formula, path: string) {
    && |path| == |f.name|
    && (forall i :: 0 <= i < |path| ==> path[i] == if f.name[i] == '@' then '/' else f.name[i])
    && f.bottleURL == "https://ghcr.io/v2/homebrew/core/" + path + "/blobs/sha256:" + f.bottleSHA256
  }

  /** What can be said of a bottle that is supported. */
  lemma SupportedMeans(f: Formula)
    ensures SupportedBottle(f) <==>
      && f.Artifact().Valid() && (f.bottleTag == "arm64_tahoe" || f.bottleTag == "all")
      && (f.cellar == ":any" || f.cellar == ":any_skip_relocation" || f.cellar == "/opt/homebrew/Cellar")
      && exists path :: KeptAt(f, path)
  {
    if path :| KeptAt(f, path) {
      assert path == RegistryPath(f.name);
    }
    if SupportedBottle(f) {
      assert KeptAt(f, RegistryPath(f.name));
    }
  }

  ghost predicate ValidInventory(fs: seq<Formula>) {
    && (forall f <- fs :: ValidIdentity(f) && ValidDependencies(f))
    && DistinctNames(fs)
  }

  /** Acceptance, with no mention of a search or of an order. */
  ghost predicate Acceptable(doc: Document, targets: seq<string>) {
    && ValidHeader(doc)
    && ValidInventory(doc.formulae)
    && |targets| > 0
    && RootedClosure(NameGraph(doc.formulae), targets)
    && (forall f <- doc.formulae :: SupportedBottle(f))
  }

  // ---- Indexing ----

  /** Dependency names of one formula: all valid, none repeated. */
  method CheckDependencies(f: Formula) returns (ok: bool)
    ensures ok <==> (forall d <- f.dependencies :: ValidFormulaName(d)) && Distinct(f.dependencies)
  {
    var seen: set<string> := {};
    for i := 0 to |f.dependencies|
      invariant seen == Elements(f.dependencies[..i])
      invariant Distinct(f.dependencies[..i])
      invariant forall d <- f.dependencies[..i] :: ValidFormulaName(d)
    {
      var d := f.dependencies[i];
      if !ValidFormulaName(d) || d in seen {
        if d in seen {
          var j :| 0 <= j < i && f.dependencies[..i][j] == d;
          assert f.dependencies[j] == f.dependencies[i];
        }
        return false;
      }
      assert f.dependencies[..i + 1] == f.dependencies[..i] + [d];
      seen := seen + {d};
    }
    assert f.dependencies[..|f.dependencies|] == f.dependencies;
    return true;
  }

  method IndexInventory(fs: seq<Formula>) returns (r: Result<map<string, Formula>>)
    ensures r.Ok? <==> ValidInventory(fs)
    ensures r.Ok? ==> r.value == Index(fs)
    ensures r.Err? ==>
      r.problem == InvalidIdentity || r.problem == IncompleteDependencies || r.problem == InvalidDependency
  {
    var index: map<string, Formula> := map[];
    for i := 0 to |fs|
      invariant index == Index(fs[..i])
      invariant ValidInventory(fs[..i])
    {
      var f := fs[i];
      if !ValidFormulaName(f.name) || f.revision < 0 || f.rebuild < 0 {
        NotInInventory(fs, i);
        return Err(InvalidIdentity);
      }
      if f.name in index {
        NotInInventory(fs, i);
        return Err(InvalidIdentity);
      }
      if |f.dependencies| > MAX_FORMULAE {
        NotInInventory(fs, i);
        return Err(IncompleteDependencies);
      }
      var valid := CheckDependencies(f);
      if !valid {
        NotInInventory(fs, i);
        return Err(InvalidDependency);
      }
      OneMoreIndexed(fs, i);
      index := index[f.name := f];
    }
    assert fs[..|fs|] == fs;
    return Ok(index);
  }

  lemma NotInInventory(fs: seq<Formula>, i: nat)
    requires i < |fs|
    requires !ValidIdentity(fs[i]) || !ValidDependencies(fs[i]) || fs[i].name in Index(fs[..i])
    ensures !ValidInventory(fs)
  {
    assert fs[i] in fs;
    if fs[i].name in Index(fs[..i]) {
      IndexKeys(fs[..i]);
      var k :| 0 <= k < i && fs[..i][k].name == fs[i].name;
      assert fs[k].name == fs[i].name;
    }
  }

  lemma OneMoreIndexed(fs: seq<Formula>, i: nat)
    requires i < |fs| && ValidInventory(fs[..i]) && fs[i].name !in Index(fs[..i])
    requires ValidIdentity(fs[i]) && ValidDependencies(fs[i])
    ensures ValidInventory(fs[..i + 1]) && Index(fs[..i + 1]) == Index(fs[..i])[fs[i].name := fs[i]]
  {
    IndexKeys(fs[..i]);
    assert fs[..i + 1] == fs[..i] + [fs[i]] && fs[..i + 1][..i] == fs[..i];
    forall j | 0 <= j < i ensures fs[j].name != fs[i].name {
      assert fs[..i][j] == fs[j] && fs[j].name in NamesOf(fs[..i]);
    }
  }

  // ---- The closure search ----

  class ClosureVisitor {
    const index: map<string, Formula>
    var state: map<string, Mark>
    ghost var finished: seq<string>

    constructor (index: map<string, Formula>)
      ensures this.index == index
      ensures state == map[] && finished == [] && Searching([])
    {
      this.index := index;
      state := map[];
      finished := [];
    }

    ghost function Dependencies(): map<string, seq<string>> {
      GraphOf(index)
    }

    ghost predicate Searching(stack: seq<string>)
      reads this
    {
      && SearchInvariant(Dependencies(), state, stack, finished)
      && state.Keys <= index.Keys
    }

    method Visit(name: string, ghost stack: seq<string>) returns (ok: bool)
      requires Searching(stack) && MayVisit(Dependencies(), stack, name)
      modifies this
      ensures ok ==> Searching(stack)
      ensures ok ==> old(state.Keys) <= state.Keys && name in finished
      ensures ok ==> FinishedBelow(Dependencies(), old(finished), finished, name)
      ensures !ok ==> name !in index || !ClosedKeys(Dependencies()) || !Acyclic(Dependencies())
      decreases index.Keys - state.Keys
    {
      ghost var g := Dependencies();
      if name !in index {
        return false;
      }
      if name in state && state[name].Visiting? {
        SearchMeetsOpen(g, stack, name);
        return false;
      }
      if name in state && state[name].Visited? {
        return true;
      }
      var formula := index[name];
      SearchOpens(g, state, stack, finished, name);
      state := state[name := Visiting];
      ghost var inner := stack + [name];
      for i := 0 to |formula.dependencies|
        invariant Searching(inner)
        invariant old(state.Keys) + {name} <= state.Keys
        invariant FinishedBelow(g, old(finished), finished, name)
        invariant forall d <- formula.dependencies[..i] :: d in finished
      {
        var dependency := formula.dependencies[i];
        assert Edge(g, name, dependency);
        ghost var before := finished;
        var visited := Visit(dependency, inner);
        if !visited {
          return false;
        }
        FinishedThroughEdge(g, old(finished), before, finished, name, dependency);
        assert formula.dependencies[..i + 1] == formula.dependencies[..i] + [dependency];
      }
      assert formula.dependencies[..|formula.dependencies|] == formula.dependencies;
      SearchCloses(g, state, stack, finished, name);
      state := state[name := Visited];
      finished := finished + [name];
      return true;
    }
  }

  /** A graph the search gets through: complete, rooted in it, and without cycles. */
  ghost predicate Searchable(g: map<string, seq<string>>, targets: seq<string>) {
    (forall t <- targets :: t in g) && ClosedKeys(g) && Acyclic(g)
  }

  /** Every target visited, each named once; a refusal is explained by what it found. */
  method VisitTargets(visitor: ClosureVisitor, targets: seq<string>) returns (r: Result<bool>)
    requires visitor.Searching([]) && visitor.finished == []
    requires DistinctSuccessors(visitor.Dependencies())
    modifies visitor
    ensures r.Ok? ==> Distinct(targets) && SearchDone(visitor.Dependencies(), targets, visitor.state, visitor.finished)
    ensures r.Err? ==> r.problem == DuplicateTarget || r.problem == IncompleteOrCyclicClosure
    ensures r == Err(DuplicateTarget) ==> !Distinct(targets)
    ensures r == Err(IncompleteOrCyclicClosure) ==> !Searchable(visitor.Dependencies(), targets)
  {
    ghost var g := visitor.Dependencies();
    var seenTargets: set<string> := {};
    for i := 0 to |targets|
      invariant visitor.Searching([])
      invariant seenTargets == Elements(targets[..i])
      invariant RootsVisited(g, targets[..i], visitor.finished)
    {
      var target := targets[i];
      if target in seenTargets {
        var j :| 0 <= j < i && targets[..i][j] == target;
        assert targets[i] == targets[j];
        return Err(DuplicateTarget);
      }
      seenTargets := seenTargets + {target};
      ghost var before := visitor.finished;
      var visited := visitor.Visit(target, []);
      if !visited {
        assert target in targets;
        return Err(IncompleteOrCyclicClosure);
      }
      assert targets[..i + 1] == targets[..i] + [target];
      NextRootVisited(g, targets[..i], target, before, visitor.finished);
    }
    assert targets[..|targets|] == targets;
    return Ok(true);
  }

  // ---- The result ----

  /** The names no longer pending are exactly those whose formula was collected, once each. */
  ghost predicate Collected(index: map<string, Formula>, pending: set<string>, candidates: seq<Formula>) {
    && pending <= index.Keys
    && DistinctNames(candidates)
    && (forall f <- candidates :: f.name in index && f.name !in pending && index[f.name] == f)
    && (forall name <- index :: name in pending || index[name] in candidates)
  }

  lemma CollectOne(index: map<string, Formula>, pending: set<string>, candidates: seq<Formula>, name: string)
    requires Collected(index, pending, candidates) && name in pending && index[name].name == name
    ensures Collected(index, pending - {name}, candidates + [index[name]])
  {
    var after := candidates + [index[name]];
    assert forall f :: f in after <==> f in candidates || f == index[name];
  }

  lemma IndexedAreAll(fs: seq<Formula>, candidates: seq<Formula>)
    requires DistinctNames(fs)
    requires forall f <- candidates :: f.name in Index(fs) && Index(fs)[f.name] == f
    requires forall name <- Index(fs) :: Index(fs)[name] in candidates
    ensures forall f :: f in candidates <==> f in fs
  {
    IndexKeys(fs);
    forall f | f in fs
      ensures f in candidates
    {
      IndexFinds(fs, f);
    }
  }

  method CheckBottle(f: Formula) returns (ok: bool)
    ensures ok <==>
      && f.Artifact().Valid() && (f.bottleTag == "arm64_tahoe" || f.bottleTag == "all")
      && (f.cellar == ":any" || f.cellar == ":any_skip_relocation" || f.cellar == "/opt/homebrew/Cellar")
      && exists path :: KeptAt(f, path)
    ensures ok <==> SupportedBottle(f)
  {
    SupportedMeans(f);
    var expectedURL :=
      "https://ghcr.io/v2/homebrew/core/" + RegistryPath(f.name) + "/blobs/sha256:" + f.bottleSHA256;
    var supportedTag := f.bottleTag in ["arm64_tahoe", "all"];
    var supportedCellar := f.cellar in [":any", ":any_skip_relocation", "/opt/homebrew/Cellar"];
    return f.Artifact().Valid() && supportedTag && supportedCellar && f.bottleURL == expectedURL;
  }

  /** Collect the supported candidates in whatever order the map yields them, then sort. */
  method SortedCandidates(fs: seq<Formula>, index: map<string, Formula>) returns (r: Result<seq<Formula>>)
    requires DistinctNames(fs) && index == Index(fs)
    ensures r.Ok? <==> forall f <- fs :: SupportedBottle(f)
    ensures r.Ok? ==> SortedByName(r.value) && forall f :: f in r.value <==> f in fs
    ensures r.Err? ==> r.problem == UnsupportedBottle
  {
    IndexKeys(fs);
    var pending := index.Keys;
    var candidates: seq<Formula> := [];
    while pending != {}
      invariant pending <= index.Keys
      invariant Collected(index, pending, candidates)
      invariant forall f <- candidates :: SupportedBottle(f)
      decreases |pending|
    {
      var name :| name in pending;
      var formula := index[name];
      var supported := CheckBottle(formula);
      if !supported {
        return Err(UnsupportedBottle);
      }
      CollectOne(index, pending, candidates, name);
      pending := pending - {name};
      candidates := candidates + [formula];
    }
    var sorted := Sort(candidates);
    IndexedAreAll(fs, candidates);
    return Ok(sorted);
  }

  lemma ValidInventoryDistinct(fs: seq<Formula>)
    requires ValidInventory(fs)
    ensures DistinctSuccessors(NameGraph(fs))
  {
    IndexKeys(fs);
    forall name | name in NameGraph(fs)
      ensures Distinct(NameGraph(fs)[name])
    {
      assert ValidDependencies(Index(fs)[name]);
    }
  }

  /** The whole parse accepts exactly the acceptable documents, and returns their formulae sorted by name. */
  method ParseMetadata(doc: Document, targets: seq<string>) returns (r: Result<seq<Formula>>)
    ensures r.Ok? <==> Acceptable(doc, targets)
    ensures r.Ok? ==> SortedByName(r.value) && forall f :: f in r.value <==> f in doc.formulae
    ensures r.Ok? ==> doc.schema == 1 && doc.platform == "arm64_tahoe" && 0 < |doc.formulae| <= 128
    ensures r.Ok? ==> forall f <- r.value :: Usable(f)
    ensures r == Err(EmptySelection) ==> |targets| == 0
    ensures r == Err(UnrequestedFormula) ==> !Covered(NameGraph(doc.formulae), targets)
    ensures r == Err(IncompleteOrCyclicClosure) ==> !Searchable(NameGraph(doc.formulae), targets)
  {
    if !ValidHeader(doc) {
      return Err(InvalidDocument);
    }
    var indexed := IndexInventory(doc.formulae);
    if indexed.Err? {
      return Err(indexed.problem);
    }
    var index := indexed.value;
    if |targets| == 0 {
      return Err(EmptySelection);
    }
    IndexKeys(doc.formulae);
    ValidInventoryDistinct(doc.formulae);
    var visitor := new ClosureVisitor(index);
    var visited := VisitTargets(visitor, targets);
    if visited.Err? {
      return Err(visited.problem);
    }
    SearchVerdict(NameGraph(doc.formulae), targets, visitor.state, visitor.finished);
    assert NameGraph(doc.formulae).Keys == index.Keys;
    if |visitor.state| != |index| {
      UncoveredSearch(NameGraph(doc.formulae), targets, visitor.state, visitor.finished);
      return Err(UnrequestedFormula);
    }
    r := SortedCandidates(doc.formulae, index);
    if r.Ok? { AllUsable(doc.formulae, r.value); }
  }

  /** Properly named and numbered, with at most 128 dependencies, all properly named and none repeated. */
  ghost predicate Usable(f: Formula) {
    && ValidFormulaName(f.name) && f.revision >= 0 && f.rebuild >= 0
    && |f.dependencies| <= 128 && Distinct(f.dependencies) && forall d <- f.dependencies :: ValidFormulaName(d)
  }

  lemma AllUsable(fs: seq<Formula>, candidates: seq<Formula>)
    requires ValidInventory(fs) && forall f :: f in candidates <==> f in fs
    ensures forall f <- candidates :: Usable(f)
  {
  }

  lemma UncoveredSearch(
    g: map<string, seq<string>>, targets: seq<string>, marks: map<string, Mark>, finished: seq<string>)
    requires SearchDone(g, targets, marks, finished) && |marks| != |g|
    ensures !Covered(g, targets)
  {
    if Covered(g, targets) {
      SearchOfClosure(g, targets, marks, finished);
      SameSizeSameKeys(marks, g);
      assert false;
    }
  }
}
