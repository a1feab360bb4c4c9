/**
 Discovering the dependency closure in batches: ask Homebrew about every name not
 yet asked about, until no answer mentions a new one.
 */
module Discovery {
  import opened Domain
  import opened Graph
  import opened Formulae
  import M = Metadata

  const MAX_SEEN := 128

  datatype BottleFile = BottleFile(url: string, sha256: Digest, cellar: string)

  /** The fields selected from one formula of a public info document. */
  datatype InfoFormula = InfoFormula(
    name: string, fullName: string, tap: string, stable: string, revision: int, rebuild: int,
    tahoe: Option<BottleFile>, all: Option<BottleFile>, dependencies: seq<string>)

  datatype InfoDocument = InfoDocument(formulae: seq<InfoFormula>, casks: nat)

  // ---- One answer ----

  /** The formula says of itself what the answer says of it. */
  predicate Copies(r: Formula, f: InfoFormula) {
    && r.name == f.name && r.version == f.stable && r.revision == f.revision && r.rebuild == f.rebuild
    && r.dependencies == f.dependencies
    && r.bottleTag == (if f.tahoe.Some? then "arm64_tahoe" else "all")
    && (f.tahoe.Some? ==> Offers(r, f.tahoe.value))
    && (f.tahoe.None? && f.all.Some? ==> Offers(r, f.all.value))
    && (f.tahoe.None? && f.all.None? ==> r.bottleURL == r.bottleSHA256 == r.cellar == "")
  }

  predicate Offers(r: Formula, b: BottleFile) {
    r.bottleURL == b.url && r.bottleSHA256 == b.sha256 && r.cellar == b.cellar
  }

  /** The platform bottle is preferred; a missing bottle leaves empty fields for later checks to refuse. */
  function Select(f: InfoFormula): (r: Formula)
    ensures Copies(r, f)
  {
    var tag := if f.tahoe.Some? then "arm64_tahoe" else "all";
    var bottle := if f.tahoe.Some? then f.tahoe else f.all;
    if bottle.Some? then
      Formula(f.name, f.stable, f.revision, f.rebuild, tag, bottle.value.url, bottle.value.sha256, bottle.value.cellar,
              f.dependencies)
    else
      Formula(f.name, f.stable, f.revision, f.rebuild, tag, "", "", "", f.dependencies)
  }

  function SelectAll(fs: seq<InfoFormula>): (r: seq<Formula>)
    ensures |r| == |fs| && forall i :: 0 <= i < |fs| ==> r[i] == Select(fs[i])
  {
    seq(|fs|, i requires 0 <= i < |fs| => Select(fs[i]))
  }

  predicate OfficialIdentity(f: InfoFormula) {
    f.fullName == f.name && f.tap == "homebrew/core"
  }

  predicate AllOfficial(fs: seq<InfoFormula>) {
    forall f <- fs :: OfficialIdentity(f)
  }

  /** The answer names exactly the formulae asked about. */
  ghost predicate Answers(doc: InfoDocument, names: seq<string>) {
    && doc.casks == 0
    && (forall i, j :: 0 <= i < j < |doc.formulae| ==> doc.formulae[i].name != doc.formulae[j].name)
    && (set f | f in doc.formulae :: f.name) == Elements(names)
    && forall f <- doc.formulae :: OfficialIdentity(f)
  }

  method ParseInfo(doc: InfoDocument, names: seq<string>) returns (r: Option<seq<Formula>>)
    requires Distinct(names)
    ensures r.Some? <==> Answers(doc, names)
    ensures r.Some? ==> |r.value| == |doc.formulae|
    ensures r.Some? ==> forall i :: 0 <= i < |r.value| ==> Copies(r.value[i], doc.formulae[i])
  {
    ghost var fs := SelectAll(doc.formulae);
    if doc.casks != 0 || |doc.formulae| != |names| {
      WrongCountRefused(doc, names);
      return None;
    }
    var requested := set name | name in names;
    assert requested == Elements(names);
    var selected: set<string> := {};
    var result: seq<Formula> := [];
    for i := 0 to |doc.formulae|
      invariant result == fs[..i]
      invariant selected == NamesOf(fs[..i]) && selected <= requested && DistinctNames(fs[..i])
      invariant AllOfficial(doc.formulae[..i])
    {
      var f := doc.formulae[i];
      if f.name !in requested || f.name in selected || f.fullName != f.name || f.tap != "homebrew/core" {
        AnswerRefused(doc, names, i);
        return None;
      }
      OneMoreSelected(fs, i);
      OneMoreOfficial(doc.formulae, i);
      selected := selected + {f.name};
      result := result + [Select(f)];
    }
    assert fs[..|fs|] == fs;
    assert doc.formulae[..|doc.formulae|] == doc.formulae;
    AllSelectedAnswer(doc, names);
    return Some(result);
  }

  lemma OneMoreOfficial(fs: seq<InfoFormula>, i: nat)
    requires i < |fs| && AllOfficial(fs[..i]) && OfficialIdentity(fs[i])
    ensures AllOfficial(fs[..i + 1])
  {
    assert fs[..i + 1] == fs[..i] + [fs[i]];
  }

  lemma OneMoreSelected(fs: seq<Formula>, i: nat)
    requires i < |fs| && DistinctNames(fs[..i]) && fs[i].name !in NamesOf(fs[..i])
    ensures fs[..i + 1] == fs[..i] + [fs[i]] && DistinctNames(fs[..i + 1])
    ensures NamesOf(fs[..i + 1]) == NamesOf(fs[..i]) + {fs[i].name}
  {
    assert fs[..i + 1] == fs[..i] + [fs[i]];
    forall j | 0 <= j < i ensures fs[j].name != fs[i].name {
      assert fs[..i][j] == fs[j];
    }
  }

  lemma AnswerRefused(doc: InfoDocument, names: seq<string>, i: nat)
    requires i < |doc.formulae|
    requires var f := doc.formulae[i];
      f.name !in Elements(names) || f.name in NamesOf(SelectAll(doc.formulae)[..i]) || !OfficialIdentity(f)
    ensures !Answers(doc, names)
  {
    var f, fs := doc.formulae[i], SelectAll(doc.formulae);
    assert f in doc.formulae;
    if f.name in NamesOf(fs[..i]) {
      var k :| 0 <= k < i && fs[..i][k].name == f.name;
      assert doc.formulae[k].name == f.name;
    }
  }

  lemma WrongCountRefused(doc: InfoDocument, names: seq<string>)
    requires Distinct(names) && (doc.casks != 0 || |doc.formulae| != |names|)
    ensures !Answers(doc, names)
  {
    AnswersSelected(doc, names);
    if Answers(doc, names) { AnswerSize(SelectAll(doc.formulae), names); }
  }

  lemma AllSelectedAnswer(doc: InfoDocument, names: seq<string>)
    requires Distinct(names) && doc.casks == 0 && |doc.formulae| == |names|
    requires DistinctNames(SelectAll(doc.formulae)) && NamesOf(SelectAll(doc.formulae)) <= Elements(names)
    requires AllOfficial(doc.formulae)
    ensures Answers(doc, names)
  {
    AnswersSelected(doc, names);
    SameCountSameNames(SelectAll(doc.formulae), names);
  }

  lemma AnswersSelected(doc: InfoDocument, names: seq<string>)
    ensures var fs := SelectAll(doc.formulae);
      Answers(doc, names) <==> && doc.casks == 0 && DistinctNames(fs) && NamesOf(fs) == Elements(names)
                               && forall f <- doc.formulae :: OfficialIdentity(f)
  {
    CopiedNames(doc.formulae, SelectAll(doc.formulae));
  }

  lemma CopiedNames(fs: seq<InfoFormula>, copies: seq<Formula>)
    requires |copies| == |fs| && forall i :: 0 <= i < |fs| ==> Copies(copies[i], fs[i])
    ensures NamesOf(copies) == set f | f in fs :: f.name
    ensures DistinctNames(copies) <==> forall i, j :: 0 <= i < j < |fs| ==> fs[i].name != fs[j].name
  {
    assert forall i :: 0 <= i < |fs| ==> copies[i].name == fs[i].name;
    SameNames(fs, copies);
  }

  lemma SameNames(fs: seq<InfoFormula>, copies: seq<Formula>)
    requires |copies| == |fs| && forall i :: 0 <= i < |fs| ==> copies[i].name == fs[i].name
    ensures NamesOf(copies) == set f | f in fs :: f.name
  {
    forall f | f in fs ensures f.name in NamesOf(copies) {
      var i :| 0 <= i < |fs| && fs[i] == f;
      assert copies[i] in copies;
    }
    forall c | c in copies ensures c.name in set f | f in fs :: f.name {
      var i :| 0 <= i < |copies| && copies[i] == c;
      assert fs[i] in fs;
    }
  }

  lemma AnswerSize(fs: seq<Formula>, names: seq<string>)
    requires DistinctNames(fs) && Distinct(names) && NamesOf(fs) == Elements(names)
    ensures |fs| == |names|
  {
    IndexKeys(fs);
    IndexSize(fs);
    assert |Index(fs)| == |Index(fs).Keys|;
    DistinctSize(names);
  }

  lemma SameCountSameNames(fs: seq<Formula>, names: seq<string>)
    requires DistinctNames(fs) && Distinct(names) && NamesOf(fs) <= Elements(names) && |fs| == |names|
    ensures NamesOf(fs) == Elements(names)
  {
    IndexKeys(fs);
    IndexSize(fs);
    assert |Index(fs)| == |Index(fs).Keys|;
    DistinctSize(names);
    SubsetSize(NamesOf(fs), Elements(names));
  }

  // ---- The closure ----

  /** fs is the closure of the targets: exactly what they reach, in name order, within the bound. */
  ghost predicate Discovered(targets: seq<string>, fs: seq<Formula>) {
    && SortedByName(fs)
    && |fs| <= MAX_SEEN
    && forall name {:trigger name in NamesOf(fs)} :: name in NamesOf(fs) <==> ReachedFrom(NameGraph(fs), targets, name)
  }

  /** Everything a found formula needs is found or waiting. */
  ghost predicate Accounted(found: seq<Formula>, queue: seq<string>) {
    forall f <- found :: forall d <- f.dependencies :: d in NamesOf(found) || d in queue
  }

  ghost predicate AllReached(g: map<string, seq<string>>, targets: seq<string>, names: set<string>) {
    forall name {:trigger ReachedFrom(g, targets, name)} :: name in names ==> ReachedFrom(g, targets, name)
  }

  /** The state of the search between batches. */
  ghost predicate Exploring(targets: seq<string>, found: seq<Formula>, queue: seq<string>) {
    && DistinctNames(found)
    && (forall t <- targets :: t in NamesOf(found) || t in queue)
    && Accounted(found, queue)
    && AllReached(NameGraph(found), targets, NamesOf(found) + Elements(queue))
  }

  ghost predicate Extends<K(!new)>(g: map<K, seq<K>>, h: map<K, seq<K>>) {
    forall k <- g :: k in h && h[k] == g[k]
  }

  lemma ExtensionReaches<K(!new)>(g: map<K, seq<K>>, h: map<K, seq<K>>, a: K, b: K)
    requires Extends(g, h) && Reaches(g, a, b)
    ensures Reaches(h, a, b)
  {
    forall s: set<K> | a in s && ClosedUnder(h, s)
      ensures b in s
    {
      assert forall x, y :: Edge(g, x, y) ==> Edge(h, x, y);
      assert ClosedUnder(g, s);
    }
  }

  lemma ExtensionReachedFrom<K(!new)>(g: map<K, seq<K>>, h: map<K, seq<K>>, roots: seq<K>, k: K)
    requires Extends(g, h) && ReachedFrom(g, roots, k)
    ensures ReachedFrom(h, roots, k)
  {
    var r :| r in roots && Reaches(g, r, k);
    ExtensionReaches(g, h, r, k);
  }

  lemma ReachedThroughEdge<K(!new)>(g: map<K, seq<K>>, roots: seq<K>, a: K, b: K)
    requires ReachedFrom(g, roots, a) && Edge(g, a, b)
    ensures ReachedFrom(g, roots, b)
  {
    var r :| r in roots && Reaches(g, r, a);
    assert Reaches(g, a, b);
    ReachesTransitive(g, r, a, b);
  }

  /** The names of the queue not yet seen, each once, in queue order. */
  method NewNames(queue: seq<string>, seen: set<string>) returns (names: seq<string>, valid: bool)
    ensures valid <==> forall q <- queue :: ValidFormulaName(q)
    ensures valid ==> Distinct(names)
    ensures valid ==> (forall name <- names :: name in queue && name !in seen)
    ensures valid ==> (forall q <- queue :: q in seen || q in names)
  {
    names := [];
    for i := 0 to |queue|
      invariant Distinct(names) && forall q <- queue[..i] :: ValidFormulaName(q)
      invariant forall name <- names :: name in queue && name !in seen
      invariant forall q <- queue[..i] :: q in seen || q in names
    {
      var name := queue[i];
      if !ValidFormulaName(name) {
        return names, false;
      }
      if name !in seen && name !in names {
        names := names + [name];
      }
    }
    assert queue[..|queue|] == queue;
    return names, true;
  }

  function DependenciesOf(batch: seq<Formula>): (queue: seq<string>)
    ensures forall d :: d in queue <==> exists f <- batch :: d in f.dependencies
  {
    if batch == [] then []
    else
      assert forall f <- batch :: f in batch[..|batch| - 1] || f == batch[|batch| - 1];
      DependenciesOf(batch[..|batch| - 1]) + batch[|batch| - 1].dependencies
  }

  /** One batch moves the frontier: what was waiting is found, and only its dependencies wait. */
  lemma BatchExtends(
    targets: seq<string>, found: seq<Formula>, queue: seq<string>, names: seq<string>, batch: seq<Formula>)
    requires Exploring(targets, found, queue)
    requires forall name <- names :: name in queue && name !in NamesOf(found)
    requires forall q <- queue :: q in NamesOf(found) || q in names
    requires DistinctNames(batch) && NamesOf(batch) == Elements(names)
    ensures Exploring(targets, found + batch, DependenciesOf(batch))
    ensures NamesOf(found + batch) == NamesOf(found) + Elements(names)
  {
    var all, next := found + batch, DependenciesOf(batch);
    BatchNames(found, batch);
    forall f, d | f in all && d in f.dependencies
      ensures d in NamesOf(all) || d in next
    {
      if f in found {
        assert d in NamesOf(found) || d in queue;
      }
    }
    BatchReached(targets, found, queue, names, batch);
  }

  lemma BatchNames(found: seq<Formula>, batch: seq<Formula>)
    requires DistinctNames(found) && DistinctNames(batch)
    requires NamesOf(batch) !! NamesOf(found)
    ensures DistinctNames(found + batch) && NamesOf(found + batch) == NamesOf(found) + NamesOf(batch)
  {
    var all := found + batch;
    assert forall f :: f in all <==> f in found || f in batch;
    forall i, j | 0 <= i < j < |all|
      ensures all[i].name != all[j].name
    {
      if i < |found| <= j {
        assert found[i].name in NamesOf(found) && batch[j - |found|].name in NamesOf(batch);
      }
    }
  }

  lemma BatchReached(
    targets: seq<string>, found: seq<Formula>, queue: seq<string>, names: seq<string>, batch: seq<Formula>)
    requires DistinctNames(found + batch) && NamesOf(found + batch) == NamesOf(found) + Elements(names)
    requires AllReached(NameGraph(found), targets, NamesOf(found) + Elements(queue))
    requires forall name <- names :: name in queue && name !in NamesOf(found)
    requires NamesOf(batch) == Elements(names)
    ensures AllReached(NameGraph(found + batch), targets, NamesOf(found + batch) + Elements(DependenciesOf(batch)))
  {
    var all := found + batch;
    var g, h := NameGraph(found), NameGraph(all);
    IndexConcat(found, batch);
    IndexKeys(found);
    IndexKeys(batch);
    assert Extends(g, h);
    forall name | name in NamesOf(all)
      ensures ReachedFrom(h, targets, name)
    {
      assert ReachedFrom(g, targets, name);
      ExtensionReachedFrom(g, h, targets, name);
    }
    forall d | d in DependenciesOf(batch)
      ensures ReachedFrom(h, targets, d)
    {
      var f :| f in batch && d in f.dependencies;
      assert f in all && f.name in NamesOf(all);
      IndexFinds(all, f);
      assert ReachedFrom(h, targets, f.name);
      ReachedThroughEdge(h, targets, f.name, d);
    }
  }

  /** When nothing new is waiting, the names found are exactly those reached. */
  lemma NothingLeft(targets: seq<string>, found: seq<Formula>, queue: seq<string>)
    requires Exploring(targets, found, queue)
    requires forall q <- queue :: q in NamesOf(found)
    ensures forall name {:trigger name in NamesOf(found)} ::
      name in NamesOf(found) <==> ReachedFrom(NameGraph(found), targets, name)
  {
    var g := NameGraph(found);
    IndexKeys(found);
    forall a, b | a in NamesOf(found) && Edge(g, a, b)
      ensures b in NamesOf(found)
    {
      assert Index(found)[a] in found;
    }
    assert ClosedUnder(g, NamesOf(found));
    forall name
      ensures name in NamesOf(found) <==> ReachedFrom(g, targets, name)
    {
      if ReachedFrom(g, targets, name) {
        var r :| r in targets && Reaches(g, r, name);
      }
    }
  }

  // ---- When discovery must succeed ----

  type Brew = (nat, seq<string>) -> Option<InfoDocument>

  /** Every query about registered names is answered, with the registered formulae. */
  ghost predicate Faithful(brew: Brew, registry: map<string, InfoFormula>) {
    forall n, names {:trigger brew(n, names)} :: Distinct(names) && (forall x <- names :: x in registry) ==>
      FaithfulAnswer(brew(n, names), names, registry)
  }

  ghost predicate FaithfulAnswer(answer: Option<InfoDocument>, names: seq<string>, registry: map<string, InfoFormula>) {
    && answer.Some? && Answers(answer.value, names)
    && forall f <- answer.value.formulae :: f.name in registry && f == registry[f.name]
  }

  /** The targets lie in a small enough set of registered, well-named formulae closed under dependencies. */
  predicate Contained(targets: seq<string>, registry: map<string, InfoFormula>, within: set<string>) {
    && 0 < |targets| <= MAX_SEEN && |within| <= MAX_SEEN
    && (forall t <- targets :: t in within)
    && forall name <- within ::
      ValidFormulaName(name) && name in registry && forall d <- registry[name].dependencies :: d in within
  }

  ghost function RegistryGraph(registry: map<string, InfoFormula>): map<string, seq<string>> {
    map name | name in registry :: registry[name].dependencies
  }

  /** Exactly what the targets reach by the dependencies Homebrew has on record. */
  ghost predicate ReachedInRegistry(targets: seq<string>, registry: map<string, InfoFormula>, names: set<string>) {
    forall name {:trigger name in names} :: name in names <==> ReachedFrom(RegistryGraph(registry), targets, name)
  }

  /** A closure of faithful copies is the closure in the registry. */
  lemma CopiesReachAlike(targets: seq<string>, fs: seq<Formula>, registry: map<string, InfoFormula>)
    requires Discovered(targets, fs) && forall f <- fs :: f.name in registry && Copies(f, registry[f.name])
    ensures ReachedInRegistry(targets, registry, NamesOf(fs))
  {
    var g, h := NameGraph(fs), RegistryGraph(registry);
    IndexKeys(fs);
    DiscoveredIsComplete(targets, fs);
    assert Extends(g, h);
    assert ClosedUnder(h, NamesOf(fs)) by {
      forall a, b | a in NamesOf(fs) && Edge(h, a, b) ensures b in NamesOf(fs) {
        assert Edge(g, a, b);
      }
    }
    forall name ensures name in NamesOf(fs) <==> ReachedFrom(h, targets, name) {
      if name in NamesOf(fs) {
        ExtensionReachedFrom(g, h, targets, name);
      }
      if ReachedFrom(h, targets, name) {
        var t :| t in targets && Reaches(h, t, name);
      }
    }
  }

  /** What the search keeps while every answer is faithful. */
  ghost predicate InBounds(queue: seq<string>, seen: set<string>, found: seq<Formula>,
                           registry: map<string, InfoFormula>, within: set<string>) {
    && Elements(queue) <= within && seen <= within
    && forall f <- found :: f.name in registry && Copies(f, registry[f.name])
  }

  /** A faithful batch is found, and what it asks for next is within bounds. */
  lemma FaithfulBatch(targets: seq<string>, names: seq<string>, doc: InfoDocument, batch: seq<Formula>,
                      seen: set<string>, found: seq<Formula>, registry: map<string, InfoFormula>, within: set<string>)
    requires Contained(targets, registry, within) && Elements(names) <= within && seen <= within
    requires FaithfulAnswer(Some(doc), names, registry)
    requires |batch| == |doc.formulae| && forall i :: 0 <= i < |batch| ==> Copies(batch[i], doc.formulae[i])
    requires forall f <- found :: f.name in registry && Copies(f, registry[f.name])
    ensures InBounds(DependenciesOf(batch), seen + Elements(names), found + batch, registry, within)
  {
    CopiedNames(doc.formulae, batch);
    forall f <- batch ensures f.name in within && f.name in registry && Copies(f, registry[f.name]) {
      var i :| 0 <= i < |batch| && batch[i] == f;
      assert doc.formulae[i] in doc.formulae;
      assert f.name in NamesOf(batch);
    }
    forall d <- DependenciesOf(batch) ensures d in within {
      var f :| f in batch && d in f.dependencies;
    }
  }

  /** One query and its answer: what was waiting is found, and only its dependencies wait. */
  method AskBatch(ghost targets: seq<string>, brew: Brew, ghost queue: seq<string>, names: seq<string>,
                  found: seq<Formula>, ghost registry: map<string, InfoFormula>, ghost within: set<string>)
      returns (batch: Option<seq<Formula>>)
    requires Exploring(targets, found, queue) && Distinct(names)
    requires forall name <- names :: name in queue && name !in NamesOf(found)
    requires forall q <- queue :: q in NamesOf(found) || q in names
    ensures batch.Some? ==> Exploring(targets, found + batch.value, DependenciesOf(batch.value))
    ensures batch.Some? ==> NamesOf(found + batch.value) == NamesOf(found) + Elements(names)
    ensures (Faithful(brew, registry) && Contained(targets, registry, within)
             && InBounds(queue, NamesOf(found), found, registry, within)) ==>
      batch.Some?
      && InBounds(DependenciesOf(batch.value), NamesOf(found) + Elements(names), found + batch.value, registry, within)
  {
    ghost var answerable := Faithful(brew, registry) && Contained(targets, registry, within)
      && InBounds(queue, NamesOf(found), found, registry, within);
    var raw := brew(|found|, names);
    if answerable {
      assert forall x <- names :: x in Elements(queue);
      assert FaithfulAnswer(raw, names, registry);
    }
    if raw.None? {
      return None;
    }
    batch := ParseInfo(raw.value, names);
    if batch.Some? {
      CopiedNames(raw.value.formulae, batch.value);
      if answerable { FaithfulBatch(targets, names, raw.value, batch.value, NamesOf(found), found, registry, within); }
      BatchExtends(targets, found, queue, names, batch.value);
    }
  }

  /**
   The batch loop against a Homebrew that answers, or fails to answer, each query
   as it likes. Success means the exact closure; every name was asked about once.
   */
  method Discover(targets: seq<string>, brew: Brew, ghost registry: map<string, InfoFormula>, ghost within: set<string>)
      returns (r: Option<seq<Formula>>, ghost asked: seq<string>)
    ensures r.Some? ==> Discovered(targets, r.value) && |targets| > 0
    ensures Faithful(brew, registry) && Contained(targets, registry, within) ==>
      && r.Some? && (forall f <- r.value :: f.name in registry && Copies(f, registry[f.name]))
      && ReachedInRegistry(targets, registry, NamesOf(r.value))
    ensures r.Some? ==> Distinct(asked) && Elements(asked) == NamesOf(r.value)
  {
    asked := [];
    ghost var answerable := Faithful(brew, registry) && Contained(targets, registry, within);
    if |targets| == 0 || |targets| > MAX_SEEN || exists t <- targets :: !ValidFormulaName(t) {
      return None, asked;
    }
    var queue := targets;
    var seen: set<string> := {};
    var found: seq<Formula> := [];
    StartExploring(targets);
    while queue != []
      invariant Exploring(targets, found, queue)
      invariant seen == NamesOf(found) && |seen| <= MAX_SEEN
      invariant Distinct(asked) && Elements(asked) == seen
      invariant answerable ==> InBounds(queue, seen, found, registry, within)
      decreases MAX_SEEN - |seen|
    {
      var names, valid := NewNames(queue, seen);
      if !valid {
        return None, asked;
      }
      var grown := seen + set name | name in names;
      if answerable { SubsetSize(grown, within); }
      if |grown| > MAX_SEEN {
        return None, asked;
      }
      if |names| == 0 {
        break;
      }
      var batch := AskBatch(targets, brew, queue, names, found, registry, within);
      if batch.None? {
        return None, asked;
      }
      GrowsStrictly(seen, names);
      AskedOnce(asked, names);
      asked := asked + names;
      seen := grown;
      found := found + batch.value;
      queue := DependenciesOf(batch.value);
    }
    NothingLeft(targets, found, queue);
    var sorted := Sort(found);
    SortedClosure(targets, found, sorted);
    if answerable { CopiesReachAlike(targets, sorted, registry); }
    return Some(sorted), asked;
  }

  lemma StartExploring(targets: seq<string>)
    ensures Exploring(targets, [], targets)
  {
    forall t | t in targets
      ensures ReachedFrom(NameGraph([]), targets, t)
    {
      assert Reaches(NameGraph([]), t, t);
    }
  }

  lemma GrowsStrictly(seen: set<string>, names: seq<string>)
    requires |names| > 0 && forall name <- names :: name !in seen
    ensures |seen + Elements(names)| > |seen|
  {
    assert names[0] in Elements(names);
    SubsetSize(seen + {names[0]}, seen + Elements(names));
  }

  lemma AskedOnce(asked: seq<string>, names: seq<string>)
    requires Distinct(asked) && Distinct(names) && forall name <- names :: name !in asked
    ensures Distinct(asked + names) && Elements(asked + names) == Elements(asked) + Elements(names)
  {
    var all := asked + names;
    forall i, j | 0 <= i < j < |all|
      ensures all[i] != all[j]
    {
      if i < |asked| <= j {
        assert all[i] in asked && all[j] in names;
      } else if i < |asked| {
        assert all[i] == asked[i] && all[j] == asked[j];
      } else {
        assert all[i] == names[i - |asked|] && all[j] == names[j - |asked|];
      }
    }
  }

  lemma SortedClosure(targets: seq<string>, found: seq<Formula>, sorted: seq<Formula>)
    requires DistinctNames(found) && |NamesOf(found)| <= MAX_SEEN
    requires forall name {:trigger name in NamesOf(found)} ::
      name in NamesOf(found) <==> ReachedFrom(NameGraph(found), targets, name)
    requires SortedByName(sorted) && forall f :: f in sorted <==> f in found
    ensures Discovered(targets, sorted) && NamesOf(sorted) == NamesOf(found)
  {
    SortedIsDistinct(sorted);
    SameFormulaeSameGraph(found, sorted);
    IndexKeys(found);
    IndexKeys(sorted);
    IndexSize(sorted);
    assert |Index(sorted)| == |Index(sorted).Keys|;
    assert NamesOf(sorted) == NamesOf(found);
  }

  // ---- What a parse can still object to ----

  /** A discovered closure is complete and has nothing to spare. */
  lemma DiscoveredIsComplete(targets: seq<string>, fs: seq<Formula>)
    requires Discovered(targets, fs)
    ensures (forall t <- targets :: t in NameGraph(fs)) && ClosedKeys(NameGraph(fs)) && Covered(NameGraph(fs), targets)
  {
    var g := NameGraph(fs);
    IndexKeys(fs);
    forall t | t in targets
      ensures t in g
    {
      assert Reaches(g, t, t);
      assert t in NamesOf(fs);
    }
    forall a, b | a in g && Edge(g, a, b)
      ensures b in g
    {
      assert a in NamesOf(fs);
      ReachedThroughEdge(g, targets, a, b);
      assert b in NamesOf(fs);
    }
    forall name | name in g
      ensures ReachedFrom(g, targets, name)
    {
      assert name in NamesOf(fs);
    }
  }

  /** It is contained in every set of names that has the targets and is closed under dependencies. */
  lemma DiscoveredIsLeast(targets: seq<string>, fs: seq<Formula>, s: set<string>)
    requires Discovered(targets, fs) && (forall t <- targets :: t in s) && ClosedUnder(NameGraph(fs), s)
    ensures NamesOf(fs) <= s
  {
    forall name | name in NamesOf(fs)
      ensures name in s
    {
      var r :| r in targets && Reaches(NameGraph(fs), r, name);
    }
  }

  /** Parsing what was discovered never finds a formula missing or unrequested: only a cycle stops the search. */
  lemma ParseOfDiscovered(targets: seq<string>, fs: seq<Formula>)
    requires Discovered(targets, fs)
    ensures M.Searchable(NameGraph(fs), targets) <==> Acyclic(NameGraph(fs))
    ensures RootedClosure(NameGraph(fs), targets)
       <==> Acyclic(NameGraph(fs)) && DistinctSuccessors(NameGraph(fs)) && Distinct(targets)
  {
    DiscoveredIsComplete(targets, fs);
  }

  function DocumentOf(fs: seq<Formula>): M.Document {
    M.Document(1, "arm64_tahoe", fs)
  }

  lemma DiscoveredIsAccepted(targets: seq<string>, fs: seq<Formula>)
    requires Discovered(targets, fs) && |targets| > 0
    ensures M.Acceptable(DocumentOf(fs), targets)
       <==> && M.ValidInventory(fs) && (forall f <- fs :: M.SupportedBottle(f))
            && Acyclic(NameGraph(fs)) && Distinct(targets)
  {
    ParseOfDiscovered(targets, fs);
    DiscoveredIsNotEmpty(targets, fs);
    if M.ValidInventory(fs) { InventoryHasDistinctSuccessors(fs); }
  }

  lemma DiscoveredIsNotEmpty(targets: seq<string>, fs: seq<Formula>)
    requires Discovered(targets, fs) && |targets| > 0
    ensures |fs| > 0
  {
    DiscoveredIsComplete(targets, fs);
    assert targets[0] in NameGraph(fs);
  }

  lemma InventoryHasDistinctSuccessors(fs: seq<Formula>)
    requires M.ValidInventory(fs)
    ensures DistinctSuccessors(NameGraph(fs))
  {
    IndexKeys(fs);
  }

  /**
   Discovery followed by the parse of its own document. A faithful Homebrew gets an answer. The
   parse returns what was discovered, and refuses it only for what discovery does not look at:
   the formulae themselves, a cycle, or a target asked for twice.
   */
  method DiscoverAndParse(
    targets: seq<string>, brew: Brew, ghost registry: map<string, InfoFormula>, ghost within: set<string>)
      returns (r: Option<M.Result<seq<Formula>>>, ghost fs: seq<Formula>)
    ensures Faithful(brew, registry) && Contained(targets, registry, within) ==>
      && r.Some? && (forall f <- fs :: f.name in registry && Copies(f, registry[f.name]))
      && ReachedInRegistry(targets, registry, NamesOf(fs))
    ensures r.Some? ==> Discovered(targets, fs)
    ensures r.Some? ==>
      (r.value.Ok? <==>
        && M.ValidInventory(fs) && (forall f <- fs :: M.SupportedBottle(f))
        && Acyclic(NameGraph(fs)) && Distinct(targets))
    ensures r.Some? && r.value.Ok? ==> r.value.value == fs
    ensures r.Some? ==> r.value != M.Err(M.UnrequestedFormula) && r.value != M.Err(M.EmptySelection)
    ensures r == Some(M.Err(M.IncompleteOrCyclicClosure)) ==> !Acyclic(NameGraph(fs))
  {
    var found, asked := Discover(targets, brew, registry, within);
    if found.None? {
      return None, [];
    }
    fs := found.value;
    ParseOfDiscovered(targets, fs);
    DiscoveredIsComplete(targets, fs);
    DiscoveredIsAccepted(targets, fs);
    var parsed := M.ParseMetadata(DocumentOf(found.value), targets);
    if parsed.Ok? {
      SortedIsUnique(parsed.value, fs);
    }
    return Some(parsed), fs;
  }
}
