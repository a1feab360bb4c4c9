/**
 Checking the dependency list recorded in a bottle: between the candidate's direct
 dependencies and the full transitive set computed from the accepted closure.
 */
module BottleTab {
  import opened Domain
  import opened Graph
  import F = Formulae
  import M = Metadata

  const MAX_RECORDED := 128

  datatype Recorded = Recorded(name: string, version: string, revision: int)

  datatype Tab = Tab(dependencies: seq<Recorded>, arch: string)

  datatype Manifest = Manifest(digest: string, ref: string, tab: string)

  datatype Verdict = Accepted | InvalidTab | InvalidClosure | GraphDiffers | OmitsDirect

  // ---- Selecting the tab ----

  predicate Selects(m: Manifest, digest: string, ref: string) {
    m.digest == digest && m.ref == ref
  }

  /** Exactly one manifest carries the digest and reference, and its tab is the one returned. */
  method SelectedTab(manifests: seq<Manifest>, digest: string, ref: string) returns (r: Option<string>)
    ensures r.Some? <==> exists i :: SoleSelection(manifests, digest, ref, i)
    ensures r.Some? ==> forall i :: SoleSelection(manifests, digest, ref, i) ==> r.value == manifests[i].tab
  {
    var selected := "";
    ghost var at := -1;
    for k := 0 to |manifests|
      invariant selected == "" <==> at == -1
      invariant selected != "" ==> 0 <= at < k && Selects(manifests[at], digest, ref) && manifests[at].tab == selected
      invariant forall j :: 0 <= j < k && j != at ==> !Selects(manifests[j], digest, ref)
    {
      var m := manifests[k];
      if m.digest == digest && m.ref == ref {
        if selected != "" || m.tab == "" {
          return None;
        }
        selected := m.tab;
        at := k;
      }
    }
    if selected == "" {
      return None;
    }
    assert SoleSelection(manifests, digest, ref, at);
    return Some(selected);
  }

  predicate SoleSelection(manifests: seq<Manifest>, digest: string, ref: string, i: int) {
    && 0 <= i < |manifests| && Selects(manifests[i], digest, ref) && manifests[i].tab != ""
    && forall j :: 0 <= j < |manifests| && j != i ==> !Selects(manifests[j], digest, ref)
  }

  // ---- The transitive set ----

  /** What the direct dependencies reach, themselves included. */
  ghost predicate Needed(g: map<string, seq<string>>, candidate: F.Formula, name: string) {
    ReachedFrom(g, candidate.dependencies, name)
  }

  /** The closure can be computed: it stays inside the candidates and never comes back to the candidate. */
  ghost predicate ClosureWithin(candidate: F.Formula, candidates: seq<F.Formula>) {
    forall name {:trigger Needed(F.NameGraph(candidates), candidate, name)} ::
      Needed(F.NameGraph(candidates), candidate, name) ==> name in F.Index(candidates) && name != candidate.name
  }

  /** The worklist state: wanted names are needed, and what they need is wanted or queued. */
  ghost predicate Collecting(
    g: map<string, seq<string>>, candidate: F.Formula, wanted: set<string>, queue: seq<string>) {
    && wanted <= g.Keys && candidate.name !in wanted
    && (forall name {:trigger Needed(g, candidate, name)} :: name in wanted || name in queue ==>
          Needed(g, candidate, name))
    && (forall d <- candidate.dependencies :: d in wanted || d in queue)
    && (forall a, b :: a in wanted && Edge(g, a, b) ==> b in wanted || b in queue)
  }

  lemma CollectingStarts(g: map<string, seq<string>>, candidate: F.Formula)
    ensures Collecting(g, candidate, {}, candidate.dependencies)
  {
    forall d | d in candidate.dependencies
      ensures Needed(g, candidate, d)
    {
      assert Reaches(g, d, d);
    }
  }

  lemma CollectingTakes(g: map<string, seq<string>>, candidate: F.Formula, wanted: set<string>, queue: seq<string>)
    requires Collecting(g, candidate, wanted, queue) && queue != [] && queue[0] in g && queue[0] != candidate.name
    ensures Collecting(g, candidate, wanted + {queue[0]}, queue[1..] + g[queue[0]])
  {
    var name := queue[0];
    assert queue == [name] + queue[1..];
    assert Needed(g, candidate, name);
    forall d | d in g[name]
      ensures Needed(g, candidate, d)
    {
      var r :| r in candidate.dependencies && Reaches(g, r, name);
      assert Edge(g, name, d);
      assert Reaches(g, name, d);
      ReachesTransitive(g, r, name, d);
    }
  }

  lemma CollectingSkips(g: map<string, seq<string>>, candidate: F.Formula, wanted: set<string>, queue: seq<string>)
    requires Collecting(g, candidate, wanted, queue) && queue != [] && queue[0] in wanted
    ensures Collecting(g, candidate, wanted, queue[1..])
  {
    assert queue == [queue[0]] + queue[1..];
  }

  lemma CollectingEnds(g: map<string, seq<string>>, candidate: F.Formula, wanted: set<string>)
    requires Collecting(g, candidate, wanted, [])
    ensures forall name {:trigger Needed(g, candidate, name)} :: Needed(g, candidate, name) <==> name in wanted
  {
    assert ClosedUnder(g, wanted);
    forall name | Needed(g, candidate, name)
      ensures name in wanted
    {
      var r :| r in candidate.dependencies && Reaches(g, r, name);
    }
  }

  method IndexByName(candidates: seq<F.Formula>) returns (known: map<string, F.Formula>)
    ensures known == F.Index(candidates)
  {
    known := map[];
    for i := 0 to |candidates|
      invariant known == F.Index(candidates[..i])
    {
      assert candidates[..i + 1][..i] == candidates[..i];
      known := known[candidates[i].name := candidates[i]];
    }
    assert candidates[..|candidates|] == candidates;
  }

  /** The worklist computes exactly the transitive set, or finds that there is none to compute. */
  method TransitiveDependencies(candidate: F.Formula, candidates: seq<F.Formula>) returns (r: Option<set<string>>)
    ensures r.Some? <==> ClosureWithin(candidate, candidates)
    ensures r.Some? ==> forall name {:trigger Needed(F.NameGraph(candidates), candidate, name)} ::
      Needed(F.NameGraph(candidates), candidate, name) <==> name in r.value
  {
    var known := IndexByName(candidates);
    ghost var g := F.NameGraph(candidates);
    var wanted: set<string> := {};
    var queue := candidate.dependencies;
    CollectingStarts(g, candidate);
    while |queue| > 0
      invariant Collecting(g, candidate, wanted, queue)
      decreases known.Keys - wanted, |queue|
    {
      var name := queue[0];
      if name in wanted {
        CollectingSkips(g, candidate, wanted, queue);
        queue := queue[1..];
      } else {
        if name !in known || name == candidate.name {
          assert Needed(g, candidate, name);
          return None;
        }
        CollectingTakes(g, candidate, wanted, queue);
        wanted := wanted + {name};
        queue := queue[1..] + known[name].dependencies;
      }
    }
    assert queue == [];
    CollectingEnds(g, candidate, wanted);
    return Some(wanted);
  }

  // ---- The recorded list ----

  predicate WellRecorded(d: Recorded) {
    d.version != "" && d.revision >= 0 && ValidFormulaName(d.name)
  }

  function RecordedNames(ds: seq<Recorded>): (names: seq<string>)
    ensures |names| == |ds| && forall i :: 0 <= i < |ds| ==> names[i] == ds[i].name
  {
    seq(|ds|, i requires 0 <= i < |ds| => ds[i].name)
  }

  /** Direct dependencies ⊆ recorded ⊆ transitive, each recorded once and well formed. */
  ghost predicate Reconciles(tab: Tab, candidate: F.Formula, candidates: seq<F.Formula>) {
    && (candidate.bottleTag == "all" || tab.arch == "arm64") && |tab.dependencies| <= MAX_RECORDED
    && ClosureWithin(candidate, candidates)
    && Sandwiched(tab, candidate, F.NameGraph(candidates))
  }

  ghost predicate Sandwiched(tab: Tab, candidate: F.Formula, g: map<string, seq<string>>) {
    && Distinct(RecordedNames(tab.dependencies))
    && (forall d <- tab.dependencies :: WellRecorded(d) && Needed(g, candidate, d.name))
    && (forall name <- candidate.dependencies :: name in RecordedNames(tab.dependencies))
  }

  /** The two passes over the recorded list. */
  method CheckRecorded(tab: Tab, candidate: F.Formula, wanted: set<string>, ghost g: map<string, seq<string>>)
      returns (v: Verdict)
    requires forall name {:trigger Needed(g, candidate, name)} :: Needed(g, candidate, name) <==> name in wanted
    ensures v == Accepted <==> Sandwiched(tab, candidate, g)
    ensures v == Accepted || v == GraphDiffers || v == OmitsDirect
  {
    ghost var names := RecordedNames(tab.dependencies);
    var seen: set<string> := {};
    for i := 0 to |tab.dependencies|
      invariant seen == Elements(names[..i])
      invariant Distinct(names[..i])
      invariant forall d <- tab.dependencies[..i] :: WellRecorded(d) && d.name in wanted
    {
      var d := tab.dependencies[i];
      assert d in tab.dependencies && names[i] == d.name;
      assert Needed(g, candidate, d.name) <==> d.name in wanted;
      if d.name !in wanted || d.name in seen || d.version == "" || d.revision < 0 || !ValidFormulaName(d.name) {
        if d.name in seen {
          ghost var j :| 0 <= j < i && names[..i][j] == d.name;
          assert names[j] == names[i];
        }
        return GraphDiffers;
      }
      assert names[..i + 1] == names[..i] + [d.name];
      seen := seen + {d.name};
    }
    assert names[..|names|] == names;
    assert tab.dependencies[..|tab.dependencies|] == tab.dependencies;
    for i := 0 to |candidate.dependencies|
      invariant forall name <- candidate.dependencies[..i] :: name in seen
    {
      var name := candidate.dependencies[i];
      if name !in seen {
        assert name in candidate.dependencies && name !in names;
        return OmitsDirect;
      }
    }
    assert candidate.dependencies[..|candidate.dependencies|] == candidate.dependencies;
    forall d | d in tab.dependencies
      ensures Needed(g, candidate, d.name)
    {
      assert d.name in wanted;
    }
    return Accepted;
  }

  /** The whole check accepts exactly the tabs that reconcile with the closure. */
  method ValidateTab(tab: Tab, candidate: F.Formula, candidates: seq<F.Formula>) returns (v: Verdict)
    ensures v == Accepted <==> Reconciles(tab, candidate, candidates)
    ensures v == InvalidClosure ==> !ClosureWithin(candidate, candidates)
  {
    var supportedArchitecture := candidate.bottleTag == "all" || tab.arch == "arm64";
    if !supportedArchitecture || |tab.dependencies| > MAX_RECORDED {
      return InvalidTab;
    }
    var wanted := TransitiveDependencies(candidate, candidates);
    if wanted.None? {
      return InvalidClosure;
    }
    v := CheckRecorded(tab, candidate, wanted.value, F.NameGraph(candidates));
  }

  /** On candidates the metadata parse accepted, the closure is always there: no bottle is refused for lack of one. */
  lemma AcceptedClosureIsWithin(doc: M.Document, targets: seq<string>, candidates: seq<F.Formula>, candidate: F.Formula)
    requires M.Acceptable(doc, targets)
    requires F.SortedByName(candidates) && forall f :: f in candidates <==> f in doc.formulae
    requires candidate in candidates
    ensures ClosureWithin(candidate, candidates)
  {
    F.SortedIsDistinct(candidates);
    F.SameFormulaeSameGraph(candidates, doc.formulae);
    F.IndexFinds(candidates, candidate);
    var g := F.NameGraph(candidates);
    forall name | Needed(g, candidate, name)
      ensures name in g && name != candidate.name
    {
      var r :| r in candidate.dependencies && Reaches(g, r, name);
      assert Edge(g, candidate.name, r);
      assert ClosedUnder(g, g.Keys);
      assert name == candidate.name ==> OnCycle(g, candidate.name);
    }
  }
}
