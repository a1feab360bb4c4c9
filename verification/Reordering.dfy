/**
 The outcome of an evaluation is a function of what is in the lists, not of the
 order in which they are given.
 */
module Reordering {
  import opened Domain
  import opened Graph
  import opened PolicyGraph
  import opened Evaluation
  import opened Eligibility

  predicate SameNode(n: Node, m: Node) {
    && n.artifact == m.artifact
    && multiset(n.dependencies) == multiset(m.dependencies)
    && multiset(n.evidence) == multiset(m.evidence)
  }

  predicate HasTwin(n: Node, ms: seq<Node>) {
    exists m <- ms :: SameNode(n, m)
  }

  predicate Twinned(ns: seq<Node>, ms: seq<Node>) {
    forall n {:trigger HasTwin(n, ms)} :: n in ns ==> HasTwin(n, ms)
  }

  /** Equally many nodes, each with a counterpart that differs only in the order of its own lists. */
  predicate Rearranged(ns: seq<Node>, ms: seq<Node>) {
    |ns| == |ms| && Twinned(ns, ms) && Twinned(ms, ns)
  }

  lemma Twin(ns: seq<Node>, ms: seq<Node>, n: Node) returns (m: Node)
    requires Twinned(ns, ms) && n in ns
    ensures m in ms && SameNode(n, m)
  {
    assert HasTwin(n, ms);
    m :| m in ms && SameNode(n, m);
  }

  predicate SameException(x: Option<AgeException>, y: Option<AgeException>) {
    && x.Some? == y.Some?
    && (x.Some? ==>
          && x.value.(waivers := []) == y.value.(waivers := [])
          && multiset(x.value.waivers) == multiset(y.value.waivers))
  }

  predicate SameUpToOrder(a: Assessment, b: Assessment) {
    && a.policy == b.policy && a.binding == b.binding && a.now == b.now
    && multiset(a.targets) == multiset(b.targets)
    && Rearranged(a.nodes, b.nodes)
    && SameException(a.exception, b.exception)
  }

  lemma SameUpToOrderSymmetric(a: Assessment, b: Assessment)
    requires SameUpToOrder(a, b)
    ensures SameUpToOrder(b, a)
  {
  }

  // ---- Lists as multisets ----

  lemma SameMembers<T>(s: seq<T>, t: seq<T>)
    requires multiset(s) == multiset(t)
    ensures |s| == |t| && forall x :: x in s <==> x in t
  {
    assert |multiset(s)| == |s| && |multiset(t)| == |t|;
    forall x
      ensures x in s <==> x in t
    {
      assert x in s <==> x in multiset(s);
      assert x in t <==> x in multiset(t);
    }
  }

  lemma CountOnce<T>(s: seq<T>, i: nat)
    requires i < |s|
    ensures multiset(s)[s[i]] == 1 <==> forall j :: 0 <= j < |s| && j != i ==> s[j] != s[i]
  {
    var before, after := s[..i], s[i + 1..];
    assert s == before + [s[i]] + after;
    assert multiset(s) == multiset(before) + multiset{s[i]} + multiset(after);
    assert multiset(s)[s[i]] == 1 <==> s[i] !in before && s[i] !in after;
    if s[i] in before {
      var j :| 0 <= j < i && before[j] == s[i];
      assert s[j] == s[i];
    }
    if s[i] in after {
      var j :| 0 <= j < |after| && after[j] == s[i];
      assert s[j + i + 1] == s[i];
    }
    if s[i] !in before && s[i] !in after {
      forall j | 0 <= j < |s| && j != i
        ensures s[j] != s[i]
      {
        assert if j < i then s[j] == before[j] else s[j] == after[j - i - 1];
      }
    }
  }

  lemma DistinctIsCountedOnce<T(!new)>(s: seq<T>)
    ensures Distinct(s) <==> forall x <- s :: multiset(s)[x] == 1
  {
    if Distinct(s) {
      forall x | x in s
        ensures multiset(s)[x] == 1
      {
        var i :| 0 <= i < |s| && s[i] == x;
        CountOnce(s, i);
      }
    }
    if forall x <- s :: multiset(s)[x] == 1 {
      forall i, j | 0 <= i < j < |s|
        ensures s[i] != s[j]
      {
        CountOnce(s, i);
      }
    }
  }

  lemma DistinctByMembers<T(!new)>(s: seq<T>, t: seq<T>)
    requires multiset(s) == multiset(t)
    ensures Distinct(s) <==> Distinct(t)
  {
    DistinctIsCountedOnce(s);
    DistinctIsCountedOnce(t);
    SameMembers(s, t);
  }

  lemma {:induction false} SizeBelowLength<T(!new)>(s: seq<T>)
    ensures |Elements(s)| <= |s|
    ensures |Elements(s)| == |s| ==> Distinct(s)
  {
    if s != [] {
      var init, last := s[..|s| - 1], s[|s| - 1];
      SizeBelowLength(init);
      assert Elements(s) == Elements(init) + {last};
    }
  }

  // ---- Graphs with the same edges ----

  ghost predicate SameEdges<K(!new)>(g: map<K, seq<K>>, h: map<K, seq<K>>) {
    g.Keys == h.Keys && forall k <- g :: multiset(g[k]) == multiset(h[k])
  }

  lemma SameEdge<K(!new)>(g: map<K, seq<K>>, h: map<K, seq<K>>, a: K, b: K)
    requires SameEdges(g, h)
    ensures Edge(g, a, b) <==> Edge(h, a, b)
  {
    if a in g {
      SameMembers(g[a], h[a]);
    }
  }

  lemma SameClosed<K(!new)>(g: map<K, seq<K>>, h: map<K, seq<K>>, s: set<K>)
    requires SameEdges(g, h)
    ensures ClosedUnder(g, s) <==> ClosedUnder(h, s)
  {
    forall a, b
      ensures Edge(g, a, b) <==> Edge(h, a, b)
    {
      SameEdge(g, h, a, b);
    }
  }

  lemma SameReach<K(!new)>(g: map<K, seq<K>>, h: map<K, seq<K>>, a: K, b: K)
    requires SameEdges(g, h) && Reaches(g, a, b)
    ensures Reaches(h, a, b)
  {
    forall s: set<K> | a in s && ClosedUnder(h, s)
      ensures b in s
    {
      SameClosed(g, h, s);
    }
  }

  lemma SameCycle<K(!new)>(g: map<K, seq<K>>, h: map<K, seq<K>>, k: K)
    requires SameEdges(g, h) && OnCycle(g, k)
    ensures OnCycle(h, k)
  {
    var d :| Edge(g, k, d) && Reaches(g, d, k);
    SameEdge(g, h, k, d);
    SameReach(g, h, d, k);
  }

  lemma SameSoundness<K(!new)>(g: map<K, seq<K>>, h: map<K, seq<K>>)
    requires SameEdges(g, h) && Sound(g)
    ensures Sound(h)
  {
    SameClosed(g, h, g.Keys);
    forall k
      ensures !OnCycle(h, k)
    {
      if OnCycle(h, k) { SameCycle(h, g, k); }
    }
    forall k | k in h
      ensures Distinct(h[k])
    {
      DistinctByMembers(g[k], h[k]);
    }
  }

  lemma SameClosure<K(!new)>(g: map<K, seq<K>>, h: map<K, seq<K>>, roots: seq<K>, starts: seq<K>)
    requires SameEdges(g, h) && multiset(roots) == multiset(starts) && RootedClosure(g, roots)
    ensures RootedClosure(h, starts)
  {
    SameSoundness(g, h);
    DistinctByMembers(roots, starts);
    SameMembers(roots, starts);
    forall k | k in h
      ensures ReachedFrom(h, starts, k)
    {
      assert ReachedFrom(g, roots, k);
      var r :| r in roots && Reaches(g, r, k);
      SameReach(g, h, r, k);
    }
  }

  // ---- Rearranged plans ----

  ghost function Names(nodes: seq<Node>): seq<string> {
    seq(|nodes|, i requires 0 <= i < |nodes| => nodes[i].artifact.name)
  }

  lemma NamesAreElements(nodes: seq<Node>)
    ensures forall x :: x in Names(nodes) <==> exists n <- nodes :: n.artifact.name == x
  {
    forall x | x in Names(nodes)
      ensures exists n <- nodes :: n.artifact.name == x
    {
      var i :| 0 <= i < |nodes| && Names(nodes)[i] == x;
      assert nodes[i] in nodes;
    }
    forall n | n in nodes
      ensures n.artifact.name in Names(nodes)
    {
      var i :| 0 <= i < |nodes| && nodes[i] == n;
      assert Names(nodes)[i] == n.artifact.name;
    }
  }

  lemma TwinNames(ns: seq<Node>, ms: seq<Node>)
    requires Twinned(ns, ms)
    ensures Elements(Names(ns)) <= Elements(Names(ms))
  {
    NamesAreElements(ns);
    NamesAreElements(ms);
    forall x | x in Names(ns)
      ensures x in Names(ms)
    {
      var n :| n in ns && n.artifact.name == x;
      var m := Twin(ns, ms, n);
    }
  }

  lemma NamesDistinct(nodes: seq<Node>)
    ensures Distinct(Names(nodes)) <==> DistinctNames(nodes)
  {
    assert forall i :: 0 <= i < |nodes| ==> Names(nodes)[i] == nodes[i].artifact.name;
  }

  lemma RearrangedNames(ns: seq<Node>, ms: seq<Node>)
    requires Rearranged(ns, ms) && DistinctNames(ns)
    ensures DistinctNames(ms)
  {
    TwinNames(ns, ms);
    TwinNames(ms, ns);
    NamesDistinct(ns);
    NamesDistinct(ms);
    DistinctSize(Names(ns));
    SizeBelowLength(Names(ms));
    assert Elements(Names(ns)) == Elements(Names(ms));
  }

  lemma RearrangedNodes(ns: seq<Node>, ms: seq<Node>)
    requires Rearranged(ns, ms) && AdmissibleNodes(ns)
    ensures AdmissibleNodes(ms)
  {
    RearrangedNames(ns, ms);
    forall m | m in ms
      ensures m.artifact.Valid() && |m.evidence| <= MAX_EVIDENCE
    {
      var n := Twin(ms, ns, m);
      SameMembers(n.evidence, m.evidence);
    }
  }

  lemma TwinGraph(ns: seq<Node>, ms: seq<Node>, a: Artifact)
    requires Twinned(ns, ms) && DistinctNames(ns) && DistinctNames(ms) && a in DependencyGraph(ns)
    ensures a in DependencyGraph(ms) && multiset(DependencyGraph(ns)[a]) == multiset(DependencyGraph(ms)[a])
  {
    IndexNodesKeys(ns);
    var m := Twin(ns, ms, IndexNodes(ns)[a]);
    IndexFindsNode(ms, m);
  }

  lemma RearrangedGraph(ns: seq<Node>, ms: seq<Node>)
    requires Rearranged(ns, ms) && DistinctNames(ns) && DistinctNames(ms)
    ensures SameEdges(DependencyGraph(ns), DependencyGraph(ms))
  {
    var g, h := DependencyGraph(ns), DependencyGraph(ms);
    forall a | a in g
      ensures a in h && multiset(g[a]) == multiset(h[a])
    {
      TwinGraph(ns, ms, a);
    }
    forall a | a in h
      ensures a in g
    {
      TwinGraph(ms, ns, a);
    }
  }

  /** The graph check does not depend on the order of targets, nodes or dependencies. */
  lemma GraphIgnoresOrder(ts: seq<Artifact>, ns: seq<Node>, us: seq<Artifact>, ms: seq<Node>)
    requires multiset(ts) == multiset(us) && Rearranged(ns, ms) && WellFormedGraph(ts, ns)
    ensures WellFormedGraph(us, ms)
  {
    RearrangedNodes(ns, ms);
    RearrangedGraph(ns, ms);
    SameMembers(ts, us);
    SameClosure(DependencyGraph(ns), DependencyGraph(ms), ts, us);
  }

  lemma ClaimIgnoresOrder(n: Node, m: Node, c: Byte, policy: Policy, now: int, w: bool)
    requires SameNode(n, m) && ClaimEstablished(n, c, policy, now, w)
    ensures ClaimEstablished(m, c, policy, now, w)
  {
    SameMembers(n.evidence, m.evidence);
    var i :| 0 <= i < |n.evidence| && OnlyOne(n.evidence, i) && Establishes(n.evidence[i], c, policy, now, w);
    var e := n.evidence[i];
    CountOnce(n.evidence, i);
    var j :| 0 <= j < |m.evidence| && m.evidence[j] == e;
    CountOnce(m.evidence, j);
    forall k | 0 <= k < |m.evidence| && k != j
      ensures m.evidence[k].claim != e.claim
    {
      assert m.evidence[k] in n.evidence && m.evidence[k] != e;
    }
    assert OnlyOne(m.evidence, j);
  }

  lemma NodeIgnoresOrder(n: Node, m: Node, policy: Policy, now: int, waivers: set<Artifact>)
    requires SameNode(n, m) && NodeEligible(n, policy, now, waivers)
    ensures NodeEligible(m, policy, now, waivers)
  {
    SameMembers(n.evidence, m.evidence);
    forall c: Byte | METADATA <= c <= VULNERABILITIES
      ensures ClaimEstablished(m, c, policy, now, m.artifact in waivers)
    {
      ClaimIgnoresOrder(n, m, c, policy, now, n.artifact in waivers);
    }
  }

  lemma DistinctWaiversByMembers(ws: seq<AgeWaiver>, vs: seq<AgeWaiver>)
    requires multiset(ws) == multiset(vs) && DistinctWaivers(ws)
    ensures DistinctWaivers(vs)
  {
    SameMembers(ws, vs);
    forall i, j | 0 <= i < j < |vs|
      ensures vs[i].artifact != vs[j].artifact
    {
      assert Distinct(vs) by { DistinctByMembers(ws, vs); assert Distinct(ws); }
      assert vs[i] in ws && vs[j] in ws;
      var p :| 0 <= p < |ws| && ws[p] == vs[i];
      var q :| 0 <= q < |ws| && ws[q] == vs[j];
      assert p < q || q < p;
    }
  }

  lemma ExceptionIgnoresOrder(a: Assessment, b: Assessment)
    requires SameUpToOrder(a, b) && ExceptionAcceptable(a)
    ensures ExceptionAcceptable(b) && WaiversOf(a) == WaiversOf(b)
  {
    if a.exception.Some? {
      var ws, vs := a.exception.value.waivers, b.exception.value.waivers;
      SameMembers(ws, vs);
      DistinctWaiversByMembers(ws, vs);
      forall w | w in vs
        ensures ValidAgeReason(w.reason) && InPlan(b.nodes, w.artifact)
      {
        var n :| n in a.nodes && n.artifact == w.artifact;
        var m := Twin(a.nodes, b.nodes, n);
      }
    }
  }

  lemma AdmissibleIgnoresOrder(a: Assessment, b: Assessment)
    requires SameUpToOrder(a, b) && Admissible(a)
    ensures Admissible(b)
  {
    GraphIgnoresOrder(a.targets, a.nodes, b.targets, b.nodes);
    ExceptionIgnoresOrder(a, b);
  }

  lemma EligibleIgnoresOrder(a: Assessment, b: Assessment)
    requires SameUpToOrder(a, b) && Eligible(a)
    ensures Eligible(b)
  {
    AdmissibleIgnoresOrder(a, b);
    ExceptionIgnoresOrder(a, b);
    forall m | m in b.nodes
      ensures NodeEligible(m, b.policy, b.now, WaiversOf(b))
    {
      var n := Twin(b.nodes, a.nodes, m);
      NodeIgnoresOrder(n, m, a.policy, a.now, WaiversOf(a));
    }
  }

  lemma CondemnedIgnoresOrder(ns: seq<Node>, ms: seq<Node>, now: int)
    requires Rearranged(ns, ms) && Condemned(ns, now)
    ensures Condemned(ms, now)
  {
    var n :| n in ns && exists e <- n.evidence :: Damning(n.artifact, e, now);
    var e :| e in n.evidence && Damning(n.artifact, e, now);
    var m := Twin(ns, ms, n);
    SameMembers(n.evidence, m.evidence);
    assert e in m.evidence;
  }

  lemma DeclaredIgnoresOrder(a: Assessment, b: Assessment)
    requires SameUpToOrder(a, b)
    ensures Eligible(a) ==> Eligible(b)
    ensures Admissible(a) && Condemned(a.nodes, a.now) ==> Admissible(b) && Condemned(b.nodes, b.now)
  {
    if Eligible(a) {
      EligibleIgnoresOrder(a, b);
    }
    if Admissible(a) && Condemned(a.nodes, a.now) {
      AdmissibleIgnoresOrder(a, b);
      CondemnedIgnoresOrder(a.nodes, b.nodes, a.now);
    }
  }

  /** Permuting targets, nodes, their dependencies and evidence, or waivers never changes the outcome. */
  lemma OutcomeIgnoresOrder(a: Assessment, b: Assessment)
    requires SameUpToOrder(a, b)
    ensures Decide(a).outcome == Decide(b).outcome
  {
    SameUpToOrderSymmetric(a, b);
    DeclaredIgnoresOrder(a, b);
    DeclaredIgnoresOrder(b, a);
    OutcomeIsDeclared(a);
    OutcomeIsDeclared(b);
  }
}
