/**
 Directed graphs given by successor lists, the theory every dependency search
 of the program rests on: reachability, cycles, and the bookkeeping of a
 white/grey/black depth-first search.

 A graph is a map from a vertex to the list of its successors. A vertex that is
 not a key has no outgoing edge; whether that is an error is up to the search.
 */
module Graph {

  ghost predicate Edge<K(!new)>(g: map<K, seq<K>>, a: K, b: K) {
    a in g && b in g[a]
  }

  /** A set of vertices that no edge leaves. */
  ghost predicate ClosedUnder<K(!new)>(g: map<K, seq<K>>, s: set<K>) {
    forall a, b :: a in s && Edge(g, a, b) ==> b in s
  }

  /** b belongs to every closed set that contains a; ReachesByPath gives the reading by paths. */
  ghost predicate Reaches<K(!new)>(g: map<K, seq<K>>, a: K, b: K) {
    forall s: set<K> {:trigger ClosedUnder(g, s)} :: a in s && ClosedUnder(g, s) ==> b in s
  }

  /** Some root reaches k. */
  ghost predicate ReachedFrom<K(!new)>(g: map<K, seq<K>>, roots: seq<K>, k: K) {
    exists r :: r in roots && Reaches(g, r, k)
  }

  /** k lies on a cycle: at least one edge leads from k back to k. */
  ghost predicate OnCycle<K(!new)>(g: map<K, seq<K>>, k: K) {
    exists d :: Edge(g, k, d) && Reaches(g, d, k)
  }

  ghost predicate Acyclic<K(!new)>(g: map<K, seq<K>>) {
    forall k :: !OnCycle(g, k)
  }

  ghost predicate Distinct<K(!new)>(s: seq<K>) {
    forall i, j :: 0 <= i < j < |s| ==> s[i] != s[j]
  }

  ghost function Elements<K(!new)>(s: seq<K>): set<K> {
    set k | k in s
  }

  /** A list walked from the front, its elements so far gathered in a set. */
  lemma DistinctExtends<K(!new)>(s: seq<K>, i: nat)
    requires i < |s| && Distinct(s[..i])
    ensures Elements(s[..i + 1]) == Elements(s[..i]) + {s[i]}
    ensures Distinct(s[..i + 1]) <==> s[i] !in Elements(s[..i])
    ensures s[i] in Elements(s[..i]) ==> !Distinct(s)
  {
    var longer := s[..i + 1];
    assert longer == s[..i] + [s[i]];
    if s[i] in Elements(s[..i]) {
      var j :| 0 <= j < i && s[..i][j] == s[i];
      assert longer[j] == longer[i] && s[j] == s[i];
    }
  }

  /** Every vertex the graph mentions, as a key or as a successor. */
  ghost function Vertices<K(!new)>(g: map<K, seq<K>>): set<K> {
    g.Keys + set k, d | k in g && d in g[k] :: d
  }

  /** Every successor is itself a key. */
  ghost predicate ClosedKeys<K(!new)>(g: map<K, seq<K>>) {
    ClosedUnder(g, g.Keys)
  }

  /** No vertex lists a successor twice. */
  ghost predicate DistinctSuccessors<K(!new)>(g: map<K, seq<K>>) {
    forall k <- g :: Distinct(g[k])
  }

  /** A graph a strict search finishes without complaint. */
  ghost predicate Sound<K(!new)>(g: map<K, seq<K>>) {
    ClosedKeys(g) && Acyclic(g) && DistinctSuccessors(g)
  }

  /** Every key is reached from a root. */
  ghost predicate Covered<K(!new)>(g: map<K, seq<K>>, roots: seq<K>) {
    forall k {:trigger ReachedFrom(g, roots, k)} :: k in g ==> ReachedFrom(g, roots, k)
  }

  /** A complete closure of its roots: sound, rooted in keys, and with nothing unreachable in it. */
  ghost predicate RootedClosure<K(!new)>(g: map<K, seq<K>>, roots: seq<K>) {
    && Sound(g)
    && Distinct(roots)
    && (forall r <- roots :: r in g)
    && Covered(g, roots)
  }

  // ---- Reachability ----

  lemma ReachesTransitive<K(!new)>(g: map<K, seq<K>>, a: K, b: K, c: K)
    requires Reaches(g, a, b) && Reaches(g, b, c)
    ensures Reaches(g, a, c)
  {
  }

  lemma ReachesStep<K(!new)>(g: map<K, seq<K>>, a: K, b: K, c: K)
    requires Edge(g, a, b) && Reaches(g, b, c)
    ensures Reaches(g, a, c)
  {
  }

  ghost predicate IsPath<K(!new)>(g: map<K, seq<K>>, p: seq<K>, a: K, b: K) {
    && p != [] && p[0] == a && p[|p| - 1] == b
    && forall i, j :: 0 <= i < j < |p| && j == i + 1 ==> Edge(g, p[i], p[j])
  }

  lemma {:induction false} PathStaysInside<K(!new)>(g: map<K, seq<K>>, p: seq<K>, a: K, b: K, s: set<K>)
    requires IsPath(g, p, a, b) && a in s && ClosedUnder(g, s)
    ensures b in s
    decreases |p|
  {
    if |p| > 1 {
      assert Edge(g, p[0], p[1]);
      PathStaysInside(g, p[1..], p[1], b, s);
    }
  }

  /** Reachability is the existence of a path. */
  lemma ReachesByPath<K(!new)>(g: map<K, seq<K>>, a: K, b: K)
    ensures Reaches(g, a, b) <==> exists p :: IsPath(g, p, a, b)
  {
    if p :| IsPath(g, p, a, b) {
      forall s: set<K> | a in s && ClosedUnder(g, s)
        ensures b in s
      {
        PathStaysInside(g, p, a, b, s);
      }
    }
    if Reaches(g, a, b) {
      var s := set x | x in Vertices(g) + {a} && exists p :: IsPath(g, p, a, x);
      assert IsPath(g, [a], a, a);
      forall x, y | x in s && Edge(g, x, y)
        ensures y in s
      {
        var p :| IsPath(g, p, a, x);
        assert IsPath(g, p + [y], a, y);
      }
      assert ClosedUnder(g, s);
    }
  }

  // ---- Topological order ----

  /** Every successor of a listed vertex stands strictly before it. */
  ghost predicate Topological<K(!new)>(g: map<K, seq<K>>, order: seq<K>) {
    && Distinct(order)
    && forall i, d :: 0 <= i < |order| && Edge(g, order[i], d) ==> d in order[..i]
  }

  /** Each prefix of a topological order is closed. */
  lemma TopologicalPrefixClosed<K(!new)>(g: map<K, seq<K>>, order: seq<K>, n: nat)
    requires Topological(g, order) && n <= |order|
    ensures ClosedUnder(g, Elements(order[..n]))
  {
    forall a, b | a in Elements(order[..n]) && Edge(g, a, b)
      ensures b in Elements(order[..n])
    {
      var i :| 0 <= i < n && order[i] == a;
      assert b in order[..i];
    }
  }

  /** A topological order of all keys rules out every cycle. */
  lemma TopologicalIsAcyclic<K(!new)>(g: map<K, seq<K>>, order: seq<K>)
    requires Topological(g, order) && (forall k <- g :: k in order)
    ensures Acyclic(g)
  {
    forall k
      ensures !OnCycle(g, k)
    {
      if OnCycle(g, k) {
        var d :| Edge(g, k, d) && Reaches(g, d, k);
        var i :| 0 <= i < |order| && order[i] == k;
        TopologicalPrefixClosed(g, order, i);
        assert false;
      }
    }
  }

  // ---- Depth-first search bookkeeping ----

  /** The two marks a search writes; a vertex without a mark is unseen. */
  datatype Mark = Visiting | Visited

  /** Consecutive open vertices are joined by edges. */
  ghost predicate Chain<K(!new)>(g: map<K, seq<K>>, stack: seq<K>) {
    forall i, j :: 0 <= i < j < |stack| && j == i + 1 ==> Edge(g, stack[i], stack[j])
  }

  /**
   The invariant of the search: the vertices being visited form a chain, and the
   visited ones, in the order they were finished, are topologically sorted.
   */
  ghost predicate SearchInvariant<K(!new)>(
    g: map<K, seq<K>>, marks: map<K, Mark>, stack: seq<K>, finished: seq<K>)
  {
    && (forall k :: k in stack <==> k in marks && marks[k].Visiting?)
    && (forall k :: k in finished <==> k in marks && marks[k].Visited?)
    && Chain(g, stack)
    && Topological(g, finished)
  }

  /** k may be visited next: it is a root, or a successor of the innermost open vertex. */
  ghost predicate MayVisit<K(!new)>(g: map<K, seq<K>>, stack: seq<K>, k: K) {
    stack == [] || Edge(g, stack[|stack| - 1], k)
  }

  lemma SearchOpens<K(!new)>(
    g: map<K, seq<K>>, marks: map<K, Mark>, stack: seq<K>, finished: seq<K>, k: K)
    requires SearchInvariant(g, marks, stack, finished) && MayVisit(g, stack, k) && k !in marks
    ensures SearchInvariant(g, marks[k := Visiting], stack + [k], finished)
  {
    var after := stack + [k];
    assert forall x :: x in after <==> x in stack || x == k;
    assert k !in finished;
  }

  lemma SearchCloses<K(!new)>(
    g: map<K, seq<K>>, marks: map<K, Mark>, stack: seq<K>, finished: seq<K>, k: K)
    requires SearchInvariant(g, marks, stack + [k], finished)
    requires k !in stack
    requires forall d :: Edge(g, k, d) ==> d in finished
    ensures SearchInvariant(g, marks[k := Visited], stack, finished + [k])
  {
    var open, after := stack + [k], finished + [k];
    assert forall x :: x in open <==> x in stack || x == k;
    assert forall x :: x in after <==> x in finished || x == k;
    assert k in open;
    assert k !in finished;
    forall i, d | 0 <= i < |after| && Edge(g, after[i], d)
      ensures d in after[..i]
    {
      assert after[..i] == if i < |finished| then finished[..i] else finished;
    }
    assert Chain(g, stack) by {
      assert forall i :: 0 <= i < |stack| ==> open[i] == stack[i];
    }
  }

  lemma {:induction false} ChainReaches<K(!new)>(g: map<K, seq<K>>, stack: seq<K>, i: nat, j: nat)
    requires Chain(g, stack) && i <= j < |stack|
    ensures Reaches(g, stack[i], stack[j])
    decreases j - i
  {
    if i < j {
      ChainReaches(g, stack, i + 1, j);
      ReachesStep(g, stack[i], stack[i + 1], stack[j]);
    }
  }

  /** Meeting an open vertex again exhibits a cycle through it. */
  lemma SearchMeetsOpen<K(!new)>(g: map<K, seq<K>>, stack: seq<K>, k: K)
    requires Chain(g, stack) && MayVisit(g, stack, k) && k in stack
    ensures OnCycle(g, k)
  {
    var i :| 0 <= i < |stack| && stack[i] == k;
    var last := |stack| - 1;
    if i < last {
      ChainReaches(g, stack, i + 1, last);
      assert Reaches(g, k, k);
      ReachesStep(g, stack[last], k, k);
      ReachesTransitive(g, stack[i + 1], stack[last], k);
      assert Edge(g, k, stack[i + 1]);
    } else {
      assert Reaches(g, k, k);
    }
  }

  /** Everything finished between two moments of the search is reachable from a. */
  ghost predicate FinishedBelow<K(!new)>(g: map<K, seq<K>>, before: seq<K>, after: seq<K>, a: K) {
    && before <= after
    && forall x {:trigger Reaches(g, a, x)} :: x in after ==> x in before || Reaches(g, a, x)
  }

  lemma FinishedThroughEdge<K(!new)>(g: map<K, seq<K>>, s0: seq<K>, s1: seq<K>, s2: seq<K>, a: K, d: K)
    requires FinishedBelow(g, s0, s1, a) && Edge(g, a, d) && FinishedBelow(g, s1, s2, d)
    ensures FinishedBelow(g, s0, s2, a)
  {
    forall x | x in s2
      ensures x in s0 || Reaches(g, a, x)
    {
      if x !in s1 {
        ReachesStep(g, a, d, x);
      }
    }
  }

  ghost predicate AllReachedFrom<K(!new)>(g: map<K, seq<K>>, roots: seq<K>, ks: seq<K>) {
    forall k {:trigger ReachedFrom(g, roots, k)} :: k in ks ==> ReachedFrom(g, roots, k)
  }

  /** These roots, all different, were visited, and nothing but what they reach was finished. */
  ghost predicate RootsVisited<K(!new)>(g: map<K, seq<K>>, roots: seq<K>, finished: seq<K>) {
    && Distinct(roots)
    && (forall r <- roots :: r in finished)
    && AllReachedFrom(g, roots, finished)
  }

  lemma NextRootVisited<K(!new)>(g: map<K, seq<K>>, roots: seq<K>, r: K, before: seq<K>, after: seq<K>)
    requires RootsVisited(g, roots, before) && r !in roots && FinishedBelow(g, before, after, r) && r in after
    ensures RootsVisited(g, roots + [r], after)
  {
    forall k | k in after
      ensures ReachedFrom(g, roots + [r], k)
    {
      if k in before {
        assert ReachedFrom(g, roots, k);
        var q :| q in roots && Reaches(g, q, k);
        assert q in roots + [r];
      } else {
        assert r in roots + [r];
      }
    }
  }

  /** What is known once every root was visited. */
  ghost predicate SearchDone<K(!new)>(g: map<K, seq<K>>, roots: seq<K>, marks: map<K, Mark>, finished: seq<K>) {
    && SearchInvariant(g, marks, [], finished)
    && marks.Keys <= g.Keys
    && RootsVisited(g, roots, finished)
    && (forall k <- finished :: k in g && Distinct(g[k]))
  }

  lemma SearchFinishesReachable<K(!new)>(g: map<K, seq<K>>, roots: seq<K>, finished: seq<K>, k: K)
    requires Topological(g, finished) && (forall r <- roots :: r in finished) && ReachedFrom(g, roots, k)
    ensures k in finished
  {
    var r :| r in roots && Reaches(g, r, k);
    TopologicalPrefixClosed(g, finished, |finished|);
    assert finished[..|finished|] == finished;
    assert r in Elements(finished);
  }

  lemma SearchIsSound<K(!new)>(g: map<K, seq<K>>, finished: seq<K>)
    requires Topological(g, finished) && Elements(finished) == g.Keys
    requires forall k <- finished :: Distinct(g[k])
    ensures Sound(g)
  {
    TopologicalIsAcyclic(g, finished);
    TopologicalPrefixClosed(g, finished, |finished|);
    assert finished[..|finished|] == finished;
  }

  lemma SearchOfAllKeys<K(!new)>(g: map<K, seq<K>>, roots: seq<K>, marks: map<K, Mark>, finished: seq<K>)
    requires SearchDone(g, roots, marks, finished) && marks.Keys == g.Keys
    ensures RootedClosure(g, roots)
  {
    assert Elements(finished) == g.Keys;
    assert Sound(g) by { SearchIsSound(g, finished); }
    assert Covered(g, roots) by {
      assert forall k <- g :: k in finished;
    }
  }

  lemma SearchOfClosure<K(!new)>(g: map<K, seq<K>>, roots: seq<K>, marks: map<K, Mark>, finished: seq<K>)
    requires SearchDone(g, roots, marks, finished) && Covered(g, roots)
    ensures marks.Keys == g.Keys
  {
    forall k | k in g
      ensures k in marks
    {
      SearchFinishesReachable(g, roots, finished, k);
    }
  }

  /** After a full search, the marks are as many as the keys exactly when the graph is a closure of its roots. */
  lemma SearchVerdict<K(!new)>(g: map<K, seq<K>>, roots: seq<K>, marks: map<K, Mark>, finished: seq<K>)
    requires SearchDone(g, roots, marks, finished)
    ensures |marks| == |g| <==> RootedClosure(g, roots)
  {
    SameSizeSameKeys(marks, g);
    if marks.Keys == g.Keys {
      SearchOfAllKeys(g, roots, marks, finished);
    } else if RootedClosure(g, roots) {
      SearchOfClosure(g, roots, marks, finished);
    }
  }

  // ---- Sinks ----

  /** In an acyclic graph every non-empty set has a member with no edge into the set. */
  lemma {:induction false} SinkExists<K(!new)>(g: map<K, seq<K>>, s: set<K>, x: K) returns (z: K)
    requires Acyclic(g) && x in s
    ensures z in s && forall w :: Edge(g, z, w) ==> w !in s
    decreases |s|
  {
    if forall w :: Edge(g, x, w) ==> w !in s {
      return x;
    }
    var y :| Edge(g, x, y) && y in s;
    var below := set v | v in s && Reaches(g, y, v);
    assert !OnCycle(g, x);
    assert x !in below;
    SubsetSize(below, s);
    z := SinkExists(g, below, y);
    forall w | Edge(g, z, w)
      ensures w !in s
    {
      assert Reaches(g, z, w);
      ReachesTransitive(g, y, z, w);
      assert w !in below;
    }
  }

  // ---- Renaming vertices ----

  /** h is g with every vertex k renamed to f[k]. */
  ghost predicate Renaming<K(!new), L(!new)>(g: map<K, seq<K>>, h: map<L, seq<L>>, f: map<K, L>) {
    && f.Keys == g.Keys && ClosedKeys(g)
    && (forall j, k :: j in f && k in f && f[j] == f[k] ==> j == k)
    && (forall x :: x in h <==> x in f.Values)
    && (forall k <- g :: f[k] in h && Renamed(g[k], h[f[k]], f))
  }

  ghost predicate Renamed<K(!new), L(!new)>(ks: seq<K>, ls: seq<L>, f: map<K, L>) {
    && |ks| == |ls|
    && forall i :: 0 <= i < |ks| ==> ks[i] in f && ls[i] == f[ks[i]]
  }

  lemma RenamedAppend<K(!new), L(!new)>(ks: seq<K>, ls: seq<L>, f: map<K, L>, k: K)
    requires Renamed(ks, ls, f) && k in f
    ensures Renamed(ks + [k], ls + [f[k]], f)
  {
  }

  lemma RenamedDistinct<K(!new), L(!new)>(ks: seq<K>, ls: seq<L>, f: map<K, L>)
    requires Renamed(ks, ls, f) && Distinct(ks)
    requires forall j, k :: j in f && k in f && f[j] == f[k] ==> j == k
    ensures Distinct(ls)
  {
  }

  lemma RenamingKeepsEdge<K(!new), L(!new)>(g: map<K, seq<K>>, h: map<L, seq<L>>, f: map<K, L>, a: K, y: L)
      returns (b: K)
    requires Renaming(g, h, f) && a in g && Edge(h, f[a], y)
    ensures Edge(g, a, b) && b in g && f[b] == y
  {
    var i :| 0 <= i < |h[f[a]]| && h[f[a]][i] == y;
    b := g[a][i];
    assert Edge(g, a, b);
  }

  lemma RenamingEdge<K(!new), L(!new)>(g: map<K, seq<K>>, h: map<L, seq<L>>, f: map<K, L>, a: K, b: K)
    requires Renaming(g, h, f) && Edge(g, a, b)
    ensures b in g && Edge(h, f[a], f[b])
  {
    var i :| 0 <= i < |g[a]| && g[a][i] == b;
    assert h[f[a]][i] == f[b];
  }

  /** Reachability carries over to the renamed graph. */
  lemma RenamingReaches<K(!new), L(!new)>(g: map<K, seq<K>>, h: map<L, seq<L>>, f: map<K, L>, a: K, b: K)
    requires Renaming(g, h, f) && a in g && b in g && Reaches(g, a, b)
    ensures Reaches(h, f[a], f[b])
  {
    forall s: set<L> | f[a] in s && ClosedUnder(h, s)
      ensures f[b] in s
    {
      var t := set k | k in g && f[k] in s;
      forall x, y | x in t && Edge(g, x, y)
        ensures y in t
      {
        RenamingEdge(g, h, f, x, y);
      }
      assert ClosedUnder(g, t);
    }
  }

  /** Reachability in the renamed graph comes from reachability in the original. */
  lemma RenamingReachesBack<K(!new), L(!new)>(g: map<K, seq<K>>, h: map<L, seq<L>>, f: map<K, L>, a: K, b: K)
    requires Renaming(g, h, f) && a in g && b in g && Reaches(h, f[a], f[b])
    ensures Reaches(g, a, b)
  {
    forall s: set<K> | a in s && ClosedUnder(g, s)
      ensures b in s
    {
      var t := set k | k in s && k in g :: f[k];
      forall x, y | x in t && Edge(h, x, y)
        ensures y in t
      {
        var k :| k in s && k in g && f[k] == x;
        var d := RenamingKeepsEdge(g, h, f, k, y);
      }
      assert ClosedUnder(h, t);
      var k :| k in s && k in g && f[k] == f[b];
    }
  }

  lemma RenamingIsAcyclic<K(!new), L(!new)>(g: map<K, seq<K>>, h: map<L, seq<L>>, f: map<K, L>)
    requires Renaming(g, h, f) && Acyclic(g)
    ensures Acyclic(h)
  {
    forall x
      ensures !OnCycle(h, x)
    {
      if OnCycle(h, x) {
        var y :| Edge(h, x, y) && Reaches(h, y, x);
        var k :| k in f && f[k] == x;
        var d := RenamingKeepsEdge(g, h, f, k, y);
        RenamingReachesBack(g, h, f, d, k);
        assert OnCycle(g, k);
      }
    }
  }

  /** A complete closure stays one under renaming. */
  lemma RenamingClosure<K(!new), L(!new)>(
    g: map<K, seq<K>>, h: map<L, seq<L>>, f: map<K, L>, roots: seq<K>, starts: seq<L>)
    requires Renaming(g, h, f) && RootedClosure(g, roots) && Renamed(roots, starts, f)
    ensures RootedClosure(h, starts)
  {
    RenamingIsAcyclic(g, h, f);
    RenamedDistinct(roots, starts, f);
    forall x, y | x in h && Edge(h, x, y)
      ensures y in h
    {
      var k :| k in f && f[k] == x;
      var d := RenamingKeepsEdge(g, h, f, k, y);
    }
    forall x | x in h
      ensures Distinct(h[x])
    {
      var k :| k in f && f[k] == x;
      RenamedDistinct(g[k], h[x], f);
    }
    forall x | x in h
      ensures ReachedFrom(h, starts, x)
    {
      var k :| k in f && f[k] == x;
      RenamingCovers(g, h, f, roots, starts, k);
    }
  }

  lemma RenamingCovers<K(!new), L(!new)>(
    g: map<K, seq<K>>, h: map<L, seq<L>>, f: map<K, L>, roots: seq<K>, starts: seq<L>, k: K)
    requires Renaming(g, h, f) && Renamed(roots, starts, f) && k in g && Covered(g, roots)
    ensures ReachedFrom(h, starts, f[k])
  {
    assert ReachedFrom(g, roots, k);
    var r :| r in roots && Reaches(g, r, k);
    var i :| 0 <= i < |roots| && roots[i] == r;
    RenamingReaches(g, h, f, r, k);
    assert starts[i] == f[r];
  }

  // ---- Sets and sequences ----

  lemma {:induction false} DistinctSize<K(!new)>(s: seq<K>)
    requires Distinct(s)
    ensures |Elements(s)| == |s|
  {
    if s != [] {
      var last := |s| - 1;
      DistinctSize(s[..last]);
      assert s[..last + 1] == s;
      DistinctExtends(s, last);
    }
  }

  lemma SubsetSize<K>(a: set<K>, b: set<K>)
    requires a <= b
    ensures |a| <= |b|
    ensures |a| == |b| ==> a == b
  {
    assert b == a + (b - a);
    assert |b| == |a| + |b - a|;
  }

  lemma SameSizeSameKeys<K, V, W>(a: map<K, V>, b: map<K, W>)
    requires a.Keys <= b.Keys
    ensures |a| == |b| <==> a.Keys == b.Keys
  {
    assert |a| == |a.Keys| && |b| == |b.Keys|;
    SubsetSize(a.Keys, b.Keys);
  }
}
