/** Formula metadata, indexed by name, and the dependency graph on names it spells out. */
module Formulae {
  import opened Domain
  import opened Names

  datatype Formula = Formula(
    name: string, version: string, revision: int, rebuild: int,
    bottleTag: string, bottleURL: string, bottleSHA256: Digest, cellar: string,
    dependencies: seq<string>)
  {
    /** The bottle this metadata selects on the one supported platform. */
    function Artifact(): Artifact {
      Domain.Artifact.Artifact(
        "homebrew/core", name, version, revision, rebuild, "macos", "arm64", bottleTag, bottleSHA256)
    }
  }

  ghost predicate DistinctNames(fs: seq<Formula>) {
    forall i, j :: 0 <= i < j < |fs| ==> fs[i].name != fs[j].name
  }

  ghost function NamesOf(fs: seq<Formula>): set<string> {
    set f | f in fs :: f.name
  }

  function Index(fs: seq<Formula>): map<string, Formula> {
    if fs == [] then map[] else Index(fs[..|fs| - 1])[fs[|fs| - 1].name := fs[|fs| - 1]]
  }

  ghost function GraphOf(index: map<string, Formula>): map<string, seq<string>> {
    map name | name in index :: index[name].dependencies
  }

  ghost function NameGraph(fs: seq<Formula>): map<string, seq<string>> {
    GraphOf(Index(fs))
  }

  lemma {:induction false} IndexKeys(fs: seq<Formula>)
    ensures Index(fs).Keys == NamesOf(fs)
    ensures forall name <- Index(fs) :: Index(fs)[name] in fs && Index(fs)[name].name == name
  {
    if fs != [] {
      IndexKeys(fs[..|fs| - 1]);
    }
  }

  lemma IndexFinds(fs: seq<Formula>, f: Formula)
    requires DistinctNames(fs) && f in fs
    ensures f.name in Index(fs) && Index(fs)[f.name] == f
  {
    IndexKeys(fs);
    assert f.name in NamesOf(fs);
    var i :| 0 <= i < |fs| && fs[i] == f;
    var j :| 0 <= j < |fs| && fs[j] == Index(fs)[f.name];
    assert fs[i].name == fs[j].name;
  }

  lemma {:induction false} IndexSize(fs: seq<Formula>)
    requires DistinctNames(fs)
    ensures |Index(fs)| == |fs|
  {
    if fs != [] {
      var init, last := fs[..|fs| - 1], fs[|fs| - 1];
      IndexSize(init);
      IndexKeys(init);
      assert last.name !in Index(init);
      assert Index(fs).Keys == Index(init).Keys + {last.name};
    }
  }

  lemma {:induction false} IndexConcat(xs: seq<Formula>, ys: seq<Formula>)
    ensures Index(xs + ys) == Index(xs) + Index(ys)
  {
    if ys == [] {
      assert xs + ys == xs;
    } else {
      assert (xs + ys)[..|xs + ys| - 1] == xs + ys[..|ys| - 1];
      IndexConcat(xs, ys[..|ys| - 1]);
    }
  }

  /** The graph is a function of the set of formulae: their order does not matter. */
  lemma SameFormulaeSameGraph(xs: seq<Formula>, ys: seq<Formula>)
    requires DistinctNames(xs) && DistinctNames(ys) && forall f :: f in xs <==> f in ys
    ensures Index(xs) == Index(ys)
  {
    IndexKeys(xs);
    IndexKeys(ys);
    forall name | name in Index(xs)
      ensures name in Index(ys) && Index(xs)[name] == Index(ys)[name]
    {
      IndexFinds(ys, Index(xs)[name]);
    }
    forall name | name in Index(ys)
      ensures name in Index(xs)
    {
      IndexFinds(xs, Index(ys)[name]);
    }
  }

  // ---- Sorting by name ----

  ghost predicate SortedByName(fs: seq<Formula>) {
    forall i, j :: 0 <= i < j < |fs| ==> Before(fs[i].name, fs[j].name)
  }

  function Insert(fs: seq<Formula>, f: Formula): (r: seq<Formula>)
    requires SortedByName(fs) && forall x <- fs :: x.name != f.name
    ensures SortedByName(r)
    ensures forall x :: x in r <==> x in fs || x == f
  {
    if fs == [] then [f]
    else
      var init, last := fs[..|fs| - 1], fs[|fs| - 1];
      BeforeTotal(last.name, f.name);
      assert forall x <- fs :: x in init || x == last;
      if Before(last.name, f.name) then
        BelowLast(fs, f);
        fs + [f]
      else
        assert forall x <- init :: Before(x.name, last.name);
        Insert(init, f) + [last]
  }

  lemma BelowLast(fs: seq<Formula>, f: Formula)
    requires fs != [] && SortedByName(fs) && Before(fs[|fs| - 1].name, f.name)
    ensures forall x <- fs :: Before(x.name, f.name)
  {
    forall x | x in fs
      ensures Before(x.name, f.name)
    {
      var i :| 0 <= i < |fs| && fs[i] == x;
      if i < |fs| - 1 {
        BeforeTransitive(x.name, fs[|fs| - 1].name, f.name);
      }
    }
  }

  function Sort(fs: seq<Formula>): (r: seq<Formula>)
    requires DistinctNames(fs)
    ensures SortedByName(r)
    ensures forall x :: x in r <==> x in fs
  {
    if fs == [] then []
    else
      assert forall x <- fs :: x in fs[..|fs| - 1] || x == fs[|fs| - 1];
      Insert(Sort(fs[..|fs| - 1]), fs[|fs| - 1])
  }

  lemma SortedIsDistinct(fs: seq<Formula>)
    requires SortedByName(fs)
    ensures DistinctNames(fs)
  {
    forall i, j | 0 <= i < j < |fs|
      ensures fs[i].name != fs[j].name
    {
      BeforeIrreflexive(fs[i].name);
    }
  }

  lemma HasMember(fs: seq<Formula>)
    requires fs != []
    ensures exists f :: f in fs
  {
    assert fs[0] in fs;
  }

  /** A sorted list is determined by its members: neither map iteration nor input order can show through. */
  lemma {:induction false} SortedIsUnique(xs: seq<Formula>, ys: seq<Formula>)
    requires SortedByName(xs) && SortedByName(ys) && forall f :: f in xs <==> f in ys
    ensures xs == ys
    decreases |xs|
  {
    if xs == [] {
      if ys != [] { HasMember(ys); }
    } else {
      assert xs[0] in ys;
      LastIsGreatest(xs, ys);
      var x, y := xs[..|xs| - 1], ys[..|ys| - 1];
      SortedIsDistinct(xs);
      SortedIsDistinct(ys);
      forall f
        ensures f in x <==> f in y
      {
        assert f in xs <==> f in x || f == xs[|xs| - 1];
        assert f in ys <==> f in y || f == ys[|ys| - 1];
      }
      SortedIsUnique(x, y);
      assert xs == x + [xs[|xs| - 1]] && ys == y + [ys[|ys| - 1]];
    }
  }

  lemma LastIsGreatest(xs: seq<Formula>, ys: seq<Formula>)
    requires SortedByName(xs) && SortedByName(ys) && xs != [] && ys != [] && forall f :: f in xs <==> f in ys
    ensures xs[|xs| - 1] == ys[|ys| - 1]
  {
    var x, y := xs[|xs| - 1], ys[|ys| - 1];
    assert x in ys && y in xs;
    if x != y {
      var i :| 0 <= i < |ys| && ys[i] == x;
      var j :| 0 <= j < |xs| && xs[j] == y;
      BeforeTransitive(x.name, y.name, x.name);
      BeforeIrreflexive(x.name);
    }
  }
}
