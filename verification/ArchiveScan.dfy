/**
 The archive validator as it runs: a pass that fills a table of entries and a running total,
 then a walk up from every entry. It accepts exactly the acceptable archives, in any order.
 */
module ArchiveScan {
  import opened Paths
  import opened Archive

  // ---- One entry more or less ----

  function Without(hs: seq<Header>, i: nat): seq<Header>
    requires i < |hs|
  {
    hs[..i] + hs[i + 1..]
  }

  lemma WithoutIsDistinct(hs: seq<Header>, i: nat)
    requires i < |hs| && DistinctEntries(hs)
    ensures DistinctEntries(Without(hs, i)) && forall h <- Without(hs, i) :: Parts(h) != Parts(hs[i])
  {
    var less := Without(hs, i);
    assert forall j | 0 <= j < |less| :: less[j] == hs[if j < i then j else j + 1];
    forall h <- less ensures Parts(h) != Parts(hs[i]) {
      var j :| 0 <= j < |less| && less[j] == h;
      assert h == hs[if j < i then j else j + 1];
    }
  }

  lemma WithIsDistinct(hs: seq<Header>, i: nat)
    requires i < |hs| && DistinctEntries(Without(hs, i)) && forall h <- Without(hs, i) :: Parts(h) != Parts(hs[i])
    ensures DistinctEntries(hs)
  {
    var less := Without(hs, i);
    forall j, k | 0 <= j < k < |hs| ensures Parts(hs[j]) != Parts(hs[k]) {
      if j == i {
        assert hs[k] == less[k - 1];
      } else if k == i {
        assert hs[j] == less[j];
      } else {
        assert hs[j] == less[if j < i then j else j - 1] && hs[k] == less[if k < i then k else k - 1];
      }
    }
  }

  // ---- The table of entries ----

  function Table(hs: seq<Header>): map<string, Kind> {
    if hs == [] then map[]
    else Table(hs[..|hs| - 1])[Trimmed(hs[|hs| - 1].name) := hs[|hs| - 1].kind]
  }

  predicate Named(hs: seq<Header>, name: string) {
    exists h <- hs :: Trimmed(h.name) == name
  }

  lemma {:induction false} TableKeys(hs: seq<Header>, name: string)
    ensures name in Table(hs) <==> Named(hs, name)
  {
    if hs != [] {
      var init, last := hs[..|hs| - 1], hs[|hs| - 1];
      TableKeys(init, name);
      assert hs == init + [last] && last in hs;
      if Named(init, name) {
        var h :| h in init && Trimmed(h.name) == name;
        assert h in hs;
      }
    }
  }

  lemma {:induction false} TableOfDistinct(hs: seq<Header>)
    requires DistinctEntries(hs)
    ensures |Table(hs)| == |hs|
    ensures forall h <- hs :: Trimmed(h.name) in Table(hs) && Table(hs)[Trimmed(h.name)] == h.kind
  {
    if hs != [] {
      var init, last := hs[..|hs| - 1], hs[|hs| - 1];
      var name := Trimmed(last.name);
      LastIsNew(hs);
      TableOfDistinct(init);
      TableKeys(init, name);
      assert Table(hs).Keys == Table(init).Keys + {name};
      assert forall h <- hs :: h in init || h == last;
    }
  }

  lemma LastIsNew(hs: seq<Header>)
    requires hs != [] && DistinctEntries(hs)
    ensures !Named(hs[..|hs| - 1], Trimmed(hs[|hs| - 1].name)) && DistinctEntries(hs[..|hs| - 1])
  {
    var last := |hs| - 1;
    assert Without(hs, last) == hs[..last];
    WithoutIsDistinct(hs, last);
  }

  lemma FreshIsDistinct(hs: seq<Header>, i: nat)
    requires i < |hs| && DistinctEntries(hs[..i])
    ensures DistinctEntries(hs[..i + 1]) <==> Trimmed(hs[i].name) !in Table(hs[..i])
  {
    var longer, name := hs[..i + 1], Trimmed(hs[i].name);
    assert Without(longer, i) == hs[..i];
    TableKeys(hs[..i], name);
    if DistinctEntries(longer) {
      WithoutIsDistinct(longer, i);
    }
    if !Named(hs[..i], name) {
      forall h <- hs[..i] ensures Parts(h) != Parts(hs[i]) {
        if Parts(h) == Parts(hs[i]) { SplitInjective(Trimmed(h.name), name); }
      }
      WithIsDistinct(longer, i);
    }
  }

  // ---- The first pass ----

  predicate Scannable(hs: seq<Header>, keg: seq<string>) {
    |hs| <= MAX_ENTRIES && DistinctEntries(hs) && (forall h <- hs :: EntryAllowed(h, keg)) && Payload(hs) <= MAX_PAYLOAD
  }

  lemma {:induction false} PayloadGrows(hs: seq<Header>, keg: seq<string>, i: nat)
    requires i <= |hs| && forall h <- hs :: EntryAllowed(h, keg)
    ensures Payload(hs[..i]) <= Payload(hs)
    decreases |hs|
  {
    if i == |hs| {
      assert hs[..i] == hs;
    } else {
      var init := hs[..|hs| - 1];
      assert hs[|hs| - 1] in hs;
      PayloadGrows(init, keg, i);
      assert init[..i] == hs[..i];
    }
  }

  /** What makes a prefix unscannable makes the whole so. */
  lemma PrefixScannable(hs: seq<Header>, keg: seq<string>, i: nat)
    requires i <= |hs| && Scannable(hs, keg)
    ensures Scannable(hs[..i], keg)
  {
    PayloadGrows(hs, keg, i);
    forall j, k | 0 <= j < k < i ensures Parts(hs[..i][j]) != Parts(hs[..i][k]) {
      assert Parts(hs[j]) != Parts(hs[k]);
    }
  }

  lemma ScanStep(hs: seq<Header>, keg: seq<string>, i: nat)
    requires i < |hs| && Scannable(hs[..i], keg)
    ensures Scannable(hs[..i + 1], keg) <==>
      && i < MAX_ENTRIES && Trimmed(hs[i].name) !in Table(hs[..i]) && EntryAllowed(hs[i], keg)
      && (hs[i].kind.Regular? ==> Payload(hs[..i]) + hs[i].size <= MAX_PAYLOAD)
    ensures Payload(hs[..i + 1]) == Payload(hs[..i]) + if hs[i].kind.Regular? then hs[i].size else 0
    ensures Table(hs[..i + 1]) == Table(hs[..i])[Trimmed(hs[i].name) := hs[i].kind]
  {
    var longer := hs[..i + 1];
    assert longer[..|longer| - 1] == hs[..i] && longer[|longer| - 1] == hs[i];
    FreshIsDistinct(hs, i);
    assert forall h :: h in longer <==> h in hs[..i] || h == hs[i];
  }

  /** One turn of the loop extends a scannable prefix exactly when its checks pass. */
  lemma TurnMeans(hs: seq<Header>, keg: seq<string>, i: nat, entries: map<string, Kind>, total: int)
    requires IsKeg(keg) && i < |hs| && Scannable(hs[..i], keg)
    requires entries == Table(hs[..i]) && total == Payload(hs[..i])
    ensures Scannable(hs[..i + 1], keg) <==>
      && EntryAccepted(hs[i], Joined(keg)) && Trimmed(hs[i].name) !in entries && |entries| < MAX_ENTRIES
      && (hs[i].kind.Regular? ==> total + hs[i].size <= MAX_PAYLOAD)
    ensures Payload(hs[..i + 1]) == total + if hs[i].kind.Regular? then hs[i].size else 0
    ensures Table(hs[..i + 1]) == entries[Trimmed(hs[i].name) := hs[i].kind]
  {
    ScanStep(hs, keg, i);
    EntryMeans(hs[i], keg);
    TableOfDistinct(hs[..i]);
  }

  method ScanEntries(hs: seq<Header>, name: string, version: string)
    returns (entries: map<string, Kind>, ok: bool)
    requires IsKeg([name, version])
    ensures ok <==> Scannable(hs, [name, version])
    ensures ok ==> entries == Table(hs)
  {
    ghost var keg := [name, version];
    var prefix := name + "/" + version;
    KegIsPlain(keg);
    entries, ok := map[], true;
    var total := 0;
    var i := 0;
    while i < |hs|
      invariant 0 <= i <= |hs| && ok
      invariant Scannable(hs[..i], keg)
      invariant entries == Table(hs[..i]) && total == Payload(hs[..i])
    {
      var h := hs[i];
      TurnMeans(hs, keg, i, entries, total);
      ok := TakeEntry(h, prefix, entries, total);
      if !ok {
        if Scannable(hs, keg) { PrefixScannable(hs, keg, i + 1); }
        return;
      }
      entries := entries[Trimmed(h.name) := h.kind];
      if h.kind.Regular? { total := total + h.size; }
      i := i + 1;
    }
    assert hs[..i] == hs;
  }

  /** The checks of one turn of the loop, in their order. */
  method TakeEntry(h: Header, prefix: string, entries: map<string, Kind>, total: int) returns (ok: bool)
    ensures ok <==>
      && EntryAccepted(h, prefix) && Trimmed(h.name) !in entries && |entries| < MAX_ENTRIES
      && (h.kind.Regular? ==> total + h.size <= MAX_PAYLOAD)
  {
    var name := Trimmed(h.name);
    if !SafeRelative(name) || name in entries || |entries| >= MAX_ENTRIES || !Inside(name, prefix) { return false; }
    var relative := TrimPrefix(name, prefix + "/");
    if relative == "INSTALL_RECEIPT.json" { return false; }
    if relative == ".bottle" || HasPrefix(relative, ".bottle/") {
      if !SharedAllowed(relative, h.kind) { return false; }
    }
    if !PlainMode(h.mode) { return false; }
    match h.kind {
      case Directory => return true;
      case Regular =>
        if h.size < 0 || h.size > MAX_FILE { return false; }
        return total + h.size <= MAX_PAYLOAD;
      case Symlink =>
        return !IsAbs(h.link) && Inside(Clean(Join(Dir(name), h.link)), prefix);
      case Other => return false;
    }
  }

  // ---- The walk up ----

  predicate AncestorPasses(entries: map<string, Kind>, parts: seq<string>)
    requires parts != []
  {
    Joined(parts) in entries ==> entries[Joined(parts)].Directory?
  }

  predicate AncestorsPass(entries: map<string, Kind>, parts: seq<string>, k: nat)
    requires 0 < k
  {
    forall j | k <= j < |parts| :: AncestorPasses(entries, parts[..j])
  }

  lemma ParentOf(parts: seq<string>, k: nat)
    requires AllPlain(parts) && 0 < k <= |parts|
    ensures Split(Joined(parts[..k])) == parts[..k]
    ensures Dir(Joined(parts[..k])) == if k == 1 then "." else Joined(parts[..k - 1])
    ensures Joined(parts[..k]) != "." && (Joined(parts[..k]) == parts[0] <==> k == 1)
  {
    var front := parts[..k];
    assert forall p <- front :: p in parts;
    SplitJoined(front);
    DirOfPlain(Joined(front));
    assert k > 1 ==> front[..k - 1] == parts[..k - 1];
    SplitWhole(".");
    assert front[0] in parts && Plain(front[0]);
    SplitWhole(parts[0]);
    if k == 1 { assert front == [parts[0]]; }
  }

  /** The walk stands at the ancestor of k components. */
  predicate Standing(parts: seq<string>, k: nat, parent: string) {
    0 < k < |parts| && parent == Joined(parts[..k]) && parent != "." && (parent == parts[0] <==> k == 1)
  }

  lemma FirstParent(name: string)
    requires AllPlain(Split(name)) && |Split(name)| >= 2
    ensures Standing(Split(name), |Split(name)| - 1, Dir(name))
  {
    var parts := Split(name);
    DirOfPlain(name);
    ParentOf(parts, |parts| - 1);
  }

  lemma NextParent(parts: seq<string>, k: nat, parent: string)
    requires AllPlain(parts) && Standing(parts, k, parent) && k > 1
    ensures Standing(parts, k - 1, Dir(parent))
  {
    ParentOf(parts, k);
    ParentOf(parts, k - 1);
  }

  /** From a name up to its formula directory, everything archived on the way must be a directory. */
  method WalkUp(entries: map<string, Kind>, name: string, formula: string) returns (ok: bool)
    requires AllPlain(Split(name)) && |Split(name)| >= 2 && Split(name)[0] == formula
    ensures ok <==> AncestorsPass(entries, Split(name), 2)
  {
    ghost var parts := Split(name);
    ghost var k: nat := |parts| - 1;
    var parent := Dir(name);
    FirstParent(name);
    while parent != formula && parent != "."
      invariant Standing(parts, k, parent)
      invariant AncestorsPass(entries, parts, k + 1)
      decreases k
    {
      if parent in entries && !entries[parent].Directory? {
        assert !AncestorPasses(entries, parts[..k]);
        return false;
      }
      assert AncestorPasses(entries, parts[..k]);
      NextParent(parts, k, parent);
      parent, k := Dir(parent), k - 1;
    }
    return true;
  }

  method WalkAll(entries: map<string, Kind>, formula: string) returns (ok: bool)
    requires forall n <- entries :: AllPlain(Split(n)) && |Split(n)| >= 2 && Split(n)[0] == formula
    ensures ok <==> forall n <- entries :: AncestorsPass(entries, Split(n), 2)
  {
    var names := entries.Keys;
    while names != {}
      invariant names <= entries.Keys
      invariant forall n <- entries :: n in names || AncestorsPass(entries, Split(n), 2)
    {
      var name :| name in names;
      var passes := WalkUp(entries, name, formula);
      if !passes { return false; }
      names := names - {name};
    }
    return true;
  }

  /** In the table of a scanned archive the walks check exactly the archived ancestors. */
  lemma WalksMean(hs: seq<Header>, keg: seq<string>)
    requires IsKeg(keg) && Scannable(hs, keg)
    ensures (forall n <- Table(hs) :: AncestorsPass(Table(hs), Split(n), 2)) <==> AncestorsAreDirectories(hs)
  {
    TableOfDistinct(hs);
    var entries := Table(hs);
    if forall n <- entries :: AncestorsPass(entries, Split(n), 2) {
      forall a <- hs, b <- hs | Parts(a) < Parts(b) ensures a.kind.Directory? {
        var j := |Parts(a)|;
        assert Parts(b)[..j] == Parts(a) && EntryAllowed(a, keg);
        JoinedSplit(Trimmed(a.name));
        assert AncestorsPass(entries, Parts(b), 2);
        assert AncestorPasses(entries, Parts(b)[..j]);
      }
    }
    if AncestorsAreDirectories(hs) {
      forall n <- entries ensures AncestorsPass(entries, Split(n), 2) {
        TableKeys(hs, n);
        var b :| b in hs && Trimmed(b.name) == n;
        forall j | 2 <= j < |Split(n)| ensures AncestorPasses(entries, Split(n)[..j]) {
          AncestorArchived(hs, keg, b, j);
        }
      }
    }
  }

  lemma AncestorArchived(hs: seq<Header>, keg: seq<string>, b: Header, j: nat)
    requires IsKeg(keg) && Scannable(hs, keg) && AncestorsAreDirectories(hs)
    requires b in hs && 2 <= j < |Parts(b)|
    ensures AncestorPasses(Table(hs), Parts(b)[..j])
  {
    var front := Parts(b)[..j];
    var above := Joined(front);
    assert EntryAllowed(b, keg) && forall p <- front :: p in Parts(b);
    SplitJoined(front);
    TableOfDistinct(hs);
    TableKeys(hs, above);
    if above in Table(hs) {
      var a :| a in hs && Trimmed(a.name) == above;
      assert Parts(a) == front && Parts(a) < Parts(b);
    }
  }

  // ---- Containment, on the cleaned text ----

  /** Where the entry is unpacked, and where it points if it is a link, cleans to the keg or to a path below it. */
  predicate StaysInside(h: Header, prefix: string) {
    && Inside(Clean(Trimmed(h.name)), prefix)
    && (h.kind.Symlink? ==> !IsAbs(h.link) && Inside(Clean(Join(Dir(Trimmed(h.name)), h.link)), prefix))
  }

  lemma AllowedStaysInside(h: Header, keg: seq<string>)
    requires IsKeg(keg) && EntryAllowed(h, keg)
    ensures StaysInside(h, Joined(keg))
  {
    EntryMeans(h, keg);
  }

  /** A link that climbs does not leave the keg, or names the way back into it. */
  ghost predicate LinkComesBack(h: Header, keg: seq<string>) {
    h.kind.Symlink? ==> forall n, rest | Climbs(h.link, n, rest) :: ComesBack(|Parts(h)| - 1, n, rest, keg)
  }

  lemma AllowedComesBack(h: Header, keg: seq<string>)
    requires IsKeg(keg) && EntryAllowed(h, keg)
    ensures LinkComesBack(h, keg)
  {
    EntryMeans(h, keg);
    if h.kind.Symlink? {
      forall n, rest | Climbs(h.link, n, rest) ensures ComesBack(|Parts(h)| - 1, n, rest, keg) {
        LinkStaysExactly(Trimmed(h.name), h.link, keg, n, rest);
      }
    }
  }

  // ---- The validator ----

  method ValidateBottleArchive(hs: seq<Header>, complete: bool, trailer: bool, name: string, version: string)
    returns (ok: bool)
    requires IsKeg([name, version])
    ensures ok <==> complete && trailer && Acceptable(hs, [name, version])
    ensures ok ==> forall h <- hs :: StaysInside(h, name + "/" + version) && LinkComesBack(h, [name, version])
  {
    ghost var keg := [name, version];
    var entries, scanned := ScanEntries(hs, name, version);
    if !scanned || !complete { return false; }
    var prefix := name + "/" + version;
    KegIsPlain(keg);
    KegEntry(hs, keg);
    if prefix !in entries || !entries[prefix].Directory? || |entries| < 2 { return false; }
    assert forall h <- hs :: EntryAllowed(h, keg);
    forall n <- entries ensures AllPlain(Split(n)) && |Split(n)| >= 2 && Split(n)[0] == name {
      TableKeys(hs, n);
    }
    WalksMean(hs, keg);
    var walked := WalkAll(entries, name);
    forall h | h in hs ensures StaysInside(h, prefix) && LinkComesBack(h, keg) {
      AllowedStaysInside(h, keg);
      AllowedComesBack(h, keg);
    }
    return walked && trailer;
  }

  lemma KegEntry(hs: seq<Header>, keg: seq<string>)
    requires IsKeg(keg) && Scannable(hs, keg)
    ensures |Table(hs)| == |hs|
    ensures Joined(keg) in Table(hs) && Table(hs)[Joined(keg)].Directory? <==>
      exists h <- hs :: Parts(h) == keg && h.kind.Directory?
  {
    KegIsPlain(keg);
    TableOfDistinct(hs);
    TableKeys(hs, Joined(keg));
    if h :| h in hs && Parts(h) == keg && h.kind.Directory? {
      SplitInjective(Trimmed(h.name), Joined(keg));
    }
  }

  // ---- What acceptance means ----

  predicate Rearranged(hs: seq<Header>, other: seq<Header>) {
    multiset(hs) == multiset(other)
  }

  lemma SameMembers(hs: seq<Header>, other: seq<Header>)
    requires Rearranged(hs, other)
    ensures |hs| == |other| && forall h :: h in hs <==> h in other
  {
    assert |hs| == |multiset(hs)| && |other| == |multiset(other)|;
    forall h ensures h in hs <==> h in other {
      assert h in multiset(hs) <==> h in multiset(other);
    }
  }

  lemma WithoutOne(hs: seq<Header>, i: nat)
    requires i < |hs|
    ensures multiset(Without(hs, i)) == multiset(hs) - multiset{hs[i]}
  {
    assert hs == hs[..i] + [hs[i]] + hs[i + 1..];
  }

  lemma {:induction false} PayloadWithout(hs: seq<Header>, i: nat)
    requires i < |hs|
    ensures Payload(hs) == Payload(Without(hs, i)) + if hs[i].kind.Regular? then hs[i].size else 0
    decreases |hs|
  {
    var init := hs[..|hs| - 1];
    if i == |hs| - 1 {
      assert Without(hs, i) == init;
    } else {
      PayloadWithout(init, i);
      assert Without(hs, i)[..|hs| - 2] == Without(init, i);
    }
  }

  lemma {:induction false} PayloadIgnoresOrder(hs: seq<Header>, other: seq<Header>)
    requires Rearranged(hs, other)
    ensures Payload(hs) == Payload(other)
    decreases |hs|
  {
    SameMembers(hs, other);
    if hs != [] {
      var last := |hs| - 1;
      assert hs[last] in other;
      var i :| 0 <= i < |other| && other[i] == hs[last];
      WithoutOne(hs, last);
      WithoutOne(other, i);
      PayloadIgnoresOrder(Without(hs, last), Without(other, i));
      PayloadWithout(hs, last);
      PayloadWithout(other, i);
    }
  }

  lemma {:induction false} DistinctIgnoresOrder(hs: seq<Header>, other: seq<Header>)
    requires Rearranged(hs, other)
    ensures DistinctEntries(hs) <==> DistinctEntries(other)
    decreases |hs|
  {
    SameMembers(hs, other);
    if hs != [] {
      var last := |hs| - 1;
      assert hs[last] in other;
      var i :| 0 <= i < |other| && other[i] == hs[last];
      WithoutOne(hs, last);
      WithoutOne(other, i);
      DistinctIgnoresOrder(Without(hs, last), Without(other, i));
      SameMembers(Without(hs, last), Without(other, i));
      if DistinctEntries(hs) {
        WithoutIsDistinct(hs, last);
        WithIsDistinct(other, i);
      }
      if DistinctEntries(other) {
        WithoutIsDistinct(other, i);
        WithIsDistinct(hs, last);
      }
    }
  }

  /** Whether an archive is acceptable does not depend on the order of its entries. */
  lemma OrderDoesNotMatter(hs: seq<Header>, other: seq<Header>, keg: seq<string>)
    requires Rearranged(hs, other)
    ensures Acceptable(hs, keg) <==> Acceptable(other, keg)
  {
    SameMembers(hs, other);
    PayloadIgnoresOrder(hs, other);
    DistinctIgnoresOrder(hs, other);
  }
}
