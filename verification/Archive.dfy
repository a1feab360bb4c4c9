/**
 Which bottle archives may be unpacked: one pass over the entries, then a walk up from each.
 Containment is lexical, on cleaned paths.
 */
module Archive {
  import opened Domain
  import opened Paths
  import InstalledState

  datatype Kind = Directory | Regular | Symlink | Other

  datatype Header = Header(name: string, kind: Kind, mode: bv64, size: int, link: string)

  const MAX_ENTRIES := 100000
  const MAX_FILE := 128 * 1024 * 1024
  const MAX_PAYLOAD := 2 * 1024 * 1024 * 1024

  // ---- One entry, as text ----

  function Trimmed(name: string): string {
    if name != "" && name[|name| - 1] == '/' then name[..|name| - 1] else name
  }

  predicate Printable(s: string) {
    '\\' !in s && forall c <- s :: 32 as char <= c <= 126 as char
  }

  predicate SafeRelative(s: string) {
    && s != "" && s != "." && s != ".." && !HasPrefix(s, "../") && !IsAbs(s) && Clean(s) == s
    && Printable(s)
  }

  function TrimPrefix(s: string, prefix: string): string {
    if HasPrefix(s, prefix) then s[|prefix|..] else s
  }

  /** What may stand under .bottle: the directory itself, its etc and var, and directories and files below those. */
  predicate SharedAllowed(relative: string, kind: Kind) {
    var root := relative == ".bottle" || relative == ".bottle/etc" || relative == ".bottle/var";
    var content := HasPrefix(relative, ".bottle/etc/") || HasPrefix(relative, ".bottle/var/");
    (root && kind.Directory?) || (content && (kind.Directory? || kind.Regular?))
  }

  predicate PlainMode(mode: bv64) {
    mode & 0xE00 == 0 && mode & !0xFFF == 0
  }

  predicate KindAllowed(h: Header, name: string, prefix: string) {
    match h.kind
    case Directory => true
    case Regular => 0 <= h.size <= MAX_FILE
    case Symlink => !IsAbs(h.link) && Inside(Clean(Join(Dir(name), h.link)), prefix)
    case Other => false
  }

  predicate EntryAccepted(h: Header, prefix: string) {
    var name := Trimmed(h.name);
    var relative := TrimPrefix(name, prefix + "/");
    && SafeRelative(name) && Inside(name, prefix)
    && relative != "INSTALL_RECEIPT.json"
    && (relative == ".bottle" || HasPrefix(relative, ".bottle/") ==> SharedAllowed(relative, h.kind))
    && PlainMode(h.mode) && KindAllowed(h, name, prefix)
  }

  // ---- One entry, as components ----

  function Parts(h: Header): seq<string> {
    Split(Trimmed(h.name))
  }

  /** The rule for .bottle, on the components below the keg. */
  predicate SharedParts(below: seq<string>, kind: Kind) {
    below != [] && below[0] == ".bottle" ==>
      && (|below| == 1 || below[1] == "etc" || below[1] == "var")
      && (kind.Directory? || (|below| > 2 && kind.Regular?))
  }

  predicate AllPrintable(parts: seq<string>) {
    forall p <- parts :: forall c <- p :: ' ' <= c <= '~' && c != '\\'
  }

  predicate EntryAllowed(h: Header, keg: seq<string>) {
    && keg <= Parts(h) && AllPlain(Parts(h))
    && AllPrintable(Parts(h))
    && Parts(h) != keg + ["INSTALL_RECEIPT.json"]
    && SharedParts(Parts(h)[|keg|..], h.kind)
    && h.mode <= 0x1FF
    && match h.kind
       case Directory => true
       case Regular => 0 <= h.size <= MAX_FILE
       case Symlink =>
         !IsAbs(h.link) && keg <= CleanInto(Parts(h)[..|Parts(h)| - 1], Split(h.link), false)
       case Other => false
  }

  // ---- The whole archive ----

  function Payload(hs: seq<Header>): int {
    if hs == [] then 0
    else Payload(hs[..|hs| - 1]) + if hs[|hs| - 1].kind.Regular? then hs[|hs| - 1].size else 0
  }

  predicate DistinctEntries(hs: seq<Header>) {
    forall i, j | 0 <= i < j < |hs| :: Parts(hs[i]) != Parts(hs[j])
  }

  /** Nothing is archived below what is archived as anything but a directory. */
  predicate AncestorsAreDirectories(hs: seq<Header>) {
    forall a <- hs, b <- hs :: Parts(a) < Parts(b) ==> a.kind.Directory?
  }

  predicate Acceptable(hs: seq<Header>, keg: seq<string>) {
    && 2 <= |hs| <= MAX_ENTRIES && DistinctEntries(hs)
    && (forall h <- hs :: EntryAllowed(h, keg))
    && Payload(hs) <= MAX_PAYLOAD
    && (exists h <- hs :: Parts(h) == keg && h.kind.Directory?)
    && AncestorsAreDirectories(hs)
  }

  /** The payload is the sum of the sizes of the regular files. */
  lemma {:induction false} PayloadAdds(hs: seq<Header>, others: seq<Header>)
    ensures Payload(hs + others) == Payload(hs) + Payload(others)
    ensures forall h :: Payload([h]) == if h.kind.Regular? then h.size else 0
  {
    if others == [] {
      assert hs + others == hs;
    } else {
      var init := others[..|others| - 1];
      PayloadAdds(hs, init);
      assert (hs + others)[..|hs + others| - 1] == hs + init;
    }
    assert forall h: Header :: [h][..0] == [];
  }

  // ---- The text of an entry means its components ----

  /** An entry has these components exactly when its name is them joined, with or without a slash behind. */
  lemma PartsMean(h: Header, parts: seq<string>)
    requires parts != [] && AllPlain(parts)
    ensures Parts(h) == parts <==> h.name == Joined(parts) || h.name == Joined(parts) + "/"
  {
    var text := Joined(parts);
    SplitJoined(parts);
    JoinedSplit(Trimmed(h.name));
    assert parts[|parts| - 1] in parts;
    EndsOpen(text);
  }

  lemma EndsOpen(s: string)
    ensures s == "" || s[|s| - 1] == '/' ==> Split(s)[|Split(s)| - 1] == ""
  {
    if s == "" {
      SplitWhole("");
    } else if s[|s| - 1] == '/' {
      SplitAt(s[..|s| - 1], "");
      SplitWhole("");
      assert s == s[..|s| - 1] + "/" + "";
    }
  }

  lemma {:induction false} PrintableParts(s: string)
    ensures Printable(s) <==> forall p <- Split(s) :: Printable(p)
  {
    if s != "" {
      PrintableParts(s[1..]);
      PrintableCons(s[0], s[1..]);
      var others := Split(s[1..]);
      assert others == [others[0]] + others[1..];
      if s[0] != '/' { PrintableCons(s[0], others[0]); assert Split(s) == [[s[0]] + others[0]] + others[1..]; }
      assert s == [s[0]] + s[1..];
    }
  }

  lemma PrintableCons(c: char, s: string)
    ensures Printable([c] + s) <==> c != '\\' && 32 as char <= c <= 126 as char && Printable(s)
  {
    var all := [c] + s;
    assert c in all && forall x <- s :: x in all;
  }

  lemma SafeMeans(s: string)
    ensures SafeRelative(s) <==> AllPlain(Split(s)) && AllPrintable(Split(s))
  {
    assert forall p <- Split(s) :: Printable(p) <==> forall c <- p :: ' ' <= c <= '~' && c != '\\';
    CleanIsPlain(s);
    PrintableParts(s);
    if s == "" { assert Split(s)[0] in Split(s); }
  }

  lemma ModeMeans(mode: bv64)
    ensures PlainMode(mode) <==> mode <= 0x1FF
  {
  }

  /** A name inside the keg is the keg, or the keg, a slash, and what is relative to it. */
  lemma RelativeMeans(name: string, prefix: string)
    requires Inside(name, prefix) && name != prefix
    ensures Split(name) == Split(prefix) + Split(TrimPrefix(name, prefix + "/"))
  {
    var relative := name[|prefix| + 1..];
    assert name == prefix + "/" + relative;
    SplitAt(prefix, relative);
  }

  lemma PairMeans(s: string, a: string, b: string)
    requires NoSlash(a) && NoSlash(b)
    ensures s == a + "/" + b <==> Split(s) == [a, b]
    ensures HasPrefix(s, a + "/" + b + "/") <==> [a, b] < Split(s)
  {
    SplitAt(a, b);
    SplitWhole(a);
    SplitWhole(b);
    assert [a] + [b] == [a, b];
    InsideMeans(s, a + "/" + b);
    if Split(s) == [a, b] { SplitInjective(s, a + "/" + b); }
  }

  lemma BottleMeans(relative: string)
    ensures relative == ".bottle" || HasPrefix(relative, ".bottle/") <==> Split(relative)[0] == ".bottle"
    ensures relative == ".bottle" <==> Split(relative) == [".bottle"]
  {
    SplitInjectiveWhole(relative, ".bottle");
    InsideMeans(relative, ".bottle");
    assert ".bottle" + "/" == ".bottle/";
    SplitWhole(".bottle");
  }

  lemma EtcMeans(relative: string)
    ensures relative == ".bottle/etc" <==> Split(relative) == [".bottle", "etc"]
    ensures HasPrefix(relative, ".bottle/etc/") <==> [".bottle", "etc"] < Split(relative)
  {
    PairMeans(relative, ".bottle", "etc");
    assert ".bottle" + "/" + "etc" == ".bottle/etc";
    assert ".bottle" + "/" + "etc" + "/" == ".bottle/etc/";
  }

  lemma VarMeans(relative: string)
    ensures relative == ".bottle/var" <==> Split(relative) == [".bottle", "var"]
    ensures HasPrefix(relative, ".bottle/var/") <==> [".bottle", "var"] < Split(relative)
  {
    PairMeans(relative, ".bottle", "var");
    assert ".bottle" + "/" + "var" == ".bottle/var";
    assert ".bottle" + "/" + "var" + "/" == ".bottle/var/";
  }

  lemma SharedMeans(relative: string, kind: Kind)
    ensures (relative == ".bottle" || HasPrefix(relative, ".bottle/") ==> SharedAllowed(relative, kind))
      <==> SharedParts(Split(relative), kind)
  {
    BottleMeans(relative);
    EtcMeans(relative);
    VarMeans(relative);
    SharedCases(relative, Split(relative), kind);
  }

  lemma SplitInjectiveWhole(s: string, t: string)
    requires NoSlash(t)
    ensures Split(s) == [t] <==> s == t
  {
    SplitWhole(t);
    if Split(s) == [t] { SplitInjective(s, t); }
  }

  lemma SharedCases(relative: string, below: seq<string>, kind: Kind)
    requires below == Split(relative)
    requires (relative == ".bottle" || HasPrefix(relative, ".bottle/")) <==> below[0] == ".bottle"
    requires |below| == 1 ==> (below == [".bottle"] <==> relative == ".bottle")
    requires relative == ".bottle" ==> below == [".bottle"]
    requires relative == ".bottle/etc" <==> below == [".bottle", "etc"]
    requires relative == ".bottle/var" <==> below == [".bottle", "var"]
    requires HasPrefix(relative, ".bottle/etc/") <==> [".bottle", "etc"] < below
    requires HasPrefix(relative, ".bottle/var/") <==> [".bottle", "var"] < below
    ensures (relative == ".bottle" || HasPrefix(relative, ".bottle/") ==> SharedAllowed(relative, kind))
      <==> SharedParts(below, kind)
  {
    if below[0] == ".bottle" && |below| >= 2 {
      assert [".bottle", below[1]] <= below;
      assert |below| == 2 ==> below == [".bottle", below[1]];
    }
  }

  /** A keg directory: the formula's name and the version below it. */
  predicate IsKeg(keg: seq<string>) {
    |keg| == 2 && ValidFormulaName(keg[0]) && Plain(keg[1])
  }

  lemma ValidNamesArePlain(name: string, version: string, revision: nat)
    requires ValidFormulaName(name) && ValidVersion(version)
    ensures IsKeg([name, InstalledState.KegVersion(version, revision)])
  {
    if revision > 0 { DecimalIsPlain(revision); }
    var keg := InstalledState.KegVersion(version, revision);
    assert keg[0] == version[0];
  }

  lemma {:induction false} DecimalIsPlain(n: nat)
    ensures NoSlash(InstalledState.Decimal(n))
  {
    if n >= 10 { DecimalIsPlain(n / 10); }
  }

  lemma KegIsPlain(keg: seq<string>)
    requires IsKeg(keg)
    ensures AllPlain(keg) && Split(Joined(keg)) == keg && Joined(keg) == keg[0] + "/" + keg[1]
  {
    assert Plain(keg[0]);
    assert keg == [keg[0], keg[1]];
    SplitJoined(keg);
  }

  /** The checks on the text of an entry are exactly the conditions on its components. */
  lemma EntryMeans(h: Header, keg: seq<string>)
    requires IsKeg(keg)
    ensures EntryAccepted(h, Joined(keg)) <==> EntryAllowed(h, keg)
  {
    var name, prefix := Trimmed(h.name), Joined(keg);
    KegIsPlain(keg);
    SafeMeans(name);
    InsideMeans(name, prefix);
    ModeMeans(h.mode);
    if SafeRelative(name) && Inside(name, prefix) {
      RelativeChecks(name, keg, h.kind);
      if h.kind.Symlink? {
        var front := Split(name)[..|Split(name)| - 1];
        FrontOf(Split(name), keg);
        LinkMeans(name, h.link, keg, front);
      }
    }
  }

  lemma RelativeChecks(name: string, keg: seq<string>, kind: Kind)
    requires IsKeg(keg) && keg <= Split(name) && Inside(name, Joined(keg))
    ensures var relative := TrimPrefix(name, Joined(keg) + "/"); var below := Split(name)[2..];
      && (relative == "INSTALL_RECEIPT.json" <==> Split(name) == keg + ["INSTALL_RECEIPT.json"])
      && ((relative == ".bottle" || HasPrefix(relative, ".bottle/") ==> SharedAllowed(relative, kind))
          <==> SharedParts(below, kind))
  {
    KegIsPlain(keg);
    var relative := TrimPrefix(name, Joined(keg) + "/");
    if name == Joined(keg) {
      assert relative == name && name[0] == keg[0][0];
    } else {
      RelativeMeans(name, Joined(keg));
      assert Split(name)[2..] == Split(relative);
      SharedMeans(relative, kind);
      SplitInjectiveWhole(relative, "INSTALL_RECEIPT.json");
    }
  }

  lemma LinkMeans(name: string, link: string, keg: seq<string>, front: seq<string>)
    requires keg != [] && AllPlain(keg) && front != [] && AllPlain(front)
    requires AllPlain(Split(name)) && front == Split(name)[..|Split(name)| - 1]
    ensures Inside(Clean(Join(Dir(name), link)), Joined(keg)) <==> keg <= CleanInto(front, Split(link), false)
  {
    DirOfEntry(name, front);
    TargetInside(Dir(name), front, link, keg);
  }

  lemma DirOfEntry(name: string, front: seq<string>)
    requires AllPlain(Split(name)) && front != [] && front == Split(name)[..|Split(name)| - 1]
    ensures Dir(name) == Joined(front)
  {
    DirOfPlain(name);
  }

  /** What stands above an entry of the keg is plain, and in the keg or above it. */
  lemma FrontOf(parts: seq<string>, keg: seq<string>)
    requires IsKeg(keg) && keg <= parts && AllPlain(parts)
    ensures var front := parts[..|parts| - 1]; front != [] && AllPlain(front) && (keg <= front || front <= keg)
  {
    var front := parts[..|parts| - 1];
    assert forall p <- front :: p in parts;
    if |front| >= |keg| {
      assert front[..|keg|] == keg;
    } else {
      assert front == keg[..|front|];
    }
  }

  /** The link climbs n times and then goes down. */
  predicate Climbs(link: string, n: nat, rest: seq<string>) {
    Split(link) == Ups(n) + rest && AllPlain(rest)
  }

  /** Such a link stays in the keg when it climbs no higher than the keg, or names the way back into it. */
  predicate ComesBack(depth: nat, n: nat, rest: seq<string>, keg: seq<string>) {
    n <= depth && (n + |keg| <= depth || keg[depth - n..] <= rest)
  }

  /** Exactly those links are accepted, judged by their text. */
  lemma LinkStaysExactly(name: string, link: string, keg: seq<string>, n: nat, rest: seq<string>)
    requires IsKeg(keg) && keg <= Split(name) && AllPlain(Split(name)) && Climbs(link, n, rest)
    ensures Inside(Clean(Join(Dir(name), link)), Joined(keg)) <==> ComesBack(|Split(name)| - 1, n, rest, keg)
  {
    KegIsPlain(keg);
    var front := Split(name)[..|Split(name)| - 1];
    FrontOf(Split(name), keg);
    assert AllPlain(front) && (keg <= front || front <= keg);
    WayStaysExactly(front, Split(link), keg, n, rest);
    LinkMeans(name, link, keg, front);
  }

  lemma WayStaysExactly(front: seq<string>, parts: seq<string>, keg: seq<string>, n: nat, rest: seq<string>)
    requires AllPlain(front) && AllPlain(keg) && keg != [] && (keg <= front || front <= keg)
    requires parts == Ups(n) + rest && AllPlain(rest)
    ensures keg <= CleanInto(front, parts, false) <==> ComesBack(|front|, n, rest, keg)
  {
    LeadsInside(front, n, rest, keg);
  }

  lemma TargetInside(directory: string, front: seq<string>, link: string, keg: seq<string>)
    requires front != [] && AllPlain(front) && directory == Joined(front) && keg != [] && AllPlain(keg)
    ensures Inside(Clean(Join(directory, link)), Joined(keg)) <==> keg <= CleanInto(front, Split(link), false)
  {
    TargetMeans(front, link, keg);
  }
}
