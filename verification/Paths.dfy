/**
 Lexical slash-separated paths, as Go's path package cleans, splits and joins them, and what
 those string operations mean for the components of a path.
 */
module Paths {
  /** The components between slashes; there is always one more than there are slashes. */
  function Split(s: string): (r: seq<string>)
    ensures r != []
  {
    if s == "" then [""]
    else
      var others := Split(s[1..]);
      if s[0] == '/' then [""] + others else [[s[0]] + others[0]] + others[1..]
  }

  function Joined(parts: seq<string>): string
    requires parts != []
  {
    if |parts| == 1 then parts[0] else parts[0] + "/" + Joined(parts[1..])
  }

  lemma {:induction false} JoinedSplit(s: string)
    ensures Joined(Split(s)) == s
  {
    if s != "" {
      JoinedSplit(s[1..]);
      var others := Split(s[1..]);
      assert s == [s[0]] + s[1..];
      if s[0] == '/' {
        assert ([""] + others)[1..] == others;
      } else if |others| > 1 {
        assert ([[s[0]] + others[0]] + others[1..])[1..] == others[1..];
      }
    }
  }

  predicate NoSlash(s: string) {
    '/' !in s
  }

  lemma {:induction false} SplitHasNoSlash(s: string)
    ensures forall p <- Split(s) :: NoSlash(p)
  {
    if s != "" {
      SplitHasNoSlash(s[1..]);
      var others := Split(s[1..]);
      assert others[0] in others && forall p <- others[1..] :: p in others;
      assert s[0] != '/' ==> NoSlash([s[0]] + others[0]);
    }
  }

  lemma {:induction false} SplitWhole(s: string)
    requires NoSlash(s)
    ensures Split(s) == [s]
  {
    if s != "" {
      assert s[0] in s && forall c <- s[1..] :: c in s;
      SplitWhole(s[1..]);
      assert s == [s[0]] + s[1..];
    }
  }

  /** What one more character in front does to the components. */
  function Cons(c: char, parts: seq<string>): seq<string>
    requires parts != []
  {
    if c == '/' then [""] + parts else [[c] + parts[0]] + parts[1..]
  }

  lemma SplitCons(c: char, s: string)
    ensures Split([c] + s) == Cons(c, Split(s))
  {
    assert ([c] + s)[1..] == s;
  }

  lemma ConsAppend(c: char, parts: seq<string>, others: seq<string>)
    requires parts != []
    ensures Cons(c, parts + others) == Cons(c, parts) + others
  {
    assert (parts + others)[1..] == parts[1..] + others;
  }

  /** A slash separates. */
  lemma {:induction false} SplitAt(a: string, b: string)
    ensures Split(a + "/" + b) == Split(a) + Split(b)
  {
    if a == "" {
      assert a + "/" + b == ['/'] + b;
      SplitCons('/', b);
    } else {
      var c, rest := a[0], a[1..];
      SplitAt(rest, b);
      assert a == [c] + rest && a + "/" + b == [c] + (rest + "/" + b);
      SplitCons(c, rest);
      SplitCons(c, rest + "/" + b);
      ConsAppend(c, Split(rest), Split(b));
    }
  }

  lemma {:induction false} SplitJoined(parts: seq<string>)
    requires parts != [] && forall p <- parts :: NoSlash(p)
    ensures Split(Joined(parts)) == parts
  {
    SplitWhole(parts[0]);
    if |parts| > 1 {
      SplitJoined(parts[1..]);
      SplitAt(parts[0], Joined(parts[1..]));
    }
  }

  lemma SplitInjective(a: string, b: string)
    requires Split(a) == Split(b)
    ensures a == b
  {
    JoinedSplit(a);
    JoinedSplit(b);
  }

  // ---- Cleaning ----

  /** One component: skip it when empty or ".", let ".." take back what it can. */
  function CleanStep(done: seq<string>, p: string, rooted: bool): seq<string> {
    if p == "" || p == "." then done
    else if p != ".." then done + [p]
    else if done != [] && done[|done| - 1] != ".." then done[..|done| - 1]
    else if rooted then done
    else done + [p]
  }

  function CleanInto(done: seq<string>, parts: seq<string>, rooted: bool): seq<string>
    decreases |parts|
  {
    if parts == [] then done else CleanInto(CleanStep(done, parts[0], rooted), parts[1..], rooted)
  }

  predicate IsAbs(s: string) {
    s != "" && s[0] == '/'
  }

  function Clean(s: string): string {
    var parts := CleanInto([], Split(s), IsAbs(s));
    if IsAbs(s) then "/" + (if parts == [] then "" else Joined(parts))
    else if parts == [] then "."
    else Joined(parts)
  }

  /** Everything up to and including the last slash. */
  function UpToLastSlash(s: string): string {
    if s == "" || s[|s| - 1] == '/' then s else UpToLastSlash(s[..|s| - 1])
  }

  function Dir(s: string): string {
    Clean(UpToLastSlash(s))
  }

  function Join(a: string, b: string): string {
    if a == "" && b == "" then "" else if a == "" then Clean(b) else Clean(a + "/" + b)
  }

  function HasPrefix(s: string, prefix: string): bool {
    prefix <= s
  }

  /** The name is the directory or lexically below it. */
  predicate Inside(name: string, directory: string) {
    name == directory || HasPrefix(name, directory + "/")
  }

  // ---- What they mean ----

  predicate Plain(p: string) {
    p != "" && p != "." && p != ".." && NoSlash(p)
  }

  predicate AllPlain(parts: seq<string>) {
    forall p <- parts :: Plain(p)
  }

  lemma {:induction false} CleanIntoAppend(done: seq<string>, a: seq<string>, b: seq<string>, rooted: bool)
    ensures CleanInto(done, a + b, rooted) == CleanInto(CleanInto(done, a, rooted), b, rooted)
    decreases |a|
  {
    if a == [] {
      assert a + b == b;
    } else {
      assert (a + b)[1..] == a[1..] + b && (a + b)[0] == a[0];
      CleanIntoAppend(CleanStep(done, a[0], rooted), a[1..], b, rooted);
    }
  }

  lemma {:induction false} CleanIntoPlain(done: seq<string>, parts: seq<string>, rooted: bool)
    requires AllPlain(parts)
    ensures CleanInto(done, parts, rooted) == done + parts
    decreases |parts|
  {
    if parts != [] {
      assert parts[0] in parts && Plain(parts[0]);
      CleanIntoPlain(done + [parts[0]], parts[1..], rooted);
      assert done + parts == done + [parts[0]] + parts[1..];
    }
  }

  // ---- What ".." does ----

  function Ups(n: nat): (r: seq<string>)
    ensures |r| == n && forall p <- r :: p == ".."
  {
    seq(n, _ => "..")
  }

  /** A component that says nothing may stand anywhere. */
  lemma NothingChanges(done: seq<string>, a: seq<string>, p: string, b: seq<string>, rooted: bool)
    requires p == "" || p == "."
    ensures CleanInto(done, a + [p] + b, rooted) == CleanInto(done, a + b, rooted)
  {
    assert a + [p] + b == a + ([p] + b) && ([p] + b)[1..] == b;
    CleanIntoAppend(done, a, [p] + b, rooted);
    CleanIntoAppend(done, a, b, rooted);
  }

  /** Going down and up again cancels anywhere. */
  lemma DownAndUpCancels(done: seq<string>, a: seq<string>, p: string, b: seq<string>, rooted: bool)
    requires Plain(p)
    ensures CleanInto(done, a + [p, ".."] + b, rooted) == CleanInto(done, a + b, rooted)
  {
    var at := CleanInto(done, a, rooted);
    assert a + [p, ".."] + b == a + ([p, ".."] + b);
    assert ([p, ".."] + b)[1..] == [".."] + b && ([".."] + b)[1..] == b;
    CleanIntoAppend(done, a, [p, ".."] + b, rooted);
    CleanIntoAppend(done, a, b, rooted);
    assert (at + [p])[..|at + [p]| - 1] == at;
    assert CleanInto(at, [p, ".."] + b, rooted) == CleanInto(at + [p], [".."] + b, rooted);
  }

  /** From below plain components, n times ".." takes n of them back, and climbs with what is left over. */
  lemma {:induction false} UpsTakeBack(front: seq<string>, n: nat)
    requires AllPlain(front)
    ensures CleanInto(front, Ups(n), false) == if n <= |front| then front[..|front| - n] else Ups(n - |front|)
    decreases n
  {
    if n == 0 {
      assert front[..|front|] == front;
    } else {
      var most := CleanInto(front, Ups(n - 1), false);
      assert Ups(n) == Ups(n - 1) + [".."] && [".."][1..] == [];
      CleanIntoAppend(front, Ups(n - 1), [".."], false);
      UpsTakeBack(front, n - 1);
      assert CleanInto(most, [".."], false) == CleanStep(most, "..", false);
      if n <= |front| {
        assert most[|most| - 1] in front;
        assert most[..|most| - 1] == front[..|front| - n];
      } else {
        assert most == Ups(n - 1 - |front|);
        assert most + [".."] == Ups(n - |front|);
      }
    }
  }

  /** Where climbing n times and then going down ends. */
  function Destination(front: seq<string>, n: nat, rest: seq<string>): seq<string> {
    if n <= |front| then front[..|front| - n] + rest else Ups(n - |front|) + rest
  }

  /** Climbing n times and then going down a plain way, from below plain components. */
  lemma ClimbAndDescend(front: seq<string>, n: nat, rest: seq<string>)
    requires AllPlain(front) && AllPlain(rest)
    ensures CleanInto(front, Ups(n) + rest, false) == Destination(front, n, rest)
  {
    CleanIntoAppend(front, Ups(n), rest, false);
    UpsTakeBack(front, n);
    CleanIntoPlain(CleanInto(front, Ups(n), false), rest, false);
  }

  /** Such a way leads into a directory exactly when it does not climb out of it, or comes back. */
  lemma LeadsInside(front: seq<string>, n: nat, rest: seq<string>, keg: seq<string>)
    requires AllPlain(front) && AllPlain(rest) && AllPlain(keg) && keg != [] && (keg <= front || front <= keg)
    ensures keg <= CleanInto(front, Ups(n) + rest, false) <==>
      n <= |front| && (n <= |front| - |keg| || keg[|front| - n..] <= rest)
  {
    ClimbAndDescend(front, n, rest);
    DestinationInside(front, n, rest, keg);
  }

  lemma DestinationInside(front: seq<string>, n: nat, rest: seq<string>, keg: seq<string>)
    requires AllPlain(keg) && keg != [] && (keg <= front || front <= keg)
    ensures keg <= Destination(front, n, rest) <==>
      n <= |front| && (n <= |front| - |keg| || keg[|front| - n..] <= rest)
  {
    if n > |front| {
      ClimbedOut(n - |front|, rest, keg);
    } else {
      CutAndExtended(front, |front| - n, rest, keg);
    }
  }

  lemma CutAndExtended(front: seq<string>, kept: nat, rest: seq<string>, keg: seq<string>)
    requires kept <= |front| && (keg <= front || front <= keg)
    ensures keg <= front[..kept] + rest <==> |keg| <= kept || keg[kept..] <= rest
  {
    if kept < |keg| {
      assert front[..kept] == keg[..kept] && keg == keg[..kept] + keg[kept..];
      CommonFront(keg[..kept], keg[kept..], rest);
    }
  }

  lemma ClimbedOut(n: nat, rest: seq<string>, keg: seq<string>)
    requires n > 0 && keg != [] && AllPlain(keg)
    ensures !(keg <= Ups(n) + rest)
  {
    assert (Ups(n) + rest)[0] == ".." && keg[0] in keg;
  }

  lemma CommonFront(a: seq<string>, b: seq<string>, c: seq<string>)
    ensures a + b <= a + c <==> b <= c
  {
    if a + b <= a + c {
      assert forall i | 0 <= i < |b| :: b[i] == (a + b)[|a| + i] && (a + c)[|a| + i] == c[i];
    }
  }

  /** Every relative way amounts to climbing some times and then going down a plain way. */
  lemma {:induction false} EveryWayClimbsAndDescends(
    front: seq<string>, parts: seq<string>) returns (n: nat, rest: seq<string>)
    requires AllPlain(front) && forall p <- parts :: NoSlash(p)
    ensures AllPlain(rest) && CleanInto([], parts, false) == Ups(n) + rest
    ensures CleanInto(front, parts, false) == CleanInto(front, Ups(n) + rest, false)
    decreases |parts|
  {
    if parts == [] {
      n, rest := 0, [];
    } else {
      var init, p := parts[..|parts| - 1], parts[|parts| - 1];
      assert parts == init + [p] && p in parts;
      var m, way := EveryWayClimbsAndDescends(front, init);
      ClimbIsClean(m, way);
      n, rest := OneMorePart(m, way, p);
      SameAfterOneMore([], init, p, m, way, n, rest);
      SameAfterOneMore(front, init, p, m, way, n, rest);
      ClimbIsClean(n, rest);
    }
  }

  lemma ClimbIsClean(n: nat, rest: seq<string>)
    requires AllPlain(rest)
    ensures CleanInto([], Ups(n) + rest, false) == Ups(n) + rest
  {
    ClimbAndDescend([], n, rest);
    assert n == 0 ==> [] + rest == Ups(0) + rest;
  }

  lemma OneMorePart(m: nat, way: seq<string>, p: string) returns (n: nat, rest: seq<string>)
    requires AllPlain(way) && NoSlash(p)
    ensures AllPlain(rest)
    ensures forall front | AllPlain(front) ::
      CleanInto(front, Ups(m) + way + [p], false) == CleanInto(front, Ups(n) + rest, false)
  {
    n, rest := m, way;
    if p == "" || p == "." {
      forall front { NothingChanges(front, Ups(m) + way, p, [], false); }
      assert Ups(m) + way + [p] + [] == Ups(m) + way + [p] && Ups(m) + way + [] == Ups(m) + way;
    } else if p != ".." {
      rest := way + [p];
      assert Ups(m) + way + [p] == Ups(n) + rest;
    } else if way == [] {
      n := m + 1;
      assert Ups(m) + way + [p] == Ups(n) + rest;
    } else {
      rest := way[..|way| - 1];
      var last := way[|way| - 1];
      assert last in way && Ups(m) + way + [p] == (Ups(m) + rest) + [last, ".."] + [];
      assert (Ups(m) + rest) + [] == Ups(m) + rest;
      forall front { DownAndUpCancels(front, Ups(m) + rest, last, [], false); }
    }
  }

  lemma SameAfterOneMore(
    front: seq<string>, init: seq<string>, p: string, m: nat, way: seq<string>, n: nat, rest: seq<string>)
    requires CleanInto(front, init, false) == CleanInto(front, Ups(m) + way, false)
    requires CleanInto(front, Ups(m) + way + [p], false) == CleanInto(front, Ups(n) + rest, false)
    ensures CleanInto(front, init + [p], false) == CleanInto(front, Ups(n) + rest, false)
  {
    CleanIntoAppend(front, init, [p], false);
    CleanIntoAppend(front, Ups(m) + way, [p], false);
  }

  /** Nothing that is cleaned holds an empty component or "."; ".." stays only in front of a relative path. */
  predicate Cleaned(parts: seq<string>) {
    && (forall p <- parts :: p != "" && p != "." && NoSlash(p))
    && forall i | 0 < i < |parts| :: parts[i] == ".." ==> parts[i - 1] == ".."
  }

  lemma PlainIsCleaned(parts: seq<string>)
    requires AllPlain(parts)
    ensures Cleaned(parts)
  {
    forall i | 0 < i < |parts| ensures parts[i] != ".." {
      assert parts[i] in parts;
    }
  }

  lemma {:induction false} CleanIntoCleans(done: seq<string>, parts: seq<string>, rooted: bool)
    requires Cleaned(done) && (forall p <- parts :: NoSlash(p)) && (rooted ==> AllPlain(done))
    ensures Cleaned(CleanInto(done, parts, rooted))
    ensures rooted ==> AllPlain(CleanInto(done, parts, rooted))
    decreases |parts|
  {
    if parts != [] {
      assert parts[0] in parts;
      StepCleans(done, parts[0], rooted);
      CleanIntoCleans(CleanStep(done, parts[0], rooted), parts[1..], rooted);
    }
  }

  lemma StepCleans(done: seq<string>, p: string, rooted: bool)
    requires Cleaned(done) && NoSlash(p) && (rooted ==> AllPlain(done))
    ensures Cleaned(CleanStep(done, p, rooted))
    ensures rooted ==> AllPlain(CleanStep(done, p, rooted))
  {
  }

  /** A path is clean and relative, and does not climb, exactly if all its components are plain. */
  lemma CleanIsPlain(s: string)
    ensures s != "." && s != ".." && !HasPrefix(s, "../") && !IsAbs(s) && Clean(s) == s <==> AllPlain(Split(s))
  {
    SplitHasNoSlash(s);
    JoinedSplit(s);
    if AllPlain(Split(s)) {
      CleanIntoPlain([], Split(s), false);
      assert [] + Split(s) == Split(s);
      SplitFirst(s);
      assert Split(s)[0] in Split(s) && Plain(Split(s)[0]);
    } else if s != "." && s != ".." && !HasPrefix(s, "../") && !IsAbs(s) && Clean(s) == s {
      var parts := CleanInto([], Split(s), false);
      CleanIntoCleans([], Split(s), false);
      SplitJoined(parts);
      SplitFirst(s);
      ClimbsInFront(parts);
    }
  }

  lemma SplitFirst(s: string)
    ensures IsAbs(s) ==> Split(s)[0] == ""
    ensures s == "." ==> Split(s) == ["."]
    ensures s == ".." ==> Split(s) == [".."]
    ensures HasPrefix(s, "../") ==> Split(s)[0] == ".."
    ensures Split(s)[0] == ".." ==> s == ".." || HasPrefix(s, "../")
  {
    if s == "." || s == ".." { SplitWhole(s); }
    if HasPrefix(s, "../") {
      assert s == ".." + "/" + s[3..];
      SplitAt("..", s[3..]);
      SplitWhole("..");
    }
    JoinedSplit(s);
  }

  lemma {:induction false} ClimbsInFront(parts: seq<string>)
    requires Cleaned(parts) && parts != [] && parts[0] != ".."
    ensures AllPlain(parts)
    decreases |parts|
  {
    if |parts| > 1 {
      var shorter := parts[..|parts| - 1];
      assert forall p <- shorter :: p in parts;
      ClimbsInFront(shorter);
      assert parts == shorter + [parts[|parts| - 1]];
      assert Plain(shorter[|shorter| - 1]);
    }
  }

  /** The directory of a plain path is the path without its last component. */
  lemma DirOfPlain(s: string)
    requires AllPlain(Split(s))
    ensures Dir(s) == if |Split(s)| == 1 then "." else Joined(Split(s)[..|Split(s)| - 1])
  {
    var parts, u := Split(s), UpToLastSlash(s);
    UpToLast(s);
    SplitFirst(u);
    if |parts| == 1 {
      SplitWhole("");
      assert CleanInto([], [""], false) == CleanInto([], [], false);
    } else {
      var front := parts[..|parts| - 1];
      assert parts[0] in parts && Split(u)[0] == parts[0];
      FrontCleaned(front);
      JoinedStarts(front);
    }
  }

  lemma FrontCleaned(front: seq<string>)
    requires AllPlain(front)
    ensures CleanInto([], front + [""], false) == front
  {
    CleanIntoAppend([], front, [""], false);
    CleanIntoPlain([], front, false);
    assert [] + front == front;
  }

  lemma {:induction false} UpToLast(s: string)
    ensures Split(UpToLastSlash(s)) == Split(s)[..|Split(s)| - 1] + [""]
    ensures |Split(s)| == 1 ==> UpToLastSlash(s) == ""
    decreases |s|
  {
    if s != "" {
      var init, last := s[..|s| - 1], s[|s| - 1];
      if last == '/' {
        assert s == init + "/" + "";
        SplitAt(init, "");
      } else {
        UpToLast(init);
        SplitSnoc(init, last);
        assert s == init + [last];
      }
    }
  }

  /** What one more character at the end does to the components. */
  function Snoc(parts: seq<string>, c: char): seq<string>
    requires parts != []
  {
    parts[..|parts| - 1] + [parts[|parts| - 1] + [c]]
  }

  lemma ConsSnoc(b: char, parts: seq<string>, c: char)
    requires parts != []
    ensures Cons(b, Snoc(parts, c)) == Snoc(Cons(b, parts), c)
  {
    if |parts| == 1 {
      assert [b] + (parts[0] + [c]) == [b] + parts[0] + [c];
    }
  }

  lemma {:induction false} SplitSnoc(s: string, c: char)
    requires c != '/'
    ensures Split(s + [c]) == Snoc(Split(s), c)
  {
    if s == "" {
      assert s + [c] == [c];
      SplitWhole([c]);
    } else {
      var b, rest := s[0], s[1..];
      SplitSnoc(rest, c);
      assert s == [b] + rest && s + [c] == [b] + (rest + [c]);
      SplitCons(b, rest);
      SplitCons(b, rest + [c]);
      ConsSnoc(b, Split(rest), c);
    }
  }

  /** Being inside a directory is having its components in front. */
  lemma InsideMeans(name: string, directory: string)
    ensures Inside(name, directory) <==> Split(directory) <= Split(name)
  {
    if name != directory && HasPrefix(name, directory + "/") {
      var below := name[|directory| + 1..];
      assert name == directory + "/" + below;
      SplitAt(directory, below);
    }
    if Split(directory) <= Split(name) {
      FrontIsInside(name, directory);
    }
  }

  lemma FrontIsInside(name: string, directory: string)
    requires Split(directory) <= Split(name)
    ensures Inside(name, directory)
  {
    var d, n := Split(directory), Split(name);
    if |d| == |n| {
      SplitInjective(name, directory);
    } else {
      JoinedSplit(directory);
      JoinedSplit(name);
      assert n == d + n[|d|..];
      JoinedAppend(d, n[|d|..]);
      assert name == directory + "/" + Joined(n[|d|..]);
    }
  }

  lemma {:induction false} JoinedAppend(a: seq<string>, b: seq<string>)
    requires a != [] && b != []
    ensures Joined(a + b) == Joined(a) + "/" + Joined(b)
  {
    if |a| == 1 {
      assert (a + b)[1..] == b;
    } else {
      JoinedAppend(a[1..], b);
      assert (a + b)[1..] == a[1..] + b;
    }
  }

  /** Where a relative link in a plain directory points, component by component. */
  lemma TargetMeans(directory: seq<string>, link: string, keg: seq<string>)
    requires directory != [] && AllPlain(directory) && keg != [] && AllPlain(keg)
    ensures Inside(Clean(Join(Joined(directory), link)), Joined(keg)) <==>
      keg <= CleanInto(directory, Split(link), false)
  {
    var target := CleanInto(directory, Split(link), false);
    SplitHasNoSlash(link);
    PlainIsCleaned(directory);
    CleanIntoCleans(directory, Split(link), false);
    JoinIsTarget(directory, link);
    CleanTwice(target);
    SplitJoined(keg);
    if target != [] { SplitJoined(target); } else { SplitWhole("."); }
    assert keg[0] in keg && Plain(keg[0]);
    InsideMeans(Text(target), Joined(keg));
  }

  /** The text of a cleaned relative path. */
  function Text(parts: seq<string>): string {
    if parts == [] then "." else Joined(parts)
  }

  lemma JoinIsTarget(directory: seq<string>, link: string)
    requires directory != [] && AllPlain(directory)
    ensures Join(Joined(directory), link) == Text(CleanInto(directory, Split(link), false))
  {
    var text := Joined(directory) + "/" + link;
    JoinedStarts(directory);
    assert text != "" && text[0] == Joined(directory)[0];
    SplitJoined(directory);
    SplitAt(Joined(directory), link);
    CleanIntoAppend([], directory, Split(link), false);
    CleanIntoPlain([], directory, false);
    assert [] + directory == directory;
  }

  lemma JoinedStarts(parts: seq<string>)
    requires parts != [] && AllPlain(parts)
    ensures Joined(parts) != "" && Joined(parts)[0] != '/'
  {
    assert Plain(parts[0]);
    assert parts[0][0] in parts[0];
  }

  /** Cleaning what is clean changes nothing. */
  lemma CleanTwice(parts: seq<string>)
    requires Cleaned(parts)
    ensures Clean(Text(parts)) == Text(parts)
  {
    if parts == [] {
      SplitWhole(".");
    } else {
      SplitJoined(parts);
      assert parts[0] in parts && parts[0] != "" && NoSlash(parts[0]);
      assert parts[0][0] in parts[0] && Joined(parts)[0] == parts[0][0];
      CleanIntoSame([], parts);
      assert [] + parts == parts;
    }
  }

  lemma {:induction false} CleanIntoSame(done: seq<string>, parts: seq<string>)
    requires Cleaned(done + parts)
    ensures CleanInto(done, parts, false) == done + parts
    decreases |parts|
  {
    if parts != [] {
      var next := done + [parts[0]];
      assert next + parts[1..] == done + parts;
      assert (done + parts)[|done|] == parts[0] && parts[0] in done + parts;
      if done != [] {
        assert (done + parts)[|done| - 1] == done[|done| - 1];
      }
      assert CleanStep(done, parts[0], false) == next;
      CleanIntoSame(next, parts[1..]);
    }
  }
}
