/**
 Matching an observed installation against a plan: which action each node needs,
 and when a run that succeeded leaves nothing more to do.
 */
module InstalledState {
  import opened Domain
  import opened PolicyGraph
  import opened Scheduler

  const MAX_INSTALLED := 32

  datatype InstalledVersion = InstalledVersion(
    version: string, onRequest: bool, options: seq<string>, poured: bool, built: bool)

  datatype InstalledFormula = InstalledFormula(
    name: string, pinned: bool, outdated: bool, activeVersion: Option<string>, linkIncomplete: bool,
    installed: seq<InstalledVersion>)

  /** What was asked for: install or upgrade, and the names it was asked of. */
  datatype Request = Request(operation: Operation, targets: seq<string>)

  function Decimal(n: nat): string {
    if n < 10 then [('0' as int + n) as char] else Decimal(n / 10) + [('0' as int + n % 10) as char]
  }

  function DigitsValue(digits: string): int {
    if digits == "" then 0
    else DigitsValue(digits[..|digits| - 1]) * 10 + (digits[|digits| - 1] as int - '0' as int)
  }

  /** Decimal writes a number so that its digits read as that number, with none to spare. */
  lemma {:induction false} DecimalReads(n: nat)
    ensures Decimal(n) != "" && forall c <- Decimal(n) :: '0' <= c <= '9'
    ensures DigitsValue(Decimal(n)) == n && (Decimal(n)[0] == '0' ==> n == 0)
  {
    if n >= 10 {
      DecimalReads(n / 10);
      assert Decimal(n)[..|Decimal(n)| - 1] == Decimal(n / 10);
      assert Decimal(n)[0] == Decimal(n / 10)[0];
    } else {
      assert Decimal(n)[..0] == "";
    }
  }

  /** A keg is named by its version, followed by an underscore and the revision when there is one. */
  lemma KegMeans(a: Artifact, revision: string)
    requires a.revision >= 0 && forall c <- revision :: '0' <= c <= '9'
    requires revision != "" && revision[0] != '0'
    ensures a.revision == 0 ==> Keg(a) == a.version
    ensures a.revision > 0 ==> (Keg(a) == a.version + "_" + revision <==> DigitsValue(revision) == a.revision)
  {
    if a.revision > 0 {
      DecimalReads(a.revision);
      var digits := Decimal(a.revision);
      assert Keg(a)[|a.version| + 1..] == digits;
      assert (a.version + "_" + revision)[|a.version| + 1..] == revision;
      if DigitsValue(revision) == a.revision { SameDigits(revision, digits); }
    }
  }

  lemma {:induction false} SameDigits(x: string, y: string)
    requires x != "" && y != "" && x[0] != '0' && y[0] != '0'
    requires (forall c <- x :: '0' <= c <= '9') && (forall c <- y :: '0' <= c <= '9')
    requires DigitsValue(x) == DigitsValue(y)
    ensures x == y
    decreases |x|
  {
    var a, b := x[..|x| - 1], y[..|y| - 1];
    assert (forall c <- a :: c in x) && (forall c <- b :: c in y);
    var c, d := x[|x| - 1], y[|y| - 1];
    assert c in x && d in y && x == a + [c] && y == b + [d];
    assert DigitsValue(a) == DigitsValue(b) && c == d;
    if a == "" && b != "" { PositiveValue(b); }
    if b == "" && a != "" { PositiveValue(a); }
    if a != "" && b != "" { SameDigits(a, b); }
  }

  lemma {:induction false} PositiveValue(digits: string)
    requires digits != "" && digits[0] != '0' && forall c <- digits :: '0' <= c <= '9'
    ensures DigitsValue(digits) > 0
    decreases |digits|
  {
    var init := digits[..|digits| - 1];
    assert digits[0] in digits && forall c <- init :: c in digits;
    assert digits[|digits| - 1] in digits;
    if init != "" {
      PositiveValue(init);
      assert DigitsValue(digits) >= DigitsValue(init) * 10;
    }
  }

  function KegVersion(version: string, revision: int): string {
    if revision > 0 then version + "_" + Decimal(revision) else version
  }

  function Keg(a: Artifact): string {
    KegVersion(a.version, a.revision)
  }

  predicate SupportedBottle(v: InstalledVersion) {
    v.options == [] && v.poured && v.built
  }

  // ---- One node ----

  function LastOf(installed: seq<InstalledVersion>, version: string): Option<InstalledVersion> {
    if installed == [] then None
    else if installed[|installed| - 1].version == version then Some(installed[|installed| - 1])
    else LastOf(installed[..|installed| - 1], version)
  }

  /** The receipt the active version answers to: the last one, provided every one is a supported bottle. */
  function ActiveReceipt(installed: seq<InstalledVersion>, version: string): Option<InstalledVersion> {
    if forall v <- installed :: v.version == version ==> SupportedBottle(v) then LastOf(installed, version) else None
  }

  /** The action a node needs, or None when its state must be repaired by hand first. */
  function ActionNeeded(state: InstalledFormula, candidate: Artifact, request: Request): Option<Operation> {
    if state.installed == [] then
      if request.operation.Upgrade? && state.name in request.targets then None else Some(Install)
    else if state.activeVersion.None? || state.activeVersion.value == "" then None
    else
      var receipt := ActiveReceipt(state.installed, state.activeVersion.value);
      if receipt.None? then None
      else if state.activeVersion.value != Keg(candidate) then if state.outdated then Some(Upgrade) else None
      else if request.operation.Install? && state.name in request.targets && !receipt.value.onRequest then Some(Install)
      else Some(Keep)
  }

  // ---- What the action means ----

  /** The public information has receipts of this version, every one of them of a supported bottle. */
  predicate Bottled(state: InstalledFormula, version: string) {
    && (exists v <- state.installed :: v.version == version)
    && forall v <- state.installed :: v.version == version ==> v.options == [] && v.poured && v.built
  }

  predicate LastAt(installed: seq<InstalledVersion>, version: string, k: nat) {
    && k < |installed| && installed[k].version == version
    && forall j | k < j < |installed| :: installed[j].version != version
  }

  /** The last receipt of this version is marked as asked for. */
  predicate AskedFor(state: InstalledFormula, version: string) {
    exists k | 0 <= k < |state.installed| :: LastAt(state.installed, version, k) && state.installed[k].onRequest
  }

  /** The active version is this one, and its receipts are in order. */
  predicate Active(state: InstalledFormula, version: string) {
    version != "" && state.activeVersion == Some(version) && Bottled(state, version)
  }

  predicate Asks(request: Request, operation: Operation, name: string) {
    request.operation == operation && name in request.targets
  }

  /** The planned keg is active, and marked as asked for where the request asks for it. */
  predicate NeedsNothing(state: InstalledFormula, candidate: Artifact, request: Request) {
    && Active(state, Keg(candidate))
    && (Asks(request, Install, state.name) ==> AskedFor(state, Keg(candidate)))
  }

  /**
   Nothing is installed and no upgrade of it is asked for, or the planned keg is active but not marked
   as asked for.
   */
  predicate NeedsInstall(state: InstalledFormula, candidate: Artifact, request: Request) {
    || (state.installed == [] && !Asks(request, Upgrade, state.name))
    || (Active(state, Keg(candidate)) && Asks(request, Install, state.name) && !AskedFor(state, Keg(candidate)))
  }

  /** Another version is active, and Homebrew calls it outdated. */
  predicate NeedsUpgrade(state: InstalledFormula, candidate: Artifact) {
    && state.outdated && state.activeVersion.Some? && state.activeVersion.value != Keg(candidate)
    && Active(state, state.activeVersion.value)
  }

  lemma ActionMeans(state: InstalledFormula, candidate: Artifact, request: Request)
    ensures ActionNeeded(state, candidate, request) == Some(Keep) <==> NeedsNothing(state, candidate, request)
    ensures ActionNeeded(state, candidate, request) == Some(Install) <==> NeedsInstall(state, candidate, request)
    ensures ActionNeeded(state, candidate, request) == Some(Upgrade) <==> NeedsUpgrade(state, candidate)
  {
    if state.installed != [] && state.activeVersion.Some? {
      ReceiptMeans(state, state.activeVersion.value);
    }
  }

  lemma ReceiptMeans(state: InstalledFormula, version: string)
    ensures ActiveReceipt(state.installed, version).Some? <==> Bottled(state, version)
    ensures ActiveReceipt(state.installed, version).Some? ==>
      (ActiveReceipt(state.installed, version).value.onRequest <==> AskedFor(state, version))
  {
    LastHasVersion(state.installed, version);
    LastIsLast(state.installed, version);
  }

  lemma {:induction false} LastIsLast(installed: seq<InstalledVersion>, version: string)
    ensures forall k: nat :: LastAt(installed, version, k) ==> LastOf(installed, version) == Some(installed[k])
    ensures LastOf(installed, version).Some? ==> exists k: nat :: LastAt(installed, version, k)
  {
    if installed != [] {
      var init, last := installed[..|installed| - 1], |installed| - 1;
      LastIsLast(init, version);
      if installed[last].version == version {
        assert LastAt(installed, version, last);
      } else {
        forall k: nat | LastAt(installed, version, k) ensures LastAt(init, version, k) {}
        if k: nat :| LastAt(init, version, k) { assert LastAt(installed, version, k); }
      }
    }
  }

  method InstalledAction(state: InstalledFormula, candidate: Artifact, request: Request) returns (r: Option<Operation>)
    ensures r == ActionNeeded(state, candidate, request)
    ensures r == Some(Keep) <==> NeedsNothing(state, candidate, request)
    ensures r == Some(Install) <==> NeedsInstall(state, candidate, request)
    ensures r == Some(Upgrade) <==> NeedsUpgrade(state, candidate)
  {
    ActionMeans(state, candidate, request);
    if |state.installed| == 0 {
      if request.operation.Upgrade? && state.name in request.targets {
        return None;
      }
      return Some(Install);
    }
    if state.activeVersion.None? || state.activeVersion.value == "" {
      return None;
    }
    var active := state.activeVersion.value;
    var activeVersion: Option<InstalledVersion> := None;
    for i := 0 to |state.installed|
      invariant activeVersion == LastOf(state.installed[..i], active)
      invariant forall v <- state.installed[..i] :: v.version == active ==> SupportedBottle(v)
    {
      var version := state.installed[i];
      assert state.installed[..i + 1][..i] == state.installed[..i];
      assert version in state.installed;
      if version.version == active {
        if |version.options| != 0 || !version.poured || !version.built {
          return None;
        }
        activeVersion := Some(version);
      }
    }
    assert state.installed[..|state.installed|] == state.installed;
    if activeVersion.None? {
      return None;
    }
    LastHasVersion(state.installed, active);
    if activeVersion.value.version != Keg(candidate) {
      return if state.outdated then Some(Upgrade) else None;
    }
    if request.operation.Install? && state.name in request.targets && !activeVersion.value.onRequest {
      return Some(Install);
    }
    return Some(Keep);
  }

  lemma {:induction false} LastHasVersion(installed: seq<InstalledVersion>, version: string)
    ensures LastOf(installed, version).Some? ==>
      LastOf(installed, version).value.version == version && LastOf(installed, version).value in installed
    ensures LastOf(installed, version).None? ==> forall v <- installed :: v.version != version
  {
    if installed != [] {
      LastHasVersion(installed[..|installed| - 1], version);
      assert forall v <- installed :: v in installed[..|installed| - 1] || v == installed[|installed| - 1];
    }
  }

  // ---- All nodes ----

  type World = map<string, InstalledFormula>

  predicate Actionable(state: InstalledFormula) {
    !state.pinned && |state.installed| <= MAX_INSTALLED && !state.linkIncomplete
  }

  function NodeAction(world: World, n: Node, request: Request): Option<Action> {
    if n.artifact.name !in world || !Actionable(world[n.artifact.name]) then None
    else
      var operation := ActionNeeded(world[n.artifact.name], n.artifact, request);
      if operation.None? then None else Some(Action(n.artifact.name, operation.value))
  }

  function ActionsFor(world: World, nodes: seq<Node>, request: Request): Option<seq<Action>> {
    if nodes == [] then Some([])
    else
      var earlier := ActionsFor(world, nodes[..|nodes| - 1], request);
      var last := NodeAction(world, nodes[|nodes| - 1], request);
      if earlier.None? || last.None? then None else Some(earlier.value + [last.value])
  }

  function ByName(states: seq<InstalledFormula>): World {
    if states == [] then map[] else ByName(states[..|states| - 1])[states[|states| - 1].name := states[|states| - 1]]
  }

  predicate DistinctStates(states: seq<InstalledFormula>) {
    forall i, j :: 0 <= i < j < |states| ==> states[i].name != states[j].name
  }

  lemma {:induction false} ByNameFinds(states: seq<InstalledFormula>)
    ensures forall name :: name in ByName(states) <==> exists s <- states :: s.name == name
    ensures forall name <- ByName(states) :: ByName(states)[name].name == name
  {
    if states != [] {
      ByNameFinds(states[..|states| - 1]);
      assert forall s <- states :: s in states[..|states| - 1] || s == states[|states| - 1];
    }
  }

  lemma {:induction false} ByNameKeeps(states: seq<InstalledFormula>, s: InstalledFormula)
    requires DistinctStates(states) && s in states
    ensures s.name in ByName(states) && ByName(states)[s.name] == s
  {
    var init, last := states[..|states| - 1], states[|states| - 1];
    var i :| 0 <= i < |states| && states[i] == s;
    if i < |init| {
      assert init[i] == s;
      ByNameKeeps(init, s);
    }
  }

  /** The action is the one this state calls for, and the state can be worked with. */
  predicate CallsFor(s: InstalledFormula, candidate: Artifact, request: Request, operation: Operation) {
    && !s.pinned && !s.linkIncomplete && |s.installed| <= MAX_INSTALLED
    && match operation
       case Keep => NeedsNothing(s, candidate, request)
       case Install => NeedsInstall(s, candidate, request)
       case Upgrade => NeedsUpgrade(s, candidate)
  }

  /** An observed state of this node calls for this operation. */
  predicate Observed(states: seq<InstalledFormula>, n: Node, request: Request, operation: Operation) {
    exists s <- states :: s.name == n.artifact.name && CallsFor(s, n.artifact, request, operation)
  }

  /** It calls for some operation: nothing has to be repaired by hand first. */
  ghost predicate Workable(states: seq<InstalledFormula>, n: Node, request: Request) {
    exists operation: Operation :: Observed(states, n, request, operation)
  }

  lemma NodeActionMeans(states: seq<InstalledFormula>, n: Node, request: Request, operation: Operation)
    requires DistinctStates(states)
    ensures NodeAction(ByName(states), n, request) == Some(Action(n.artifact.name, operation))
       <==> Observed(states, n, request, operation)
  {
    ByNameFinds(states);
    if n.artifact.name in ByName(states) {
      var s := ByName(states)[n.artifact.name];
      var t :| t in states && t.name == n.artifact.name;
      ByNameKeeps(states, t);
      ActionMeans(s, n.artifact, request);
      forall u | u in states && u.name == n.artifact.name ensures u == s { ByNameKeeps(states, u); }
    }
  }

  lemma {:induction false} FailureStays(world: World, nodes: seq<Node>, request: Request, n: nat)
    requires n <= |nodes| && ActionsFor(world, nodes[..n], request).None?
    ensures ActionsFor(world, nodes, request).None?
    decreases |nodes|
  {
    if n < |nodes| {
      assert nodes[..|nodes| - 1][..n] == nodes[..n];
      FailureStays(world, nodes[..|nodes| - 1], request, n);
    } else {
      assert nodes[..n] == nodes;
    }
  }

  /** Observed states by name; a repeated name is no observation. */
  method IndexStates(states: seq<InstalledFormula>) returns (r: Option<World>)
    ensures r == if DistinctStates(states) then Some(ByName(states)) else None
  {
    var byName: World := map[];
    for i := 0 to |states|
      invariant byName == ByName(states[..i])
      invariant DistinctStates(states[..i])
    {
      assert states[..i + 1][..i] == states[..i];
      ByNameFinds(states[..i]);
      if states[i].name in byName {
        ghost var s :| s in states[..i] && s.name == states[i].name;
        ghost var j :| 0 <= j < i && states[j] == s;
        assert states[j].name == states[i].name;
        return None;
      }
      byName := byName[states[i].name := states[i]];
    }
    assert states[..|states|] == states;
    return Some(byName);
  }

  method CheckNode(byName: World, node: Node, request: Request) returns (r: Option<Action>)
    requires forall name <- byName :: byName[name].name == name
    ensures r == NodeAction(byName, node, request)
  {
    if node.artifact.name !in byName {
      return None;
    }
    var state := byName[node.artifact.name];
    if state.pinned || |state.installed| > MAX_INSTALLED || state.linkIncomplete {
      return None;
    }
    var operation := InstalledAction(state, node.artifact, request);
    if operation.None? {
      return None;
    }
    return Some(Action(state.name, operation.value));
  }

  /** One action per node, or nothing when any node's state is missing, repeated or unusable. */
  method PublicActions(
    states: seq<InstalledFormula>, nodes: seq<Node>, request: Request) returns (r: Option<seq<Action>>)
    ensures r == if |states| == |nodes| && DistinctStates(states)
                 then ActionsFor(ByName(states), nodes, request) else None
    ensures r.Some? ==> |r.value| == |nodes| && forall i :: 0 <= i < |nodes| ==>
      r.value[i].name == nodes[i].artifact.name && Observed(states, nodes[i], request, r.value[i].operation)
    ensures r.Some? <==>
      && |states| == |nodes| && DistinctStates(states)
      && forall n <- nodes :: Workable(states, n, request)
  {
    if DistinctStates(states) { ActionsMean(states, nodes, request); }
    if |states| != |nodes| {
      return None;
    }
    var indexed := IndexStates(states);
    if indexed.None? {
      return None;
    }
    var byName := indexed.value;
    ByNameFinds(states);
    var result: seq<Action> := [];
    for i := 0 to |nodes|
      invariant ActionsFor(byName, nodes[..i], request) == Some(result)
    {
      var node := nodes[i];
      assert nodes[..i + 1][..i] == nodes[..i];
      var action := CheckNode(byName, node, request);
      if action.None? {
        FailureStays(byName, nodes, request, i + 1);
        return None;
      }
      result := result + [action.value];
    }
    assert nodes[..|nodes|] == nodes;
    return Some(result);
  }

  lemma {:induction false} ActionsForMeans(world: World, nodes: seq<Node>, request: Request)
    ensures ActionsFor(world, nodes, request).Some? <==> forall n <- nodes :: NodeAction(world, n, request).Some?
    ensures ActionsFor(world, nodes, request).Some? ==>
      var actions := ActionsFor(world, nodes, request).value;
      && |actions| == |nodes|
      && forall i :: 0 <= i < |nodes| ==> NodeAction(world, nodes[i], request) == Some(actions[i])
  {
    if nodes != [] {
      ActionsForMeans(world, nodes[..|nodes| - 1], request);
      assert forall n <- nodes :: n in nodes[..|nodes| - 1] || n == nodes[|nodes| - 1];
    }
  }

  lemma ActionsMean(states: seq<InstalledFormula>, nodes: seq<Node>, request: Request)
    requires DistinctStates(states)
    ensures var r := ActionsFor(ByName(states), nodes, request);
      && (r.Some? <==> forall n <- nodes :: Workable(states, n, request))
      && (r.Some? ==> |r.value| == |nodes| && forall i :: 0 <= i < |nodes| ==>
            r.value[i].name == nodes[i].artifact.name && Observed(states, nodes[i], request, r.value[i].operation))
  {
    var world := ByName(states);
    ActionsForMeans(world, nodes, request);
    forall n, operation { NodeActionMeans(states, n, request, operation); }
    forall n | n in nodes
      ensures NodeAction(world, n, request).Some? <==> Workable(states, n, request)
    {
      if NodeAction(world, n, request).Some? {
        var action := NodeAction(world, n, request).value;
        assert Observed(states, n, request, action.operation);
      }
    }
  }

  // ---- What successful commands do ----

  function OtherVersions(installed: seq<InstalledVersion>, version: string): seq<InstalledVersion> {
    if installed == [] then []
    else
      OtherVersions(installed[..|installed| - 1], version)
      + if installed[|installed| - 1].version == version then [] else [installed[|installed| - 1]]
  }

  /**
   The effect of one successful command on its formula: the planned keg becomes the
   active, linked and unpinned bottle, marked as requested unless installed as a
   dependency; there are as many kegs of other versions as before.
   */
  predicate Effect(before: InstalledFormula, after: InstalledFormula, keg: string, launch: Launch) {
    && after.name == before.name && !after.pinned && !after.linkIncomplete
    && after.activeVersion == Some(keg)
    && (exists v <- after.installed :: v.version == keg)
    && (forall v <- after.installed :: v.version == keg ==>
          SupportedBottle(v) && (launch.operation.Install? && !launch.asDependency ==> v.onRequest))
    && |after.installed| == |OtherVersions(before.installed, keg)| + 1
  }

  /** One command changes its own formula as planned and no other. */
  ghost predicate Step(before: World, after: World, nodes: seq<Node>, launch: Launch) {
    exists n <- nodes :: n.artifact.name == launch.name
      && launch.name in before && launch.name in after
      && after == before[launch.name := after[launch.name]]
      && Effect(before[launch.name], after[launch.name], Keg(n.artifact), launch)
  }

  ghost predicate Run(worlds: seq<World>, nodes: seq<Node>, launches: seq<Launch>) {
    && |worlds| == |launches| + 1
    && forall i :: 0 <= i < |launches| ==> Step(worlds[i], worlds[i + 1], nodes, launches[i])
  }

  predicate DistinctLaunches(launches: seq<Launch>) {
    forall i, j :: 0 <= i < j < |launches| ==> launches[i].name != launches[j].name
  }

  /** After the first k launches, a formula has changed exactly if it was launched, and then as planned. */
  lemma {:induction false} RunEffect(worlds: seq<World>, nodes: seq<Node>, launches: seq<Launch>, k: nat, n: Node)
    requires Run(worlds, nodes, launches) && DistinctLaunches(launches) && DistinctNames(nodes)
    requires k <= |launches| && n in nodes && n.artifact.name in worlds[0]
    ensures n.artifact.name in worlds[k]
    ensures (forall i :: 0 <= i < k ==> launches[i].name != n.artifact.name) ==>
      worlds[k][n.artifact.name] == worlds[0][n.artifact.name]
    ensures forall i :: 0 <= i < k && launches[i].name == n.artifact.name ==>
      Effect(worlds[0][n.artifact.name], worlds[k][n.artifact.name], Keg(n.artifact), launches[i])
  {
    if k > 0 {
      RunEffect(worlds, nodes, launches, k - 1, n);
      assert Step(worlds[k - 1], worlds[k], nodes, launches[k - 1]);
      if launches[k - 1].name == n.artifact.name {
        var m :| m in nodes && m.artifact.name == launches[k - 1].name
                 && Effect(
                      worlds[k - 1][m.artifact.name], worlds[k][m.artifact.name], Keg(m.artifact), launches[k - 1]);
        SameNameSameNode(nodes, m, n);
      }
    }
  }

  lemma SameNameSameNode(nodes: seq<Node>, m: Node, n: Node)
    requires DistinctNames(nodes) && m in nodes && n in nodes && m.artifact.name == n.artifact.name
    ensures m == n
  {
    var i :| 0 <= i < |nodes| && nodes[i] == m;
    var j :| 0 <= j < |nodes| && nodes[j] == n;
  }
}
