/**
 The frozen plan: what must hold of it before it is used, and how re-reading it by
 content makes every input of a later run the one that was prepared.
 */
module PreparedPlan {
  import opened Domain
  import opened Scheduler

  const MAX_PLAN_NODES := 128
  const MAX_INPUTS := 10000
  const PLAN_SCHEMA := 3
  const MAXIMUM_MINIMUM_AGE := 9223372036

  type Bytes = seq<int>

  datatype FrozenInput = FrozenInput(path: string, sha256: Digest)

  datatype Environment = Environment(runtime: Digest, brewRevision: string, osVersion: string, prefix: string)

  datatype ExecutionPlan = ExecutionPlan(
    schema: int, minimumAge: int, targets: seq<Artifact>, nodes: seq<Node>, actions: seq<Action>,
    beforeState: Digest, environment: Environment, inputs: seq<FrozenInput>, attempt: Digest,
    issuedAt: int, expiresAt: int, waivers: seq<AgeWaiver>)

  datatype GraphNode = GraphNode(artifact: Artifact, dependencies: seq<Artifact>)

  /** The trusted pieces outside the model: hashing, serialization, and which environments are supported. */
  datatype Platform = Platform(
    digest: Bytes -> Digest,
    encodePlan: ExecutionPlan -> Bytes,
    decodePlan: Bytes -> Option<ExecutionPlan>,
    encodePolicy: int -> Bytes,
    encodeGraph: seq<GraphNode> -> Bytes,
    encodeEnvironment: Environment -> Bytes,
    encodeException: AgeException -> Bytes,
    supports: Environment -> bool,
    safeRelative: string -> bool)

  /** Distinct contents have distinct digests. */
  ghost predicate Injective(digest: Bytes -> Digest) {
    forall x, y :: digest(x) == digest(y) ==> x == y
  }

  /** Decoding undoes encoding. */
  ghost predicate RoundTrips(p: Platform) {
    forall plan :: p.decodePlan(p.encodePlan(plan)) == Some(plan)
  }

  datatype Prepared = Prepared(assessment: Assessment, beforeState: Digest, exceptionID: Digest, expiresAt: int)

  // ---- Validity of a plan ----

  predicate ValidTimes(plan: ExecutionPlan) {
    plan.issuedAt > 0 && plan.expiresAt > plan.issuedAt && plan.expiresAt <= plan.issuedAt + 600
  }

  predicate ValidHeader(plan: ExecutionPlan) {
    && 0 <= plan.minimumAge <= MAXIMUM_MINIMUM_AGE && plan.schema == PLAN_SCHEMA
    && ValidDigest(plan.attempt) && ValidDigest(plan.beforeState) && ValidTimes(plan)
  }

  predicate ValidCounts(plan: ExecutionPlan) {
    && 0 < |plan.nodes| <= MAX_PLAN_NODES && |plan.actions| == |plan.nodes|
    && 0 < |plan.inputs| <= MAX_INPUTS
  }

  predicate ValidInputs(p: Platform, inputs: seq<FrozenInput>) {
    && (forall f <- inputs :: p.safeRelative(f.path) && ValidDigest(f.sha256))
    && forall i, j :: 0 <= i < j < |inputs| ==> inputs[i].path != inputs[j].path
  }

  function ObservationPath(raw: Digest): string {
    "observations/" + raw + ".json"
  }

  /** The evidence is well formed and its raw observation is among the frozen inputs. */
  predicate Backed(e: Evidence, inputs: seq<FrozenInput>) {
    e.Valid() && FrozenInput(ObservationPath(e.rawSHA256), e.rawSHA256) in inputs
  }

  predicate BackedNode(n: Node, inputs: seq<FrozenInput>) {
    forall e <- n.evidence :: Backed(e, inputs)
  }

  predicate ValidPlan(p: Platform, plan: ExecutionPlan) {
    && ValidHeader(plan) && p.supports(plan.environment) && ValidCounts(plan)
    && ValidInputs(p, plan.inputs)
    && ActionsMatch(plan.actions, plan.nodes)
    && forall n <- plan.nodes :: BackedNode(n, plan.inputs)
  }

  function GraphNodes(nodes: seq<Node>): (r: seq<GraphNode>)
    ensures |r| == |nodes|
    ensures forall i :: 0 <= i < |nodes| ==>
      r[i].artifact == nodes[i].artifact && r[i].dependencies == nodes[i].dependencies
  {
    seq(|nodes|, i requires 0 <= i < |nodes| => GraphNode(nodes[i].artifact, nodes[i].dependencies))
  }

  function BindingOf(p: Platform, plan: ExecutionPlan, id: Digest): Binding {
    Binding(id, p.digest(p.encodePolicy(plan.minimumAge)), p.digest(p.encodeGraph(GraphNodes(plan.nodes))),
            p.digest(p.encodeEnvironment(plan.environment)), plan.attempt)
  }

  function ExceptionOf(p: Platform, plan: ExecutionPlan, id: Digest): Option<AgeException> {
    if |plan.waivers| > 0 then Some(AgeException(BindingOf(p, plan, id), plan.issuedAt, plan.expiresAt, plan.waivers))
    else None
  }

  /** The assessment a plan stands for; its time is still to be supplied. */
  function PreparedOf(p: Platform, plan: ExecutionPlan, id: Digest): Prepared {
    var exception := ExceptionOf(p, plan, id);
    Prepared(
      Assessment(Policy(plan.minimumAge, true), BindingOf(p, plan, id), plan.targets, plan.nodes, 0, exception),
      plan.beforeState, if exception.Some? then p.digest(p.encodeException(exception.value)) else "", plan.expiresAt)
  }

  /** The identity of a plan: the digest of its encoding. */
  function Identity(p: Platform, plan: ExecutionPlan): Digest {
    p.digest(p.encodePlan(plan))
  }

  /** What a plan is prepared as under its own identity. */
  function Original(p: Platform, plan: ExecutionPlan): Prepared {
    PreparedOf(p, plan, Identity(p, plan))
  }

  /** The input inventory: safe, valid and unique paths. */
  method BuildInventory(p: Platform, inputs: seq<FrozenInput>) returns (ok: bool, inventory: map<string, Digest>)
    ensures ok <==> ValidInputs(p, inputs)
    ensures ok ==> forall path, sha :: path in inventory && inventory[path] == sha <==> FrozenInput(path, sha) in inputs
  {
    inventory := map[];
    for i := 0 to |inputs|
      invariant ValidInputs(p, inputs[..i])
      invariant forall path, sha :: path in inventory && inventory[path] == sha <==>
        FrozenInput(path, sha) in inputs[..i]
    {
      var file := inputs[i];
      assert file in inputs;
      if !p.safeRelative(file.path) || !ValidDigest(file.sha256) {
        return false, inventory;
      }
      if file.path in inventory {
        assert FrozenInput(file.path, inventory[file.path]) in inputs[..i];
        ghost var j :| 0 <= j < i && inputs[..i][j] == FrozenInput(file.path, inventory[file.path]);
        assert inputs[j].path == inputs[i].path;
        return false, inventory;
      }
      assert inputs[..i + 1] == inputs[..i] + [file];
      inventory := inventory[file.path := file.sha256];
    }
    assert inputs[..|inputs|] == inputs;
    return true, inventory;
  }

  method CheckEvidence(n: Node, inventory: map<string, Digest>, ghost inputs: seq<FrozenInput>) returns (ok: bool)
    requires forall path, sha :: path in inventory && inventory[path] == sha <==> FrozenInput(path, sha) in inputs
    ensures ok <==> BackedNode(n, inputs)
  {
    for i := 0 to |n.evidence|
      invariant forall e <- n.evidence[..i] :: Backed(e, inputs)
    {
      var e := n.evidence[i];
      assert e in n.evidence;
      var path := ObservationPath(e.rawSHA256);
      assert FrozenInput(path, e.rawSHA256) in inputs <==> path in inventory && inventory[path] == e.rawSHA256;
      if !e.Valid() || path !in inventory || inventory[path] != e.rawSHA256 {
        assert !Backed(e, inputs);
        return false;
      }
    }
    assert n.evidence[..|n.evidence|] == n.evidence;
    return true;
  }

  /**
   The plan as an assessment, or nothing if any part of it is invalid. The assessment judges the
   plan's own nodes and targets by the plan's own minimum age and waivers, and is bound to all of it.
   */
  method Prepare(p: Platform, plan: ExecutionPlan, id: Digest) returns (r: Option<Prepared>)
    ensures r == if ValidPlan(p, plan) then Some(PreparedOf(p, plan, id)) else None
    ensures r.Some? <==>
      && plan.schema == 3 && 0 <= plan.minimumAge <= 9223372036
      && ValidDigest(plan.attempt) && ValidDigest(plan.beforeState)
      && 0 < plan.issuedAt < plan.expiresAt <= plan.issuedAt + 600
      && p.supports(plan.environment)
      && 0 < |plan.nodes| <= 128 && |plan.actions| == |plan.nodes| && 0 < |plan.inputs| <= 10000
      && (forall f <- plan.inputs :: p.safeRelative(f.path) && ValidDigest(f.sha256))
      && (forall i, j :: 0 <= i < j < |plan.inputs| ==> plan.inputs[i].path != plan.inputs[j].path)
      && (forall i :: 0 <= i < |plan.nodes| ==> plan.actions[i].name == plan.nodes[i].artifact.name)
      && forall n <- plan.nodes :: forall e <- n.evidence ::
        e.Valid() && FrozenInput("observations/" + e.rawSHA256 + ".json", e.rawSHA256) in plan.inputs
    ensures r.Some? ==>
      && r.value.assessment.policy == Policy(plan.minimumAge, true)
      && r.value.assessment.targets == plan.targets && r.value.assessment.nodes == plan.nodes
      && r.value.beforeState == plan.beforeState && r.value.expiresAt == plan.expiresAt
    ensures r.Some? ==>
      r.value.assessment.binding
      == Binding(id, p.digest(p.encodePolicy(plan.minimumAge)), p.digest(p.encodeGraph(GraphNodes(plan.nodes))),
                 p.digest(p.encodeEnvironment(plan.environment)), plan.attempt)
    ensures r.Some? && plan.waivers == [] ==> r.value.assessment.exception == None && r.value.exceptionID == ""
    ensures r.Some? && plan.waivers != [] ==>
      var x := AgeException(r.value.assessment.binding, plan.issuedAt, plan.expiresAt, plan.waivers);
      r.value.assessment.exception == Some(x) && r.value.exceptionID == p.digest(p.encodeException(x))
  {
    var validInterval :=
      plan.issuedAt > 0 && plan.expiresAt > plan.issuedAt && plan.expiresAt <= plan.issuedAt + 600;
    if plan.minimumAge < 0 || plan.minimumAge > MAXIMUM_MINIMUM_AGE || plan.schema != PLAN_SCHEMA
       || !ValidDigest(plan.attempt) || !ValidDigest(plan.beforeState) || !validInterval {
      return None;
    }
    var validInventory :=
      0 < |plan.nodes| <= MAX_PLAN_NODES && |plan.actions| == |plan.nodes| && 0 < |plan.inputs| <= MAX_INPUTS;
    if !p.supports(plan.environment) || !validInventory {
      return None;
    }
    var ok, inventory := BuildInventory(p, plan.inputs);
    if !ok {
      return None;
    }
    for i := 0 to |plan.nodes|
      invariant forall j :: 0 <= j < i ==> plan.actions[j].name == plan.nodes[j].artifact.name
      invariant forall n <- plan.nodes[..i] :: BackedNode(n, plan.inputs)
    {
      if plan.actions[i].name != plan.nodes[i].artifact.name {
        return None;
      }
      var backed := CheckEvidence(plan.nodes[i], inventory, plan.inputs);
      if !backed {
        assert plan.nodes[i] in plan.nodes;
        return None;
      }
    }
    assert plan.nodes[..|plan.nodes|] == plan.nodes;
    return Some(PreparedOf(p, plan, id));
  }

  // ---- Re-reading by content ----

  type Files = map<string, Bytes>

  function StatePath(state: Digest): string {
    "states/" + state + ".json"
  }

  predicate Holds(p: Platform, files: Files, path: string, sha: Digest) {
    path in files && p.digest(files[path]) == sha
  }

  /** The saved plan has this identity and everything it names is in place under the digest it names. */
  predicate Intact(p: Platform, files: Files, expected: Digest, plan: ExecutionPlan) {
    && Holds(p, files, "plan.json", expected)
    && p.decodePlan(files["plan.json"]) == Some(plan)
    && (forall f <- plan.inputs :: p.safeRelative(f.path) && ValidDigest(f.sha256) && Holds(p, files, f.path, f.sha256))
    && Holds(p, files, StatePath(plan.beforeState), plan.beforeState)
  }

  /** The plan the files currently hold under this identity, if everything it needs is in place and valid. */
  function Reading(p: Platform, files: Files, expected: Digest): Option<Prepared> {
    if "plan.json" !in files || p.decodePlan(files["plan.json"]).None? then None
    else
      var plan := p.decodePlan(files["plan.json"]).value;
      if Intact(p, files, expected, plan) && ValidPlan(p, plan) then Some(PreparedOf(p, plan, expected)) else None
  }

  /** Nothing is trusted from memory: identity and inputs are recomputed from the files, file by file. */
  method ReadPrepared(p: Platform, files: Files, expected: Digest) returns (r: Option<Prepared>)
    ensures r == Reading(p, files, expected)
  {
    if "plan.json" !in files || p.digest(files["plan.json"]) != expected {
      return None;
    }
    var decoded := p.decodePlan(files["plan.json"]);
    if decoded.None? {
      return None;
    }
    var plan := decoded.value;
    for i := 0 to |plan.inputs|
      invariant forall f <- plan.inputs[..i] ::
        p.safeRelative(f.path) && ValidDigest(f.sha256) && Holds(p, files, f.path, f.sha256)
    {
      var f := plan.inputs[i];
      assert f in plan.inputs;
      if !p.safeRelative(f.path) || !ValidDigest(f.sha256) {
        return None;
      }
      if f.path !in files || p.digest(files[f.path]) != f.sha256 {
        assert !Holds(p, files, f.path, f.sha256);
        return None;
      }
    }
    assert plan.inputs[..|plan.inputs|] == plan.inputs;
    var statePath := StatePath(plan.beforeState);
    if statePath !in files || p.digest(files[statePath]) != plan.beforeState {
      return None;
    }
    r := Prepare(p, plan, p.digest(files["plan.json"]));
  }

  /** The plan as it was written, over the inputs as they were frozen. */
  predicate Frozen(p: Platform, files: Files, plan: ExecutionPlan) {
    && "plan.json" in files && files["plan.json"] == p.encodePlan(plan)
    && (forall f <- plan.inputs :: Holds(p, files, f.path, f.sha256))
    && Holds(p, files, StatePath(plan.beforeState), plan.beforeState)
  }

  lemma FrozenIsRead(p: Platform, files: Files, plan: ExecutionPlan)
    requires RoundTrips(p) && Frozen(p, files, plan) && ValidPlan(p, plan)
    ensures Reading(p, files, Identity(p, plan)) == Some(Original(p, plan))
  {
    assert p.decodePlan(p.encodePlan(plan)) == Some(plan);
  }

  /**
   Under the identity of a plan nothing can be read but that plan, and it can be read exactly
   while it is valid and stands as it was written over the inputs that were frozen.
   */
  lemma ReadingIsOriginal(p: Platform, files: Files, plan: ExecutionPlan)
    requires Injective(p.digest) && RoundTrips(p)
    ensures Reading(p, files, Identity(p, plan)).Some? <==> Frozen(p, files, plan) && ValidPlan(p, plan)
    ensures Reading(p, files, Identity(p, plan)).Some? ==>
      Reading(p, files, Identity(p, plan)).value == Original(p, plan)
  {
    assert p.decodePlan(p.encodePlan(plan)) == Some(plan);
    if "plan.json" in files && p.digest(files["plan.json"]) == Identity(p, plan) {
      assert files["plan.json"] == p.encodePlan(plan);
    }
  }

  /**
   Two readings under one identity, whatever happened in between, saw the same inputs and before-state
   byte for byte.
   */
  lemma RereadIsOriginal(p: Platform, before: Files, after: Files, plan: ExecutionPlan)
    requires Injective(p.digest) && RoundTrips(p)
    requires Frozen(p, before, plan) && Reading(p, after, Identity(p, plan)).Some?
    ensures Reading(p, before, Identity(p, plan)) == Reading(p, after, Identity(p, plan))
    ensures after["plan.json"] == before["plan.json"]
    ensures forall f <- plan.inputs :: f.path in before && f.path in after && after[f.path] == before[f.path]
    ensures var state := "states/" + plan.beforeState + ".json";
      state in before && state in after && after[state] == before[state]
  {
    ReadingIsOriginal(p, before, plan);
    ReadingIsOriginal(p, after, plan);
    forall f | f in plan.inputs
      ensures f.path in before && f.path in after && after[f.path] == before[f.path]
    {
      assert Holds(p, before, f.path, f.sha256) && Holds(p, after, f.path, f.sha256);
    }
  }

  /** The binding determines the plan: equal bindings mean equal targets, nodes, waivers and actions. */
  lemma BindingDeterminesPlan(p: Platform, x: ExecutionPlan, y: ExecutionPlan)
    requires Injective(p.digest) && RoundTrips(p)
    requires BindingOf(p, x, Identity(p, x)) == BindingOf(p, y, Identity(p, y))
    ensures x == y
  {
    assert p.encodePlan(x) == p.encodePlan(y);
    assert p.decodePlan(p.encodePlan(x)) == Some(x);
  }
}
