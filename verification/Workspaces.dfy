/**
 The workspace a session works in: the one kind of step that takes it away from a session that is
 alive, and why no step does as long as no name is drawn while something still has a use for it.
 */
module Workspaces {
  import opened Domain
  import opened LaunchProtocol
  import opened LaunchSafety
  import opened LaunchRuns

  /** Before a wrapper has launched anything. */
  predicate Early(pc: Pc) {
    pc.Collecting? || pc.Abandoning?
    || ((pc.Reading? || pc.Judging? || pc.Sweeping? || pc.Unlinking?) && pc.goal.ToLaunch?)
  }

  /** Where a wrapper counts on its own workspace. */
  predicate Keeps(pc: Pc) {
    pc.Collecting? || (Early(pc) && !pc.Abandoning?) || pc.Ready? || pc.Forked? || pc.Vacant? || pc.Writing?
    || pc.Written? || pc.Recorded? || pc.Released? || pc.Waited? || pc.Finishing? || pc.FinishClear?
  }

  predicate Uses(st: State, w: Wid, name: Name) {
    w in st.wrappers && st.wrappers[w].workspace == Some(name)
  }

  predicate OnRecord(f: File, name: Name) {
    f.Complete? && f.record.workspace == name
  }

  predicate Lives(st: State, s: Sid, name: Name) {
    s in st.sessions && st.sessions[s].home == name
  }

  ghost predicate OnePerWrapper(st: State) {
    forall v, w, name {:trigger Uses(st, v, name), Uses(st, w, name)} :: Uses(st, v, name) && Uses(st, w, name) ==>
      v == w
  }

  /** Nobody has a use for the name: no wrapper holds it, no record names it, no session works there. */
  ghost predicate Unclaimed(st: State, name: Name) {
    && (forall w {:trigger Uses(st, w, name)} :: !Uses(st, w, name))
    && !OnRecord(st.files.json, name) && !OnRecord(st.files.pending, name)
    && forall s {:trigger Lives(st, s, name)} :: !Lives(st, s, name)
  }

  /** A wrapper on record, or with a living child, is past its early steps. */
  ghost predicate NotEarly(st: State) {
    forall w, name {:trigger Uses(st, w, name)} :: Uses(st, w, name) && Early(At(st, w)) ==>
      && !OnRecord(st.files.json, name) && !OnRecord(st.files.pending, name)
      && forall s :: !Lives(st, s, name)
  }

  ghost predicate Kept(st: State) {
    && (forall w, name {:trigger Uses(st, w, name)} :: Uses(st, w, name) && Keeps(At(st, w)) ==>
          name in st.files.intact)
    && (forall s, name {:trigger Lives(st, s, name)} :: Lives(st, s, name) ==> name in st.files.intact)
  }

  ghost predicate WorkspacesSound(st: State) {
    OnePerWrapper(st) && NotEarly(st) && Kept(st)
  }

  // ---- What it takes for a step to keep this ----

  /** Nothing is used, recorded or lived in that was not before, unless it is the workspace w has launched from. */
  ghost predicate NothingNew(st: State, after: State, w: Wid) {
    && (forall v, name {:trigger Uses(after, v, name)} :: Uses(after, v, name) ==>
          Uses(st, v, name) && (Early(At(after, v)) ==> Early(At(st, v))) && (Keeps(At(after, v)) ==> Keeps(At(st, v))))
    && (forall name {:trigger OnRecord(after.files.json, name)} :: OnRecord(after.files.json, name) ==>
          OnRecord(st.files.json, name) || OnRecord(st.files.pending, name) || Launched(after, w, name))
    && (forall name {:trigger OnRecord(after.files.pending, name)} :: OnRecord(after.files.pending, name) ==>
          OnRecord(st.files.pending, name) || Launched(after, w, name))
    && (forall s, name {:trigger Lives(after, s, name)} :: Lives(after, s, name) ==>
          Lives(st, s, name) || (Launched(after, w, name) && Keeps(At(after, w))))
  }

  predicate Launched(st: State, w: Wid, name: Name) {
    Uses(st, w, name) && !Early(At(st, w))
  }

  /** The workspaces that go are nobody's. */
  ghost predicate Harmless(st: State, after: State) {
    && after.files.intact <= st.files.intact
    && after.files.leftover <= st.files.intact + st.files.leftover
    && forall name :: name in st.files.intact && name !in after.files.intact ==> Unneeded(after, name)
  }

  ghost predicate Unneeded(st: State, name: Name) {
    && (forall v {:trigger Uses(st, v, name)} :: Uses(st, v, name) ==> !Keeps(At(st, v)))
    && (forall s {:trigger Lives(st, s, name)} :: !Lives(st, s, name))
  }

  lemma SteadyKeeps(st: State, after: State, w: Wid)
    requires WorkspacesSound(st) && NothingNew(st, after, w) && Harmless(st, after)
    ensures WorkspacesSound(after)
  {
    assert OnePerWrapper(after);
    NotEarlyKept(st, after, w);
    assert Kept(after);
  }

  lemma NotEarlyKept(st: State, after: State, w: Wid)
    requires OnePerWrapper(st) && NotEarly(st) && NothingNew(st, after, w)
    ensures NotEarly(after)
  {
  }

  /** Only w moved, or went, and at most a record file with it. */
  predicate OnlyMoved(st: State, after: State, w: Wid) {
    && w in st.wrappers && after.sessions == st.sessions
    && (after.wrappers == st.wrappers - {w}
        || (w in after.wrappers && after.wrappers == st.wrappers[w := st.wrappers[w].(pc := At(after, w))]
            && (Early(At(after, w)) ==> Early(At(st, w))) && (Keeps(At(after, w)) ==> Keeps(At(st, w)))))
    && after.files.intact == st.files.intact && after.files.leftover == st.files.leftover
    && (after.files.json == st.files.json || after.files.json == Absent)
    && (after.files.pending == st.files.pending || after.files.pending == Absent)
  }

  lemma MovingKeeps(st: State, after: State, w: Wid)
    requires WorkspacesSound(st) && OnlyMoved(st, after, w)
    ensures WorkspacesSound(after)
  {
    SteadyKeeps(st, after, w);
  }

  // ---- The steps ----

  lemma MakeKeeps(st: State, w: Wid, name: Name, after: State)
    requires WorkspacesSound(st) && Unclaimed(st, name) && w in st.wrappers
    requires after == st.(wrappers := st.wrappers[w := Wrapper(Collecting, Some(name))],
      files := st.files.(intact := st.files.intact + {name}))
    ensures WorkspacesSound(after)
  {
    forall v, n {:trigger Uses(after, v, n)} | Uses(after, v, n) && v != w ensures Uses(st, v, n) {}
    forall s, n {:trigger Lives(after, s, n)} | Lives(after, s, n) ensures Lives(st, s, n) {}
  }

  lemma FrameKeepsWorkspaces(st: State, e: Event, after: State)
    requires Inv(st) && WorkspacesSound(st)
    requires OfWrapper(e) && e.w in st.wrappers && FrameStep(st, e, e.w, st.wrappers[e.w]) == Some(after)
    requires e.MakeWorkspace? ==> Unclaimed(st, e.name)
    ensures WorkspacesSound(after)
  {
    if e.MakeWorkspace? {
      MakeKeeps(st, e.w, e.name, after);
    } else if e.RemoveOwnSome? || e.RemoveOwnAll? {
      RemoveOwnKeepsWorkspaces(st, e, after);
    } else {
      FrameMoves(st, e, after);
      MovingKeeps(st, after, e.w);
    }
  }

  lemma FrameMoves(st: State, e: Event, after: State)
    requires OfWrapper(e) && e.w in st.wrappers && FrameStep(st, e, e.w, st.wrappers[e.w]) == Some(after)
    requires !e.MakeWorkspace? && !e.RemoveOwnSome? && !e.RemoveOwnAll?
    ensures OnlyMoved(st, after, e.w)
  {
  }

  lemma RemoveOwnKeepsWorkspaces(st: State, e: Event, after: State)
    requires Inv(st) && WorkspacesSound(st) && (e.RemoveOwnSome? || e.RemoveOwnAll?)
    requires e.w in st.wrappers && FrameStep(st, e, e.w, st.wrappers[e.w]) == Some(after)
    ensures WorkspacesSound(after)
  {
    var name := st.wrappers[e.w].workspace.value;
    assert Uses(st, e.w, name);
    if At(st, e.w).RemovingOwn? { HolderHasLocal(st, e.w); }
    forall v {:trigger Uses(after, v, name)} | Uses(after, v, name) ensures !Keeps(At(after, v)) {
      assert Uses(st, v, name);
    }
    forall s {:trigger Lives(after, s, name)} ensures !Lives(after, s, name) {
      assert !Lives(st, s, name);
    }
    SteadyKeeps(st, after, e.w);
  }

  lemma ReadKeepsWorkspaces(st: State, e: Event, after: State)
    requires WorkspacesSound(st) && OfWrapper(e) && !e.SweepSome? && !e.SweepAll?
    requires e.w in st.wrappers && ClearStep(st, e, e.w, st.wrappers[e.w]) == Some(after)
    ensures WorkspacesSound(after)
  {
    ReadMoves(st, e, after);
    MovingKeeps(st, after, e.w);
  }

  lemma ReadMoves(st: State, e: Event, after: State)
    requires OfWrapper(e) && !e.SweepSome? && !e.SweepAll?
    requires e.w in st.wrappers && ClearStep(st, e, e.w, st.wrappers[e.w]) == Some(after)
    ensures OnlyMoved(st, after, e.w)
  {
  }

  lemma ClearKeepsWorkspaces(st: State, e: Event, after: State)
    requires Inv(st) && WorkspacesSound(st)
    requires OfWrapper(e) && e.w in st.wrappers && ClearStep(st, e, e.w, st.wrappers[e.w]) == Some(after)
    ensures WorkspacesSound(after)
  {
    if e.SweepSome? || e.SweepAll? {
      SweepKeepsWorkspaces(st, e, after);
    } else {
      ReadKeepsWorkspaces(st, e, after);
    }
  }

  lemma SweepKeepsWorkspaces(st: State, e: Event, after: State)
    requires Inv(st) && WorkspacesSound(st) && (e.SweepSome? || e.SweepAll?)
    requires e.w in st.wrappers && ClearStep(st, e, e.w, st.wrappers[e.w]) == Some(after)
    ensures WorkspacesSound(after)
  {
    HolderHasLocal(st, e.w);
    var pc := At(st, e.w);
    assert OnRecord(FileAt(st.files, pc.file), pc.record.workspace);
    SteadyKeeps(st, after, e.w);
  }

  /** A wrapper moves on without touching the sessions or a workspace, at most recording its own. */
  lemma MoveKeepsWorkspaces(st: State, w: Wid, pc: Pc, f: Files, after: State)
    requires WorkspacesSound(st) && w in st.wrappers && after == Move(st, w, pc).(files := f)
    requires !Early(pc) && (Keeps(pc) ==> Keeps(At(st, w)))
    requires f.intact == st.files.intact && f.leftover == st.files.leftover
    requires f.json == st.files.json || f.json == st.files.pending || f.json.Absent?
    requires f.pending == st.files.pending || !f.pending.Complete?
      || (st.wrappers[w].workspace.Some? && OnRecord(f.pending, st.wrappers[w].workspace.value))
    ensures WorkspacesSound(after)
  {
    SteadyKeeps(st, after, w);
  }

  lemma LaunchKeepsWorkspaces(st: State, w: Wid, s: Sid, after: State)
    requires Inv(st) && WorkspacesSound(st) && w in st.wrappers
    requires At(st, w).Ready? && SaveStep(st, Launch(w, s), w, st.wrappers[w]) == Some(after)
    ensures WorkspacesSound(after)
  {
    SteadyKeeps(st, after, w);
  }

  lemma SaveKeepsWorkspaces(st: State, e: Event, after: State)
    requires Inv(st) && WorkspacesSound(st)
    requires OfWrapper(e) && e.w in st.wrappers && SaveStep(st, e, e.w, st.wrappers[e.w]) == Some(after)
    ensures WorkspacesSound(after)
  {
    if e.Launch? {
      LaunchKeepsWorkspaces(st, e.w, e.s, after);
    } else {
      MoveKeepsWorkspaces(st, e.w, At(after, e.w), after.files, after);
    }
  }

  lemma GateKeepsWorkspaces(st: State, e: Event, after: State)
    requires Inv(st) && WorkspacesSound(st) && (e.OpenGate? || e.Kill?)
    requires e.w in st.wrappers && RunStep(st, e, e.w, st.wrappers[e.w]) == Some(after)
    ensures WorkspacesSound(after)
  {
    HolderHasLocal(st, e.w);
    SteadyKeeps(st, after, e.w);
  }

  lemma FinishKeepsWorkspaces(st: State, e: Event, after: State)
    requires WorkspacesSound(st) && OfWrapper(e) && !e.OpenGate? && !e.Kill?
    requires e.w in st.wrappers && RunStep(st, e, e.w, st.wrappers[e.w]) == Some(after)
    ensures WorkspacesSound(after)
  {
    MoveKeepsWorkspaces(st, e.w, At(after, e.w), after.files, after);
  }

  lemma RunKeepsWorkspaces(st: State, e: Event, after: State)
    requires Inv(st) && WorkspacesSound(st)
    requires OfWrapper(e) && e.w in st.wrappers && RunStep(st, e, e.w, st.wrappers[e.w]) == Some(after)
    ensures WorkspacesSound(after)
  {
    if e.OpenGate? || e.Kill? {
      GateKeepsWorkspaces(st, e, after);
    } else {
      FinishKeepsWorkspaces(st, e, after);
    }
  }

  lemma StartOrDeathKeepsWorkspaces(st: State, e: Event, after: State)
    requires Inv(st) && WorkspacesSound(st) && Next(st, e) == Some(after) && (e.Start? || e.Die?)
    ensures WorkspacesSound(after)
  {
    SteadyKeeps(st, after, e.w);
  }

  lemma FewerLivesKeeps(st: State, after: State)
    requires WorkspacesSound(st) && after.wrappers == st.wrappers && after.files == st.files
    requires forall s <- after.sessions :: s in st.sessions && after.sessions[s].home == st.sessions[s].home
    ensures WorkspacesSound(after)
  {
    SteadyKeeps(st, after, 0);
  }

  lemma ChildrenKeepWorkspaces(st: State, e: Event, after: State)
    requires Inv(st) && WorkspacesSound(st) && Next(st, e) == Some(after) && !OfWrapper(e) && !e.Start? && !e.Die?
    ensures WorkspacesSound(after)
  {
    FewerLivesKeeps(st, after);
  }

  lemma StepKeepsWorkspaces(st: State, e: Event, after: State)
    requires Inv(st) && WorkspacesSound(st) && Next(st, e) == Some(after)
    requires e.MakeWorkspace? ==> Unclaimed(st, e.name)
    ensures WorkspacesSound(after)
  {
    if e.Start? || e.Die? { StartOrDeathKeepsWorkspaces(st, e, after); }
    else if !OfWrapper(e) { ChildrenKeepWorkspaces(st, e, after); }
    else if FrameStep(st, e, e.w, st.wrappers[e.w]) == Some(after) { FrameKeepsWorkspaces(st, e, after); }
    else if ClearStep(st, e, e.w, st.wrappers[e.w]) == Some(after) { ClearKeepsWorkspaces(st, e, after); }
    else if SaveStep(st, e, e.w, st.wrappers[e.w]) == Some(after) { SaveKeepsWorkspaces(st, e, after); }
    else { RunKeepsWorkspaces(st, e, after); }
  }

  // ---- Over runs ----

  /** No name is drawn while anything still has a use for it; it may come back afterwards. */
  ghost predicate DrawsUnclaimed(states: seq<State>, events: seq<Event>)
    requires IsRun(states, events)
  {
    forall i :: 0 <= i < |events| && events[i].MakeWorkspace? ==> Unclaimed(states[i], events[i].name)
  }

  lemma {:induction false} WorkspacesSoundThroughout(states: seq<State>, events: seq<Event>, i: nat)
    requires IsRun(states, events) && DrawsUnclaimed(states, events) && i < |states|
    ensures WorkspacesSound(states[i])
  {
    if i > 0 {
      WorkspacesSoundThroughout(states, events, i - 1);
      InvThroughout(states, events, i - 1);
      StepKeepsWorkspaces(states[i - 1], events[i - 1], states[i]);
    }
  }

  /** In every state of such a run, the workspace of a live session is whole. */
  lemma LiveWorkspaceStays(states: seq<State>, events: seq<Event>, i: nat, s: Sid)
    requires IsRun(states, events) && DrawsUnclaimed(states, events) && i < |states|
    requires s in states[i].sessions
    ensures states[i].sessions[s].home in states[i].files.intact
  {
    WorkspacesSoundThroughout(states, events, i);
    assert Lives(states[i], s, states[i].sessions[s].home);
  }

  // ---- Exactly what takes a live workspace away ----

  /** A wrapper that gave up before launching removes, as its own, the workspace of this name. */
  predicate Abandons(st: State, e: Event, name: Name) {
    (e.RemoveOwnSome? || e.RemoveOwnAll?) && Uses(st, e.w, name) && At(st, e.w).Abandoning?
  }

  lemma FrameTakes(st: State, e: Event, after: State, s: Sid)
    requires Inv(st) && s in st.sessions && st.sessions[s].home in st.files.intact
    requires OfFrame(e) && e.w in st.wrappers && FrameStep(st, e, e.w, st.wrappers[e.w]) == Some(after)
    ensures st.sessions[s].home !in after.files.intact <==> Abandons(st, e, st.sessions[s].home)
  {
    if HoldsLock(At(st, e.w)) {
      HolderHasLocal(st, e.w);
    }
  }

  lemma ClearTakesNothing(st: State, e: Event, after: State, s: Sid)
    requires Inv(st) && s in st.sessions
    requires OfClear(e) && e.w in st.wrappers && ClearStep(st, e, e.w, st.wrappers[e.w]) == Some(after)
    ensures after.files.intact == st.files.intact
  {
    HolderHasLocal(st, e.w);
  }

  lemma SaveTakesNothing(st: State, e: Event, after: State)
    requires OfSave(e) && e.w in st.wrappers && SaveStep(st, e, e.w, st.wrappers[e.w]) == Some(after)
    ensures after.files.intact == st.files.intact
  {
  }

  lemma RunTakesNothing(st: State, e: Event, after: State)
    requires OfWrapper(e) && e.w in st.wrappers && RunStep(st, e, e.w, st.wrappers[e.w]) == Some(after)
    ensures after.files.intact == st.files.intact
  {
  }

  /** A step takes the workspace of a live session away if and only if it is an abandonment of that very name. */
  lemma TakenExactlyByAbandoning(st: State, e: Event, after: State, s: Sid)
    requires Inv(st) && Next(st, e) == Some(after)
    requires s in st.sessions && st.sessions[s].home in st.files.intact
    ensures st.sessions[s].home !in after.files.intact <==> Abandons(st, e, st.sessions[s].home)
  {
    if !OfWrapper(e) { OthersLeaveFiles(st, e, after); }
    else if OfFrame(e) { FrameTakes(st, e, after, s); }
    else if OfClear(e) { ClearTakesNothing(st, e, after, s); }
    else if OfSave(e) { SaveTakesNothing(st, e, after); }
    else { RunTakesNothing(st, e, after); }
  }

  /** The session is alive in this state and works in this workspace. */
  predicate Occupies(states: seq<State>, k: nat, s: Sid, name: Name)
    requires k < |states|
  {
    Lives(states[k], s, name)
  }

  predicate KeptThroughout(states: seq<State>, i: nat, j: nat, name: Name)
    requires j < |states|
  {
    forall k | i <= k <= j :: name in states[k].files.intact
  }

  predicate NobodyAbandons(states: seq<State>, events: seq<Event>, i: nat, j: nat, name: Name)
    requires j <= |events| && j <= |states|
  {
    forall k | i <= k < j :: !Abandons(states[k], events[k], name)
  }

  /**
   Over any stretch of any run: a live session keeps its workspace throughout if and only if nobody
   abandons that name.
   */
  lemma {:induction false} KeptExactlyUnlessAbandoned(
    states: seq<State>, events: seq<Event>, i: nat, j: nat, s: Sid, name: Name)
    requires IsRun(states, events) && i <= j < |states|
    requires forall k: nat | i <= k <= j :: Occupies(states, k, s, name)
    requires name in states[i].files.intact
    ensures KeptThroughout(states, i, j, name) <==> NobodyAbandons(states, events, i, j, name)
    decreases j
  {
    if i < j {
      KeptExactlyUnlessAbandoned(states, events, i, j - 1, s, name);
      if name in states[j - 1].files.intact {
        LastStepTakes(states, events, j - 1, s, name);
      }
      KeptOneMore(states, events, i, j, name);
    }
  }

  lemma LastStepTakes(states: seq<State>, events: seq<Event>, k: nat, s: Sid, name: Name)
    requires IsRun(states, events) && k < |events| && Occupies(states, k, s, name) && name in states[k].files.intact
    ensures name !in states[k + 1].files.intact <==> Abandons(states[k], events[k], name)
  {
    InvThroughout(states, events, k);
    TakenExactlyByAbandoning(states[k], events[k], states[k + 1], s);
  }

  lemma KeptOneMore(states: seq<State>, events: seq<Event>, i: nat, j: nat, name: Name)
    requires i < j < |states| && j <= |events|
    ensures KeptThroughout(states, i, j, name) <==>
      KeptThroughout(states, i, j - 1, name) && name in states[j].files.intact
    ensures NobodyAbandons(states, events, i, j, name) <==>
      NobodyAbandons(states, events, i, j - 1, name) && !Abandons(states[j - 1], events[j - 1], name)
  {
  }
}
