/**
 Safety of the launch protocol over every run: one invariant, kept by every event.
 */
module LaunchSafety {
  import opened Domain
  import opened LaunchProtocol

  predicate HoldsLock(pc: Pc) {
    !pc.Started? && !pc.Probed? && !pc.Collecting? && !pc.Abandoning?
  }

  predicate HasWorkspace(pc: Pc) {
    !pc.Started? && !pc.Probed? && !pc.ProbeCleared? && !pc.Unlocking? && !Probing(pc)
  }

  predicate Probing(pc: Pc) {
    (pc.Reading? || pc.Judging? || pc.Sweeping? || pc.Unlinking?) && pc.goal.ToProbe?
  }

  /** The record file names exactly this session and the workspace it works in. */
  predicate Names(f: File, s: Sid, x: Session) {
    f.Complete? && f.record.session == s && f.record.workspace == x.home
  }

  predicate NoSession(st: State) {
    forall s :: s !in st.sessions
  }

  predicate NoneGated(st: State) {
    forall s <- st.sessions :: st.sessions[s].Running?
  }

  /** Nothing but this child of w, waiting at a closed gate. */
  predicate OnlyWaiting(st: State, w: Wid, wr: Wrapper, c: Sid) {
    wr.workspace.Some? && forall s <- st.sessions :: s == c && st.sessions[s] == Gated(w, false, wr.workspace.value)
  }

  predicate Owns(f: File, w: Wid, wr: Wrapper, c: Sid) {
    wr.workspace.Some? && f == Complete(RecordOf(w, wr, c))
  }

  /** What the lock holder can rely on at each point. */
  predicate Local(st: State, w: Wid, wr: Wrapper) {
    var f := st.files;
    match wr.pc
    case Reading(which, goal) => NoneGated(st) && (which.Pending? ==> f.json.Absent? && NoSession(st))
    case Judging(which, r, goal) =>
      NoneGated(st) && FileAt(f, which) == Complete(r) && (which.Pending? ==> NoSession(st))
    case Sweeping(which, r, goal) => NoSession(st) && FileAt(f, which) == Complete(r)
    case Unlinking(which, r, goal) => NoSession(st) && FileAt(f, which) == Complete(r)
    case ProbeCleared => NoSession(st) && f.json.Absent? && f.pending.Absent?
    case Ready => NoSession(st) && f.json.Absent? && f.pending.Absent?
    case Forked(c) => OnlyWaiting(st, w, wr, c) && f.json.Absent? && f.pending.Absent?
    case Vacant(c) => OnlyWaiting(st, w, wr, c) && f.json.Absent? && f.pending.Absent?
    case Writing(c) => OnlyWaiting(st, w, wr, c) && f.json.Absent? && f.pending.Torn?
    case Written(c) => OnlyWaiting(st, w, wr, c) && f.json.Absent? && Owns(f.pending, w, wr, c)
    case Recorded(c) => OnlyWaiting(st, w, wr, c) && Owns(f.json, w, wr, c)
    case Killing(c) => OnlyWaiting(st, w, wr, c)
    case Released(c) => Owns(f.json, w, wr, c) && forall s <- st.sessions :: s == c && PastGate(st.sessions[s])
    case Waited(c) => Owns(f.json, w, wr, c) && NoneGated(st) && forall s <- st.sessions :: s == c
    case Finishing(c) => Owns(f.json, w, wr, c) && NoneGated(st) && forall s <- st.sessions :: s == c
    case FinishClear(c) => Owns(f.json, w, wr, c) && NoSession(st)
    case RemovingOwn => NoSession(st) && f.json.Absent? && f.pending.Absent?
    case Unlocking => NoneGated(st)
    case _ => true
  }

  predicate LockSound(st: State) {
    && (st.lockOwner.Some? ==> st.lockOwner.value in st.wrappers && HoldsLock(At(st, st.lockOwner.value)))
    && (forall w <- st.wrappers :: HoldsLock(At(st, w)) ==> st.lockOwner == Some(w))
    && st.heirs <= st.sessions.Keys
    && (forall s <- st.sessions :: st.sessions[s].Gated? ==> s in st.heirs)
  }

  predicate SessionsSound(st: State) {
    && (forall s, t :: s in st.sessions && t in st.sessions ==> s == t)
    && (forall s <- st.sessions :: PastGate(st.sessions[s]) ==> Names(st.files.json, s, st.sessions[s]))
    && (forall s <- st.sessions :: st.sessions[s].Running? ==> st.sessions[s].members != {})
    && (forall s <- st.sessions :: st.sessions[s].Gated? ==> st.sessions[s].owner in st.born)
  }

  predicate FilesSound(f: Files) {
    !f.json.Torn? && (f.json.Absent? || f.pending.Absent?)
  }

  predicate Inv(st: State) {
    && LockSound(st) && SessionsSound(st) && FilesSound(st.files)
    && (st.lockOwner.Some? ==> Local(st, st.lockOwner.value, st.wrappers[st.lockOwner.value]))
    && (forall w <- st.wrappers :: HasWorkspace(At(st, w)) ==> st.wrappers[w].workspace.Some?)
    && st.wrappers.Keys <= st.born
  }

  // ---- Every event keeps the invariant ----

  /** What is left to show of a step the lock holder takes while it keeps the lock. */
  predicate Kept(after: State, w: Wid) {
    && w in after.wrappers && HoldsLock(At(after, w)) && Local(after, w, after.wrappers[w])
    && (HasWorkspace(At(after, w)) ==> after.wrappers[w].workspace.Some?)
    && HeirsSound(after) && SessionsSound(after) && FilesSound(after.files)
  }

  predicate HeirsSound(st: State) {
    st.heirs <= st.sessions.Keys && forall s <- st.sessions :: st.sessions[s].Gated? ==> s in st.heirs
  }

  /** Everything but the record of wrapper w is as before. */
  predicate OnlyMoves(st: State, after: State, w: Wid) {
    && w in st.wrappers && w in after.wrappers && after.lockOwner == st.lockOwner && after.born == st.born
    && after.wrappers == st.wrappers[w := after.wrappers[w]]
  }

  lemma HolderKeeps(st: State, after: State, w: Wid)
    requires Inv(st) && w in after.wrappers && OnlyMoves(st, after, w) && st.lockOwner == Some(w) && Kept(after, w)
    ensures Inv(after)
  {
  }

  lemma HolderHasLocal(st: State, w: Wid)
    requires Inv(st) && w in st.wrappers && HoldsLock(At(st, w))
    ensures st.lockOwner == Some(w) && Local(st, w, st.wrappers[w])
    ensures HeirsSound(st) && SessionsSound(st) && FilesSound(st.files)
    ensures HasWorkspace(At(st, w)) ==> st.wrappers[w].workspace.Some?
  {
  }

  // Clearing

  lemma ReadKeeps(st: State, w: Wid, which: Which, goal: Goal, after: State)
    requires Inv(st) && w in st.wrappers && At(st, w) == Reading(which, goal)
    requires after == Move(st, w, ReadStep(st.files, which, goal))
    ensures Inv(after)
  {
    HolderHasLocal(st, w);
    if FileAt(st.files, which).Absent? && which.Json? {
      NothingRecordedNothingRuns(st);
    }
    HolderKeeps(st, after, w);
  }

  /** With no committed record and nobody at the gate, nothing runs. */
  lemma NothingRecordedNothingRuns(st: State)
    requires SessionsSound(st) && NoneGated(st) && st.files.json.Absent?
    ensures NoSession(st)
  {
    assert forall s <- st.sessions :: PastGate(st.sessions[s]);
  }

  lemma JudgeKeeps(st: State, w: Wid, which: Which, r: Record, goal: Goal, inactive: bool, after: State)
    requires Inv(st) && w in st.wrappers && At(st, w) == Judging(which, r, goal)
    requires inactive ==> r.session !in st.sessions
    requires after == Move(st, w, if inactive then Sweeping(which, r, goal) else AfterFailure(goal))
    ensures Inv(after)
  {
    HolderHasLocal(st, w);
    if inactive && which.Json? {
      RecordedGoneNothingRuns(st, r);
    }
    HolderKeeps(st, after, w);
  }

  /** With nobody at the gate, the recorded session is the only one there can be. */
  lemma RecordedGoneNothingRuns(st: State, r: Record)
    requires SessionsSound(st) && NoneGated(st) && st.files.json == Complete(r) && r.session !in st.sessions
    ensures NoSession(st)
  {
    assert forall s <- st.sessions :: PastGate(st.sessions[s]);
  }

  lemma SweepKeeps(st: State, w: Wid, which: Which, r: Record, goal: Goal, pc: Pc, f: Files, after: State)
    requires Inv(st) && w in st.wrappers && At(st, w) == Sweeping(which, r, goal)
    requires pc == Sweeping(which, r, goal) || pc == Unlinking(which, r, goal) || pc == AfterFailure(goal)
    requires f.json == st.files.json && f.pending == st.files.pending
    requires after == Move(st, w, pc).(files := f)
    ensures Inv(after)
  {
    HolderHasLocal(st, w);
    HolderKeeps(st, after, w);
  }

  lemma UnlinkKeeps(st: State, w: Wid, which: Which, r: Record, goal: Goal, after: State)
    requires Inv(st) && w in st.wrappers && At(st, w) == Unlinking(which, r, goal)
    requires after == Move(st, w, AfterFile(which, goal)).(files := Removed(st.files, which))
    ensures Inv(after)
  {
    HolderHasLocal(st, w);
    HolderKeeps(st, after, w);
  }

  lemma UnlinkFailureKeeps(st: State, w: Wid, which: Which, r: Record, goal: Goal, f: Files, after: State)
    requires Inv(st) && w in st.wrappers && At(st, w) == Unlinking(which, r, goal)
    requires f == st.files || f == Removed(st.files, which)
    requires after == Move(st, w, AfterFailure(goal)).(files := f)
    ensures Inv(after)
  {
    HolderHasLocal(st, w);
    HolderKeeps(st, after, w);
  }

  lemma ClearStepKeeps(st: State, e: Event, after: State)
    requires Inv(st) && OfWrapper(e) && e.w in st.wrappers && ClearStep(st, e, e.w, st.wrappers[e.w]) == Some(after)
    ensures Inv(after)
  {
    var w := e.w;
    match At(st, w) {
      case Reading(which, goal) => ReadKeeps(st, w, which, goal, after);
      case Judging(which, r, goal) => JudgeKeeps(st, w, which, r, goal, e.JudgeInactive?, after);
      case Sweeping(which, r, goal) => SweepKeeps(st, w, which, r, goal, At(after, w), after.files, after);
      case Unlinking(which, r, goal) =>
        if e.Unlink? && e.synced {
          UnlinkKeeps(st, w, which, r, goal, after);
        } else {
          UnlinkFailureKeeps(st, w, which, r, goal, after.files, after);
        }
    }
  }

  // Saving

  lemma LaunchKeeps(st: State, w: Wid, s: Sid, after: State)
    requires Inv(st) && w in st.wrappers && At(st, w) == Ready && s !in st.sessions && st.wrappers[w].workspace.Some?
    requires after == Move(st, w, Forked(s)).(
      sessions := st.sessions[s := Gated(w, false, st.wrappers[w].workspace.value)], heirs := st.heirs + {s})
    ensures Inv(after)
  {
    HolderHasLocal(st, w);
    assert after.sessions == map[s := Gated(w, false, st.wrappers[w].workspace.value)];
    HolderKeeps(st, after, w);
  }

  /** A step of the save that leaves the sessions alone. */
  lemma SaveMoveKeeps(st: State, w: Wid, pc: Pc, f: Files, after: State)
    requires Inv(st) && w in st.wrappers && HoldsLock(At(st, w)) && HasWorkspace(At(st, w))
    requires after == Move(st, w, pc).(files := f)
    requires HoldsLock(pc) && Local(after, w, after.wrappers[w]) && FilesSound(f)
    requires f.json == st.files.json || NoPastGate(st)
    ensures Inv(after)
  {
    HolderHasLocal(st, w);
    HolderKeeps(st, after, w);
  }

  predicate NoPastGate(st: State) {
    forall s <- st.sessions :: !PastGate(st.sessions[s])
  }

  lemma BeforeWriteKeeps(st: State, e: Event, after: State)
    requires Inv(st) && OfWrapper(e) && e.w in st.wrappers && SaveStep(st, e, e.w, st.wrappers[e.w]) == Some(after)
    requires At(st, e.w).Forked? || At(st, e.w).Vacant? || e.GiveUp?
    ensures Inv(after)
  {
    HolderHasLocal(st, e.w);
    SaveMoveKeeps(st, e.w, At(after, e.w), after.files, after);
  }

  lemma WriteKeeps(st: State, e: Event, after: State)
    requires Inv(st) && OfWrapper(e) && e.w in st.wrappers && SaveStep(st, e, e.w, st.wrappers[e.w]) == Some(after)
    requires At(st, e.w).Writing? || At(st, e.w).Written? || At(st, e.w).Recorded?
    ensures Inv(after)
  {
    HolderHasLocal(st, e.w);
    SaveMoveKeeps(st, e.w, At(after, e.w), after.files, after);
  }

  lemma SaveStepKeeps(st: State, e: Event, after: State)
    requires Inv(st) && OfWrapper(e) && e.w in st.wrappers && SaveStep(st, e, e.w, st.wrappers[e.w]) == Some(after)
    ensures Inv(after)
  {
    if e.Launch? {
      LaunchKeeps(st, e.w, e.s, after);
    } else if At(st, e.w).Forked? || At(st, e.w).Vacant? || e.GiveUp? {
      BeforeWriteKeeps(st, e, after);
    } else {
      WriteKeeps(st, e, after);
    }
  }

  // Running

  lemma OpenKeeps(st: State, w: Wid, c: Sid, after: State)
    requires Inv(st) && w in st.wrappers && At(st, w) == Recorded(c)
    requires after == Move(st, w, Released(c)).(sessions :=
      if c in st.sessions then st.sessions[c := Gated(w, true, st.sessions[c].home)] else st.sessions)
    ensures Inv(after)
  {
    HolderHasLocal(st, w);
    HolderKeeps(st, after, w);
  }

  lemma KillKeeps(st: State, w: Wid, c: Sid, after: State)
    requires Inv(st) && w in st.wrappers && At(st, w) == Killing(c)
    requires after == Move(WithoutSession(st, c), w, Reading(Json, ToClose))
    ensures Inv(after)
  {
    HolderHasLocal(st, w);
    assert NoSession(after);
    HolderKeeps(st, after, w);
  }

  lemma ReapKeeps(st: State, w: Wid, c: Sid, after: State)
    requires Inv(st) && w in st.wrappers && At(st, w) == Released(c) && LeaderGone(st, c)
    requires after == Move(st, w, Waited(c))
    ensures Inv(after)
  {
    HolderHasLocal(st, w);
    HolderKeeps(st, after, w);
  }

  lemma FinishKeeps(st: State, w: Wid, c: Sid, pc: Pc, after: State)
    requires Inv(st) && w in st.wrappers && (At(st, w) == Waited(c) || At(st, w) == Finishing(c))
    requires after == Move(st, w, pc)
    requires pc == Finishing(c) || pc == Reading(Json, ToClose) || (pc == FinishClear(c) && c !in st.sessions)
    ensures Inv(after)
  {
    HolderHasLocal(st, w);
    HolderKeeps(st, after, w);
  }

  lemma RetireKeeps(st: State, w: Wid, c: Sid, pc: Pc, f: Files, after: State)
    requires Inv(st) && w in st.wrappers && At(st, w) == FinishClear(c)
    requires after == Move(st, w, pc).(files := f)
    requires (f == st.files.(json := Absent) && (pc == Ready || pc == Reading(Json, ToClose)))
          || (f == st.files && pc == Reading(Json, ToClose))
    ensures Inv(after)
  {
    HolderHasLocal(st, w);
    HolderKeeps(st, after, w);
  }

  lemma GateStepKeeps(st: State, e: Event, after: State)
    requires Inv(st) && OfWrapper(e) && e.w in st.wrappers && RunStep(st, e, e.w, st.wrappers[e.w]) == Some(after)
    requires At(st, e.w).Recorded? || At(st, e.w).Killing? || At(st, e.w).Released?
    ensures Inv(after)
  {
    var w := e.w;
    match At(st, w) {
      case Recorded(c) => OpenKeeps(st, w, c, after);
      case Killing(c) => KillKeeps(st, w, c, after);
      case Released(c) => ReapKeeps(st, w, c, after);
    }
  }

  lemma FinishStepKeeps(st: State, e: Event, after: State)
    requires Inv(st) && OfWrapper(e) && e.w in st.wrappers && RunStep(st, e, e.w, st.wrappers[e.w]) == Some(after)
    requires At(st, e.w).Waited? || At(st, e.w).Finishing? || At(st, e.w).FinishClear?
    ensures Inv(after)
  {
    var w := e.w;
    match At(st, w) {
      case Waited(c) => FinishKeeps(st, w, c, At(after, w), after);
      case Finishing(c) => FinishKeeps(st, w, c, At(after, w), after);
      case FinishClear(c) => RetireKeeps(st, w, c, At(after, w), after.files, after);
    }
  }

  lemma RunStepKeeps(st: State, e: Event, after: State)
    requires Inv(st) && OfWrapper(e) && e.w in st.wrappers && RunStep(st, e, e.w, st.wrappers[e.w]) == Some(after)
    ensures Inv(after)
  {
    if At(st, e.w).Recorded? || At(st, e.w).Killing? || At(st, e.w).Released? {
      GateStepKeeps(st, e, after);
    } else {
      FinishStepKeeps(st, e, after);
    }
  }

  // The lock and the workspace

  lemma AcquireKeeps(st: State, w: Wid, goal: Goal, after: State)
    requires Inv(st) && w in st.wrappers && Free(st)
    requires (At(st, w) == Started && goal.ToProbe?) || (At(st, w) == Collecting && goal.ToLaunch?)
    requires after == Move(st, w, Reading(Json, goal)).(lockOwner := Some(w))
    ensures Inv(after)
  {
    assert NoneGated(after);
  }

  lemma ReleaseKeeps(st: State, w: Wid, after: State)
    requires Inv(st) && w in st.wrappers && (At(st, w) == ProbeCleared || At(st, w) == Unlocking)
    requires || after == Move(st, w, Probed).(lockOwner := None)
             || after == st.(wrappers := st.wrappers - {w}, lockOwner := None)
    ensures Inv(after)
  {
    HolderHasLocal(st, w);
  }

  /** Steps before the lock is taken, and removals of one's own workspace, touch nothing the invariant speaks of. */
  lemma BystanderKeeps(st: State, w: Wid, after: State)
    requires Inv(st) && w in st.wrappers && !HoldsLock(At(st, w))
    requires after.lockOwner == st.lockOwner && after.sessions == st.sessions
    requires after.heirs == st.heirs && after.born == st.born
    requires after.files.json == st.files.json && after.files.pending == st.files.pending
    requires after.wrappers == st.wrappers - {w}
          || (w in after.wrappers && after.wrappers == st.wrappers[w := after.wrappers[w]] && !HoldsLock(At(after, w))
              && (HasWorkspace(At(after, w)) ==> after.wrappers[w].workspace.Some?))
    ensures Inv(after)
  {
    if st.lockOwner.Some? {
      var v := st.lockOwner.value;
      assert v != w && after.wrappers[v] == st.wrappers[v];
      assert Local(st, v, st.wrappers[v]);
    }
  }

  lemma RemoveOwnKeeps(st: State, w: Wid, pc: Pc, f: Files, after: State)
    requires Inv(st) && w in st.wrappers && At(st, w) == RemovingOwn
    requires pc == RemovingOwn || pc == Unlocking
    requires f.json == st.files.json && f.pending == st.files.pending
    requires after == Move(st, w, pc).(files := f)
    ensures Inv(after)
  {
    HolderHasLocal(st, w);
    HolderKeeps(st, after, w);
  }

  lemma FrameStepKeeps(st: State, e: Event, after: State)
    requires Inv(st) && OfWrapper(e) && e.w in st.wrappers && FrameStep(st, e, e.w, st.wrappers[e.w]) == Some(after)
    ensures Inv(after)
  {
    var w := e.w;
    match At(st, w) {
      case Started => AcquireKeeps(st, w, ToProbe, after);
      case ProbeCleared => ReleaseKeeps(st, w, after);
      case Probed => BystanderKeeps(st, w, after);
      case Collecting =>
        if e.Acquire? { AcquireKeeps(st, w, ToLaunch, after); } else { BystanderKeeps(st, w, after); }
      case Abandoning => BystanderKeeps(st, w, after);
      case RemovingOwn => RemoveOwnKeeps(st, w, At(after, w), after.files, after);
      case Unlocking => ReleaseKeeps(st, w, after);
    }
  }

  // Children, births and deaths

  lemma ForkOrDropKeeps(st: State, e: Event, after: State)
    requires Inv(st) && Next(st, e) == Some(after)
    requires e.Fork? || e.DropLock?
    ensures Inv(after)
  {
    HolderUndisturbed(st, after);
  }

  lemma PassGateKeeps(st: State, e: Event, after: State)
    requires Inv(st) && Next(st, e) == Some(after) && e.PassGate?
    ensures Inv(after)
  {
    HolderUndisturbed(st, after);
  }

  lemma SessionEndKeeps(st: State, s: Sid, after: State)
    requires Inv(st) && s in st.sessions && after == WithoutSession(st, s)
    ensures Inv(after)
  {
    HolderUndisturbed(st, after);
  }

  lemma ExitKeeps(st: State, s: Sid, p: Pid, after: State)
    requires Inv(st) && s in st.sessions && st.sessions[s].Running? && p in st.sessions[s].members
    requires st.sessions[s].members != {p}
    requires after == st.(sessions := st.sessions[s := Running(st.sessions[s].members - {p}, st.sessions[s].home)])
    ensures Inv(after)
  {
    HolderUndisturbed(st, after);
  }

  /** Children may only disappear, pass an open gate, or change their membership; the holder's facts survive that. */
  lemma HolderUndisturbed(st: State, after: State)
    requires Inv(st) && after.wrappers == st.wrappers && after.lockOwner == st.lockOwner && after.files == st.files
    requires after.sessions.Keys <= st.sessions.Keys
    requires forall s <- after.sessions ::
      after.sessions[s] == st.sessions[s]
      || (after.sessions[s].Running? && PastGate(st.sessions[s]) && after.sessions[s].home == st.sessions[s].home)
    ensures after.lockOwner.Some? ==> Local(after, after.lockOwner.value, after.wrappers[after.lockOwner.value])
  {
    if st.lockOwner.Some? {
      var w := st.lockOwner.value;
      LocalUndisturbed(st, after, w, st.wrappers[w]);
    }
  }

  lemma LocalUndisturbed(st: State, after: State, w: Wid, wr: Wrapper)
    requires Local(st, w, wr) && after.files == st.files && after.sessions.Keys <= st.sessions.Keys
    requires forall s <- after.sessions ::
      after.sessions[s] == st.sessions[s]
      || (after.sessions[s].Running? && PastGate(st.sessions[s]) && after.sessions[s].home == st.sessions[s].home)
    ensures Local(after, w, wr)
  {
  }

  lemma ChildStepKeeps(st: State, e: Event, after: State)
    requires Inv(st) && Next(st, e) == Some(after)
    requires e.PassGate? || e.EndOfFile? || e.Vanish? || e.Fork? || e.Exit? || e.DropLock?
    ensures Inv(after)
  {
    if e.PassGate? {
      PassGateKeeps(st, e, after);
    } else if e.Fork? || e.DropLock? {
      ForkOrDropKeeps(st, e, after);
    } else if e.Exit? && st.sessions[e.s].members != {e.p} {
      ExitKeeps(st, e.s, e.p, after);
    } else {
      SessionEndKeeps(st, e.s, after);
    }
  }

  lemma StartKeeps(st: State, w: Wid, after: State)
    requires Inv(st) && Next(st, Start(w)) == Some(after)
    ensures Inv(after)
  {
    if st.lockOwner.Some? {
      assert Local(st, st.lockOwner.value, st.wrappers[st.lockOwner.value]);
    }
  }

  lemma DieKeeps(st: State, w: Wid, after: State)
    requires Inv(st) && Next(st, Die(w)) == Some(after)
    ensures Inv(after)
  {
    if st.lockOwner.Some? && st.lockOwner.value != w {
      assert Local(st, st.lockOwner.value, st.wrappers[st.lockOwner.value]);
    }
  }

  lemma StepKeeps(st: State, e: Event, after: State)
    requires Inv(st) && Next(st, e) == Some(after)
    ensures Inv(after)
  {
    if OfWrapper(e) {
      if FrameStep(st, e, e.w, st.wrappers[e.w]) == Some(after) { FrameStepKeeps(st, e, after); }
      else if ClearStep(st, e, e.w, st.wrappers[e.w]) == Some(after) { ClearStepKeeps(st, e, after); }
      else if SaveStep(st, e, e.w, st.wrappers[e.w]) == Some(after) { SaveStepKeeps(st, e, after); }
      else { RunStepKeeps(st, e, after); }
    } else if e.Start? {
      StartKeeps(st, e.w, after);
    } else if e.Die? {
      DieKeeps(st, e.w, after);
    } else {
      ChildStepKeeps(st, e, after);
    }
  }
}
