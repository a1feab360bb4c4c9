/**
 What the launch protocol promises over whole runs, at every state and every step of them.
 */
module LaunchRuns {
  import opened Domain
  import opened LaunchProtocol
  import opened LaunchSafety

  lemma {:induction false} InvThroughout(states: seq<State>, events: seq<Event>, i: nat)
    requires IsRun(states, events) && i < |states|
    ensures Inv(states[i])
  {
    if i > 0 {
      InvThroughout(states, events, i - 1);
      StepKeeps(states[i - 1], events[i - 1], states[i]);
    }
  }

  /** However wrappers die and children misbehave, two owned sessions are never alive together. */
  lemma MutualExclusion(states: seq<State>, events: seq<Event>, i: nat, s: Sid, t: Sid)
    requires IsRun(states, events) && i < |states|
    requires s in states[i].sessions && t in states[i].sessions
    ensures s == t
  {
    InvThroughout(states, events, i);
  }

  /** Whatever runs past the gate is on record: its session and its workspace, in the committed file alone. */
  lemma RecordBeforeRun(states: seq<State>, events: seq<Event>, i: nat, s: Sid)
    requires IsRun(states, events) && i < |states|
    requires s in states[i].sessions && PastGate(states[i].sessions[s])
    ensures states[i].files.json.Complete? && states[i].files.pending.Absent?
    ensures states[i].files.json.record.session == s
    ensures states[i].files.json.record.workspace == states[i].sessions[s].home
  {
    InvThroughout(states, events, i);
    assert PastGate(states[i].sessions[s]);
  }

  /** The committed record is never torn, and never stands beside a pending one. */
  lemma RecordsNeverCoexist(states: seq<State>, events: seq<Event>, i: nat)
    requires IsRun(states, events) && i < |states|
    ensures !states[i].files.json.Torn?
    ensures states[i].files.json.Complete? ==> states[i].files.pending.Absent?
  {
    InvThroughout(states, events, i);
  }

  lemma RecordTouched(st: State, e: Event, after: State)
    requires OfWrapper(e) && e.w in st.wrappers && WrapperStep(st, e, e.w, st.wrappers[e.w]) == Some(after)
    requires after.files.json != st.files.json
    ensures At(st, e.w).Written? || At(st, e.w).Unlinking? || At(st, e.w).FinishClear?
  {
    if OfFrame(e) { FrameLeavesRecord(st, e, after); }
    else if OfClear(e) { ClearTouchesRecord(st, e, after); }
    else if OfSave(e) { SaveTouchesRecord(st, e, after); }
  }

  lemma FrameLeavesRecord(st: State, e: Event, after: State)
    requires OfFrame(e) && e.w in st.wrappers && FrameStep(st, e, e.w, st.wrappers[e.w]) == Some(after)
    ensures after.files.json == st.files.json
  {
  }

  lemma ClearTouchesRecord(st: State, e: Event, after: State)
    requires OfClear(e) && e.w in st.wrappers && ClearStep(st, e, e.w, st.wrappers[e.w]) == Some(after)
    ensures after.files.json != st.files.json ==> At(st, e.w).Unlinking?
  {
  }

  lemma SaveTouchesRecord(st: State, e: Event, after: State)
    requires OfSave(e) && e.w in st.wrappers && SaveStep(st, e, e.w, st.wrappers[e.w]) == Some(after)
    ensures after.files.json != st.files.json ==> At(st, e.w).Written?
  {
  }

  lemma OthersLeaveFiles(st: State, e: Event, after: State)
    requires !OfWrapper(e) && Next(st, e) == Some(after)
    ensures after.files == st.files
  {
  }

  /** A step that changes the committed record finds nothing past the gate. */
  lemma RecordChangesOnlyWhenIdle(st: State, e: Event, after: State, s: Sid)
    requires Inv(st) && Next(st, e) == Some(after) && after.files.json != st.files.json
    requires s in st.sessions
    ensures !PastGate(st.sessions[s])
  {
    if !OfWrapper(e) {
      OthersLeaveFiles(st, e, after);
    } else {
      RecordTouched(st, e, after);
      IdleThere(st, e.w, s);
    }
  }

  lemma IdleThere(st: State, w: Wid, s: Sid)
    requires Inv(st) && w in st.wrappers && (At(st, w).Written? || At(st, w).Unlinking? || At(st, w).FinishClear?)
    requires s in st.sessions
    ensures !PastGate(st.sessions[s])
  {
    HolderHasLocal(st, w);
  }

  lemma StepKeepsRecord(st: State, e: Event, after: State, s: Sid)
    requires Inv(st) && Inv(after) && Next(st, e) == Some(after)
    requires s in st.sessions && PastGate(st.sessions[s]) && s in after.sessions && PastGate(after.sessions[s])
    ensures after.files.json == st.files.json && after.sessions[s].home == st.sessions[s].home
  {
    if after.files.json != st.files.json {
      RecordChangesOnlyWhenIdle(st, e, after, s);
    } else {
      assert Names(st.files.json, s, st.sessions[s]) && Names(after.files.json, s, after.sessions[s]);
    }
  }

  /** The session is past the gate in every state of this stretch. */
  predicate RunsThroughout(states: seq<State>, i: nat, j: nat, s: Sid)
    requires j < |states|
  {
    forall k | i <= k <= j :: Runs(states[k], s)
  }

  predicate Runs(st: State, s: Sid) {
    s in st.sessions && PastGate(st.sessions[s])
  }

  /** While a session past the gate lives, its record is left as it is. */
  lemma {:induction false} RecordUntilEmpty(states: seq<State>, events: seq<Event>, i: nat, j: nat, s: Sid)
    requires IsRun(states, events) && i <= j < |states|
    requires RunsThroughout(states, i, j, s)
    ensures Runs(states[i], s) && Runs(states[j], s)
    ensures states[j].files.json == states[i].files.json && states[j].sessions[s].home == states[i].sessions[s].home
  {
    if i < j {
      RecordUntilEmpty(states, events, i, j - 1, s);
      RecordNextToo(states, events, j - 1, s);
    }
  }

  lemma RecordNextToo(states: seq<State>, events: seq<Event>, k: nat, s: Sid)
    requires IsRun(states, events) && k + 1 < |states| && Runs(states[k], s) && Runs(states[k + 1], s)
    ensures states[k + 1].files.json == states[k].files.json
    ensures states[k + 1].sessions[s].home == states[k].sessions[s].home
  {
    InvThroughout(states, events, k);
    InvThroughout(states, events, k + 1);
    StepKeepsRecord(states[k], events[k], states[k + 1], s);
  }

  /** A step of a wrapper gives birth to none and moves no other. */
  predicate MovesOnly(st: State, after: State, w: Wid) {
    && after.born == st.born
    && (after.wrappers == st.wrappers - {w}
        || (w in after.wrappers && w in st.wrappers && after.wrappers == st.wrappers[w := after.wrappers[w]]))
  }

  lemma FramingTouches(st: State, e: Event, after: State)
    requires OfFrame(e) && e.w in st.wrappers && FrameStep(st, e, e.w, st.wrappers[e.w]) == Some(after)
    ensures after.sessions == st.sessions && MovesOnly(st, after, e.w)
  {
  }

  lemma ClearingTouches(st: State, e: Event, after: State)
    requires OfClear(e) && e.w in st.wrappers && ClearStep(st, e, e.w, st.wrappers[e.w]) == Some(after)
    ensures after.sessions == st.sessions && MovesOnly(st, after, e.w)
  {
  }

  lemma SavingTouches(st: State, e: Event, after: State)
    requires OfSave(e) && e.w in st.wrappers && SaveStep(st, e, e.w, st.wrappers[e.w]) == Some(after)
    ensures (At(st, e.w).Ready? || after.sessions == st.sessions) && MovesOnly(st, after, e.w)
  {
  }

  lemma RunningTouches(st: State, e: Event, after: State)
    requires OfWrapper(e) && e.w in st.wrappers && RunStep(st, e, e.w, st.wrappers[e.w]) == Some(after)
    ensures At(st, e.w).Recorded? || forall s <- after.sessions ::
      s in st.sessions && after.sessions[s] == st.sessions[s]
    ensures MovesOnly(st, after, e.w)
  {
  }

  lemma WrapperTouches(st: State, e: Event, after: State)
    requires OfWrapper(e) && e.w in st.wrappers && WrapperStep(st, e, e.w, st.wrappers[e.w]) == Some(after)
    ensures At(st, e.w).Ready? || At(st, e.w).Recorded?
      || forall s <- after.sessions :: s in st.sessions && after.sessions[s] == st.sessions[s]
    ensures MovesOnly(st, after, e.w)
  {
    if OfFrame(e) { FramingTouches(st, e, after); }
    else if OfClear(e) { ClearingTouches(st, e, after); }
    else if OfSave(e) { SavingTouches(st, e, after); }
    else { RunningTouches(st, e, after); }
  }

  lemma NotItsOrphan(st: State, w: Wid, s: Sid)
    requires Inv(st) && w in st.wrappers
    requires s in st.sessions && st.sessions[s].Gated? && st.sessions[s].owner !in st.wrappers
    ensures !At(st, w).Ready? && !At(st, w).Recorded?
  {
    if At(st, w).Ready? || At(st, w).Recorded? {
      HolderHasLocal(st, w);
      assert false;
    }
  }

  lemma OthersLeaveOrphan(st: State, e: Event, after: State, s: Sid)
    requires !OfWrapper(e) && Next(st, e) == Some(after)
    requires s in st.sessions && st.sessions[s].Gated? && !st.sessions[s].open
    ensures s in after.sessions ==> after.sessions[s] == st.sessions[s]
    ensures forall w <- st.born :: w !in st.wrappers ==> w !in after.wrappers
  {
  }

  /** The child waits at a closed gate and the wrapper that would open it is dead. */
  predicate Orphaned(st: State, s: Sid) {
    s in st.sessions && st.sessions[s].Gated? && !st.sessions[s].open && st.sessions[s].owner !in st.wrappers
  }

  lemma OrphanStaysOne(st: State, e: Event, after: State, s: Sid)
    requires Inv(st) && Next(st, e) == Some(after) && Orphaned(st, s) && s in after.sessions
    ensures Orphaned(after, s) && after.sessions[s] == st.sessions[s]
  {
    if OfWrapper(e) {
      WrapperTouches(st, e, after);
      NotItsOrphan(st, e.w, s);
    } else {
      OthersLeaveOrphan(st, e, after, s);
    }
  }

  /** A child left at a closed gate by a dead wrapper never passes it, however long it lives and whatever happens. */
  lemma {:induction false} OrphanNeverStarts(states: seq<State>, events: seq<Event>, i: nat, j: nat, s: Sid)
    requires IsRun(states, events) && i <= j < |states| && Orphaned(states[i], s)
    requires forall k | i <= k <= j :: s in states[k].sessions
    ensures states[j].sessions[s] == states[i].sessions[s] && Orphaned(states[j], s)
    decreases j
  {
    if i < j {
      OrphanNeverStarts(states, events, i, j - 1, s);
      InvThroughout(states, events, j - 1);
      OrphanStaysOne(states[j - 1], events[j - 1], states[j], s);
    }
  }
}
