/**
 What licenses the protocol's inactive steps. While the lock holder watches a session, every
 step of the protocol, whoever takes it, is one the process observation allows for; so an
 inactive answer obtained meanwhile is right, and the step guarded by it can be taken.
 */
module Watching {
  import opened Domain
  import opened LaunchProtocol
  import opened LaunchSafety
  import opened LaunchRuns
  import L = Liveness

  /** The wrapper stands where it asks whether this session is still active. */
  predicate Watches(st: State, w: Wid, s: Sid) {
    w in st.wrappers
    && ((At(st, w).Judging? && At(st, w).record.session == s) || At(st, w) == Finishing(s))
  }

  /** The step taken on an inactive answer. */
  function OnInactive(pc: Pc, w: Wid): Event {
    if pc.Finishing? then FinishInactive(w) else JudgeInactive(w)
  }

  /** The processes of a session: its leader at the gate, or whatever it has forked and not lost. */
  function Members(st: State, s: Sid): set<Pid> {
    if s !in st.sessions then {}
    else match st.sessions[s]
      case Gated(_, _, _) => {s}
      case Running(members, _) => members
  }

  /** The process table agrees with the protocol about this session. */
  ghost predicate Shows(world: L.World, st: State, s: Sid) {
    forall p :: L.Member(world, p, s) <==> p in Members(st, s)
  }

  /** No process joins or leaves the session other than by being born or exiting. */
  predicate Steady(world: L.World, next: L.World, s: Sid) {
    forall p <- world :: p in next && (world[p] == s || next[p] == s) ==> world[p] == next[p]
  }

  // ---- Steps taken while a session is watched ----

  lemma FrameLeavesSessions(st: State, e: Event, w: Wid, after: State)
    requires OfFrame(e) && e.w == w && w in st.wrappers && FrameStep(st, e, w, st.wrappers[w]) == Some(after)
    ensures after.sessions == st.sessions
  {
  }

  lemma ClearLeavesSessions(st: State, e: Event, w: Wid, after: State)
    requires OfClear(e) && e.w == w && w in st.wrappers && ClearStep(st, e, w, st.wrappers[w]) == Some(after)
    ensures after.sessions == st.sessions
  {
  }

  lemma WatcherLeavesSessions(st: State, e: Event, after: State, w: Wid, s: Sid)
    requires Watches(st, w, s) && OfWrapper(e) && e.w == w && WrapperStep(st, e, w, st.wrappers[w]) == Some(after)
    ensures after.sessions == st.sessions
  {
    if OfFrame(e) { FrameLeavesSessions(st, e, w, after); }
    else if OfClear(e) { ClearLeavesSessions(st, e, w, after); }
  }

  lemma BystanderLeavesSessions(st: State, e: Event, after: State)
    requires OfWrapper(e) && e.w in st.wrappers && !HoldsLock(At(st, e.w))
    requires WrapperStep(st, e, e.w, st.wrappers[e.w]) == Some(after)
    ensures after.sessions == st.sessions
  {
    if OfFrame(e) { FrameLeavesSessions(st, e, e.w, after); }
    else if OfClear(e) { ClearLeavesSessions(st, e, e.w, after); }
  }

  /** The watcher holds the lock, so no wrapper's step touches any session. */
  lemma WrappersLeaveSessions(st: State, e: Event, after: State, w: Wid, s: Sid)
    requires Inv(st) && Watches(st, w, s) && OfWrapper(e) && Next(st, e) == Some(after)
    ensures after.sessions == st.sessions
  {
    if e.w == w {
      WatcherLeavesSessions(st, e, after, w, s);
    } else {
      assert !HoldsLock(At(st, e.w));
      BystanderLeavesSessions(st, e, after);
    }
  }

  lemma ChildrenAreNotBorn(st: State, e: Event, after: State, s: Sid)
    requires !OfWrapper(e) && Next(st, e) == Some(after) && s in after.sessions
    ensures s in st.sessions
  {
  }

  /** A watched session comes from nowhere: what is alive after a step had a member before it. */
  lemma NothingComesBack(st: State, e: Event, after: State, w: Wid, s: Sid)
    requires Inv(st) && Watches(st, w, s) && Next(st, e) == Some(after) && s in after.sessions
    ensures Members(st, s) != {}
  {
    if OfWrapper(e) {
      WrappersLeaveSessions(st, e, after, w, s);
    } else {
      ChildrenAreNotBorn(st, e, after, s);
    }
    LivingHasMember(st, s);
  }

  lemma LivingHasMember(st: State, s: Sid)
    requires Inv(st) && s in st.sessions
    ensures Members(st, s) != {}
  {
  }

  /** So each step is one the observation allows for. */
  lemma StepFollows(st: State, e: Event, after: State, w: Wid, s: Sid, world: L.World, next: L.World)
    requires Inv(st) && Watches(st, w, s) && Next(st, e) == Some(after)
    requires Shows(world, st, s) && Shows(next, after, s) && Steady(world, next, s)
    ensures L.Follows(world, next, s)
  {
    if p :| p in next && L.Member(next, p, s) && !L.Member(world, p, s) {
      NothingComesBack(st, e, after, w, s);
      var q :| q in Members(st, s);
      assert L.Member(world, q, s);
    }
  }

  // ---- A watched stretch of a run ----

  /** In state i + k of the run w watches the session, and the k-th process table agrees with it. */
  ghost predicate WatchedAt(states: seq<State>, i: nat, w: Wid, s: Sid, worlds: seq<L.World>, k: nat)
    requires k < |worlds| && i + |worlds| <= |states|
  {
    Watches(states[i + k], w, s) && Shows(worlds[k], states[i + k], s)
  }

  /** From state i on, one process table a state, w watches the session and the tables agree with the protocol. */
  ghost predicate Watched(states: seq<State>, i: nat, w: Wid, s: Sid, worlds: seq<L.World>) {
    && 0 < |worlds| && i + |worlds| <= |states|
    && (forall k | 0 <= k < |worlds| :: WatchedAt(states, i, w, s, worlds, k))
    && forall k | 0 <= k < |worlds| - 1 :: Steady(worlds[k], worlds[k + 1], s)
  }

  /** The session is over, and the step the protocol guards with that is open to its watcher. */
  ghost predicate Licensed(st: State, w: Wid, s: Sid) {
    Watches(st, w, s) && s !in st.sessions && Next(st, OnInactive(At(st, w), w)).Some?
  }

  lemma WatchedIsTimeline(states: seq<State>, events: seq<Event>, i: nat, w: Wid, s: Sid, worlds: seq<L.World>)
    requires IsRun(states, events) && Watched(states, i, w, s, worlds)
    ensures L.Timeline(worlds, s)
  {
    forall k | 0 <= k < |worlds| - 1 ensures L.Follows(worlds[k], worlds[k + 1], s) {
      InvThroughout(states, events, i + k);
      assert WatchedAt(states, i, w, s, worlds, k) && WatchedAt(states, i, w, s, worlds, k + 1);
      StepFollows(states[i + k], events[i + k], states[i + k + 1], w, s, worlds[k], worlds[k + 1]);
    }
  }

  /** In a watched state the session is over exactly when the process table has no member of it. */
  lemma OverExactlyWhenEmpty(st: State, w: Wid, s: Sid, world: L.World)
    requires Inv(st) && Watches(st, w, s) && Shows(world, st, s)
    ensures L.Empty(world, s) <==> Licensed(st, w, s)
  {
    if s in st.sessions {
      LivingHasMember(st, s);
      var p :| p in Members(st, s);
      assert L.Member(world, p, s);
    } else {
      assert forall p <- world :: !L.Member(world, p, s);
    }
  }

  /**
   Asking whether the watched session is active, in up to three attempts made in the meantime: if the
   answer is no, the inactive step is licensed in the state in which it is given.
   */
  method AskWatched(s: Sid, attempts: seq<L.Attempt>, ghost states: seq<State>, ghost events: seq<Event>, ghost i: nat,
                    ghost w: Wid, ghost worlds: seq<L.World>, ghost at: seq<nat>, ghost times: seq<seq<nat>>)
      returns (active: Option<bool>)
    requires IsRun(states, events) && Watched(states, i, w, s, worlds) && L.NoReuse(worlds)
    requires |attempts| == |at| == |times| == L.ATTEMPTS
    requires forall k | 0 <= k < L.ATTEMPTS && L.Clean(s, attempts[k]) ::
      L.Sighted(worlds, s, at[k], times[k], attempts[k], |worlds| - 1)
    ensures active == Some(false) ==> Licensed(states[i + |worlds| - 1], w, s)
  {
    active := L.ProcessSessionActive(s, attempts);
    if active == Some(false) {
      ghost var last := |worlds| - 1;
      WatchedIsTimeline(states, events, i, w, s, worlds);
      L.InactiveMeansEmpty(worlds, s, attempts, at, times, last);
      InvThroughout(states, events, i + last);
      assert WatchedAt(states, i, w, s, worlds, last);
      OverExactlyWhenEmpty(states[i + last], w, s, worlds[last]);
    }
  }
}
