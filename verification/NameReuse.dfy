/**
 Why the workspace theorem asks that no name is drawn while something still has a use for it. The
 name of a removed workspace may be drawn again; three wrappers that draw the same one can end
 with a wrapper removing, as its own, the workspace another wrapper's session is running in.
 */
module NameReuse {
  import opened Domain
  import opened LaunchProtocol
  import opened Workspaces

  function Starts(st: State, w: Wid): State {
    st.(wrappers := st.wrappers[w := Wrapper(Started, None)], born := st.born + {w})
  }

  function Dies(st: State, w: Wid): State {
    st.(wrappers := st.wrappers - {w}, lockOwner := if st.lockOwner == Some(w) then None else st.lockOwner)
  }

  /** A wrapper starts and takes the lock. */
  lemma Takes(init: State, st: State, w: Wid) returns (after: State)
    requires Leads(init, st) && Free(st) && w !in st.born && w !in st.wrappers
    ensures Leads(init, after)
    ensures after == Move(Starts(st, w), w, Reading(Json, ToProbe)).(lockOwner := Some(w))
  {
    Then(init, st, Start(w), Starts(st, w));
    after := Move(Starts(st, w), w, Reading(Json, ToProbe)).(lockOwner := Some(w));
    ThenFrame(init, Starts(st, w), Acquire(w), after);
  }

  /** It finds nothing in flight and moves on. */
  lemma FindsNothing(init: State, st: State, w: Wid, goal: Goal) returns (after: State)
    requires Leads(init, st) && w in st.wrappers && At(st, w) == Reading(Json, goal)
    requires st.files.json.Absent? && st.files.pending.Absent?
    ensures Leads(init, after) && after == Move(st, w, AfterFile(Pending, goal))
  {
    var half := Move(st, w, Reading(Pending, goal));
    ThenClear(init, st, Read(w), half);
    after := Move(half, w, AfterFile(Pending, goal));
    ThenClear(init, half, Read(w), after);
  }

  lemma Probes(init: State, st: State, w: Wid) returns (after: State)
    requires Leads(init, st) && Free(st) && w !in st.born && w !in st.wrappers
    requires st.files.json.Absent? && st.files.pending.Absent?
    ensures Leads(init, after)
    ensures after == st.(wrappers := st.wrappers[w := Wrapper(Probed, None)], born := st.born + {w})
  {
    var mid := Takes(init, st, w);
    mid := FindsNothing(init, mid, w, ToProbe);
    after := Move(mid, w, Probed).(lockOwner := None);
    ThenFrame(init, mid, Unlock(w), after);
  }

  /** A wrapper that has probed makes its workspace. */
  lemma Makes(init: State, st: State, w: Wid, name: Name) returns (after: State)
    requires Leads(init, st) && w in st.wrappers && At(st, w) == Probed && name !in st.files.intact + st.files.leftover
    ensures Leads(init, after)
    ensures after == st.(wrappers := st.wrappers[w := Wrapper(Collecting, Some(name))],
      files := st.files.(intact := st.files.intact + {name}))
  {
    after := st.(wrappers := st.wrappers[w := Wrapper(Collecting, Some(name))],
      files := st.files.(intact := st.files.intact + {name}));
    ThenFrame(init, st, MakeWorkspace(w, name), after);
  }

  lemma Prepares(init: State, st: State, w: Wid, name: Name) returns (after: State)
    requires Leads(init, st) && Free(st) && w in st.wrappers && st.wrappers[w] == Wrapper(Collecting, Some(name))
    requires st.files.json.Absent? && st.files.pending.Absent?
    ensures Leads(init, after)
    ensures after == st.(wrappers := st.wrappers[w := Wrapper(Ready, Some(name))], lockOwner := Some(w))
  {
    var mid := Move(st, w, Reading(Json, ToLaunch)).(lockOwner := Some(w));
    ThenFrame(init, st, Acquire(w), mid);
    after := FindsNothing(init, mid, w, ToLaunch);
  }

  /** It starts a child and records it. */
  lemma Forks(init: State, st: State, w: Wid, name: Name, s: Sid) returns (after: State)
    requires Leads(init, st) && w in st.wrappers && st.wrappers[w] == Wrapper(Ready, Some(name)) && st.sessions == map[]
    requires st.files.json.Absent? && st.files.pending.Absent?
    ensures Leads(init, after)
    ensures after == Move(st, w, Vacant(s)).(sessions := map[s := Gated(w, false, name)], heirs := st.heirs + {s})
  {
    var mid := Move(st, w, Forked(s)).(sessions := map[s := Gated(w, false, name)], heirs := st.heirs + {s});
    ThenSave(init, st, Launch(w, s), mid);
    after := Move(mid, w, Vacant(s));
    ThenSave(init, mid, CheckVacant(w), after);
  }

  lemma Records(init: State, st: State, w: Wid, name: Name, s: Sid) returns (after: State)
    requires Leads(init, st) && w in st.wrappers && st.wrappers[w] == Wrapper(Vacant(s), Some(name))
    requires st.files.pending.Absent?
    ensures Leads(init, after)
    ensures after == Move(st, w, Recorded(s)).(files := st.files.(json := Complete(Record(w, s, name))))
  {
    var torn := Move(st, w, Writing(s)).(files := st.files.(pending := Torn));
    ThenSave(init, st, BeginWrite(w), torn);
    var whole := Move(torn, w, Written(s)).(files := torn.files.(pending := Complete(Record(w, s, name))));
    ThenSave(init, torn, EndWrite(w), whole);
    after := Move(whole, w, Recorded(s)).(files := whole.files.(json := whole.files.pending, pending := Absent));
    ThenSave(init, whole, Rename(w), after);
  }

  /** A fresh wrapper finds a record of a session that is gone and removes the recorded workspace. */
  lemma Sweeps(init: State, st: State, v: Wid, r: Record) returns (after: State)
    requires Leads(init, st) && Free(st) && v !in st.born && v !in st.wrappers && st.sessions == map[]
    requires st.files.json == Complete(r)
    ensures Leads(init, after)
    ensures after == Move(Starts(st, v), v, Unlinking(Json, r, ToProbe)).(
      lockOwner := Some(v), files := WithoutWorkspace(st.files, r.workspace))
  {
    var mid := Takes(init, st, v);
    var judging := Move(mid, v, Judging(Json, r, ToProbe));
    ThenClear(init, mid, Read(v), judging);
    var sweeping := Move(judging, v, Sweeping(Json, r, ToProbe));
    ThenClear(init, judging, JudgeInactive(v), sweeping);
    after := Move(sweeping, v, Unlinking(Json, r, ToProbe)).(files := WithoutWorkspace(sweeping.files, r.workspace));
    ThenClear(init, sweeping, SweepAll(v), after);
  }

  /** It dies before it removes the record, or after. */
  lemma SweepsAndDies(init: State, st: State, v: Wid, r: Record, unlink: bool) returns (after: State)
    requires Leads(init, st) && Free(st) && v !in st.born && v !in st.wrappers && st.sessions == map[]
    requires st.files.json == Complete(r)
    ensures Leads(init, after)
    ensures after == st.(born := st.born + {v}, files := Files(if unlink then Absent else Complete(r),
      st.files.pending, st.files.intact - {r.workspace}, st.files.leftover - {r.workspace}))
  {
    var mid := Sweeps(init, st, v, r);
    if unlink {
      var swept := mid;
      mid := Move(swept, v, Reading(Pending, ToProbe)).(files := Removed(swept.files, Json));
      ThenClear(init, swept, Unlink(v, true), mid);
    }
    after := Dies(mid, v);
    Then(init, mid, Die(v), after);
    assert after.wrappers == st.wrappers;
  }

  // ---- The run ----

  const STALE := State(map[1 := Wrapper(Probed, None), 2 := Wrapper(Probed, None)], map[], None, {},
    Files(Complete(Record(0, 100, 7)), Absent, {7}, {}), {0, 1, 2})

  /** Three wrappers have probed; one of them records a child in workspace 7. */
  lemma FirstWrapper() returns (st: State)
    ensures Leads(INITIAL, st) && 0 in st.wrappers && At(st, 0) == Recorded(100)
    ensures st.wrappers - {0} == STALE.wrappers && st.sessions == map[100 := Gated(0, false, 7)]
    ensures st.lockOwner == Some(0) && st.heirs == {100}
    ensures st.files == STALE.files && st.born == STALE.born
  {
    assert After(INITIAL, []) == Some(INITIAL);
    st := Probes(INITIAL, INITIAL, 1);
    st := Probes(INITIAL, st, 2);
    st := Probes(INITIAL, st, 0);
    st := Makes(INITIAL, st, 0, 7);
    st := Prepares(INITIAL, st, 0, 7);
    st := Forks(INITIAL, st, 0, 7, 100);
    st := Records(INITIAL, st, 0, 7, 100);
  }

  /** It dies before opening the gate, and its child goes. */
  lemma StaleRecord()
    ensures Leads(INITIAL, STALE)
  {
    var st := FirstWrapper();
    var dead := Dies(st, 0);
    Then(INITIAL, st, Die(0), dead);
    assert dead.sessions - {100} == STALE.sessions && dead.heirs - {100} == STALE.heirs;
    Then(INITIAL, dead, EndOfFile(100), STALE);
  }

  const SWEPT_TWICE := State(map[1 := Wrapper(Collecting, Some(7)), 2 := Wrapper(Probed, None)], map[], None, {},
    Files(Absent, Absent, {}, {}), {0, 1, 2, 3, 4})

  /** Workspace 7 is removed, drawn again by wrapper 1, and removed again on the word of the same record. */
  lemma SweptTwice()
    ensures Leads(INITIAL, SWEPT_TWICE)
  {
    StaleRecord();
    var r := Record(0, 100, 7);
    var st := SweepsAndDies(INITIAL, STALE, 3, r, false);
    st := Makes(INITIAL, st, 1, 7);
    st := SweepsAndDies(INITIAL, st, 4, r, true);
    assert st.wrappers == SWEPT_TWICE.wrappers;
    assert st.born == SWEPT_TWICE.born;
    assert st.files == SWEPT_TWICE.files;
  }

  const SHARED := State(map[1 := Wrapper(Collecting, Some(7)), 2 := Wrapper(Released(100), Some(7))],
    map[100 := Running({100}, 7)], Some(2), {100},
    Files(Complete(Record(2, 100, 7)), Absent, {7}, {}), {0, 1, 2, 3, 4})

  /** Wrapper 2 draws the name too, and its session runs there. */
  lemma SharedName()
    ensures Leads(INITIAL, SHARED)
  {
    SweptTwice();
    var st := Makes(INITIAL, SWEPT_TWICE, 2, 7);
    st := Prepares(INITIAL, st, 2, 7);
    st := Forks(INITIAL, st, 2, 7, 100);
    st := Records(INITIAL, st, 2, 7, 100);
    Opens(st);
  }

  lemma Opens(st: State)
    requires Leads(INITIAL, st)
    requires st.wrappers == SHARED.wrappers[2 := Wrapper(Recorded(100), Some(7))]
    requires st == SHARED.(wrappers := st.wrappers, sessions := map[100 := Gated(2, false, 7)])
    ensures Leads(INITIAL, SHARED)
  {
    var open := SHARED.(sessions := map[100 := Gated(2, true, 7)]);
    Releases(st, open);
    assert open.sessions[100 := Running({100}, 7)] == SHARED.sessions;
    Then(INITIAL, open, PassGate(100), SHARED);
  }

  lemma Releases(st: State, open: State)
    requires Leads(INITIAL, st)
    requires st.wrappers == SHARED.wrappers[2 := Wrapper(Recorded(100), Some(7))]
    requires st == SHARED.(wrappers := st.wrappers, sessions := map[100 := Gated(2, false, 7)])
    requires open == SHARED.(sessions := map[100 := Gated(2, true, 7)])
    ensures Leads(INITIAL, open)
  {
    assert st.wrappers[2 := Wrapper(Released(100), Some(7))] == SHARED.wrappers;
    assert st.sessions[100 := Gated(2, true, 7)] == open.sessions;
    Then(INITIAL, st, OpenGate(2), open);
  }

  /** In step n of this run wrapper 1 abandons its collection, and with it the workspace session 100 runs in. */
  lemma ReusedNameLosesLiveWorkspace() returns (states: seq<State>, events: seq<Event>, n: nat)
    ensures IsRun(states, events) && n < |events| && events[n] == RemoveOwnAll(1)
    ensures 100 in states[n].sessions && PastGate(states[n].sessions[100])
    ensures states[n + 1].sessions == states[n].sessions
    ensures states[n].sessions[100].home in states[n].files.intact
    ensures states[n].sessions[100].home !in states[n + 1].files.intact
    ensures Abandons(states[n], events[n], states[n].sessions[100].home)
  {
    SharedName();
    var st := Move(SHARED, 1, Abandoning);
    Then(INITIAL, SHARED, Abandon(1), st);
    var before :| After(INITIAL, before) == Some(st);
    var after := st.(files := WithoutWorkspace(st.files, 7), wrappers := st.wrappers - {1});
    events, n := before + [RemoveOwnAll(1)], |before|;
    states := RunThrough(before, st, RemoveOwnAll(1), after);
  }

  lemma RunThrough(before: seq<Event>, st: State, e: Event, after: State) returns (states: seq<State>)
    requires After(INITIAL, before) == Some(st) && Next(st, e) == Some(after)
    ensures IsRun(states, before + [e]) && states[|before|] == st && states[|before| + 1] == after
  {
    states := LeadsToRun(before, st);
    states := states + [after];
  }
}
