/**
 The crash-safe launch protocol as a machine: wrappers, the children they start, the
 operation lock and who holds a descriptor of it, the two record files, and the
 workspaces. A wrapper may die between any two of its steps.
 */
module LaunchProtocol {
  import opened Domain

  /** A wrapper process; an identity is never used twice, like the attempt nonce it draws. */
  type Wid = nat
  /** A process session, numbered by the process that leads it. Numbers may be used again. */
  type Sid = nat
  type Pid = nat
  /** The name of a collection workspace. */
  type Name = nat

  datatype Record = Record(attempt: Wid, session: Sid, workspace: Name)

  /** A record file: missing, unreadable because its writer died or failed, or whole. */
  datatype File = Absent | Torn | Complete(record: Record)

  /** The durable part: both record files, and the workspaces still whole or partly removed. */
  datatype Files = Files(json: File, pending: File, intact: set<Name>, leftover: set<Name>)

  /**
   A child waits at the startup gate until the gate opens; past it the session is whatever it forks.
   Its home is the workspace of the wrapper that started it: every path it works on lies there.
   */
  datatype Session =
    | Gated(owner: Wid, open: bool, home: Name)
    | Running(members: set<Pid>, home: Name)

  datatype Which = Json | Pending

  /** What a clearing pass is for: a probe before collecting, the preparation of a run, or the close. */
  datatype Goal = ToProbe | ToLaunch | ToClose

  /** Where a wrapper stands, named after what it has done. */
  datatype Pc =
    | Started
    | Probed
    | Collecting
    | Abandoning
    | Reading(file: Which, goal: Goal)
    | Judging(file: Which, record: Record, goal: Goal)
    | Sweeping(file: Which, record: Record, goal: Goal)
    | Unlinking(file: Which, record: Record, goal: Goal)
    | ProbeCleared
    | Ready
    | Forked(child: Sid)
    | Vacant(child: Sid)
    | Writing(child: Sid)
    | Written(child: Sid)
    | Recorded(child: Sid)
    | Killing(child: Sid)
    | Released(child: Sid)
    | Waited(child: Sid)
    | Finishing(child: Sid)
    | FinishClear(child: Sid)
    | RemovingOwn
    | Unlocking

  datatype Wrapper = Wrapper(pc: Pc, workspace: Option<Name>)

  /**
   The lock is held by the wrapper that took it and by every session that inherited a
   descriptor and has not dropped it; it is free when neither is left.
   */
  datatype State = State(
    wrappers: map<Wid, Wrapper>, sessions: map<Sid, Session>,
    lockOwner: Option<Wid>, heirs: set<Sid>,
    files: Files, born: set<Wid>)

  const INITIAL := State(map[], map[], None, {}, Files(Absent, Absent, {}, {}), {})

  datatype Event =
    | Start(w: Wid) | Die(w: Wid)
    | Acquire(w: Wid) | Unlock(w: Wid)
    | MakeWorkspace(w: Wid, name: Name) | Abandon(w: Wid)
    | Read(w: Wid) | JudgeInactive(w: Wid) | JudgeActive(w: Wid)
    | SweepSome(w: Wid) | SweepAll(w: Wid) | SweepFails(w: Wid)
    | Unlink(w: Wid, synced: bool) | UnlinkFails(w: Wid)
    | RemoveOwnSome(w: Wid) | RemoveOwnAll(w: Wid) | RemoveOwnFails(w: Wid)
    | Launch(w: Wid, s: Sid) | GiveUp(w: Wid)
    | CheckVacant(w: Wid) | BeginWrite(w: Wid) | EndWrite(w: Wid) | BreakWrite(w: Wid, whole: bool)
    | Rename(w: Wid) | Falter(w: Wid) | OpenGate(w: Wid) | Kill(w: Wid)
    | Reap(w: Wid) | FinishRead(w: Wid) | FinishInactive(w: Wid) | FinishActive(w: Wid)
    | FinishUnlink(w: Wid, more: bool) | FinishUnlinkFails(w: Wid)
    | PassGate(s: Sid) | EndOfFile(s: Sid) | Vanish(s: Sid)
    | Fork(s: Sid, p: Pid) | Exit(s: Sid, p: Pid) | DropLock(s: Sid)

  // ---- Reading the state ----

  function FileAt(f: Files, which: Which): File {
    if which.Json? then f.json else f.pending
  }

  function Removed(f: Files, which: Which): Files {
    if which.Json? then f.(json := Absent) else f.(pending := Absent)
  }

  predicate PastGate(x: Session) {
    x.Running? || x.open
  }

  function At(st: State, w: Wid): Pc
    requires w in st.wrappers
  {
    st.wrappers[w].pc
  }

  function Move(st: State, w: Wid, pc: Pc): State
    requires w in st.wrappers
  {
    st.(wrappers := st.wrappers[w := st.wrappers[w].(pc := pc)])
  }

  function RecordOf(w: Wid, wr: Wrapper, s: Sid): Record
    requires wr.workspace.Some?
  {
    Record(w, s, wr.workspace.value)
  }

  function WithoutSession(st: State, s: Sid): State {
    st.(sessions := st.sessions - {s}, heirs := st.heirs - {s})
  }

  function WithoutWorkspace(f: Files, name: Name): Files {
    f.(intact := f.intact - {name}, leftover := f.leftover - {name})
  }

  function Damaged(f: Files, name: Name): Files {
    if name in f.intact then f.(intact := f.intact - {name}, leftover := f.leftover + {name}) else f
  }

  // ---- Steps of a clearing pass ----

  /** After a file is dealt with: on to the pending record, or done. */
  function AfterFile(which: Which, goal: Goal): Pc {
    if which.Json? then Reading(Pending, goal)
    else match goal
      case ToProbe => ProbeCleared
      case ToLaunch => Ready
      case ToClose => RemovingOwn
  }

  /** A clearing pass that stops leads to the close, which clears once more, or straight to the unlock. */
  function AfterFailure(goal: Goal): Pc {
    if goal.ToLaunch? then Reading(Json, ToClose) else Unlocking
  }

  function ReadStep(f: Files, which: Which, goal: Goal): Pc {
    match FileAt(f, which)
    case Absent => AfterFile(which, goal)
    case Torn => AfterFailure(goal)
    case Complete(r) => Judging(which, r, goal)
  }

  // ---- The transition function ----

  /** The state after an event, or nothing when the event cannot happen. */
  function Next(st: State, e: Event): Option<State> {
    match e
    case Start(w) =>
      if w in st.born then None
      else Some(st.(wrappers := st.wrappers[w := Wrapper(Started, None)], born := st.born + {w}))
    case Die(w) =>
      if w !in st.wrappers then None
      else Some(st.(wrappers := st.wrappers - {w}, lockOwner := if st.lockOwner == Some(w) then None else st.lockOwner))
    case PassGate(s) =>
      if s !in st.sessions || !st.sessions[s].Gated? || !st.sessions[s].open then None
      else Some(st.(sessions := st.sessions[s := Running({s}, st.sessions[s].home)]))
    case EndOfFile(s) =>
      if s !in st.sessions || !st.sessions[s].Gated? || st.sessions[s].open || st.sessions[s].owner in st.wrappers
      then None
      else Some(WithoutSession(st, s))
    case Vanish(s) =>
      if s !in st.sessions || !st.sessions[s].Gated? then None else Some(WithoutSession(st, s))
    case Fork(s, p) =>
      if s !in st.sessions || !st.sessions[s].Running? then None
      else Some(st.(sessions := st.sessions[s := Running(st.sessions[s].members + {p}, st.sessions[s].home)]))
    case Exit(s, p) =>
      if s !in st.sessions || !st.sessions[s].Running? || p !in st.sessions[s].members then None
      else if st.sessions[s].members == {p} then Some(WithoutSession(st, s))
      else Some(st.(sessions := st.sessions[s := Running(st.sessions[s].members - {p}, st.sessions[s].home)]))
    case DropLock(s) =>
      if s !in st.sessions || !st.sessions[s].Running? then None else Some(st.(heirs := st.heirs - {s}))
    case _ =>
      if e.w !in st.wrappers then None else WrapperStep(st, e, e.w, st.wrappers[e.w])
  }

  predicate OfWrapper(e: Event) {
    !e.Start? && !e.Die? && !e.PassGate? && !e.EndOfFile? && !e.Vanish? && !e.Fork? && !e.Exit? && !e.DropLock?
  }

  predicate OfFrame(e: Event) {
    || e.Acquire? || e.Unlock? || e.MakeWorkspace? || e.Abandon?
    || e.RemoveOwnSome? || e.RemoveOwnAll? || e.RemoveOwnFails?
  }

  predicate OfClear(e: Event) {
    || e.Read? || e.JudgeInactive? || e.JudgeActive? || e.SweepSome? || e.SweepAll? || e.SweepFails?
    || e.Unlink? || e.UnlinkFails?
  }

  predicate OfSave(e: Event) {
    e.Launch? || e.GiveUp? || e.CheckVacant? || e.BeginWrite? || e.EndWrite? || e.BreakWrite? || e.Rename? || e.Falter?
  }

  /** A step of a live wrapper. */
  function WrapperStep(st: State, e: Event, w: Wid, wr: Wrapper): Option<State>
    requires OfWrapper(e) && e.w == w && w in st.wrappers && st.wrappers[w] == wr
  {
    if OfFrame(e) then FrameStep(st, e, w, wr)
    else if OfClear(e) then ClearStep(st, e, w, wr)
    else if OfSave(e) then SaveStep(st, e, w, wr)
    else RunStep(st, e, w, wr)
  }

  predicate Free(st: State) {
    st.lockOwner.None? && st.heirs == {}
  }

  /** Taking and giving up the lock, and making and removing one's own workspace. */
  function FrameStep(st: State, e: Event, w: Wid, wr: Wrapper): Option<State>
    requires OfWrapper(e) && e.w == w && w in st.wrappers && st.wrappers[w] == wr
  {
    match wr.pc
    case Started =>
      if e.Acquire? && Free(st) then Some(Move(st, w, Reading(Json, ToProbe)).(lockOwner := Some(w))) else None
    case ProbeCleared =>
      if e.Unlock? then Some(Move(st, w, Probed).(lockOwner := None)) else None
    case Probed =>
      if e.MakeWorkspace? && e.name !in st.files.intact + st.files.leftover then
        Some(st.(wrappers := st.wrappers[w := Wrapper(Collecting, Some(e.name))],
                 files := st.files.(intact := st.files.intact + {e.name})))
      else None
    case Collecting =>
      if e.Acquire? && Free(st) then Some(Move(st, w, Reading(Json, ToLaunch)).(lockOwner := Some(w)))
      else if e.Abandon? then Some(Move(st, w, Abandoning))
      else None
    case Abandoning =>
      if wr.workspace.None? then None
      else if e.RemoveOwnSome? then Some(st.(files := Damaged(st.files, wr.workspace.value)))
      else if e.RemoveOwnAll? then
        Some(st.(files := WithoutWorkspace(st.files, wr.workspace.value), wrappers := st.wrappers - {w}))
      else if e.RemoveOwnFails? then Some(st.(wrappers := st.wrappers - {w}))
      else None
    case RemovingOwn =>
      if wr.workspace.None? then None
      else if e.RemoveOwnSome? then Some(st.(files := Damaged(st.files, wr.workspace.value)))
      else if e.RemoveOwnAll? then
        Some(Move(st, w, Unlocking).(files := WithoutWorkspace(st.files, wr.workspace.value)))
      else if e.RemoveOwnFails? then Some(Move(st, w, Unlocking))
      else None
    case Unlocking =>
      if e.Unlock? then Some(st.(wrappers := st.wrappers - {w}, lockOwner := None)) else None
    case _ => None
  }

  /** clearStoppedInFlight, one file operation at a time. */
  function ClearStep(st: State, e: Event, w: Wid, wr: Wrapper): Option<State>
    requires OfWrapper(e) && e.w == w && w in st.wrappers && st.wrappers[w] == wr
  {
    match wr.pc
    case Reading(which, goal) =>
      if e.Read? then Some(Move(st, w, ReadStep(st.files, which, goal))) else None
    case Judging(which, r, goal) =>
      if e.JudgeInactive? && r.session !in st.sessions then Some(Move(st, w, Sweeping(which, r, goal)))
      else if e.JudgeActive? then Some(Move(st, w, AfterFailure(goal)))
      else None
    case Sweeping(which, r, goal) =>
      if e.SweepSome? then Some(st.(files := Damaged(st.files, r.workspace)))
      else if e.SweepAll? then
        Some(Move(st, w, Unlinking(which, r, goal)).(files := WithoutWorkspace(st.files, r.workspace)))
      else if e.SweepFails? then Some(Move(st, w, AfterFailure(goal)))
      else None
    case Unlinking(which, r, goal) =>
      if e.Unlink? then
        Some(Move(st, w, if e.synced then AfterFile(which, goal) else AfterFailure(goal)).(
          files := Removed(st.files, which)))
      else if e.UnlinkFails? then Some(Move(st, w, AfterFailure(goal)))
      else None
    case _ => None
  }

  /** Starting a child at the gate and recording its session. */
  function SaveStep(st: State, e: Event, w: Wid, wr: Wrapper): Option<State>
    requires OfWrapper(e) && e.w == w && w in st.wrappers && st.wrappers[w] == wr
  {
    match wr.pc
    case Ready =>
      if wr.workspace.None? then None
      else if e.Launch? && e.s !in st.sessions then
        Some(Move(st, w, Forked(e.s)).(
          sessions := st.sessions[e.s := Gated(w, false, wr.workspace.value)], heirs := st.heirs + {e.s}))
      else if e.GiveUp? then Some(Move(st, w, Reading(Json, ToClose)))
      else None
    case Forked(s) =>
      if e.CheckVacant? then Some(Move(st, w, if st.files.json.Absent? then Vacant(s) else Killing(s)))
      else if e.Falter? then Some(Move(st, w, Killing(s)))
      else None
    case Vacant(s) =>
      if e.BeginWrite? then
        if st.files.pending.Absent? then Some(Move(st, w, Writing(s)).(files := st.files.(pending := Torn)))
        else Some(Move(st, w, Killing(s)))
      else if e.Falter? then Some(Move(st, w, Killing(s)))
      else None
    case Writing(s) =>
      if wr.workspace.None? then None
      else if e.EndWrite? then
        Some(Move(st, w, Written(s)).(files := st.files.(pending := Complete(RecordOf(w, wr, s)))))
      else if e.BreakWrite? then
        Some(Move(st, w, Killing(s)).(
          files := st.files.(pending := if e.whole then Complete(RecordOf(w, wr, s)) else Torn)))
      else None
    case Written(s) =>
      if e.Rename? then
        Some(Move(st, w, Recorded(s)).(files := st.files.(json := st.files.pending, pending := Absent)))
      else if e.Falter? then Some(Move(st, w, Killing(s)))
      else None
    case Recorded(s) =>
      if e.Falter? then Some(Move(st, w, Killing(s))) else None
    case _ => None
  }

  predicate LeaderGone(st: State, s: Sid) {
    s in st.sessions ==> st.sessions[s].Running? && s !in st.sessions[s].members
  }

  /** Opening the gate, waiting, and retiring the record; or killing a child that must not start. */
  function RunStep(st: State, e: Event, w: Wid, wr: Wrapper): Option<State>
    requires OfWrapper(e) && e.w == w && w in st.wrappers && st.wrappers[w] == wr
  {
    match wr.pc
    case Recorded(s) =>
      if e.OpenGate? then
        Some(Move(st, w, Released(s)).(sessions :=
          if s in st.sessions then st.sessions[s := Gated(w, true, st.sessions[s].home)] else st.sessions))
      else None
    case Killing(s) =>
      if e.Kill? then Some(Move(WithoutSession(st, s), w, Reading(Json, ToClose))) else None
    case Released(s) =>
      if e.Reap? && LeaderGone(st, s) then Some(Move(st, w, Waited(s))) else None
    case Waited(s) =>
      if wr.workspace.None? then None
      else if e.FinishRead? then
        Some(Move(st, w,
          if st.files.json == Complete(RecordOf(w, wr, s)) then Finishing(s) else Reading(Json, ToClose)))
      else None
    case Finishing(s) =>
      if e.FinishInactive? && s !in st.sessions then Some(Move(st, w, FinishClear(s)))
      else if e.FinishActive? then Some(Move(st, w, Reading(Json, ToClose)))
      else None
    case FinishClear(s) =>
      if e.FinishUnlink? then
        Some(Move(st, w, if e.more then Ready else Reading(Json, ToClose)).(files := st.files.(json := Absent)))
      else if e.FinishUnlinkFails? then Some(Move(st, w, Reading(Json, ToClose)))
      else None
    case _ => None
  }

  // ---- Runs ----

  predicate IsRun(states: seq<State>, events: seq<Event>) {
    && |states| == |events| + 1 && states[0] == INITIAL
    && forall i :: 0 <= i < |events| ==> Next(states[i], events[i]) == Some(states[i + 1])
  }

  /** The state a sequence of events leads to, if each can happen in its turn. */
  function After(st: State, events: seq<Event>): Option<State> {
    if events == [] then Some(st)
    else match After(st, events[..|events| - 1])
      case None => None
      case Some(mid) => Next(mid, events[|events| - 1])
  }

  lemma OneMore(st: State, events: seq<Event>, mid: State, e: Event, after: State)
    requires After(st, events) == Some(mid) && Next(mid, e) == Some(after)
    ensures After(st, events + [e]) == Some(after)
  {
    assert (events + [e])[..|events|] == events;
  }

  lemma {:induction false} Chained(st: State, first: seq<Event>, mid: State, second: seq<Event>, after: State)
    requires After(st, first) == Some(mid) && After(mid, second) == Some(after)
    ensures After(st, first + second) == Some(after)
  {
    if second == [] {
      assert first + second == first;
    } else {
      var init := second[..|second| - 1];
      Chained(st, first, mid, init, After(mid, init).value);
      assert (first + second)[..|first + second| - 1] == first + init;
    }
  }

  /** What a sequence of events leads to from the start is the end of a run. */
  lemma {:induction false} LeadsToRun(events: seq<Event>, st: State) returns (states: seq<State>)
    requires After(INITIAL, events) == Some(st)
    ensures IsRun(states, events) && states[|events|] == st
  {
    if events == [] {
      states := [INITIAL];
    } else {
      var init := events[..|events| - 1];
      var mid := After(INITIAL, init).value;
      var before := LeadsToRun(init, mid);
      states := before + [st];
    }
  }

  ghost predicate Leads(st: State, after: State) {
    exists events :: After(st, events) == Some(after)
  }

  lemma Then(st: State, mid: State, e: Event, after: State)
    requires Leads(st, mid) && Next(mid, e) == Some(after)
    ensures Leads(st, after)
  {
    var events :| After(st, events) == Some(mid);
    OneMore(st, events, mid, e, after);
  }

  lemma ThenFrame(st: State, mid: State, e: Event, after: State)
    requires Leads(st, mid) && OfFrame(e) && e.w in mid.wrappers
    requires FrameStep(mid, e, e.w, mid.wrappers[e.w]) == Some(after)
    ensures Leads(st, after)
  {
    Then(st, mid, e, after);
  }

  lemma ThenClear(st: State, mid: State, e: Event, after: State)
    requires Leads(st, mid) && OfClear(e) && e.w in mid.wrappers
    requires ClearStep(mid, e, e.w, mid.wrappers[e.w]) == Some(after)
    ensures Leads(st, after)
  {
    Then(st, mid, e, after);
  }

  lemma ThenSave(st: State, mid: State, e: Event, after: State)
    requires Leads(st, mid) && OfSave(e) && e.w in mid.wrappers
    requires SaveStep(mid, e, e.w, mid.wrappers[e.w]) == Some(after)
    ensures Leads(st, after)
  {
    Then(st, mid, e, after);
  }

  lemma ThenRun(st: State, mid: State, e: Event, after: State)
    requires Leads(st, mid) && OfWrapper(e) && !OfFrame(e) && !OfClear(e) && !OfSave(e)
    requires e.w in mid.wrappers && RunStep(mid, e, e.w, mid.wrappers[e.w]) == Some(after)
    ensures Leads(st, after)
  {
    Then(st, mid, e, after);
  }
}
