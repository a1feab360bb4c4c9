/**
 Recovery after a crash: with every wrapper dead and every session empty, clearing removes both
 records and the recorded workspace, and an interrupted clearing pass costs nothing.
 */
module Recovery {
  import opened Domain
  import opened LaunchProtocol
  import opened LaunchSafety
  import opened LaunchRuns

  function OnFile(f: File): set<Name> {
    if f.Complete? then {f.record.workspace} else {}
  }

  function Recorded(f: Files): set<Name> {
    OnFile(f.json) + OnFile(f.pending)
  }

  /** What clearing is for: no record, no recorded workspace, everything else as it was. */
  function Cleared(f: Files): Files {
    Files(Absent, Absent, f.intact - Recorded(f), f.leftover - Recorded(f))
  }

  /** The events of clearing passes that may fail, be killed and be started again. */
  predicate Clearing(e: Event) {
    e.Start? || e.Die? || e.Acquire? || e.Unlock? || OfClear(e)
  }

  predicate Swept(f: Files, pc: Pc) {
    pc.Unlinking? ==> pc.record.workspace !in f.intact + f.leftover
  }

  predicate OnlyProbes(pc: Pc) {
    pc.Started? || pc.Probed? || pc.ProbeCleared? || pc.Unlocking? || Probing(pc)
  }

  /** Nothing but wrappers that probe, on the way to the given outcome. */
  predicate OnTheWay(st: State, outcome: Files) {
    && Inv(st) && NoSession(st) && !st.files.pending.Torn? && Cleared(st.files) == outcome
    && forall w <- st.wrappers :: OnlyProbes(At(st, w)) && Swept(st.files, At(st, w))
  }

  lemma ClearMove(st: State, e: Event, after: State, outcome: Files)
    requires OnTheWay(st, outcome) && OfClear(e) && e.w in st.wrappers
    requires ClearStep(st, e, e.w, st.wrappers[e.w]) == Some(after)
    ensures OnTheWay(after, outcome) && Next(st, e) == Some(after)
  {
    ClearStepKeeps(st, e, after);
    ClearShape(st, e, after);
    StillOnTheWay(st, after, e.w, outcome);
    ClearIsNext(st, e, after);
  }

  lemma ClearIsNext(st: State, e: Event, after: State)
    requires OfClear(e) && e.w in st.wrappers && ClearStep(st, e, e.w, st.wrappers[e.w]) == Some(after)
    ensures Next(st, e) == Some(after)
  {
  }

  lemma ClearShape(st: State, e: Event, after: State)
    requires OfClear(e) && e.w in st.wrappers && OnlyProbes(At(st, e.w)) && Swept(st.files, At(st, e.w))
    requires Inv(st) && !st.files.pending.Torn? && ClearStep(st, e, e.w, st.wrappers[e.w]) == Some(after)
    ensures after.sessions == st.sessions && !after.files.pending.Torn?
    ensures e.w in after.wrappers && after.wrappers == st.wrappers[e.w := after.wrappers[e.w]]
    ensures OnlyProbes(At(after, e.w)) && Swept(after.files, At(after, e.w))
    ensures after.files.intact + after.files.leftover <= st.files.intact + st.files.leftover
    ensures Cleared(after.files) == Cleared(st.files)
  {
    HolderHasLocal(st, e.w);
    if e.SweepSome? || e.SweepAll? || e.Unlink? {
      FileStep(st, e, after);
    }
  }

  lemma StillOnTheWay(st: State, after: State, w: Wid, outcome: Files)
    requires OnTheWay(st, outcome) && Inv(after) && NoSession(after) && !after.files.pending.Torn?
    requires Cleared(after.files) == outcome
    requires after.files.intact + after.files.leftover <= st.files.intact + st.files.leftover
    requires forall v <- after.wrappers :: v != w ==> v in st.wrappers && At(after, v) == At(st, v)
    requires w in after.wrappers ==> OnlyProbes(At(after, w)) && Swept(after.files, At(after, w))
    ensures OnTheWay(after, outcome)
  {
  }

  lemma ClearingStep(st: State, e: Event, after: State, outcome: Files)
    requires OnTheWay(st, outcome) && Clearing(e) && Next(st, e) == Some(after)
    ensures OnTheWay(after, outcome)
  {
    if OfClear(e) {
      ClearMove(st, e, after, outcome);
    } else {
      StepKeeps(st, e, after);
      OutsideMove(st, e, after);
      StillOnTheWay(st, after, e.w, outcome);
    }
  }

  /** Starting, dying, taking and giving up the lock leave the files alone, and move at most their own wrapper. */
  lemma OutsideMove(st: State, e: Event, after: State)
    requires (e.Start? || e.Die? || e.Acquire? || e.Unlock?) && Next(st, e) == Some(after)
    requires forall v <- st.wrappers :: OnlyProbes(At(st, v))
    ensures after.files == st.files && after.sessions == st.sessions
    ensures forall v <- after.wrappers :: v != e.w ==> v in st.wrappers && At(after, v) == At(st, v)
    ensures e.w in after.wrappers ==> OnlyProbes(At(after, e.w)) && !At(after, e.w).Unlinking?
  {
  }

  /** Each file operation of a clearing pass leaves the outcome as it is. */
  lemma FileStep(st: State, e: Event, after: State)
    requires e.SweepSome? || e.SweepAll? || e.Unlink?
    requires e.w in st.wrappers && Swept(st.files, At(st, e.w)) && Local(st, e.w, st.wrappers[e.w])
    requires ClearStep(st, e, e.w, st.wrappers[e.w]) == Some(after)
    ensures Cleared(after.files) == Cleared(st.files)
  {
    var pc := At(st, e.w);
    assert FileAt(st.files, pc.file) == Complete(pc.record);
  }

  /** Any number of clearing passes, failing or killed between any two steps, lead nowhere else. */
  lemma {:induction false} InterruptedClearing(st: State, events: seq<Event>, after: State, outcome: Files)
    requires OnTheWay(st, outcome) && After(st, events) == Some(after)
    requires forall e <- events :: Clearing(e)
    ensures OnTheWay(after, outcome)
  {
    if events != [] {
      var init := events[..|events| - 1];
      var mid := After(st, init).value;
      InterruptedClearing(st, init, mid, outcome);
      ClearingStep(mid, events[|events| - 1], after, outcome);
    }
  }

  // ---- A pass that is left alone ----

  /** A clearing pass by w alone has got from st to mid. */
  predicate Passed(st: State, events: seq<Event>, mid: State, w: Wid, outcome: Files) {
    && After(st, events) == Some(mid) && OnTheWay(mid, outcome)
    && mid.wrappers.Keys == {w} && forall e <- events :: Clearing(e)
  }

  lemma Advance(st: State, events: seq<Event>, mid: State, w: Wid, e: Event, after: State, outcome: Files)
    requires Passed(st, events, mid, w, outcome) && OfClear(e) && e.w == w
    requires ClearStep(mid, e, w, mid.wrappers[w]) == Some(after)
    ensures Passed(st, events + [e], after, w, outcome)
  {
    ClearMove(mid, e, after, outcome);
    OneMore(st, events, mid, e, after);
  }

  /** Dealing with one record file. */
  lemma ClearFile(st: State, events: seq<Event>, mid: State, w: Wid, which: Which, outcome: Files)
    returns (more: seq<Event>, after: State)
    requires Passed(st, events, mid, w, outcome) && At(mid, w) == Reading(which, ToProbe)
    ensures Passed(st, more, after, w, outcome) && At(after, w) == AfterFile(which, ToProbe)
  {
    HolderHasLocal(mid, w);
    more, after := events + [Read(w)], ClearStep(mid, Read(w), w, mid.wrappers[w]).value;
    Advance(st, events, mid, w, Read(w), after, outcome);
    if FileAt(mid.files, which).Complete? {
      more, after := RemoveFile(st, more, after, w, which, FileAt(mid.files, which).record, outcome);
    }
  }

  lemma RemoveFile(st: State, events: seq<Event>, mid: State, w: Wid, which: Which, r: Record, outcome: Files)
    returns (more: seq<Event>, after: State)
    requires Passed(st, events, mid, w, outcome) && At(mid, w) == Judging(which, r, ToProbe)
    ensures Passed(st, more, after, w, outcome) && At(after, w) == AfterFile(which, ToProbe)
  {
    var judged := Move(mid, w, Sweeping(which, r, ToProbe));
    Advance(st, events, mid, w, JudgeInactive(w), judged, outcome);
    var swept := ClearStep(judged, SweepAll(w), w, judged.wrappers[w]).value;
    Advance(st, events + [JudgeInactive(w)], judged, w, SweepAll(w), swept, outcome);
    after := ClearStep(swept, Unlink(w, true), w, swept.wrappers[w]).value;
    Advance(st, events + [JudgeInactive(w)] + [SweepAll(w)], swept, w, Unlink(w, true), after, outcome);
    more := events + [JudgeInactive(w)] + [SweepAll(w)] + [Unlink(w, true)];
  }

  lemma BeginPass(st: State, w: Wid, outcome: Files) returns (events: seq<Event>, after: State)
    requires OnTheWay(st, outcome) && st.wrappers == map[] && w !in st.born
    ensures Passed(st, events, after, w, outcome) && At(after, w) == Reading(Json, ToProbe)
  {
    var born := Next(st, Start(w)).value;
    OneMore(st, [], st, Start(w), born);
    ClearingStep(st, Start(w), born, outcome);
    assert born.heirs == {};
    after := Next(born, Acquire(w)).value;
    OneMore(st, [] + [Start(w)], born, Acquire(w), after);
    ClearingStep(born, Acquire(w), after, outcome);
    events := [] + [Start(w)] + [Acquire(w)];
  }

  /** From a state with no wrapper, no session and no torn record, a new wrapper can always clear. */
  lemma FreshWrapperClears(st: State, w: Wid, outcome: Files) returns (events: seq<Event>, after: State)
    requires OnTheWay(st, outcome) && st.wrappers == map[] && w !in st.born
    ensures After(st, events) == Some(after) && (forall x <- events :: Clearing(x))
    ensures after.wrappers.Keys == {w} && At(after, w) == Probed && after.files == outcome
  {
    var mid;
    events, mid := BeginPass(st, w, outcome);
    events, mid := ClearFile(st, events, mid, w, Json, outcome);
    events, mid := ClearFile(st, events, mid, w, Pending, outcome);
    HolderHasLocal(mid, w);
    assert Recorded(mid.files) == {};
    assert mid.files == outcome;
    after := Move(mid, w, Probed).(lockOwner := None);
    OneMore(st, events, mid, Unlock(w), after);
    events := events + [Unlock(w)];
  }

  /**
   From every such state, whatever clearing was tried and interrupted in between, the next
   wrapper left alone ends with the very files one undisturbed pass would have left.
   */
  lemma InterruptedRecovery(st: State, tried: seq<Event>, mid: State, w: Wid)
    returns (events: seq<Event>, after: State)
    requires Inv(st) && st.wrappers == map[] && NoSession(st) && !st.files.pending.Torn?
    requires After(st, tried) == Some(mid) && (forall e <- tried :: Clearing(e))
    requires mid.wrappers == map[] && w !in mid.born
    ensures After(st, tried + events) == Some(after)
    ensures after.wrappers.Keys == {w} && At(after, w) == Probed
    ensures after.files.json.Absent? && after.files.pending.Absent?
    ensures forall name :: name in after.files.intact <==> name in st.files.intact && name !in Recorded(st.files)
    ensures forall name :: name in after.files.leftover <==> name in st.files.leftover && name !in Recorded(st.files)
  {
    var outcome := Cleared(st.files);
    InterruptedClearing(st, tried, mid, outcome);
    events, after := FreshWrapperClears(mid, w, outcome);
    Chained(st, tried, mid, events, after);
  }

  // ---- A torn record ----

  predicate NoWriter(st: State) {
    forall w <- st.wrappers :: !At(st, w).Writing?
  }

  /** With the pending record torn there is no committed one, so nothing is past the gate. */
  lemma TornMeansNothingRuns(st: State)
    requires Inv(st) && st.files.pending.Torn?
    ensures st.files.json.Absent? && NoPastGate(st)
  {
  }

  /** No wrapper is anywhere in a save beside a torn record it is not writing. */
  lemma NothingSavedBesideTorn(st: State, e: Event)
    requires Inv(st) && st.files.pending.Torn? && NoWriter(st)
    requires OfSave(e) && e.w in st.wrappers
    ensures SaveStep(st, e, e.w, st.wrappers[e.w]) == None
  {
    if HoldsLock(At(st, e.w)) {
      HolderHasLocal(st, e.w);
    }
  }

  lemma TornStopsClearing(st: State, e: Event, after: State)
    requires Inv(st) && st.files.pending.Torn?
    requires OfClear(e) && e.w in st.wrappers && ClearStep(st, e, e.w, st.wrappers[e.w]) == Some(after)
    ensures after.files == st.files && e.w in after.wrappers && !At(after, e.w).Writing?
  {
    HolderHasLocal(st, e.w);
  }

  lemma TornLeftByRunning(st: State, e: Event, after: State)
    requires OfWrapper(e) && e.w in st.wrappers && RunStep(st, e, e.w, st.wrappers[e.w]) == Some(after)
    ensures after.files.pending == st.files.pending && e.w in after.wrappers && !At(after, e.w).Writing?
  {
  }

  lemma TornLeftByFraming(st: State, e: Event, after: State)
    requires OfFrame(e) && e.w in st.wrappers && FrameStep(st, e, e.w, st.wrappers[e.w]) == Some(after)
    ensures after.files.pending == st.files.pending && (e.w in after.wrappers ==> !At(after, e.w).Writing?)
  {
  }

  lemma TornHoldsWrapper(st: State, e: Event, after: State)
    requires Inv(st) && st.files.pending.Torn? && NoWriter(st)
    requires OfWrapper(e) && e.w in st.wrappers && WrapperStep(st, e, e.w, st.wrappers[e.w]) == Some(after)
    ensures after.files.pending.Torn? && (e.w in after.wrappers ==> !At(after, e.w).Writing?)
  {
    if OfFrame(e) { TornLeftByFraming(st, e, after); }
    else if OfClear(e) { TornStopsClearing(st, e, after); }
    else if OfSave(e) { NothingSavedBesideTorn(st, e); }
    else { TornLeftByRunning(st, e, after); }
  }

  lemma TornIsAHold(st: State, e: Event, after: State)
    requires Inv(st) && st.files.pending.Torn? && NoWriter(st) && Next(st, e) == Some(after)
    ensures after.files.pending.Torn? && NoWriter(after)
  {
    if OfWrapper(e) {
      TornHoldsWrapper(st, e, after);
      WrapperTouches(st, e, after);
    } else {
      OthersMoveNobody(st, e, after);
    }
  }

  lemma OthersMoveNobody(st: State, e: Event, after: State)
    requires !OfWrapper(e) && Next(st, e) == Some(after) && NoWriter(st)
    ensures after.files == st.files && NoWriter(after)
  {
  }

  /**
   A torn pending record whose writer is gone is a hold for good: whoever is alive, whatever
   they do, it stays and no session ever gets past its gate.
   */
  lemma {:induction false} TornHoldsForever(st: State, events: seq<Event>, after: State)
    requires Inv(st) && st.files.pending.Torn? && NoWriter(st)
    requires After(st, events) == Some(after)
    ensures Inv(after) && after.files.pending.Torn? && NoWriter(after) && NoPastGate(after)
  {
    if events != [] {
      var init := events[..|events| - 1];
      var mid := After(st, init).value;
      TornHoldsForever(st, init, mid);
      StepKeeps(mid, events[|events| - 1], after);
      TornIsAHold(mid, events[|events| - 1], after);
    }
    TornMeansNothingRuns(after);
  }
}
