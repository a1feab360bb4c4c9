/**
 The record files as the wrapper handles them: saving, clearing and finishing, with every
 file operation free to fail. Each is a stretch of steps of the launch protocol.
 */
module RecordFiles {
  import opened Domain
  import opened LaunchProtocol
  import opened LaunchSafety
  import opened Recovery

  /** What a look at the process table says of a session. */
  datatype Seen = Inactive | Active | Unobservable

  /** How removing a workspace, writing, renaming and unlinking a file can turn out. */
  datatype Removal = Gone | GoneUnsynced | Partly | Refused
  datatype Writing = Wrote | Broke(whole: bool) | NotCreated
  datatype Renaming = Renamed | RenamedUnsynced | NotRenamed
  datatype Unlinking = Unlinked | UnlinkedUnsynced | NotUnlinked

  datatype Luck = Luck(seen: Seen, removal: Removal, unlinking: Unlinking)

  predicate ValidSession(s: Sid) {
    1 < s < 0x4000_0000
  }

  // ---- What each operation does to the files ----

  function RemovedCollection(f: Files, name: Name, removal: Removal): (Files, bool) {
    if name !in f.intact + f.leftover then (f, true)
    else match removal
      case Gone => (WithoutWorkspace(f, name), true)
      case GoneUnsynced => (WithoutWorkspace(f, name), false)
      case Partly => (Damaged(f, name), false)
      case Refused => (f, false)
  }

  function ClearedOne(f: Files, which: Which, luck: Luck): (Files, bool) {
    match FileAt(f, which)
    case Absent => (f, true)
    case Torn => (f, false)
    case Complete(r) =>
      var (g, swept) := RemovedCollection(f, r.workspace, luck.removal);
      if !luck.seen.Inactive? then (f, false)
      else if !swept || luck.unlinking.NotUnlinked? then (g, false)
      else (Removed(g, which), luck.unlinking.Unlinked?)
  }

  function ClearedFrom(f: Files, files: seq<Which>, luck: Which -> Luck): (Files, bool)
    decreases |files|
  {
    if files == [] then (f, true)
    else
      var (g, ok) := ClearedOne(f, files[0], luck(files[0]));
      if ok then ClearedFrom(g, files[1..], luck) else (g, false)
  }

  function ClearedAll(f: Files, luck: Which -> Luck): (Files, bool) {
    ClearedFrom(f, [Json, Pending], luck)
  }

  function Saved(f: Files, r: Record, writing: Writing, renaming: Renaming): (Files, bool) {
    if !ValidSession(r.session) || !f.json.Absent? || !f.pending.Absent? then (f, false)
    else match writing
      case NotCreated => (f, false)
      case Broke(whole) => (f.(pending := if whole then Complete(r) else Torn), false)
      case Wrote =>
        if renaming.NotRenamed? then (f.(pending := Complete(r)), false)
        else (f.(json := Complete(r)), renaming.Renamed?)
  }

  function Finished(f: Files, expected: Record, seen: Seen, unlinking: Unlinking): (Files, bool) {
    if f.json != Complete(expected) || !seen.Inactive? || unlinking.NotUnlinked? then (f, false)
    else (f.(json := Absent), unlinking.Unlinked?)
  }

  // ---- The operations ----

  class OperationDirectory {
    var json: File
    var pending: File
    var intact: set<Name>
    var leftover: set<Name>

    function Contents(): Files
      reads this
    {
      Files(json, pending, intact, leftover)
    }

    method ReadInFlight(which: Which) returns (record: Option<Record>, ok: bool)
      ensures ok <==> !FileAt(Contents(), which).Torn?
      ensures ok ==> FileAt(Contents(), which) == (match record case None => Absent case Some(r) => Complete(r))
    {
      match if which.Json? then json else pending {
        case Absent => return None, true;
        case Torn => return None, false;
        case Complete(r) => return Some(r), true;
      }
    }

    method RemoveCollection(name: Name, removal: Removal) returns (ok: bool)
      modifies this`intact, this`leftover
      ensures (Contents(), ok) == RemovedCollection(old(Contents()), name, removal)
    {
      if name !in intact && name !in leftover { return true; }
      match removal {
        case Gone =>
          intact, leftover := intact - {name}, leftover - {name};
          return true;
        case GoneUnsynced =>
          intact, leftover := intact - {name}, leftover - {name};
          return false;
        case Partly =>
          if name in intact {
            intact, leftover := intact - {name}, leftover + {name};
          }
          return false;
        case Refused =>
          return false;
      }
    }

    method UnlinkFile(which: Which, unlinking: Unlinking) returns (ok: bool)
      modifies this`json, this`pending
      ensures Contents() == if unlinking.NotUnlinked? then old(Contents()) else Removed(old(Contents()), which)
      ensures ok <==> unlinking.Unlinked?
    {
      if unlinking.NotUnlinked? { return false; }
      if which.Json? { json := Absent; } else { pending := Absent; }
      return unlinking.Unlinked?;
    }

    method ClearStopped(luck: Which -> Luck) returns (ok: bool)
      modifies this
      ensures (Contents(), ok) == ClearedAll(old(Contents()), luck)
    {
      var files := [Json, Pending];
      var i := 0;
      while i < |files|
        invariant 0 <= i <= |files|
        invariant ClearedAll(old(Contents()), luck) == ClearedFrom(Contents(), files[i..], luck)
      {
        var which := files[i];
        var record, readable := ReadInFlight(which);
        if !readable { return false; }
        if record.Some? {
          if !luck(which).seen.Inactive? { return false; }
          var swept := RemoveCollection(record.value.workspace, luck(which).removal);
          if !swept { return false; }
          var unlinked := UnlinkFile(which, luck(which).unlinking);
          if !unlinked { return false; }
        }
        i := i + 1;
      }
      return true;
    }

    method SaveInFlight(record: Record, writing: Writing, renaming: Renaming) returns (ok: bool)
      modifies this`json, this`pending
      ensures (Contents(), ok) == Saved(old(Contents()), record, writing, renaming)
    {
      if !ValidSession(record.session) { return false; }
      var previous, readable := ReadInFlight(Json);
      if !readable || previous.Some? { return false; }
      if !pending.Absent? || writing.NotCreated? { return false; }
      if writing.Broke? {
        pending := if writing.whole then Complete(record) else Torn;
        return false;
      }
      pending := Complete(record);
      if renaming.NotRenamed? { return false; }
      json, pending := pending, Absent;
      return renaming.Renamed?;
    }

    method FinishInFlight(expected: Record, seen: Seen, unlinking: Unlinking) returns (ok: bool)
      modifies this`json, this`pending
      ensures (Contents(), ok) == Finished(old(Contents()), expected, seen, unlinking)
      ensures ok <==> old(json) == Complete(expected) && seen.Inactive? && unlinking.Unlinked?
      ensures json == if old(json) == Complete(expected) && seen.Inactive? && !unlinking.NotUnlinked?
                      then Absent else old(json)
    {
      var actual, readable := ReadInFlight(Json);
      if !readable || actual != Some(expected) { return false; }
      if !seen.Inactive? { return false; }
      ok := UnlinkFile(Json, unlinking);
    }
  }

  // ---- What they are for ----

  /** A clearing pass that succeeds leaves no record and no recorded workspace, and nothing else is touched. */
  lemma ClearingDone(f: Files, luck: Which -> Luck)
    requires ClearedAll(f, luck).1
    ensures ClearedAll(f, luck).0 == Cleared(f)
  {
    var (g, _) := ClearedOne(f, Json, luck(Json));
    assert ClearedFrom(g, [Pending], luck) == ClearedAll(f, luck);
    assert ClearedFrom(ClearedOne(g, Pending, luck(Pending)).0, [], luck) == ClearedFrom(g, [Pending], luck);
  }

  lemma OneKeepsOutcome(f: Files, which: Which, luck: Luck)
    requires !f.pending.Torn?
    ensures !ClearedOne(f, which, luck).0.pending.Torn? && Cleared(ClearedOne(f, which, luck).0) == Cleared(f)
  {
  }

  /** Wherever a pass stops, the outcome of clearing what it left is the outcome of clearing what it found. */
  lemma ClearingRepeats(f: Files, luck: Which -> Luck, again: Which -> Luck)
    requires !f.pending.Torn? && ClearedAll(ClearedAll(f, luck).0, again).1
    ensures ClearedAll(ClearedAll(f, luck).0, again).0 == Cleared(f)
  {
    var (g, ok) := ClearedOne(f, Json, luck(Json));
    OneKeepsOutcome(f, Json, luck(Json));
    OneKeepsOutcome(g, Pending, luck(Pending));
    assert ClearedFrom(g, [Json, Pending][1..], luck) ==
      var (h, done) := ClearedOne(g, Pending, luck(Pending)); (h, done);
    ClearingDone(ClearedAll(f, luck).0, again);
  }

  /** When a pass without faults succeeds: nothing torn, and no recorded session still seen. */
  lemma ClearingSucceedsIff(f: Files, luck: Which -> Luck)
    requires forall which :: luck(which).removal.Gone? && luck(which).unlinking.Unlinked?
    ensures ClearedAll(f, luck).1 <==>
      forall which :: !FileAt(f, which).Torn? && (FileAt(f, which).Complete? ==> luck(which).seen.Inactive?)
  {
    var (g, ok) := ClearedOne(f, Json, luck(Json));
    assert ClearedFrom(g, [Json, Pending][1..], luck).1 <==> ClearedOne(g, Pending, luck(Pending)).1;
    assert FileAt(f, Json) == f.json && FileAt(f, Pending) == f.pending && g.pending == f.pending;
  }

  /** Saving never replaces a record, and succeeds only with the new record alone on file. */
  lemma SavingIsExclusive(f: Files, r: Record, writing: Writing, renaming: Renaming)
    ensures var (g, ok) := Saved(f, r, writing, renaming);
      && (!f.json.Absent? || !f.pending.Absent? ==> g == f && !ok)
      && (ok <==>
            1 < r.session < 0x4000_0000 && f.json.Absent? && f.pending.Absent? && writing.Wrote? && renaming.Renamed?)
      && (ok ==> g == Files(Complete(r), Absent, f.intact, f.leftover))
      && (FilesSound(f) ==> FilesSound(g))
      && (g.json != f.json ==> g.json == Complete(r) && g.pending.Absent?)
  {
  }

  // ---- Each is a stretch of steps of the protocol ----

  /** What is seen of the sessions is so. */
  predicate Truthful(st: State, seen: Seen, s: Sid) {
    seen.Inactive? ==> s !in st.sessions
  }

  lemma FileRefines(init: State, st: State, w: Wid, which: Which, goal: Goal, luck: Luck) returns (after: State)
    requires Leads(init, st) && w in st.wrappers && At(st, w) == Reading(which, goal)
    requires FileAt(st.files, which).Complete? ==> Truthful(st, luck.seen, FileAt(st.files, which).record.session)
    ensures Leads(init, after)
    ensures var (f, ok) := ClearedOne(st.files, which, luck);
      after == Move(st, w, if ok then AfterFile(which, goal) else AfterFailure(goal)).(files := f)
  {
    after := Move(st, w, ReadStep(st.files, which, goal));
    ThenClear(init, st, Read(w), after);
    if FileAt(st.files, which).Complete? {
      var r := FileAt(st.files, which).record;
      if luck.seen.Inactive? {
        var judged := Move(after, w, Sweeping(which, r, goal));
        ThenClear(init, after, JudgeInactive(w), judged);
        after := SweepRefines(init, judged, w, which, r, goal, luck);
      } else {
        var held := Move(after, w, AfterFailure(goal));
        ThenClear(init, after, JudgeActive(w), held);
        after := held;
      }
    }
  }

  lemma SweepRefines(
    init: State, st: State, w: Wid, which: Which, r: Record, goal: Goal, luck: Luck) returns (after: State)
    requires Leads(init, st) && w in st.wrappers && At(st, w) == Sweeping(which, r, goal)
    requires FileAt(st.files, which) == Complete(r) && luck.seen.Inactive?
    ensures Leads(init, after)
    ensures var (f, ok) := ClearedOne(st.files, which, luck);
      after == Move(st, w, if ok then AfterFile(which, goal) else AfterFailure(goal)).(files := f)
  {
    var (g, swept) := RemovedCollection(st.files, r.workspace, luck.removal);
    if swept || luck.removal.GoneUnsynced? {
      var emptied := Move(st, w, Unlinking(which, r, goal)).(files := WithoutWorkspace(st.files, r.workspace));
      ThenClear(init, st, SweepAll(w), emptied);
      assert emptied.files == g;
      after := UnlinkRefines(init, emptied, w, which, r, goal, if swept then luck.unlinking else NotUnlinked);
    } else {
      var partial := st.(files := g);
      if luck.removal.Partly? {
        ThenClear(init, st, SweepSome(w), partial);
      } else {
        assert partial == st;
      }
      after := Move(partial, w, AfterFailure(goal));
      ThenClear(init, partial, SweepFails(w), after);
    }
  }

  lemma UnlinkRefines(init: State, st: State, w: Wid, which: Which, r: Record, goal: Goal, unlinking: Unlinking)
    returns (after: State)
    requires Leads(init, st) && w in st.wrappers && At(st, w) == Pc.Unlinking(which, r, goal)
    ensures Leads(init, after)
    ensures after == Move(st, w, if unlinking.Unlinked? then AfterFile(which, goal) else AfterFailure(goal)).(
      files := if unlinking.NotUnlinked? then st.files else Removed(st.files, which))
  {
    if unlinking.NotUnlinked? {
      after := Move(st, w, AfterFailure(goal));
      ThenClear(init, st, UnlinkFails(w), after);
    } else {
      after := Move(st, w, if unlinking.Unlinked? then AfterFile(which, goal) else AfterFailure(goal)).(
        files := Removed(st.files, which));
      ThenClear(init, st, Unlink(w, unlinking.Unlinked?), after);
    }
  }

  /** A clearing pass, whatever fails in it, is a stretch of the protocol by the wrapper that makes it. */
  lemma ClearStoppedRefines(st: State, w: Wid, goal: Goal, luck: Which -> Luck) returns (after: State)
    requires w in st.wrappers && At(st, w) == Reading(Json, goal)
    requires forall which :: FileAt(st.files, which).Complete? ==>
      Truthful(st, luck(which).seen, FileAt(st.files, which).record.session)
    ensures Leads(st, after)
    ensures var (f, ok) := ClearedAll(st.files, luck);
      after == Move(st, w, if ok then AfterFile(Pending, goal) else AfterFailure(goal)).(files := f)
  {
    assert After(st, []) == Some(st);
    after := FileRefines(st, st, w, Json, goal, luck(Json));
    var (g, ok) := ClearedOne(st.files, Json, luck(Json));
    assert FileAt(st.files, Pending) == FileAt(g, Pending);
    assert ClearedFrom(g, [Json, Pending][1..], luck) == ClearedOne(g, Pending, luck(Pending));
    if ok {
      after := FileRefines(st, after, w, Pending, goal, luck(Pending));
    }
  }

  /** Saving ends with the record committed, or with a child about to be killed. */
  lemma SaveInFlightRefines(st: State, w: Wid, c: Sid, writing: Writing, renaming: Renaming) returns (after: State)
    requires w in st.wrappers && At(st, w) == Forked(c) && st.wrappers[w].workspace.Some?
    ensures Leads(st, after)
    ensures var (f, ok) := Saved(st.files, RecordOf(w, st.wrappers[w], c), writing, renaming);
      after == Move(st, w, if ok then Recorded(c) else Killing(c)).(files := f)
  {
    assert After(st, []) == Some(st);
    var r := RecordOf(w, st.wrappers[w], c);
    if !ValidSession(r.session) || !st.files.json.Absent? {
      after := Move(st, w, Killing(c));
      ThenSave(st, st, Falter(w), after);
    } else {
      var vacant := Move(st, w, Vacant(c));
      ThenSave(st, st, CheckVacant(w), vacant);
      if !st.files.pending.Absent? || writing.NotCreated? {
        after := Move(vacant, w, Killing(c));
        ThenSave(st, vacant, Falter(w), after);
      } else {
        after := WriteRefines(st, vacant, w, c, writing, renaming);
      }
    }
  }

  lemma WriteRefines(
    init: State, st: State, w: Wid, c: Sid, writing: Writing, renaming: Renaming) returns (after: State)
    requires Leads(init, st) && w in st.wrappers && At(st, w) == Vacant(c) && st.wrappers[w].workspace.Some?
    requires st.files.json.Absent? && st.files.pending.Absent? && ValidSession(c) && !writing.NotCreated?
    ensures Leads(init, after)
    ensures var (f, ok) := Saved(st.files, RecordOf(w, st.wrappers[w], c), writing, renaming);
      after == Move(st, w, if ok then Recorded(c) else Killing(c)).(files := f)
  {
    var r := RecordOf(w, st.wrappers[w], c);
    var torn := Move(st, w, Pc.Writing(c)).(files := st.files.(pending := Torn));
    ThenSave(init, st, BeginWrite(w), torn);
    if writing.Broke? {
      after := Move(torn, w, Killing(c)).(files := torn.files.(pending := if writing.whole then Complete(r) else Torn));
      ThenSave(init, torn, BreakWrite(w, writing.whole), after);
    } else {
      var whole := Move(torn, w, Written(c)).(files := torn.files.(pending := Complete(r)));
      ThenSave(init, torn, EndWrite(w), whole);
      after := RenameRefines(init, whole, w, c, renaming);
    }
  }

  lemma RenameRefines(init: State, st: State, w: Wid, c: Sid, renaming: Renaming) returns (after: State)
    requires Leads(init, st) && w in st.wrappers && At(st, w) == Written(c)
    ensures Leads(init, after)
    ensures after == Move(st, w, if renaming.Renamed? then Recorded(c) else Killing(c)).(
      files := if renaming.NotRenamed? then st.files else st.files.(json := st.files.pending, pending := Absent))
  {
    if renaming.NotRenamed? {
      after := Move(st, w, Killing(c));
      ThenSave(init, st, Falter(w), after);
    } else {
      after := Move(st, w, Recorded(c)).(files := st.files.(json := st.files.pending, pending := Absent));
      ThenSave(init, st, Rename(w), after);
      if renaming.RenamedUnsynced? {
        var faltered := Move(after, w, Killing(c));
        ThenSave(init, after, Falter(w), faltered);
        after := faltered;
      }
    }
  }

  /** Finishing ends ready for the next command, or closing. */
  lemma FinishInFlightRefines(st: State, w: Wid, c: Sid, seen: Seen, unlinking: Unlinking) returns (after: State)
    requires w in st.wrappers && At(st, w) == Waited(c) && st.wrappers[w].workspace.Some?
    requires Truthful(st, seen, c)
    ensures Leads(st, after)
    ensures var (f, ok) := Finished(st.files, RecordOf(w, st.wrappers[w], c), seen, unlinking);
      after == Move(st, w, if ok then Ready else Reading(Json, ToClose)).(files := f)
  {
    assert After(st, []) == Some(st);
    var r := RecordOf(w, st.wrappers[w], c);
    after := Move(st, w, if st.files.json == Complete(r) then Finishing(c) else Reading(Json, ToClose));
    ThenRun(st, st, FinishRead(w), after);
    if st.files.json == Complete(r) {
      after := RetireRefines(st, after, w, c, seen, unlinking);
    }
  }

  lemma RetireRefines(init: State, st: State, w: Wid, c: Sid, seen: Seen, unlinking: Unlinking) returns (after: State)
    requires Leads(init, st) && w in st.wrappers && At(st, w) == Finishing(c) && Truthful(st, seen, c)
    ensures Leads(init, after)
    ensures after == Move(st, w, if seen.Inactive? && unlinking.Unlinked? then Ready else Reading(Json, ToClose)).(
      files := if seen.Inactive? && !unlinking.NotUnlinked? then st.files.(json := Absent) else st.files)
  {
    if !seen.Inactive? {
      after := Move(st, w, Reading(Json, ToClose));
      ThenRun(init, st, FinishActive(w), after);
    } else {
      var clear := Move(st, w, FinishClear(c));
      ThenRun(init, st, FinishInactive(w), clear);
      after := UnlinkOwnRefines(init, clear, w, c, unlinking);
    }
  }

  lemma UnlinkOwnRefines(init: State, clear: State, w: Wid, c: Sid, unlinking: Unlinking) returns (after: State)
    requires Leads(init, clear) && w in clear.wrappers && At(clear, w) == FinishClear(c)
    ensures Leads(init, after)
    ensures after == Move(clear, w, if unlinking.Unlinked? then Ready else Reading(Json, ToClose)).(
      files := if unlinking.NotUnlinked? then clear.files else clear.files.(json := Absent))
  {
    if unlinking.NotUnlinked? {
      after := Move(clear, w, Reading(Json, ToClose));
      ThenRun(init, clear, FinishUnlinkFails(w), after);
    } else {
      after := Move(clear, w, if unlinking.Unlinked? then Ready else Reading(Json, ToClose)).(
        files := clear.files.(json := Absent));
      ThenRun(init, clear, FinishUnlink(w, unlinking.Unlinked?), after);
    }
  }
}
