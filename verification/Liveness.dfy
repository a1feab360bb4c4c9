/**
 Observing whether a process session is still alive: list every process once, then ask for
 the session of each, while the processes go on forking and exiting.
 */
module Liveness {
  import opened Domain

  type Pid = int
  type Sid = int

  /** A word of the process listing, and what the system says of one process. */
  datatype Field = Number(pid: Pid) | Garbage
  datatype Lookup = InSession(sid: Sid) | NoSuchProcess | Failed

  /** A listed word and the answer, if it comes to asking. */
  datatype Row = Row(field: Field, answer: Lookup)

  /** The two booleans of a scan, or its error. */
  datatype Scan = Scanned(active: bool, changed: bool) | Unscannable

  const MAX_PROCESSES := 100000
  const ATTEMPTS := 3

  // ---- One scan ----

  /** The row lets the scan go on: the observer itself, a process that is gone, or one of another session. */
  predicate Passes(session: Sid, observer: Pid, r: Row) {
    && r.field.Number? && r.field.pid > 0
    && (r.field.pid == observer || r.answer.NoSuchProcess? || (r.answer.InSession? && r.answer.sid != session))
  }

  predicate Vanished(observer: Pid, r: Row) {
    r.field.Number? && r.field.pid != observer && r.answer.NoSuchProcess?
  }

  predicate Hits(session: Sid, observer: Pid, r: Row) {
    r.field.Number? && r.field.pid > 0 && r.field.pid != observer && r.answer == InSession(session)
  }

  predicate AllPass(session: Sid, observer: Pid, rows: seq<Row>) {
    forall r <- rows :: Passes(session, observer, r)
  }

  predicate SomeVanished(observer: Pid, rows: seq<Row>) {
    exists r <- rows :: Vanished(observer, r)
  }

  /** The row at k is a member, and everything before it passed. */
  predicate MetAt(session: Sid, observer: Pid, rows: seq<Row>, k: int) {
    0 <= k < |rows| && Hits(session, observer, rows[k]) && AllPass(session, observer, rows[..k])
  }

  /** At the first row that does not pass, that row alone decides. */
  lemma StopsAt(session: Sid, observer: Pid, rows: seq<Row>, n: nat)
    requires n < |rows| && AllPass(session, observer, rows[..n]) && !Passes(session, observer, rows[n])
    ensures !AllPass(session, observer, rows)
    ensures forall k :: MetAt(session, observer, rows, k) ==> k == n
    ensures MetAt(session, observer, rows, n) <==> Hits(session, observer, rows[n])
  {
    assert rows[n] in rows;
    forall k | n < k <= |rows| ensures !AllPass(session, observer, rows[..k]) {
      assert rows[..k][n] == rows[n];
    }
    forall k | 0 <= k < n ensures Passes(session, observer, rows[k]) {
      assert rows[..n][k] == rows[k];
    }
  }

  lemma OneMoreRow(observer: Pid, rows: seq<Row>, r: Row)
    ensures SomeVanished(observer, rows + [r]) <==> SomeVanished(observer, rows) || Vanished(observer, r)
  {
    assert r in rows + [r];
    if SomeVanished(observer, rows) {
      var x :| x in rows && Vanished(observer, x);
      assert x in rows + [r];
    }
  }

  method SessionInProcesses(session: Sid, observer: Pid, rows: seq<Row>) returns (r: Scan)
    ensures r == Scanned(false, SomeVanished(observer, rows)) <==> AllPass(session, observer, rows)
    ensures r.Scanned? && !r.active ==> AllPass(session, observer, rows)
    ensures (exists k :: MetAt(session, observer, rows, k)) <==> r.Scanned? && r.active
    ensures forall k :: MetAt(session, observer, rows, k) ==> r == Scanned(true, SomeVanished(observer, rows[..k]))
  {
    var changed := false;
    var i := 0;
    while i < |rows|
      invariant 0 <= i <= |rows|
      invariant AllPass(session, observer, rows[..i])
      invariant changed == SomeVanished(observer, rows[..i])
    {
      if !Passes(session, observer, rows[i]) { StopsAt(session, observer, rows, i); }
      var field := rows[i].field;
      if field.Garbage? || field.pid <= 0 { return Unscannable; }
      if field.pid != observer {
        match rows[i].answer {
          case NoSuchProcess => changed := true;
          case Failed => return Unscannable;
          case InSession(sid) => if sid == session { return Scanned(true, changed); }
        }
      }
      assert rows[..i + 1] == rows[..i] + [rows[i]];
      OneMoreRow(observer, rows[..i], rows[i]);
      i := i + 1;
    }
    assert rows[..i] == rows;
    NoneMet(session, observer, rows);
    return Scanned(false, changed);
  }

  lemma NoneMet(session: Sid, observer: Pid, rows: seq<Row>)
    requires AllPass(session, observer, rows)
    ensures forall k :: !MetAt(session, observer, rows, k)
  {
    forall k ensures !MetAt(session, observer, rows, k) {
      if 0 <= k < |rows| {
        assert rows[k] in rows;
      }
    }
  }

  // ---- Up to three attempts ----

  /** One run of the listing command, if it succeeded, with the answers to the questions that follow it. */
  datatype Attempt = Attempt(listing: Option<seq<Row>>, observer: Pid)

  predicate Listed(a: Attempt) {
    a.listing.Some? && 0 < |a.listing.value| <= MAX_PROCESSES
  }

  /** The attempt saw no member of the session, and nothing it asked about was gone. */
  predicate Clean(session: Sid, a: Attempt) {
    Listed(a) && AllPass(session, a.observer, a.listing.value) && !SomeVanished(a.observer, a.listing.value)
  }

  /** The attempt saw no member of the session, but the processes changed under it. */
  predicate Moving(session: Sid, a: Attempt) {
    Listed(a) && AllPass(session, a.observer, a.listing.value) && SomeVanished(a.observer, a.listing.value)
  }

  /** The attempt met a member of the session before anything it could not read. */
  predicate Meets(session: Sid, a: Attempt) {
    Listed(a) && exists k | 0 <= k < |a.listing.value| :: MetAt(session, a.observer, a.listing.value, k)
  }

  /** Whether the session is active; no answer when it cannot be told. */
  method ProcessSessionActive(session: Sid, attempts: seq<Attempt>) returns (active: Option<bool>)
    requires |attempts| == ATTEMPTS
    ensures active == Some(false) <==> exists k | 0 <= k < ATTEMPTS ::
      Clean(session, attempts[k]) && forall j | 0 <= j < k :: Moving(session, attempts[j])
    ensures active == Some(true) <==> exists k | 0 <= k < ATTEMPTS ::
      Meets(session, attempts[k]) && forall j | 0 <= j < k :: Moving(session, attempts[j])
  {
    var i := 0;
    while i < ATTEMPTS
      invariant 0 <= i <= ATTEMPTS
      invariant forall j | 0 <= j < i :: Moving(session, attempts[j])
    {
      var a := attempts[i];
      OneVerdict(session, a);
      MovingIsNeither(session, attempts, i);
      if a.listing.None? { return None; }
      var rows := a.listing.value;
      if |rows| == 0 || |rows| > MAX_PROCESSES { return None; }
      var r := SessionInProcesses(session, a.observer, rows);
      if r.Unscannable? { return None; }
      if r.active { return Some(true); }
      if !r.changed { return Some(false); }
      i := i + 1;
    }
    MovingIsNeither(session, attempts, i);
    return None;
  }

  /** The three verdicts of an attempt exclude each other. */
  lemma OneVerdict(session: Sid, a: Attempt)
    ensures !(Clean(session, a) && Moving(session, a))
    ensures Meets(session, a) ==> !Clean(session, a) && !Moving(session, a)
  {
    if Meets(session, a) {
      var rows := a.listing.value;
      var k :| 0 <= k < |rows| && MetAt(session, a.observer, rows, k);
      assert !Passes(session, a.observer, rows[k]);
    }
  }

  lemma MovingIsNeither(session: Sid, attempts: seq<Attempt>, i: nat)
    requires i <= |attempts| && forall j | 0 <= j < i :: Moving(session, attempts[j])
    ensures forall j | 0 <= j < i :: !Clean(session, attempts[j]) && !Meets(session, attempts[j])
  {
    forall j | 0 <= j < i ensures !Clean(session, attempts[j]) && !Meets(session, attempts[j]) {
      OneVerdict(session, attempts[j]);
    }
  }

  // ---- What an inactive answer means ----

  /** The processes at one moment, each with its session. */
  type World = map<Pid, Sid>

  predicate Member(w: World, p: Pid, session: Sid) {
    p in w && w[p] == session
  }

  predicate Empty(w: World, session: Sid) {
    forall p <- w :: !Member(w, p, session)
  }

  /** Members stay members until they exit, and only a member's fork joins the session. */
  predicate Follows(w: World, next: World, session: Sid) {
    && (forall p <- w :: Member(w, p, session) && p in next ==> Member(next, p, session))
    && (forall p <- next :: Member(next, p, session) ==> Member(w, p, session) || (p !in w && !Empty(w, session)))
  }

  /** No process identity comes back after it went. */
  predicate NoReuse(worlds: seq<World>) {
    forall i, j, k, p | 0 <= i < j < k < |worlds| && p in worlds[i] && p !in worlds[j] :: p !in worlds[k]
  }

  predicate Timeline(worlds: seq<World>, session: Sid) {
    forall i | 0 <= i < |worlds| - 1 :: Follows(worlds[i], worlds[i + 1], session)
  }

  function Answer(w: World, p: Pid): Lookup {
    if p in w then InSession(w[p]) else NoSuchProcess
  }

  /**
   The listing shows every process there was at one moment, and each answer was true at some
   moment not before it.
   */
  predicate Observed(worlds: seq<World>, at: nat, times: seq<nat>, a: Attempt)
    requires at < |worlds|
  {
    && a.listing.Some? && |times| == |a.listing.value|
    && (forall p <- worlds[at] :: exists r <- a.listing.value :: r.field == Number(p))
    && (forall k | 0 <= k < |times| && a.listing.value[k].field.Number? :: at <= times[k] < |worlds|
          && a.listing.value[k].answer == Answer(worlds[times[k]], a.listing.value[k].field.pid))
  }

  /** With no identity reused, a member either remains a member or is gone. */
  lemma {:induction false} MemberStaysOrGoes(worlds: seq<World>, session: Sid, i: nat, j: nat, p: Pid)
    requires Timeline(worlds, session) && NoReuse(worlds) && i <= j < |worlds| && Member(worlds[i], p, session)
    ensures p in worlds[j] ==> Member(worlds[j], p, session)
  {
    if i < j {
      MemberStaysOrGoes(worlds, session, i, j - 1, p);
      assert Follows(worlds[j - 1], worlds[j], session);
      assert p !in worlds[j - 1] ==> i < j - 1;
    }
  }

  lemma {:induction false} EmptyStaysEmpty(worlds: seq<World>, session: Sid, i: nat, j: nat)
    requires Timeline(worlds, session) && i <= j < |worlds| && Empty(worlds[i], session)
    ensures Empty(worlds[j], session)
  {
    if i < j {
      EmptyStaysEmpty(worlds, session, i, j - 1);
      assert Follows(worlds[j - 1], worlds[j], session);
    }
  }

  /**
   A clean observation by a process outside the session: whatever forked and exited meanwhile,
   the session was empty when the processes were listed and is empty from then on.
   */
  lemma CleanMeansEmpty(worlds: seq<World>, session: Sid, at: nat, times: seq<nat>, a: Attempt, j: nat)
    requires at <= j < |worlds| && Timeline(worlds, session) && NoReuse(worlds)
    requires Observed(worlds, at, times, a) && Clean(session, a)
    requires !Member(worlds[at], a.observer, session)
    ensures Empty(worlds[at], session) && Empty(worlds[j], session)
  {
    forall p <- worlds[at] ensures !Member(worlds[at], p, session) {
      if Member(worlds[at], p, session) {
        var r :| r in a.listing.value && r.field == Number(p);
        var k :| 0 <= k < |times| && a.listing.value[k] == r;
        assert Passes(session, a.observer, r) && !Vanished(a.observer, r);
        MemberStaysOrGoes(worlds, session, at, times[k], p);
      }
    }
    EmptyStaysEmpty(worlds, session, at, j);
  }

  /** So "not active" is right when it is answered, if its attempts were observed that way. */
  lemma InactiveMeansEmpty(worlds: seq<World>, session: Sid, attempts: seq<Attempt>, at: seq<nat>, times: seq<seq<nat>>,
                           j: nat)
    requires |attempts| == |at| == |times| == ATTEMPTS && j < |worlds| && Timeline(worlds, session) && NoReuse(worlds)
    requires forall k | 0 <= k < ATTEMPTS && Clean(session, attempts[k]) ::
      Sighted(worlds, session, at[k], times[k], attempts[k], j)
    requires exists k | 0 <= k < ATTEMPTS :: Clean(session, attempts[k])
    ensures Empty(worlds[j], session)
  {
    var k :| 0 <= k < ATTEMPTS && Clean(session, attempts[k]);
    assert Sighted(worlds, session, at[k], times[k], attempts[k], j);
    CleanMeansEmpty(worlds, session, at[k], times[k], attempts[k], j);
  }

  /** Observed no later than j, by a process outside the session. */
  predicate Sighted(worlds: seq<World>, session: Sid, at: nat, times: seq<nat>, a: Attempt, j: nat) {
    at <= j < |worlds| && Observed(worlds, at, times, a) && !Member(worlds[at], a.observer, session)
  }

  /** A hit is a member that was alive when it was asked about. */
  lemma ActiveMeansAlive(worlds: seq<World>, session: Sid, at: nat, times: seq<nat>, a: Attempt)
    requires at < |worlds| && Observed(worlds, at, times, a) && Meets(session, a)
    ensures exists i | at <= i < |worlds| :: !Empty(worlds[i], session)
  {
    var rows := a.listing.value;
    var k :| 0 <= k < |rows| && MetAt(session, a.observer, rows, k);
    assert rows[k].field == a.listing.value[k].field;
    assert Member(worlds[times[k]], a.listing.value[k].field.pid, session);
  }

  // ---- Neither condition can be dropped ----

  /**
   A listing taken process by process, low numbers first, can miss a member: it forks a child
   with a lower number and exits before its own number comes up.
   */
  lemma ListingMustBeAtomic() returns (worlds: seq<World>, session: Sid, a: Attempt)
    ensures Timeline(worlds, session) && NoReuse(worlds) && |worlds| == 3
    ensures a == Attempt(Some([Row(Number(1), Answer(worlds[2], 1))]), 99) && Clean(session, a)
    ensures forall p | 0 < p < 5 :: p in worlds[0] <==> p == 1
    ensures forall p | 5 <= p :: p !in worlds[2]
    ensures !Empty(worlds[2], session)
  {
    session := 10;
    worlds := [map[1 := 1, 10 := 10], map[1 := 1, 10 := 10, 3 := 10], map[1 := 1, 3 := 10]];
    a := Attempt(Some([Row(Number(1), InSession(1))]), 99);
    assert Follows(worlds[0], worlds[1], session) by { assert Member(worlds[0], 10, session); }
    assert Follows(worlds[1], worlds[2], session);
    assert Member(worlds[2], 3, session);
  }

  /** A member that exits after the listing can hide behind another process with its number, its child unlisted. */
  lemma IdentitiesMustNotReturn() returns (worlds: seq<World>, session: Sid, times: seq<nat>, a: Attempt)
    ensures Timeline(worlds, session) && |worlds| == 4
    ensures Observed(worlds, 0, times, a) && Clean(session, a) && !Empty(worlds[3], session)
  {
    session := 10;
    worlds := [map[1 := 1, 10 := 10], map[1 := 1, 10 := 10, 11 := 10],
               map[1 := 1, 11 := 10], map[1 := 1, 11 := 10, 10 := 1]];
    times := [3, 3];
    var first, second := Row(Number(1), InSession(1)), Row(Number(10), InSession(1));
    a := Attempt(Some([first, second]), 99);
    assert a.listing.value[0] == first && a.listing.value[1] == second;
    assert first in a.listing.value && second in a.listing.value;
    assert Follows(worlds[0], worlds[1], session) by { assert Member(worlds[0], 10, session); }
    assert Follows(worlds[1], worlds[2], session);
    assert Follows(worlds[2], worlds[3], session);
    assert Member(worlds[3], 11, session);
  }
}
