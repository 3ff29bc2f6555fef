/** A run of the settling script, against a world that changes as it likes, is a run of the
    transition system: what the protocol promises is promised of the script. */
module SnapshotRuns {
  import opened Text
  import opened SnapshotSelection
  import opened SnapshotManager
  import opened SnapshotProtocol

  // ------------------------------------------------------------------ reaching a state

  ghost predicate Reaches(s: State, t: State, count: nat) {
    exists run :: IsRun(s, run, count) && After(s, run, count) == t
  }

  lemma ReachesItself(s: State, count: nat)
    ensures Reaches(s, s, count)
  {
    assert IsRun(s, [], count) && After(s, [], count) == s;
  }

  lemma ReachesOn(s: State, t: State, u: State, count: nat)
    requires Reaches(s, t, count) && Reaches(t, u, count)
    ensures Reaches(s, u, count)
  {
    var first :| IsRun(s, first, count) && After(s, first, count) == t;
    var second :| IsRun(t, second, count) && After(t, second, count) == u;
    RunsCompose(s, first, second, count);
  }

  lemma ReachesNext(s: State, t: State, a: Action, count: nat) returns (u: State)
    requires Reaches(s, t, count) && Enabled(t, a, count)
    ensures u == Do(t, a, count) && Reaches(s, u, count)
  {
    u := Do(t, a, count);
    OneStep(t, a, count, u);
    ReachesOn(s, t, u, count);
  }

  lemma ReachedKeepsInv(s: State, t: State, count: nat)
    requires Inv(s, count) && Reaches(s, t, count)
    ensures Inv(t, count)
  {
    var run :| IsRun(s, run, count) && After(s, run, count) == t;
    RunKeepsInv(s, run, count);
  }

  // ------------------------------------------------------------------ the world moves on

  /** What the environment cannot change: where the service is, and what refreshes left. */
  function Cleared(w: Window): Window {
    Window(w.round, w.before, false, false, false)
  }

  function Phase(service: Service): Service {
    match service
    case Fingerprinted(w) => Fingerprinted(Cleared(w))
    case Opening(w) => Opening(Cleared(w))
    case Refreshing(w, listed) => Refreshing(Cleared(w), listed)
    case RefreshDone(w) => RefreshDone(Cleared(w))
    case _ => service
  }

  predicate SamePhase(s: State, t: State) {
    && Phase(t.service) == Phase(s.service) && t.plain == s.plain && t.pending == s.pending
    && t.attempted == s.attempted && t.failed == s.failed && t.entries == s.entries
  }

  /** The state shows the world at an instant; numbers are used only by snapshots seen by then. */
  ghost predicate Shows(s: State, world: nat -> Instant, at: nat) {
    && s.snapshots == world(at).snapshots.subvolumes && s.reachable == world(at).driveReachable
    && s.plain.NoPlain? && forall n :: n in s.used ==> SeenBy(world, n, at)
  }

  ghost predicate SeenBy(world: nat -> Instant, n: nat, at: nat) {
    exists t: nat :: t <= at && n in world(t).snapshots.subvolumes
  }

  lemma OneDeleted(s: State, n: nat, count: nat) returns (t: State)
    requires n in s.snapshots
    ensures Reaches(s, t, count) && SamePhase(s, t)
    ensures t.snapshots == s.snapshots - {n} && t.used == s.used && t.reachable == s.reachable
  {
    ReachesItself(s, count);
    t := ReachesNext(s, s, Delete(n), count);
  }

  lemma OneCreated(s: State, n: nat, count: nat) returns (t: State)
    requires n !in s.used
    ensures Reaches(s, t, count) && SamePhase(s, t)
    ensures t.snapshots == s.snapshots + {n} && t.used == s.used + {n} && t.reachable == s.reachable
  {
    ReachesItself(s, count);
    t := ReachesNext(s, s, Create(n), count);
  }

  lemma {:induction false} Deletes(s: State, gone: set<nat>, count: nat) returns (t: State)
    requires gone <= s.snapshots
    ensures Reaches(s, t, count) && SamePhase(s, t)
    ensures t.snapshots == s.snapshots - gone && t.used == s.used && t.reachable == s.reachable
    decreases gone
  {
    if gone == {} {
      ReachesItself(s, count);
      t := s;
    } else {
      var n :| n in gone;
      var next := OneDeleted(s, n, count);
      t := Deletes(next, gone - {n}, count);
      ReachesOn(s, next, t, count);
    }
  }

  lemma {:induction false} Creates(s: State, added: set<nat>, count: nat) returns (t: State)
    requires added !! s.used
    ensures Reaches(s, t, count) && SamePhase(s, t)
    ensures t.snapshots == s.snapshots + added && t.used == s.used + added && t.reachable == s.reachable
    decreases added
  {
    if added == {} {
      ReachesItself(s, count);
      t := s;
    } else {
      var n :| n in added;
      var next := OneCreated(s, n, count);
      t := Creates(next, added - {n}, count);
      ReachesOn(s, next, t, count);
    }
  }

  lemma DriveMoves(s: State, reachable: bool, count: nat) returns (t: State)
    ensures Reaches(s, t, count) && SamePhase(s, t)
    ensures t.snapshots == s.snapshots && t.used == s.used && t.reachable == reachable
  {
    ReachesItself(s, count);
    t := s;
    if reachable != s.reachable {
      t := ReachesNext(s, s, if reachable then Plug else Unplug, count);
    }
  }

  lemma FreshNumbers(world: nat -> Instant, s: State, at: nat, added: set<nat>)
    requires NumbersAreNeverReused(world) && Shows(s, world, at)
    requires added == world(at + 1).snapshots.subvolumes - world(at).snapshots.subvolumes
    ensures added !! s.used
  {
    forall n | n in s.used
      ensures n !in added
    {
      assert SeenBy(world, n, at);
      var t: nat :| t <= at && n in world(t).snapshots.subvolumes;
      assert n in world(at + 1).snapshots.subvolumes ==> n in world(at).snapshots.subvolumes;
    }
  }

  lemma StillSeen(world: nat -> Instant, used: set<nat>, added: set<nat>, at: nat, later: nat)
    requires at <= later && (forall n :: n in used ==> SeenBy(world, n, at))
    requires added <= world(later).snapshots.subvolumes
    ensures forall n :: n in used + added ==> SeenBy(world, n, later)
  {
    forall n | n in used + added
      ensures SeenBy(world, n, later)
    {
      if n in used {
        assert SeenBy(world, n, at);
      }
    }
  }

  /** One instant later. */
  lemma Ticks(world: nat -> Instant, s: State, at: nat, count: nat) returns (t: State)
    requires NumbersAreNeverReused(world) && Shows(s, world, at)
    ensures Reaches(s, t, count) && SamePhase(s, t) && Shows(t, world, at + 1)
  {
    var now, next := world(at).snapshots.subvolumes, world(at + 1).snapshots.subvolumes;
    FreshNumbers(world, s, at, next - now);
    StillSeen(world, s.used, next - now, at, at + 1);
    var a := Deletes(s, now - next, count);
    var b := Creates(a, next - now, count);
    t := DriveMoves(b, world(at + 1).driveReachable, count);
    ReachesOn(s, a, b, count);
    ReachesOn(s, b, t, count);
    assert now - (now - next) + (next - now) == next;
  }

  /** Any time later. */
  lemma {:induction false} Waits(world: nat -> Instant, s: State, at: nat, later: nat, count: nat) returns (t: State)
    requires NumbersAreNeverReused(world) && Shows(s, world, at) && at <= later
    ensures Reaches(s, t, count) && SamePhase(s, t) && Shows(t, world, later)
    decreases later - at
  {
    if at == later {
      ReachesItself(s, count);
      t := s;
    } else {
      var next := Ticks(world, s, at, count);
      t := Waits(world, next, at + 1, later, count);
      ReachesOn(s, next, t, count);
    }
  }

  // ------------------------------------------------------------------ a round

  /** The fingerprint of a round is taken and its refresh begins. */
  lemma RoundBegins(world: nat -> Instant, round: nat, s: State, at: nat, from: nat, count: nat) returns (t: State)
    requires NumbersAreNeverReused(world) && Shows(s, world, at) && at <= from && s.service == Settling(round)
    ensures Reaches(s, t, count) && Shows(t, world, from) && t.entries == s.entries
    ensures var w := Window(round, world(from).snapshots.subvolumes, false, false, false);
            if world(from).driveReachable then t.service == Opening(w) && !t.pending
            else t.service == RefreshDone(w) && t.pending
  {
    t := Waits(world, s, at, from, count);
    t := ReachesNext(s, t, TakeFingerprint, count);
    t := ReachesNext(s, t, BeginRefresh, count);
  }

  /** The snapshots are listed. */
  lemma RefreshLists(world: nat -> Instant, at: nat, w: Window, s: State, from: nat, count: nat) returns (t: State)
    requires NumbersAreNeverReused(world) && Shows(s, world, from) && from <= at
    requires s.service == Opening(w) && w == Cleared(w) && !s.pending
    ensures Reaches(s, t, count) && Shows(t, world, at) && !t.pending
    ensures Phase(t.service) == Refreshing(w, world(at).snapshots.subvolumes)
  {
    t := Waits(world, s, from, at, count);
    t := ReachesNext(s, t, List, count);
  }

  /** The refresh has come to its end. */
  lemma RefreshIsOver(world: nat -> Instant, r: Refresh, w: Window, s: State, from: nat, to: nat, count: nat)
    returns (t: State)
    requires NumbersAreNeverReused(world) && r.Refreshed? && IsRefresh(world, r, count, from, to) && Shows(s, world, to)
    requires Phase(s.service) == Refreshing(w, world(r.listedAt).snapshots.subvolumes) && !s.pending
    ensures Reaches(s, t, count) && Shows(t, world, to) && !t.pending && Phase(t.service) == RefreshDone(w)
    ensures t.entries == Built(world, r.attempts)
  {
    ReachesItself(s, count);
    ScriptRefreshFits(world, r, s, from, to, count);
    var present, failed := world(r.listedAt).snapshots.subvolumes - r.vanished, Attempted(r.attempts) - Built(world, r.attempts);
    t := ReachesNext(s, s, EndRefresh(present, failed), count);
  }

  /** The refresh from its list to the end of the round. */
  lemma RoundRefreshes(world: nat -> Instant, r: Refresh, w: Window, s: State, from: nat, to: nat, count: nat)
    returns (t: State)
    requires NumbersAreNeverReused(world) && r.Refreshed? && IsRefresh(world, r, count, from, to) && Shows(s, world, from)
    requires s.service == Opening(w) && w == Cleared(w) && !s.pending
    ensures from <= to && Reaches(s, t, count) && Shows(t, world, to) && !t.pending
    ensures Phase(t.service) == RefreshDone(w) && t.entries == Built(world, r.attempts)
  {
    TurnsEnd(world, r.attempts, r.listedAt, to);
    var listed := RefreshLists(world, r.listedAt, w, s, from, count);
    var ready := Waits(world, listed, r.listedAt, to, count);
    ReachesOn(s, listed, ready, count);
    t := RefreshIsOver(world, r, w, ready, from, to, count);
    ReachesOn(s, ready, t, count);
  }

  lemma {:induction false} TurnsEnd(world: nat -> Instant, attempts: seq<Attempt>, from: nat, to: nat)
    requires InTurn(world, attempts, from, to)
    ensures from <= to
  {
    if attempts != [] {
      TurnsEnd(world, attempts[..|attempts| - 1], from, attempts[|attempts| - 1].at);
    }
  }

  /** The second fingerprint is compared. */
  lemma RoundEnds(world: nat -> Instant, round: Round, number: nat, s: State, count: nat) returns (t: State)
    requires Shows(s, world, round.to)
    requires Phase(s.service) == RefreshDone(Window(number, world(round.from).snapshots.subvolumes, false, false, false))
    ensures Reaches(s, t, count) && Shows(t, world, round.to) && t.entries == s.entries && t.pending == s.pending
    ensures t.service == if SawChange(world, round) && number < MAX_REFRESH_ROUNDS then Settling(number + 1) else Ending
  {
    ReachesItself(s, count);
    t := ReachesNext(s, s, Touch(SawChange(world, round)), count);
    t := ReachesNext(s, t, CompareFingerprint, count);
  }

  /** A round of the script is one the transition system takes. */
  lemma RoundFits(world: nat -> Instant, round: Round, number: nat, s: State, at: nat, count: nat) returns (t: State)
    requires NumbersAreNeverReused(world) && IsRound(world, round, count) && at <= round.from
    requires Shows(s, world, at) && s.service == Settling(number)
    ensures Reaches(s, t, count) && Shows(t, world, round.to)
    ensures t.service == if SawChange(world, round) && number < MAX_REFRESH_ROUNDS then Settling(number + 1) else Ending
    ensures t.pending == round.refresh.Postponed?
    ensures t.entries == if round.refresh.Refreshed? then Built(world, round.refresh.attempts) else s.entries
  {
    var begun := RoundBegins(world, number, s, at, round.from, count);
    var done: State;
    if round.refresh.Refreshed? {
      done := RoundRefreshes(world, round.refresh, begun.service.w, begun, round.from, round.to, count);
    } else {
      done := Waits(world, begun, round.from, round.to, count);
    }
    ReachesOn(s, begun, done, count);
    t := RoundEnds(world, round, number, done, count);
    ReachesOn(s, done, t, count);
  }

  // ------------------------------------------------------------------ the whole loop

  /** The entries after some rounds. */
  function EntriesAfter(world: nat -> Instant, rounds: seq<Round>, entries: set<nat>): set<nat> {
    match LastRefreshed(rounds)
    case None => entries
    case Some(r) => if r.Refreshed? then Built(world, r.attempts) else entries
  }

  /** Where the service is after some rounds. */
  function ServiceAfter(world: nat -> Instant, rounds: seq<Round>): Service {
    if rounds == [] then Settling(1)
    else if SawChange(world, rounds[|rounds| - 1]) && |rounds| < MAX_REFRESH_ROUNDS then Settling(|rounds| + 1)
    else Ending
  }

  function EndOf(rounds: seq<Round>, start: nat): nat {
    if rounds == [] then start else rounds[|rounds| - 1].to
  }

  lemma {:induction false} RoundsFit(world: nat -> Instant, rounds: seq<Round>, s: State, start: nat, to: nat,
          count: nat)
    returns (t: State)
    requires NumbersAreNeverReused(world) && RoundsInTurn(world, rounds, count, start, to)
    requires |rounds| <= MAX_REFRESH_ROUNDS && forall i :: 0 <= i < |rounds| - 1 ==> SawChange(world, rounds[i])
    requires Shows(s, world, start) && s.service == Settling(1)
    ensures Reaches(s, t, count) && Shows(t, world, EndOf(rounds, start)) && t.service == ServiceAfter(world, rounds)
    ensures t.entries == EntriesAfter(world, rounds, s.entries)
    ensures rounds != [] ==> t.pending == rounds[|rounds| - 1].refresh.Postponed?
  {
    if rounds == [] {
      ReachesItself(s, count);
      t := s;
    } else {
      var front, last := rounds[..|rounds| - 1], rounds[|rounds| - 1];
      assert forall i :: 0 <= i < |front| ==> front[i] == rounds[i];
      var before := RoundsFit(world, front, s, start, last.from, count);
      EndsBefore(world, front, count, start, last.from);
      t := RoundFits(world, last, |rounds|, before, EndOf(front, start), count);
      ReachesOn(s, before, t, count);
    }
  }

  lemma {:induction false} EndsBefore(world: nat -> Instant, rounds: seq<Round>, count: nat, start: nat, to: nat)
    requires RoundsInTurn(world, rounds, count, start, to)
    ensures EndOf(rounds, start) <= to
  {
  }

  /** `refresh-settled` as the script runs it, next to a state of the transition system that
      shows the world as it begins: the system can take the same steps, and ends with the same
      entries and the same marker. */
  method RunService(m: Manager, count: nat, ghost s: State) returns (settled: bool, ghost t: State)
    requires m.entries.Valid() && NumbersAreNeverReused(m.world)
    requires Shows(s, m.world, m.now) && s.service == Settling(1)
    requires m.ukis == m.entries.With(OtherFiles(m.ukis), s.entries)
    modifies m
    ensures Reaches(s, t, count) && Shows(t, m.world, m.now) && t.service.Ending?
    ensures m.ukis == m.entries.With(OtherFiles(old(m.ukis)), t.entries) && m.pending == t.pending
    ensures Inv(s, count) ==> Inv(t, count)
  {
    ghost var start := m.now;
    var rounds;
    settled, rounds := m.RefreshUntilSettled(count);
    t := RoundsFit(m.world, rounds, s, start, m.now, count);
    if Inv(s, count) {
      ReachedKeepsInv(s, t, count);
    }
  }
}
