/** manage-snapshot-ukis: the refresh of the snapshot boot entries and its settling loop, run
    against an environment that changes the snapshots and the drive at any time. */
module SnapshotManager {
  import opened Text
  import opened SnapshotSelection

  const MAX_REFRESH_ROUNDS: nat := 5
  const SNAPSHOTS_SETTLE_SECONDS: nat := 2
  const SETTLE_ATTEMPTS: nat := 30

  /** What `stat` reports about /.snapshots: the snapshot subvolumes, and the modification
      time of each info.xml. Two equal values print equal fingerprints and conversely. */
  datatype Fingerprint = Fingerprint(subvolumes: set<nat>, infoTimes: map<nat, nat>)

  /** The outside world at one instant. The build of an entry that begins now fails for the
      unbuildable snapshots, and succeeds for all others. */
  datatype Instant = Instant(snapshots: Fingerprint, driveReachable: bool, unbuildable: set<nat>)

  /** Snapper never reuses a number: a snapshot that is gone stays gone. */
  ghost predicate NumbersAreNeverReused(world: nat -> Instant) {
    forall n: nat, a: nat, b: nat, c: nat
      {:trigger n in world(a).snapshots.subvolumes, n in world(b).snapshots.subvolumes,
                n in world(c).snapshots.subvolumes} ::
      a <= b <= c && n in world(a).snapshots.subvolumes && n in world(c).snapshots.subvolumes
      ==> n in world(b).snapshots.subvolumes
  }

  /** No snapshot both appears and disappears between the two instants. */
  ghost predicate NothingFlickers(world: nat -> Instant, from: nat, to: nat) {
    forall n: nat, t: nat {:trigger n in world(t).snapshots.subvolumes} ::
      from <= t <= to && n in world(t).snapshots.subvolumes
      ==> n in world(from).snapshots.subvolumes || n in world(to).snapshots.subvolumes
  }

  /** Equal at both ends, and nothing reused or flickering, means equal throughout. */
  lemma QuietWindow(world: nat -> Instant, from: nat, t: nat, to: nat)
    requires NumbersAreNeverReused(world) && NothingFlickers(world, from, to)
    requires from <= t <= to
    requires world(from).snapshots == world(to).snapshots
    ensures world(t).snapshots.subvolumes == world(from).snapshots.subvolumes
  {
    var first, middle := world(from).snapshots.subvolumes, world(t).snapshots.subvolumes;
    assert forall n :: n in middle ==> n in first;
    forall n | n in first
      ensures n in middle
    {
      assert n in world(to).snapshots.subvolumes;
    }
  }

  datatype Uki = SnapshotUki(number: nat, kernel: string) | OtherUki(content: string)

  /** Each of the snapshots was missing at some instant of the span. */
  ghost predicate MissingInSpan(world: nat -> Instant, numbers: set<nat>, from: nat, to: nat) {
    forall n :: n in numbers ==> MissingSometime(world, n, from, to)
  }

  ghost predicate MissingSometime(world: nat -> Instant, n: nat, from: nat, to: nat) {
    exists t: nat :: from <= t <= to && n !in world(t).snapshots.subvolumes
  }

  /** An entry's build: the snapshot, and when the build began. */
  datatype Attempt = Attempt(number: nat, at: nat)

  /** What a refresh did. A snapshot in `vanished` was listed but gone when its turn came. */
  datatype Refresh =
    | Postponed
    | Refreshed(listedAt: nat, vanished: set<nat>, attempts: seq<Attempt>)

  /** The snapshots whose builds were attempted. */
  function Attempted(attempts: seq<Attempt>): set<nat> {
    if attempts == [] then {} else Attempted(attempts[..|attempts| - 1]) + {attempts[|attempts| - 1].number}
  }

  predicate Succeeds(world: nat -> Instant, a: Attempt) {
    a.number !in world(a.at).unbuildable
  }

  /** The snapshots whose builds succeeded. */
  function Built(world: nat -> Instant, attempts: seq<Attempt>): set<nat> {
    if attempts == [] then {}
    else
      var front, last := attempts[..|attempts| - 1], attempts[|attempts| - 1];
      if Succeeds(world, last) then Built(world, front) + {last.number} else Built(world, front)
  }

  /** Builds one after the other, newest first, each of a snapshot that is there. */
  predicate InTurn(world: nat -> Instant, attempts: seq<Attempt>, from: nat, to: nat) {
    if attempts == [] then from <= to
    else
      var front, last := attempts[..|attempts| - 1], attempts[|attempts| - 1];
      && last.at <= to && last.number in world(last.at).snapshots.subvolumes
      && IsNext(front, last.number) && InTurn(world, front, from, last.at)
  }

  predicate IsNext(attempts: seq<Attempt>, number: nat) {
    attempts != [] ==> attempts[|attempts| - 1].number > number
  }

  /** The facts a refresh leaves: every snapshot it listed was gone at its turn, attempted, or
      older than `count` attempted ones. */
  ghost predicate IsRefresh(world: nat -> Instant, r: Refresh, count: nat, from: nat, to: nat)
    requires r.Refreshed?
  {
    var listed := world(r.listedAt).snapshots.subvolumes;
    && from <= r.listedAt <= to
    && r.vanished <= listed && MissingInSpan(world, r.vanished, r.listedAt, to)
    && InTurn(world, r.attempts, r.listedAt, to)
    && Attempted(r.attempts) == Newest(count, listed - r.vanished)
  }

  ghost predicate NothingFails(world: nat -> Instant, from: nat, to: nat) {
    forall t: nat :: from <= t <= to ==> world(t).unbuildable == {}
  }

  /** While no build fails, every attempted snapshot gets its entry. */
  lemma {:induction false} AllBuilt(world: nat -> Instant, attempts: seq<Attempt>, from: nat, to: nat)
    requires InTurn(world, attempts, from, to) && NothingFails(world, from, to)
    ensures from <= to && Built(world, attempts) == Attempted(attempts)
  {
    if attempts != [] {
      AllBuilt(world, attempts[..|attempts| - 1], from, attempts[|attempts| - 1].at);
    }
  }

  lemma {:induction false} BuiltWereAttempted(world: nat -> Instant, attempts: seq<Attempt>)
    ensures Built(world, attempts) <= Attempted(attempts)
  {
    if attempts != [] {
      BuiltWereAttempted(world, attempts[..|attempts| - 1]);
    }
  }

  lemma {:induction false} OneAttempt(world: nat -> Instant, attempts: seq<Attempt>, a: Attempt)
    ensures Attempted(attempts + [a]) == Attempted(attempts) + {a.number}
    ensures Built(world, attempts + [a]) == if Succeeds(world, a) then Built(world, attempts) + {a.number} else Built(world, attempts)
  {
    var more := attempts + [a];
    assert more[..|more| - 1] == attempts && more[|more| - 1] == a;
  }

  lemma {:induction false} OneMoreInTurn(world: nat -> Instant, attempts: seq<Attempt>, a: Attempt, from: nat)
    requires InTurn(world, attempts, from, a.at) && IsNext(attempts, a.number)
    requires a.number in world(a.at).snapshots.subvolumes
    ensures InTurn(world, attempts + [a], from, a.at)
  {
    var more := attempts + [a];
    assert more[..|more| - 1] == attempts && more[|more| - 1] == a;
  }

  // ---- the turns of the sorted snapshots, one after the other ----

  /** The turns before that of sorted[i] are over: the snapshots met were gone or attempted. */
  ghost predicate Turns(world: nat -> Instant, sorted: seq<nat>, i: nat, vanished: set<nat>,
                        attempts: seq<Attempt>, from: nat, at: nat) {
    && Walked(sorted, i, vanished, Attempted(attempts)) && |Attempted(attempts)| == |attempts|
    && MissingInSpan(world, vanished, from, at)
    && InTurn(world, attempts, from, at)
    && (i < |sorted| ==> IsNext(attempts, sorted[i]))
  }

  lemma MissingStays(world: nat -> Instant, numbers: set<nat>, from: nat, at: nat, later: nat)
    requires at <= later && MissingInSpan(world, numbers, from, at)
    ensures MissingInSpan(world, numbers, from, later)
  {
    forall n | n in numbers
      ensures MissingSometime(world, n, from, later)
    {
      assert MissingSometime(world, n, from, at);
    }
  }

  lemma TurnsLast(world: nat -> Instant, sorted: seq<nat>, i: nat, vanished: set<nat>,
                  attempts: seq<Attempt>, from: nat, at: nat, later: nat)
    requires at <= later && Turns(world, sorted, i, vanished, attempts, from, at)
    ensures Turns(world, sorted, i, vanished, attempts, from, later)
  {
    MissingStays(world, vanished, from, at, later);
  }

  lemma TurnIsSkipped(world: nat -> Instant, sorted: seq<nat>, i: nat, vanished: set<nat>,
                      attempts: seq<Attempt>, from: nat, at: nat)
    requires IsDescending(sorted) && i < |sorted| && from <= at
    requires Turns(world, sorted, i, vanished, attempts, from, at)
    requires sorted[i] !in world(at).snapshots.subvolumes
    ensures Turns(world, sorted, i + 1, vanished + {sorted[i]}, attempts, from, at)
  {
    WalkStep(sorted, i, vanished, Attempted(attempts));
    assert MissingSometime(world, sorted[i], from, at);
  }

  lemma TurnIsTaken(world: nat -> Instant, sorted: seq<nat>, i: nat, vanished: set<nat>,
                    attempts: seq<Attempt>, from: nat, at: nat)
    requires IsDescending(sorted) && i < |sorted|
    requires Turns(world, sorted, i, vanished, attempts, from, at)
    requires sorted[i] in world(at).snapshots.subvolumes
    ensures Turns(world, sorted, i + 1, vanished, attempts + [Attempt(sorted[i], at)], from, at)
  {
    var a := Attempt(sorted[i], at);
    WalkStep(sorted, i, vanished, Attempted(attempts));
    OneAttempt(world, attempts, a);
    OneMoreInTurn(world, attempts, a, from);
  }

  function OtherFiles(ukis: map<string, Uki>): map<string, Uki> {
    map file | file in ukis && !IsSnapshotUki(file) :: ukis[file]
  }

  function Names(numbers: set<nat>, name: nat -> string): set<string> {
    set n | n in numbers :: name(n)
  }

  /** How the entries' files are named, and the kernel they boot. */
  datatype Entries = Entries(name: nat -> string, numberOf: string -> nat, kernel: string) {
    ghost predicate Valid() {
      Naming(name, numberOf)
    }

    /** The files of the given snapshots' entries. */
    function Of(numbers: set<nat>): map<string, Uki> {
      map file | file in Names(numbers, name) :: SnapshotUki(numberOf(file), kernel)
    }

    /** The files after building entries for the given snapshots. */
    function With(ukis: map<string, Uki>, built: set<nat>): map<string, Uki> {
      ukis + Of(built)
    }

    lemma OneMore(ukis: map<string, Uki>, built: set<nat>, n: nat)
      requires Valid()
      ensures With(ukis, built + {n}) == With(ukis, built)[name(n) := SnapshotUki(n, kernel)]
    {
      assert Names(built + {n}, name) == Names(built, name) + {name(n)};
    }

    lemma OthersUntouched(before: map<string, Uki>, built: set<nat>)
      requires Valid()
      ensures OtherFiles(With(OtherFiles(before), built)) == OtherFiles(before)
    {
    }
  }

  /** One round of the settling loop: the fingerprint taken before its refresh, the refresh, and
      the fingerprint compared afterwards. */
  datatype Round = Round(from: nat, to: nat, refresh: Refresh)

  predicate SawChange(world: nat -> Instant, round: Round) {
    world(round.from).snapshots != world(round.to).snapshots
  }

  /** Its refresh is postponed exactly when the drive is away as it begins. */
  ghost predicate IsRound(world: nat -> Instant, round: Round, count: nat) {
    && round.from <= round.to
    && (round.refresh.Postponed? <==> !world(round.from).driveReachable)
    && (round.refresh.Refreshed? ==> IsRefresh(world, round.refresh, count, round.from, round.to))
  }

  /** One round after the other. */
  ghost predicate RoundsInTurn(world: nat -> Instant, rounds: seq<Round>, count: nat, from: nat, to: nat) {
    if rounds == [] then from <= to
    else
      var last := rounds[|rounds| - 1];
      last.to <= to && IsRound(world, last, count) && RoundsInTurn(world, rounds[..|rounds| - 1], count, from, last.from)
  }

  lemma {:induction false} OneRoundMore(world: nat -> Instant, rounds: seq<Round>, round: Round, count: nat,
          from: nat, before: nat)
    requires RoundsInTurn(world, rounds, count, from, before) && IsRound(world, round, count) && before <= round.from
    ensures RoundsInTurn(world, rounds + [round], count, from, round.to)
    ensures LastRefreshed(rounds + [round]) == if round.refresh.Refreshed? then Some(round.refresh) else LastRefreshed(rounds)
  {
    var more := rounds + [round];
    assert more[..|more| - 1] == rounds && more[|more| - 1] == round;
    LaterStart(world, rounds, count, from, before, round.from);
  }

  lemma {:induction false} LaterStart(world: nat -> Instant, rounds: seq<Round>, count: nat, from: nat,
          to: nat, later: nat)
    requires RoundsInTurn(world, rounds, count, from, to) && to <= later
    ensures RoundsInTurn(world, rounds, count, from, later)
  {
  }

  /** The last refresh that was not postponed. */
  function LastRefreshed(rounds: seq<Round>): Option<Refresh> {
    if rounds == [] then None
    else if rounds[|rounds| - 1].refresh.Refreshed? then Some(rounds[|rounds| - 1].refresh)
    else LastRefreshed(rounds[..|rounds| - 1])
  }

  /** What a sequence of rounds leaves of the files. */
  function FilesAfter(world: nat -> Instant, entries: Entries, ukis: map<string, Uki>,
          rounds: seq<Round>): map<string, Uki> {
    match LastRefreshed(rounds)
    case None => ukis
    case Some(r) => if r.Refreshed? then entries.With(OtherFiles(ukis), Built(world, r.attempts)) else ukis
  }

  /** The rounds of a finished settling loop. */
  ghost predicate LoopRounds(world: nat -> Instant, rounds: seq<Round>, settled: bool) {
    && 1 <= |rounds| <= MAX_REFRESH_ROUNDS
    && (forall i :: 0 <= i < |rounds| - 1 ==> SawChange(world, rounds[i]))
    && (settled <==> !SawChange(world, rounds[|rounds| - 1]))
    && (!settled ==> |rounds| == MAX_REFRESH_ROUNDS)
  }

  class Manager {
    const world: nat -> Instant
    const entries: Entries
    var now: nat
    var ukis: map<string, Uki>
    var pending: bool

    constructor (world: nat -> Instant, kernel: string, ukis: map<string, Uki>, pending: bool)
      ensures entries.Valid() && now == 0
      ensures this.world == world && this.ukis == ukis && this.pending == pending
      ensures entries == Entries(EntryNames(kernel), EntryNumbers(kernel), kernel)
    {
      this.world := world;
      this.entries := Entries(EntryNames(kernel), EntryNumbers(kernel), kernel);
      this.ukis := ukis;
      this.pending := pending;
      now := 0;
      SnapshotNaming(kernel);
    }

    /** Whatever a command does, the environment moves on meanwhile. */
    method TimePasses(atLeast: nat)
      modifies this`now
      ensures now >= old(now) + atLeast
    {
      var more: nat :| more >= 0;
      now := now + atLeast + more;
    }

    /** `refresh_entries`: with the drive away only the marker is left; otherwise the marker
        goes, every old snapshot entry goes, and the newest snapshots still there when their
        turn comes get one each, unless its build fails. */
    method RefreshEntries(count: nat) returns (r: Refresh)
      requires entries.Valid()
      modifies this
      ensures now >= old(now)
      ensures r.Postponed? <==> !world(old(now)).driveReachable
      ensures r.Postponed? ==> pending && ukis == old(ukis)
      ensures r.Refreshed? ==>
                && !pending && IsRefresh(world, r, count, old(now), now)
                && ukis == entries.With(OtherFiles(old(ukis)), Built(world, r.attempts))
    {
      if !world(now).driveReachable {
        pending := true;
        return Postponed;
      }
      pending := false;
      ukis := OtherFiles(ukis);
      TimePasses(0);
      var listedAt := now;
      var vanished, attempts := BuildEntries(Descending(world(now).snapshots.subvolumes), count);
      var builtAt := now;
      TimePasses(0);
      MissingStays(world, vanished, listedAt, builtAt, now);
      r := Refreshed(listedAt, vanished, attempts);
    }

    /** The loop over the sorted numbers: it stops after `count` attempts. */
    method BuildEntries(sorted: seq<nat>, count: nat) returns (vanished: set<nat>, attempts: seq<Attempt>)
      requires entries.Valid()
      requires IsDescending(sorted) && Members(sorted) == world(now).snapshots.subvolumes
      modifies this`now, this`ukis
      ensures now >= old(now)
      ensures IsRefresh(world, Refreshed(old(now), vanished, attempts), count, old(now), now)
      ensures ukis == entries.With(old(ukis), Built(world, attempts))
    {
      vanished := {};
      attempts := [];
      var i := 0;
      while i < |sorted| && |attempts| < count
        invariant old(now) <= now && |attempts| <= count
        invariant Turns(world, sorted, i, vanished, attempts, old(now), now)
        invariant ukis == entries.With(old(ukis), Built(world, attempts))
      {
        vanished, attempts := TakeTurn(sorted, i, vanished, attempts, old(now), old(ukis));
        i := i + 1;
      }
      WalkEnds(sorted, i, vanished, Attempted(attempts), count);
    }

    /** The turn of one snapshot: skipped when it is gone, built otherwise. */
    method TakeTurn(sorted: seq<nat>, i: nat, vanished: set<nat>, attempts: seq<Attempt>,
                    ghost from: nat, ghost before: map<string, Uki>)
      returns (vanished': set<nat>, attempts': seq<Attempt>)
      requires entries.Valid() && IsDescending(sorted) && i < |sorted| && from <= now
      requires Turns(world, sorted, i, vanished, attempts, from, now)
      requires ukis == entries.With(before, Built(world, attempts))
      modifies this`now, this`ukis
      ensures now >= old(now) && attempts <= attempts' && |attempts'| <= |attempts| + 1
      ensures Turns(world, sorted, i + 1, vanished', attempts', from, now)
      ensures ukis == entries.With(before, Built(world, attempts'))
    {
      TimePasses(0);
      TurnsLast(world, sorted, i, vanished, attempts, from, old(now), now);
      if sorted[i] !in world(now).snapshots.subvolumes {
        TurnIsSkipped(world, sorted, i, vanished, attempts, from, now);
        return vanished + {sorted[i]}, attempts;
      }
      TurnIsTaken(world, sorted, i, vanished, attempts, from, now);
      attempts' := BuildEntry(sorted[i], attempts, before);
      vanished' := vanished;
    }

    method BuildEntry(number: nat, attempts: seq<Attempt>, ghost before: map<string, Uki>)
      returns (attempts': seq<Attempt>)
      requires entries.Valid() && ukis == entries.With(before, Built(world, attempts))
      modifies this`ukis
      ensures attempts' == attempts + [Attempt(number, now)]
      ensures ukis == entries.With(before, Built(world, attempts'))
    {
      attempts' := attempts + [Attempt(number, now)];
      OneAttempt(world, attempts, Attempt(number, now));
      if number !in world(now).unbuildable {
        entries.OneMore(before, Built(world, attempts), number);
        ukis := ukis[entries.name(number) := SnapshotUki(number, entries.kernel)];
      }
    }

    /** `wait_for_snapshots_to_settle`: at most SETTLE_ATTEMPTS waits. When it reports a
        settled directory, two readings a settling period apart were equal. */
    method WaitForSnapshotsToSettle() returns (settled: bool, waits: nat)
      modifies this`now
      ensures 1 <= waits <= SETTLE_ATTEMPTS
      ensures now >= old(now) + waits * SNAPSHOTS_SETTLE_SECONDS
      ensures settled ==> exists t: nat :: old(now) <= t && t + SNAPSHOTS_SETTLE_SECONDS <= now
                                           && world(t).snapshots == world(now).snapshots
      ensures !settled ==> waits == SETTLE_ATTEMPTS
    {
      var previousAt := now;
      waits := 0;
      while waits < SETTLE_ATTEMPTS
        invariant 0 <= waits <= SETTLE_ATTEMPTS
        invariant old(now) <= previousAt <= now
        invariant now >= old(now) + waits * SNAPSHOTS_SETTLE_SECONDS
      {
        TimePasses(SNAPSHOTS_SETTLE_SECONDS);
        waits := waits + 1;
        if world(now).snapshots == world(previousAt).snapshots {
          return true, waits;
        }
        previousAt := now;
      }
      settled := false;
    }

    /** `refresh_entries_until_settled`: refreshes until a round saw no change, at most
        MAX_REFRESH_ROUNDS times. A settled end leaves exactly the entries of the newest
        snapshots there are at that moment whose builds succeeded: all of them, while no
        build fails. */
    method RefreshUntilSettled(count: nat) returns (settled: bool, rounds: seq<Round>)
      requires entries.Valid()
      modifies this
      ensures LoopRounds(world, rounds, settled) && RoundsInTurn(world, rounds, count, old(now), now)
      ensures rounds[|rounds| - 1].to == now
      ensures pending == rounds[|rounds| - 1].refresh.Postponed?
      ensures ukis == FilesAfter(world, entries, old(ukis), rounds)
      ensures OtherFiles(ukis) == OtherFiles(old(ukis))
      ensures var last := rounds[|rounds| - 1];
              settled && last.refresh.Refreshed? && NumbersAreNeverReused(world) && NothingFlickers(world, last.from, now) ==>
                && Attempted(last.refresh.attempts) == Newest(count, world(now).snapshots.subvolumes)
                && (NothingFails(world, last.from, now) ==>
                      ukis == entries.With(OtherFiles(old(ukis)), Newest(count, world(now).snapshots.subvolumes)))
    {
      rounds := [];
      settled := false;
      while |rounds| < MAX_REFRESH_ROUNDS && !settled
        invariant |rounds| <= MAX_REFRESH_ROUNDS && (settled ==> rounds != [])
        invariant forall i :: 0 <= i < |rounds| - 1 ==> SawChange(world, rounds[i])
        invariant rounds != [] ==> (settled <==> !SawChange(world, rounds[|rounds| - 1]))
        invariant RoundsInTurn(world, rounds, count, old(now), now)
        invariant rounds != [] ==> rounds[|rounds| - 1].to == now && pending == rounds[|rounds| - 1].refresh.Postponed?
        invariant ukis == FilesAfter(world, entries, old(ukis), rounds) && OtherFiles(ukis) == OtherFiles(old(ukis))
        decreases MAX_REFRESH_ROUNDS - |rounds|, !settled
      {
        var round := OneRound(count, rounds, old(now), old(ukis));
        rounds := rounds + [round];
        settled := world(round.to).snapshots == world(round.from).snapshots;
      }
      var last := rounds[|rounds| - 1];
      if settled && last.refresh.Refreshed? && NumbersAreNeverReused(world) && NothingFlickers(world, last.from, now) {
        SettledRefresh(world, last.refresh, count, last.from, now);
      }
    }

    /** Waits until the snapshots have settled, and refreshes. */
    method OneRound(count: nat, ghost rounds: seq<Round>, ghost start: nat, ghost before: map<string, Uki>)
      returns (round: Round)
      requires entries.Valid() && RoundsInTurn(world, rounds, count, start, now)
      requires ukis == FilesAfter(world, entries, before, rounds) && OtherFiles(ukis) == OtherFiles(before)
      modifies this
      ensures round.to == now && pending == round.refresh.Postponed?
      ensures RoundsInTurn(world, rounds + [round], count, start, now)
      ensures ukis == FilesAfter(world, entries, before, rounds + [round]) && OtherFiles(ukis) == OtherFiles(before)
    {
      var _, _ := WaitForSnapshotsToSettle();
      var from := now;
      var refresh := RefreshEntries(count);
      round := Round(from, now, refresh);
      OneRoundMore(world, rounds, round, count, start, old(now));
      if refresh.Refreshed? {
        entries.OthersUntouched(before, Built(world, refresh.attempts));
      }
    }
  }

  /** A refresh in a window that saw no change attempts the newest snapshots there are at its
      end, and builds them all while no build fails. */
  lemma SettledRefresh(world: nat -> Instant, r: Refresh, count: nat, from: nat, to: nat)
    requires NumbersAreNeverReused(world) && NothingFlickers(world, from, to)
    requires r.Refreshed? && IsRefresh(world, r, count, from, to)
    requires world(from).snapshots == world(to).snapshots
    ensures Attempted(r.attempts) == Newest(count, world(to).snapshots.subvolumes)
    ensures NothingFails(world, from, to) ==> Built(world, r.attempts) == Newest(count, world(to).snapshots.subvolumes)
  {
    QuietWindow(world, from, r.listedAt, to);
    forall n | n in world(r.listedAt).snapshots.subvolumes
      ensures n !in r.vanished
    {
      forall t: nat | r.listedAt <= t <= to
        ensures n in world(t).snapshots.subvolumes
      {
        QuietWindow(world, from, t, to);
      }
      assert !MissingSometime(world, n, r.listedAt, to);
    }
    assert r.vanished == {};
    assert world(r.listedAt).snapshots.subvolumes - r.vanished == world(to).snapshots.subvolumes;
    if NothingFails(world, from, to) {
      AllBuilt(world, r.attempts, r.listedAt, to);
    }
  }

  /** With a fixed set of snapshots and builds that succeed, a refresh leaves exactly
      min(count, their number) entries, those with the highest numbers. */
  lemma RefreshSelects(world: nat -> Instant, r: Refresh, count: nat, snapshots: set<nat>, from: nat, to: nat)
    requires r.Refreshed? && IsRefresh(world, r, count, from, to)
    requires forall t: nat :: from <= t <= to ==> world(t).snapshots.subvolumes == snapshots
    requires NothingFails(world, from, to)
    ensures Built(world, r.attempts) == Newest(count, snapshots)
    ensures |Built(world, r.attempts)| == if count < |snapshots| then count else |snapshots|
  {
    assert forall n :: n in r.vanished ==> MissingSometime(world, n, r.listedAt, to);
    assert snapshots - r.vanished == snapshots;
    AllBuilt(world, r.attempts, r.listedAt, to);
    NewestIsNewest(count, snapshots);
  }

  /** If fewer than MAX_REFRESH_ROUNDS rounds see a change, the loop settles, after one more
      refresh than there were changed rounds; otherwise it gives up. */
  lemma {:induction false} ChangedRoundsDecide(world: nat -> Instant, rounds: seq<Round>, settled: bool)
    requires LoopRounds(world, rounds, settled)
    ensures ChangedRounds(world, rounds) < MAX_REFRESH_ROUNDS <==> settled
    ensures settled ==> |rounds| == ChangedRounds(world, rounds) + 1
  {
    var n := |rounds| - 1;
    AllChanged(world, rounds[..n]);
    assert rounds == rounds[..n] + [rounds[n]];
  }

  function ChangedRounds(world: nat -> Instant, rounds: seq<Round>): nat {
    if rounds == [] then 0 else
      ChangedRounds(world, rounds[..|rounds| - 1])
      + if SawChange(world, rounds[|rounds| - 1]) then 1 else 0
  }

  lemma {:induction false} AllChanged(world: nat -> Instant, rounds: seq<Round>)
    requires forall i :: 0 <= i < |rounds| ==> SawChange(world, rounds[i])
    ensures ChangedRounds(world, rounds) == |rounds|
  {
    if rounds != [] {
      AllChanged(world, rounds[..|rounds| - 1]);
    }
  }
}
