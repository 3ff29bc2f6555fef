/** The whole life of the snapshot boot entries as a transition system: snapper adds and
    deletes snapshots, the drive comes and goes, the path unit watches only while its service
    is idle, the service repeats its refresh until a fingerprint is stable, and plain refreshes
    (the pacman hook, the catch-up service, the user) run in between. Refreshes are serialised. */
module SnapshotProtocol {
  import opened SnapshotSelection
  import opened SnapshotManager

  /** A round of the settling loop between its two fingerprints. `changed` and `flickered`
      record what happened to the snapshots meanwhile, which the script does not see; `touched`
      says that the second fingerprint shows other times of the info.xml files. */
  datatype Window = Window(round: nat, before: set<nat>, changed: bool, flickered: bool, touched: bool)

  /** snapper-boot-entries.service, running `refresh-settled`. */
  datatype Service =
    | Idle
    | Settling(round: nat)
    | Fingerprinted(w: Window)
    | Opening(w: Window)  // the drive is there, the snapshots are not listed yet
    | Refreshing(w: Window, listed: set<nat>)
    | RefreshDone(w: Window)
    | Ending

  /** A plain `refresh`, then with the list of snapshots it read. */
  datatype Plain = NoPlain | PlainOpening | PlainRefresh(listed: set<nat>)

  /** Why the entries may lag although nothing is left to be done. */
  datatype Excuse =
    | Exhausted  // the last run used up its rounds
    | Flickered  // a snapshot came and went within one window
    | Raced      // the snapshots changed between the last fingerprint and the watch's return
    | Torn       // the drive was pulled while a refresh was writing to it

  datatype State = State(
    snapshots: set<nat>,
    used: set<nat>,          // the numbers snapper has given
    reachable: bool,         // the drive with the ESP is plugged in
    pending: bool,           // the refresh-pending marker
    trigger: bool,           // the path unit saw a change and the service is to start
    service: Service,
    plain: Plain,
    catchUp: bool,           // the udev rule queued the catch-up service
    attempted: set<nat>,     // the snapshots the last refresh tried to build entries for
    failed: set<nat>,        // those of them whose build failed
    entries: set<nat>,       // the snapshots with an entry on the ESP
    excuses: set<Excuse>)

  datatype Action =
    // the environment
    | Create(n: nat)
    | Delete(n: nat)
    | Touch(differs: bool)
    | Plug
    | Unplug
    | BeginPlain
    // the system
    | StartService
    | TakeFingerprint
    | BeginRefresh
    | List
    | EndRefresh(present: set<nat>, failed: set<nat>)
    | CompareFingerprint
    | Rearm
    | StartCatchUp
    | ListPlain
    | EndPlain(present: set<nat>, failed: set<nat>)

  predicate IsSystemAction(a: Action) {
    !(a.Create? || a.Delete? || a.Touch? || a.Plug? || a.Unplug? || a.BeginPlain?)
  }

  predicate RefreshRunning(s: State) {
    s.service.Opening? || s.service.Refreshing? || !s.plain.NoPlain?
  }

  /** What a refresh may end with: it skipped only listed snapshots that are gone by now, and
      the builds that failed are among those of the newest it found. */
  predicate MayEndWith(s: State, listed: set<nat>, present: set<nat>, failed: set<nat>, count: nat) {
    && present <= listed
    && (forall n :: n in listed && n in s.snapshots ==> n in present)
    && (forall n :: n in failed ==> n in Newest(count, present))
  }

  predicate Enabled(s: State, a: Action, count: nat) {
    match a
    case Create(n) => n !in s.used
    case Delete(n) => n in s.snapshots
    case Touch(_) => true
    case Plug => !s.reachable
    case Unplug => s.reachable
    case BeginPlain => !RefreshRunning(s)
    case StartService => s.trigger && s.service.Idle?
    case TakeFingerprint => s.service.Settling?
    case BeginRefresh => s.service.Fingerprinted? && !RefreshRunning(s)
    case List => s.service.Opening?
    case EndRefresh(present, failed) =>
      s.service.Refreshing? && MayEndWith(s, s.service.listed, present, failed, count)
    case CompareFingerprint => s.service.RefreshDone?
    case Rearm => s.service.Ending?
    case StartCatchUp => s.catchUp && !RefreshRunning(s)
    case ListPlain => s.plain.PlainOpening?
    case EndPlain(present, failed) =>
      s.plain.PlainRefresh? && MayEndWith(s, s.plain.listed, present, failed, count)
  }

  /** How a change of the snapshots is noticed: by the path unit when it is watching, by the
      second fingerprint of the running window, or by nobody. */
  function Noticed(s: State, flicker: Window -> bool): State {
    match s.service
    case Idle => s.(trigger := true)
    case Settling(_) => s
    case Fingerprinted(w) => s.(service := Fingerprinted(Changed(w, flicker(w))))
    case Opening(w) => s.(service := Opening(Changed(w, flicker(w))))
    case Refreshing(w, listed) => s.(service := Refreshing(Changed(w, flicker(w)), listed))
    case RefreshDone(w) => s.(service := RefreshDone(Changed(w, flicker(w))))
    case Ending => s.(excuses := s.excuses + {Raced})
  }

  function Changed(w: Window, flicker: bool): Window {
    w.(changed := true, flickered := w.flickered || flicker)
  }

  function Touched(service: Service, differs: bool): Service {
    match service
    case Fingerprinted(w) => Fingerprinted(w.(touched := differs))
    case Opening(w) => Opening(w.(touched := differs))
    case Refreshing(w, listed) => Refreshing(w.(touched := differs), listed)
    case RefreshDone(w) => RefreshDone(w.(touched := differs))
    case _ => service
  }

  /** A refresh drops the marker before it builds anything. */
  function Begun(s: State): State {
    s.(pending := false, excuses := {})
  }

  /** A finished refresh leaves the entries it built. One that was cut short has attempted no
      more than those. */
  function Ended(s: State, present: set<nat>, failed: set<nat>, count: nat): State {
    var built := Newest(count, present) - failed;
    if Torn in s.excuses then s.(attempted := built, failed := {}, entries := built)
    else s.(attempted := Newest(count, present), failed := failed, entries := built)
  }

  function PlainBegun(s: State): State {
    if s.reachable then Begun(s).(plain := PlainOpening) else s.(pending := true)
  }

  function Do(s: State, a: Action, count: nat): State
    requires Enabled(s, a, count)
  {
    match a
    case Create(n) =>
      Noticed(s, (w: Window) => false).(snapshots := s.snapshots + {n}, used := s.used + {n})
    case Delete(n) =>
      Noticed(s, (w: Window) => n !in w.before).(snapshots := s.snapshots - {n})
    case Touch(differs) => s.(service := Touched(s.service, differs))
    case Plug => s.(reachable := true, catchUp := true)
    case Unplug =>
      s.(reachable := false, excuses := if RefreshRunning(s) then s.excuses + {Torn} else s.excuses)
    case BeginPlain => PlainBegun(s)
    case StartService => s.(trigger := false, service := Settling(1))
    case TakeFingerprint =>
      s.(service := Fingerprinted(Window(s.service.round, s.snapshots, false, false, false)))
    case BeginRefresh =>
      if s.reachable then Begun(s).(service := Opening(s.service.w))
      else s.(pending := true, service := RefreshDone(s.service.w))
    case List => s.(service := Refreshing(s.service.w, s.snapshots))
    case EndRefresh(present, failed) =>
      Ended(s, present, failed, count).(service := RefreshDone(s.service.w))
    case CompareFingerprint =>
      var w := s.service.w;
      if s.snapshots == w.before && !w.touched then
        s.(service := Ending, excuses := if w.flickered then s.excuses + {Flickered} else s.excuses)
      else if w.round < MAX_REFRESH_ROUNDS then s.(service := Settling(w.round + 1))
      else s.(service := Ending, excuses := s.excuses + {Exhausted})
    case Rearm => s.(service := Idle)
    case StartCatchUp => (if s.pending then PlainBegun(s) else s).(catchUp := false)
    case ListPlain => s.(plain := PlainRefresh(s.snapshots))
    case EndPlain(present, failed) => Ended(s, present, failed, count).(plain := NoPlain)
  }

  /** A run: each action enabled where it happens. */
  predicate IsRun(s: State, run: seq<Action>, count: nat)
    decreases |run|
  {
    run == [] || (Enabled(s, run[0], count) && IsRun(Do(s, run[0], count), run[1..], count))
  }

  function After(s: State, run: seq<Action>, count: nat): State
    requires IsRun(s, run, count)
    decreases |run|
  {
    if run == [] then s else After(Do(s, run[0], count), run[1..], count)
  }

  /** A freshly installed system: no snapshots, no entries, the watch armed. */
  function Start(reachable: bool): State {
    State({}, {}, reachable, false, false, Idle, NoPlain, false, {}, {}, {}, {})
  }

  // ---- what every run keeps ----

  predicate UpToDate(s: State, count: nat) {
    s.attempted == Newest(count, s.snapshots)
  }

  /** The service is still going to refresh, or will find that it has to. */
  predicate ServiceWillSee(s: State) {
    || s.service.Settling? || s.service.Fingerprinted?
    || (s.service.RefreshDone? && s.service.w.changed)
  }

  /** Something is under way that will bring the entries up to date, or an excuse holds. */
  predicate Covered(s: State) {
    || s.trigger || s.pending || s.excuses != {}
    || RefreshRunning(s) || ServiceWillSee(s)
  }

  /** A round is between its two fingerprints. */
  predicate InWindow(service: Service) {
    service.Fingerprinted? || service.Opening? || service.Refreshing? || service.RefreshDone?
  }

  predicate NumbersAreUsed(s: State) {
    && (forall n :: n in s.snapshots ==> n in s.used)
    && (InWindow(s.service) ==> forall n :: n in s.service.w.before ==> n in s.used)
  }

  /** The script's fingerprint test misses a change only if a snapshot flickered. */
  predicate WindowIsHonest(w: Window, snapshots: set<nat>) {
    && 1 <= w.round <= MAX_REFRESH_ROUNDS
    && (!w.changed ==> snapshots == w.before)
    && (w.changed && snapshots == w.before ==> w.flickered)
  }

  predicate Inv(s: State, count: nat) {
    && NumbersAreUsed(s)
    && (s.service.Settling? ==> 1 <= s.service.round <= MAX_REFRESH_ROUNDS)
    && (InWindow(s.service) ==> WindowIsHonest(s.service.w, s.snapshots))
    && !((s.service.Opening? || s.service.Refreshing?) && !s.plain.NoPlain?)
    && (s.pending && s.reachable ==> s.catchUp)
    && s.entries == s.attempted - s.failed
    && (UpToDate(s, count) || Covered(s))
    && (s.service.Refreshing? && s.excuses == {} ==>
          s.service.listed == s.snapshots || s.service.w.changed)
    && (s.plain.PlainRefresh? && s.excuses == {} ==>
          s.plain.listed == s.snapshots || s.trigger || ServiceWillSee(s))
  }

  lemma StartSatisfiesInv(reachable: bool, count: nat)
    ensures Inv(Start(reachable), count)
  {
    assert Newest(count, {}) == {};
  }

  lemma CreationIsHonest(w: Window, snapshots: set<nat>, n: nat)
    requires WindowIsHonest(w, snapshots) && n !in w.before && n !in snapshots
    ensures WindowIsHonest(Changed(w, false), snapshots + {n})
  {
    assert n in snapshots + {n};
  }

  lemma CreationInWindow(s: State, n: nat, count: nat)
    requires Inv(s, count) && n !in s.used && InWindow(s.service)
    ensures Inv(Do(s, Create(n), count), count)
  {
    CreationIsHonest(s.service.w, s.snapshots, n);
  }

  lemma CreationIsSeen(s: State, n: nat, count: nat)
    requires Inv(s, count) && n !in s.used
    ensures Inv(Do(s, Create(n), count), count)
  {
    if InWindow(s.service) {
      CreationInWindow(s, n, count);
    }
  }

  lemma TouchKeepsInv(s: State, differs: bool, count: nat)
    requires Inv(s, count)
    ensures Inv(Do(s, Touch(differs), count), count)
  {
  }

  lemma SnapshotsAreListed(s: State, count: nat)
    requires Inv(s, count) && Enabled(s, List, count)
    ensures Inv(Do(s, List, count), count)
  {
  }

  lemma PlainIsListed(s: State, count: nat)
    requires Inv(s, count) && Enabled(s, ListPlain, count)
    ensures Inv(Do(s, ListPlain, count), count)
  {
  }

  lemma DeletionIsHonest(w: Window, snapshots: set<nat>, n: nat)
    requires WindowIsHonest(w, snapshots) && n in snapshots
    ensures WindowIsHonest(Changed(w, n !in w.before), snapshots - {n})
  {
    assert n !in snapshots - {n};
  }

  lemma DeletionInWindow(s: State, n: nat, count: nat)
    requires Inv(s, count) && n in s.snapshots && InWindow(s.service)
    ensures Inv(Do(s, Delete(n), count), count)
  {
    DeletionIsHonest(s.service.w, s.snapshots, n);
  }

  lemma DeletionIsSeen(s: State, n: nat, count: nat)
    requires Inv(s, count) && n in s.snapshots
    ensures Inv(Do(s, Delete(n), count), count)
  {
    if InWindow(s.service) {
      DeletionInWindow(s, n, count);
    }
  }

  /** A refresh whose list is still current leaves the entries up to date. */
  lemma RefreshEnds(s: State, listed: set<nat>, present: set<nat>, failed: set<nat>, count: nat)
    requires MayEndWith(s, listed, present, failed, count)
    ensures listed == s.snapshots && s.excuses == {} ==> UpToDate(Ended(s, present, failed, count), count)
    ensures var e := Ended(s, present, failed, count); e.entries == e.attempted - e.failed
  {
    if listed == s.snapshots {
      assert present == s.snapshots;
    }
  }

  lemma RefreshEndKeepsInv(s: State, present: set<nat>, failed: set<nat>, count: nat)
    requires Inv(s, count) && Enabled(s, EndRefresh(present, failed), count)
    ensures Inv(Do(s, EndRefresh(present, failed), count), count)
  {
    RefreshEnds(s, s.service.listed, present, failed, count);
  }

  lemma PlainEndKeepsInv(s: State, present: set<nat>, failed: set<nat>, count: nat)
    requires Inv(s, count) && Enabled(s, EndPlain(present, failed), count)
    ensures Inv(Do(s, EndPlain(present, failed), count), count)
  {
    RefreshEnds(s, s.plain.listed, present, failed, count);
  }

  lemma ServiceStarts(s: State, count: nat)
    requires Inv(s, count) && Enabled(s, StartService, count)
    ensures Inv(Do(s, StartService, count), count)
  {
  }

  lemma FingerprintIsTaken(s: State, count: nat)
    requires Inv(s, count) && Enabled(s, TakeFingerprint, count)
    ensures Inv(Do(s, TakeFingerprint, count), count)
  {
  }

  lemma RefreshBegins(s: State, count: nat)
    requires Inv(s, count) && Enabled(s, BeginRefresh, count)
    ensures Inv(Do(s, BeginRefresh, count), count)
  {
  }

  lemma EqualFingerprintsEndTheRun(s: State, count: nat)
    requires Inv(s, count) && Enabled(s, CompareFingerprint, count)
    requires s.snapshots == s.service.w.before && !s.service.w.touched
    ensures Inv(Do(s, CompareFingerprint, count), count)
  {
    assert s.service.w.changed ==> s.service.w.flickered;
  }

  lemma OtherFingerprintsGoOn(s: State, count: nat)
    requires Inv(s, count) && Enabled(s, CompareFingerprint, count)
    requires s.snapshots != s.service.w.before || s.service.w.touched
    ensures Inv(Do(s, CompareFingerprint, count), count)
  {
  }

  lemma FingerprintIsCompared(s: State, count: nat)
    requires Inv(s, count) && Enabled(s, CompareFingerprint, count)
    ensures Inv(Do(s, CompareFingerprint, count), count)
  {
    if s.snapshots == s.service.w.before && !s.service.w.touched {
      EqualFingerprintsEndTheRun(s, count);
    } else {
      OtherFingerprintsGoOn(s, count);
    }
  }

  lemma WatchIsRearmed(s: State, count: nat)
    requires Inv(s, count) && Enabled(s, Rearm, count)
    ensures Inv(Do(s, Rearm, count), count)
  {
  }

  lemma CatchUpStarts(s: State, count: nat)
    requires Inv(s, count) && Enabled(s, StartCatchUp, count)
    ensures Inv(Do(s, StartCatchUp, count), count)
  {
  }

  lemma DriveComesBack(s: State, count: nat)
    requires Inv(s, count) && Enabled(s, Plug, count)
    ensures Inv(Do(s, Plug, count), count)
  {
  }

  lemma PlainRefreshBegins(s: State, count: nat)
    requires Inv(s, count) && Enabled(s, BeginPlain, count)
    ensures Inv(Do(s, BeginPlain, count), count)
  {
  }

  lemma UnplugKeepsInv(s: State, count: nat)
    requires Inv(s, count) && Enabled(s, Unplug, count)
    ensures Inv(Do(s, Unplug, count), count)
  {
    assert RefreshRunning(s) ==> Torn in Do(s, Unplug, count).excuses;
  }

  /** Every action keeps the invariant. */
  lemma StepKeepsInv(s: State, a: Action, count: nat)
    requires Inv(s, count) && Enabled(s, a, count)
    ensures Inv(Do(s, a, count), count)
  {
    match a
    case Create(n) => CreationIsSeen(s, n, count);
    case Delete(n) => DeletionIsSeen(s, n, count);
    case Touch(differs) => TouchKeepsInv(s, differs, count);
    case Plug => DriveComesBack(s, count);
    case Unplug => UnplugKeepsInv(s, count);
    case BeginPlain => PlainRefreshBegins(s, count);
    case StartService => ServiceStarts(s, count);
    case TakeFingerprint => FingerprintIsTaken(s, count);
    case BeginRefresh => RefreshBegins(s, count);
    case List => SnapshotsAreListed(s, count);
    case EndRefresh(present, failed) => RefreshEndKeepsInv(s, present, failed, count);
    case CompareFingerprint => FingerprintIsCompared(s, count);
    case Rearm => WatchIsRearmed(s, count);
    case StartCatchUp => CatchUpStarts(s, count);
    case ListPlain => PlainIsListed(s, count);
    case EndPlain(present, failed) => PlainEndKeepsInv(s, present, failed, count);
  }

  lemma {:induction false} RunKeepsInv(s: State, run: seq<Action>, count: nat)
    requires Inv(s, count) && IsRun(s, run, count)
    ensures Inv(After(s, run, count), count)
    decreases |run|
  {
    if run != [] {
      StepKeepsInv(s, run[0], count);
      RunKeepsInv(Do(s, run[0], count), run[1..], count);
    }
  }

  /** Nothing is running and nothing is queued. */
  predicate Quiescent(s: State) {
    s.service.Idle? && s.plain.NoPlain? && !s.trigger && !s.catchUp
  }

  /** Safety of the boot entries, over every interleaving: entries that lag behind the
      snapshots mean that something is still going to run, that the marker is there, or one of
      the named excuses; so a system at rest with its drive has the entries of exactly those of
      the newest snapshots whose build did not fail in the last refresh, all of them when none
      did. */
  lemma {:induction false} EntriesFollowSnapshots(reachable: bool, run: seq<Action>, count: nat)
    requires IsRun(Start(reachable), run, count)
    ensures var s := After(Start(reachable), run, count);
            && (UpToDate(s, count) || Covered(s))
            && (Quiescent(s) && s.reachable && s.excuses == {} ==>
                  && UpToDate(s, count) && !s.pending
                  && s.entries == Newest(count, s.snapshots) - s.failed
                  && (s.failed == {} ==> s.entries == Newest(count, s.snapshots)))
            && (Quiescent(s) && !UpToDate(s, count) && s.excuses == {} ==> s.pending && !s.reachable)
  {
    StartSatisfiesInv(reachable, count);
    RunKeepsInv(Start(reachable), run, count);
  }

  // ---- the system comes to rest, and then the entries are right ----

  /** Rounds are counted from one to MAX_REFRESH_ROUNDS. */
  predicate RoundsInRange(service: Service) {
    match service
    case Settling(round) => 1 <= round <= MAX_REFRESH_ROUNDS
    case Fingerprinted(w) => 1 <= w.round <= MAX_REFRESH_ROUNDS
    case Opening(w) => 1 <= w.round <= MAX_REFRESH_ROUNDS
    case Refreshing(w, _) => 1 <= w.round <= MAX_REFRESH_ROUNDS
    case RefreshDone(w) => 1 <= w.round <= MAX_REFRESH_ROUNDS
    case _ => true
  }

  function ServiceWork(service: Service): nat
    requires RoundsInRange(service)
  {
    match service
    case Idle => 0
    case Ending => 1
    case Settling(round) => 5 * (MAX_REFRESH_ROUNDS + 1 - round) + 1
    case Fingerprinted(w) => 5 * (MAX_REFRESH_ROUNDS + 1 - w.round)
    case Opening(w) => 5 * (MAX_REFRESH_ROUNDS + 1 - w.round) - 1
    case Refreshing(w, _) => 5 * (MAX_REFRESH_ROUNDS + 1 - w.round) - 2
    case RefreshDone(w) => 5 * (MAX_REFRESH_ROUNDS + 1 - w.round) - 3
  }

  /** An upper bound on the steps the system can take on its own. */
  function Work(s: State): nat
    requires RoundsInRange(s.service)
  {
    (if s.trigger then 5 * MAX_REFRESH_ROUNDS + 2 else 0)
    + (if s.catchUp then 3 else 0)
    + (match s.plain case NoPlain => 0 case PlainOpening => 2 case PlainRefresh(_) => 1)
    + ServiceWork(s.service)
  }

  lemma ServiceStepUsesWork(s: State, a: Action, count: nat)
    requires RoundsInRange(s.service) && Enabled(s, a, count)
    requires a.TakeFingerprint? || a.BeginRefresh? || a.List? || a.CompareFingerprint? || a.Rearm? || a.EndRefresh?
    ensures var s' := Do(s, a, count);
            && RoundsInRange(s'.service) && ServiceWork(s'.service) < ServiceWork(s.service)
            && s'.trigger == s.trigger && s'.catchUp == s.catchUp && s'.plain == s.plain
  {
  }

  lemma WorkFalls(s: State, a: Action, count: nat)
    requires RoundsInRange(s.service) && Enabled(s, a, count) && IsSystemAction(a)
    ensures RoundsInRange(Do(s, a, count).service) && Work(Do(s, a, count)) < Work(s)
  {
    var s' := Do(s, a, count);
    match a
    case StartService => assert s'.service == Settling(1) && s.trigger && !s'.trigger;
    case StartCatchUp => assert s'.service == s.service && s.catchUp && !s'.catchUp;
    case ListPlain => assert s'.service == s.service && s.plain.PlainOpening? && s'.plain.PlainRefresh?;
    case EndPlain(_, _) => assert s'.service == s.service && s.plain.PlainRefresh? && s'.plain.NoPlain?;
    case _ => ServiceStepUsesWork(s, a, count);
  }

  lemma SystemStepsUseUpWork(s: State, a: Action, count: nat)
    requires Inv(s, count) && Enabled(s, a, count) && IsSystemAction(a)
    ensures Inv(Do(s, a, count), count) && Work(Do(s, a, count)) < Work(s)
  {
    StepKeepsInv(s, a, count);
    WorkFalls(s, a, count);
  }

  predicate SystemOnly(run: seq<Action>) {
    forall i :: 0 <= i < |run| ==> IsSystemAction(run[i])
  }

  lemma {:induction false} SystemRunsAreShort(s: State, run: seq<Action>, count: nat)
    requires Inv(s, count) && IsRun(s, run, count) && SystemOnly(run)
    ensures Inv(After(s, run, count), count)
    ensures |run| + Work(After(s, run, count)) <= Work(s)
    decreases |run|
  {
    if run != [] {
      SystemStepsUseUpWork(s, run[0], count);
      SystemRunsAreShort(Do(s, run[0], count), run[1..], count);
    }
  }

  /** A system that is not at rest can always take a step. */
  lemma SystemNeverSticks(s: State, count: nat)
    requires Inv(s, count) && !Quiescent(s)
    ensures exists a :: IsSystemAction(a) && Enabled(s, a, count)
  {
    if s.plain.PlainRefresh? {
      assert Enabled(s, EndPlain(s.plain.listed, {}), count);
    } else if s.plain.PlainOpening? {
      assert Enabled(s, ListPlain, count);
    } else if s.service.Opening? {
      assert Enabled(s, List, count);
    } else if s.service.Refreshing? {
      assert Enabled(s, EndRefresh(s.service.listed, {}), count);
    } else if s.catchUp {
      assert Enabled(s, StartCatchUp, count);
    } else if s.trigger && s.service.Idle? {
      assert Enabled(s, StartService, count);
    } else if s.service.Settling? {
      assert Enabled(s, TakeFingerprint, count);
    } else if s.service.Fingerprinted? {
      assert Enabled(s, BeginRefresh, count);
    } else if s.service.RefreshDone? {
      assert Enabled(s, CompareFingerprint, count);
    } else {
      assert Enabled(s, Rearm, count);
    }
  }

  predicate Still(w: Window) {
    !w.changed && !w.flickered && !w.touched
  }

  /** Undisturbed since a change was seen: no excuse survives the service's next refresh. */
  predicate Undisturbed(s: State) {
    s.reachable
    && match s.service
       case Idle => s.trigger || s.excuses == {}
       case Settling(_) => true
       case Fingerprinted(w) => Still(w)
       case Opening(w) => Still(w) && s.excuses == {}
       case Refreshing(w, _) => Still(w) && s.excuses == {}
       case RefreshDone(w) => Still(w) && s.excuses == {}
       case Ending => s.excuses == {}
  }

  lemma UndisturbedStep(s: State, a: Action, count: nat)
    requires Inv(s, count) && Undisturbed(s) && Enabled(s, a, count) && IsSystemAction(a)
    ensures Undisturbed(Do(s, a, count))
  {
  }

  lemma {:induction false} UndisturbedRuns(s: State, run: seq<Action>, count: nat)
    requires Inv(s, count) && Undisturbed(s) && IsRun(s, run, count) && SystemOnly(run)
    ensures Inv(After(s, run, count), count) && Undisturbed(After(s, run, count))
    decreases |run|
  {
    if run != [] {
      StepKeepsInv(s, run[0], count);
      UndisturbedStep(s, run[0], count);
      UndisturbedRuns(Do(s, run[0], count), run[1..], count);
    }
  }

  /** After a change seen by the watch, if the environment then leaves the system alone and the
      drive is in, the system comes to rest within a bounded number of steps, whatever excuses
      there were, and at rest the entries are up to date. */
  lemma {:induction false} ChangesAreCaughtUp(s: State, run: seq<Action>, count: nat)
    requires Inv(s, count) && s.reachable && s.trigger && s.service.Idle?
    requires IsRun(s, run, count) && SystemOnly(run)
    ensures |run| <= 5 * MAX_REFRESH_ROUNDS + 7
    ensures var e := After(s, run, count);
            if Quiescent(e) then
              UpToDate(e, count) && e.excuses == {} && e.entries == Newest(count, e.snapshots) - e.failed
            else exists a :: IsSystemAction(a) && Enabled(e, a, count)
  {
    SystemRunsAreShort(s, run, count);
    UndisturbedRuns(s, run, count);
    if !Quiescent(After(s, run, count)) {
      SystemNeverSticks(After(s, run, count), count);
    }
  }

  // ---- each excuse is real: a run that ends at rest, drive in, with stale entries ----

  predicate EndsStale(run: seq<Action>, count: nat, excuse: Excuse) {
    && IsRun(Start(true), run, count)
    && var s := After(Start(true), run, count);
       && Quiescent(s) && s.reachable && !UpToDate(s, count) && s.excuses == {excuse}
       && s.failed == {} && s.entries != Newest(count, s.snapshots)
  }

  /** Runs compose. */
  lemma {:induction false} RunsCompose(s: State, first: seq<Action>, second: seq<Action>, count: nat)
    requires IsRun(s, first, count) && IsRun(After(s, first, count), second, count)
    ensures IsRun(s, first + second, count)
    ensures After(s, first + second, count) == After(After(s, first, count), second, count)
    decreases |first|
  {
    if first == [] {
      assert first + second == second;
    } else {
      assert (first + second)[0] == first[0] && (first + second)[1..] == first[1..] + second;
      RunsCompose(Do(s, first[0], count), first[1..], second, count);
    }
  }

  lemma {:induction false} OneStep(s: State, a: Action, count: nat, s': State)
    requires Enabled(s, a, count) && s' == Do(s, a, count)
    ensures IsRun(s, [a], count) && After(s, [a], count) == s'
  {
    assert [a][1..] == [];
    assert IsRun(s', [], count) && After(s', [], count) == s';
    assert IsRun(s, [a], count);
  }

  /** One more action at the end of a run. */
  lemma Then(run: seq<Action>, s: State, a: Action, count: nat) returns (run': seq<Action>, s': State)
    requires IsRun(Start(true), run, count) && After(Start(true), run, count) == s
    requires Enabled(s, a, count)
    ensures IsRun(Start(true), run', count) && After(Start(true), run', count) == s'
    ensures s' == Do(s, a, count)
  {
    run' := run + [a];
    s' := Do(s, a, count);
    OneStep(s, a, count, s');
    RunsCompose(Start(true), run, [a], count);
  }

  lemma NewestHasTheLast(count: nat, s: set<nat>, n: nat)
    requires count >= 1 && n in s && forall m :: m in s ==> m <= n
    ensures n in Newest(count, s)
  {
    assert Newer(n, s) == {};
  }

  /** The first snapshot is taken and its refresh is about to list the snapshots. */
  lemma FirstSnapshot(count: nat) returns (run: seq<Action>, s: State)
    ensures IsRun(Start(true), run, count) && After(Start(true), run, count) == s
    ensures s == Start(true).(snapshots := {1}, used := {1},
                              service := Fingerprinted(Window(1, {1}, false, false, false)))
  {
    run, s := Then([], Start(true), Create(1), count);
    assert s.snapshots == {1} && s.used == {1};
    run, s := Then(run, s, StartService, count);
    run, s := Then(run, s, TakeFingerprint, count);
  }

  /** The drive is pulled within the first refresh. */
  lemma TornRefresh(count: nat) returns (run: seq<Action>, s: State)
    ensures IsRun(Start(true), run, count) && After(Start(true), run, count) == s
    ensures s == Start(true).(snapshots := {1}, used := {1}, reachable := false, excuses := {Torn},
                              service := RefreshDone(Window(1, {1}, false, false, false)))
  {
    run, s := FirstSnapshot(count);
    run, s := Then(run, s, BeginRefresh, count);
    run, s := Then(run, s, List, count);
    run, s := Then(run, s, Unplug, count);
    run, s := Then(run, s, EndRefresh({1}, Newest(count, {1})), count);
  }

  lemma PullingTheDriveLosesEntries(count: nat) returns (run: seq<Action>)
    requires count >= 1
    ensures EndsStale(run, count, Torn)
  {
    var s;
    run, s := TornRefresh(count);
    run, s := Then(run, s, CompareFingerprint, count);
    run, s := Then(run, s, Rearm, count);
    run, s := Then(run, s, Plug, count);
    run, s := Then(run, s, StartCatchUp, count);
    NewestHasTheLast(count, s.snapshots, 1);
  }

  /** The first refresh ends as it should. */
  lemma FirstRefresh(count: nat) returns (run: seq<Action>, s: State)
    ensures IsRun(Start(true), run, count) && After(Start(true), run, count) == s
    ensures s == Start(true).(snapshots := {1}, used := {1}, service := Ending,
                              attempted := Newest(count, {1}), entries := Newest(count, {1}))
  {
    run, s := FirstSnapshot(count);
    run, s := Then(run, s, BeginRefresh, count);
    run, s := Then(run, s, List, count);
    run, s := Then(run, s, EndRefresh({1}, {}), count);
    run, s := Then(run, s, CompareFingerprint, count);
  }

  lemma ChangesBeforeTheWatchReturnsAreLost(count: nat) returns (run: seq<Action>)
    requires count >= 1
    ensures EndsStale(run, count, Raced)
  {
    var s;
    run, s := FirstRefresh(count);
    run, s := Then(run, s, Create(2), count);
    run, s := Then(run, s, Rearm, count);
    NewestHasTheLast(count, s.snapshots, 2);
    assert 2 !in s.attempted;
  }

  /** A second snapshot comes before the refresh lists the snapshots and goes before it ends. */
  lemma FlickeredRefresh(count: nat) returns (run: seq<Action>, s: State)
    ensures IsRun(Start(true), run, count) && After(Start(true), run, count) == s
    ensures s == Start(true).(snapshots := {1}, used := {1, 2},
                              service := RefreshDone(Window(1, {1}, true, true, false)),
                              attempted := Newest(count, {1, 2}), entries := Newest(count, {1, 2}))
  {
    run, s := FirstSnapshot(count);
    run, s := Then(run, s, Create(2), count);
    assert s.snapshots == {1, 2};
    run, s := Then(run, s, BeginRefresh, count);
    run, s := Then(run, s, List, count);
    run, s := Then(run, s, Delete(2), count);
    run, s := Then(run, s, EndRefresh({1, 2}, {}), count);
    assert s.snapshots == {1};
  }

  lemma FlickeringSnapshotsKeepEntries(count: nat) returns (run: seq<Action>)
    requires count >= 1
    ensures EndsStale(run, count, Flickered)
  {
    var s;
    run, s := FlickeredRefresh(count);
    run, s := Then(run, s, CompareFingerprint, count);
    run, s := Then(run, s, Rearm, count);
    NewestHasTheLast(count, {1, 2}, 2);
    assert 2 in s.attempted;
  }

  /** A refresh that reads its list just before another snapshot is taken. */
  lemma BusyRefresh(run: seq<Action>, s: State, n: nat, count: nat) returns (run': seq<Action>, s': State)
    requires IsRun(Start(true), run, count) && After(Start(true), run, count) == s
    requires s.service.Settling? && s.plain.NoPlain? && s.reachable && n !in s.used
    ensures IsRun(Start(true), run', count) && After(Start(true), run', count) == s'
    ensures s' == s.(snapshots := s.snapshots + {n}, used := s.used + {n}, pending := false, excuses := {},
                     service := RefreshDone(Window(s.service.round, s.snapshots, true, false, false)), failed := {},
                     attempted := Newest(count, s.snapshots), entries := Newest(count, s.snapshots))
  {
    run', s' := Then(run, s, TakeFingerprint, count);
    run', s' := Then(run', s', BeginRefresh, count);
    run', s' := Then(run', s', List, count);
    run', s' := Then(run', s', Create(n), count);
    run', s' := Then(run', s', EndRefresh(s.snapshots, {}), count);
  }

  /** The round around such a refresh sees a change, and another round follows, if any is left. */
  lemma BusyRound(run: seq<Action>, s: State, n: nat, count: nat) returns (run': seq<Action>, s': State)
    requires IsRun(Start(true), run, count) && After(Start(true), run, count) == s
    requires Inv(s, count) && s.service.Settling? && s.plain.NoPlain? && s.reachable
    requires forall m :: m in s.used ==> m < n
    ensures IsRun(Start(true), run', count) && After(Start(true), run', count) == s'
    ensures Inv(s', count) && s'.plain.NoPlain? && s'.reachable && s'.trigger == s.trigger && s'.catchUp == s.catchUp
    ensures s'.service == if s.service.round < MAX_REFRESH_ROUNDS then Settling(s.service.round + 1) else Ending
    ensures s'.service.Ending? ==> s'.excuses == {Exhausted}
    ensures n in s'.snapshots && (forall m :: m in s'.used ==> m <= n)
    ensures n !in s'.attempted && s'.failed == {}
  {
    run', s' := BusyRefresh(run, s, n, count);
    assert n in s'.snapshots && n !in s.snapshots;
    run', s' := Then(run', s', CompareFingerprint, count);
    StartSatisfiesInv(true, count);
    RunKeepsInv(Start(true), run', count);
  }

  /** Busy rounds until none is left. */
  lemma {:induction false} BusyRounds(run: seq<Action>, s: State, n: nat, count: nat)
    returns (run': seq<Action>, s': State, last: nat)
    requires IsRun(Start(true), run, count) && After(Start(true), run, count) == s
    requires Inv(s, count) && s.service.Settling? && s.plain.NoPlain? && s.reachable
    requires forall m :: m in s.used ==> m < n
    ensures IsRun(Start(true), run', count) && After(Start(true), run', count) == s'
    ensures Inv(s', count) && s'.service.Ending? && s'.plain.NoPlain? && s'.reachable
    ensures s'.trigger == s.trigger && s'.catchUp == s.catchUp && s'.excuses == {Exhausted}
    ensures last in s'.snapshots && (forall m :: m in s'.used ==> m <= last)
    ensures last !in s'.attempted && s'.failed == {}
    decreases MAX_REFRESH_ROUNDS - s.service.round
  {
    run', s' := BusyRound(run, s, n, count);
    last := n;
    if s'.service.Settling? {
      run', s', last := BusyRounds(run', s', n + 1, count);
    }
  }

  lemma EndlessChangesExhaustTheRounds(count: nat) returns (run: seq<Action>)
    requires count >= 1
    ensures EndsStale(run, count, Exhausted)
  {
    var s, last;
    run, s := Then([], Start(true), Create(1), count);
    run, s := Then(run, s, StartService, count);
    StartSatisfiesInv(true, count);
    RunKeepsInv(Start(true), run, count);
    run, s, last := BusyRounds(run, s, 2, count);
    run, s := Then(run, s, Rearm, count);
    NewestHasTheLast(count, s.snapshots, last);
  }

  /** A refresh as the script carries it out, from its list to its end, is one this system
      allows, and the entries it leaves are those the script built. */
  lemma ScriptRefreshFits(world: nat -> Instant, r: Refresh, s: State, from: nat, end: nat, count: nat)
    requires r.Refreshed? && IsRefresh(world, r, count, from, end) && NumbersAreNeverReused(world)
    requires s.snapshots == world(end).snapshots.subvolumes
    ensures var listed := world(r.listedAt).snapshots.subvolumes;
            var failed := Attempted(r.attempts) - Built(world, r.attempts);
            && MayEndWith(s, listed, listed - r.vanished, failed, count)
            && Ended(s, listed - r.vanished, failed, count).entries == Built(world, r.attempts)
  {
    var listed := world(r.listedAt).snapshots.subvolumes;
    forall n | n in listed && n in s.snapshots
      ensures n !in r.vanished
    {
      assert !MissingSometime(world, n, r.listedAt, end);
    }
    BuiltWereAttempted(world, r.attempts);
  }
}
