/** The staging and restore steps, and a whole migrating installation. */
module MigrationSteps {
  import opened Text
  import opened Trees
  import opened Machine
  import opened Plans
  import opened Storage
  import opened MountOrder
  import opened UsbBoot
  import opened Migration

  /** The volume the old system's header opens. */
  function OldVolume(s: State): Volume {
    if HeaderOn(s.disk).Some? then VolumeOf(s, HeaderOn(s.disk).value.key) else Blank
  }

  predicate OldOpens(p: Plan, s: State) {
    HeaderOn(s.disk).Some? && HeaderOn(s.disk).value.password == p.oldPassword && OldVolume(s).Btrfs?
  }

  /** No command has written the target disk. */
  predicate DiskUntouched(s: State, t: State) {
    t.disk == s.disk && t.volumes == s.volumes && t.shows == s.shows
  }

  class MigrationStagingStepExecutor {
    const plan: Plan
    const m: Machine
    /** What `du` and `df` print. */
    const homeMb: nat
    const pathsMb: seq<nat>
    const freeMb: nat

    constructor (plan: Plan, m: Machine, homeMb: nat, pathsMb: seq<nat>, freeMb: nat)
      requires |pathsMb| == |plan.additional|
      ensures this.plan == plan && this.m == m
      ensures this.homeMb == homeMb && this.pathsMb == pathsMb && this.freeMb == freeMb
    {
      this.plan := plan;
      this.m := m;
      this.homeMb := homeMb;
      this.pathsMb := pathsMb;
      this.freeMb := freeMb;
    }

    ghost predicate Enough() {
      RequiredMb(plan, homeMb, pathsMb) <= freeMb
    }

    method EnsureStagingSpace() returns (r: Step)
      ensures r == if Enough() then Done else Raised
    {
      var required := STAGING_HEADROOM_MB;
      if plan.preserveHome {
        required := required + homeMb;
      }
      var i := 0;
      while i < |pathsMb|
        invariant 0 <= i <= |pathsMb|
        invariant required == STAGING_HEADROOM_MB + (if plan.preserveHome then homeMb else 0) + Sum(pathsMb[..i])
      {
        assert pathsMb[..i + 1][..i] == pathsMb[..i];
        required := required + pathsMb[i];
        i := i + 1;
      }
      assert pathsMb[..i] == pathsMb;
      return if freeMb < required then Raised else Done;
    }

    /** Nothing but the staging changes, and it changes only once the old system is open and
        the space is there; a staging that ends well is exactly the copy of the old volume. */
    method Execute() returns (r: Step)
      requires m.Valid()
      modifies m
      ensures m.st == old(m.st).(oldroot := m.st.oldroot, staging := m.st.staging)
      ensures m.st.staging != old(m.st.staging) ==> old(OldOpens(plan, m.st)) && Enough()
      ensures r.Done? ==> old(OldOpens(plan, m.st)) && Enough()
      ensures r.Done? ==> m.st.staging == Some(StagedFiles(plan, old(OldVolume(m.st))))
      ensures r.Done? ==> OnlyAskedStaged(plan, old(OldVolume(m.st)), m.st.staging.value)
      ensures r.Done? && old(PathsFit(plan, OldVolume(m.st))) ==>
        AllStaged(plan, old(OldVolume(m.st)), m.st.staging.value)
      ensures m.tidy && !r.Crashed? && old(m.st.oldroot.None?) ==> m.st.oldroot.None?
      ensures m.faultless && old(m.st.oldroot.None?) ==>
        (r.Done? <==> old(OldOpens(plan, m.st)) && Enough() && CanStage(plan, old(OldVolume(m.st))))
    {
      var found :- m.Ask(HeaderOn(m.st.disk).Some?);
      if !found {
        return Raised;
      }
      :- m.RunOrRaise(OpenOld(m.st, plan.oldPassword));
      r := EnsureStagingSpace();
      if r.Done? {
        r := CopyToStaging(VolumeOf(m.st, m.st.oldroot.value));
      }
      // the finally block runs unless the run itself is gone
      if !r.Crashed? {
        var _ :- m.Run(CloseOld(m.st));
      }
      ghost var v := old(OldVolume(m.st));
      StagedOnlyAsked(plan, v);
      if PathsFit(plan, v) {
        StagedComplete(plan, v);
      }
    }

    method CopyToStaging(v: Volume) returns (r: Step)
      requires m.Valid()
      modifies m
      ensures m.st == old(m.st).(staging := m.st.staging)
      ensures r.Done? ==> m.st.staging == Some(StagedFiles(plan, v))
      ensures m.faultless ==> (r.Done? <==> CanStage(plan, v))
    {
      r := m.RunOrRaise(RemoveStaging(m.st));
      :- r;
      :- m.RunOrRaise(MakeStaging(m.st));
      :- StageHome(v);
      :- StageKeys(v);
      r := StagePaths(SubvolumeFiles(v, "@"), StagedDirectories(plan, v));
    }

    method StageHome(v: Volume) returns (r: Step)
      requires m.Valid() && m.st.staging == Some(map[])
      modifies m
      ensures m.st == old(m.st).(staging := m.st.staging)
      ensures r.Done? ==> m.st.staging == Some(Copied(map[], HomeFiles(plan, v), STAGED_HOME))
      ensures m.faultless ==> (r.Done? <==> HomeThere(plan, v))
    {
      NothingCopied(map[], STAGED_HOME);
      HomeMentioned(plan, v);
      if plan.preserveHome && ListsHome(v) {
        :- m.RunOrRaise(Quiet(m.st));
        if "@home" !in v.subs {
          return Raised;
        }
        :- m.RunOrRaise(CopyIntoStaging(m.st, HomeFiles(plan, v), STAGED_HOME));
      }
      return Done;
    }

    method StageKeys(v: Volume) returns (r: Step)
      requires m.Valid() && m.st.staging == Some(Copied(map[], HomeFiles(plan, v), STAGED_HOME))
      modifies m
      ensures m.st == old(m.st).(staging := m.st.staging)
      ensures r.Done? ==> m.st.staging == Some(StagedDirectories(plan, v))
      ensures m.faultless ==> r.Done?
    {
      NothingCopied(m.st.staging.value, STAGED_KEYS);
      KeysDoNotClash(plan, v);
      if KeyFiles(plan, v) != map[] {
        :- m.RunOrRaise(Quiet(m.st));
        :- m.RunOrRaise(CopyIntoStaging(m.st, KeyFiles(plan, v), STAGED_KEYS));
      }
      return Done;
    }

    method StagePaths(root: Files, ghost before: Files) returns (r: Step)
      requires m.Valid() && m.st.staging == Some(before)
      modifies m
      ensures m.st == old(m.st).(staging := m.st.staging)
      ensures r.Done? ==> m.st.staging == Some(AddPaths(before, root, plan.additional))
      ensures m.faultless ==> (r.Done? <==> NoneClash(before, root, plan.additional))
    {
      var paths := plan.additional;
      var i := 0;
      while i < |paths|
        invariant 0 <= i <= |paths|
        invariant m.st == old(m.st).(staging := m.st.staging)
        invariant m.st.staging == Some(AddPaths(before, root, paths[..i]))
        invariant m.faultless ==> NoneClash(before, root, paths[..i])
      {
        NextPath(before, root, paths, i, m.st.staging.value);
        r := StagePath(root, paths[i]);
        :- r;
        i := i + 1;
      }
      assert paths[..i] == paths;
      return Done;
    }

    method StagePath(root: Files, path: Path) returns (r: Step)
      requires m.Valid() && m.st.staging.Some?
      modifies m
      ensures m.st == old(m.st).(staging := m.st.staging)
      ensures r.Done? ==> m.st.staging == Some(AddPath(old(m.st.staging).value, root, path))
      ensures m.faultless ==>
        (r.Done? <==> !old(Clashes(m.st.staging.value, Subtree(root, path), Destination(m.st.staging.value, path))))
    {
      if !Exists(root, path) {
        NothingToCopy(root, path);
        return Done;
      }
      :- m.RunOrRaise(Quiet(m.st));
      r := m.RunOrRaise(CopyIntoStaging(m.st, Subtree(root, path), Destination(m.st.staging.value, path)));
    }
  }

  lemma NothingToCopy(root: Files, path: Path)
    requires !Exists(root, path)
    ensures Subtree(root, path) == map[]
  {
    forall k
      ensures k !in Subtree(root, path)
    {
      InSubtree(root, path, k);
      assert path <= path + k;
    }
  }

  /** The turn of paths[i], as part of the whole list. */
  lemma {:induction false} NextPath(before: Files, root: Files, paths: seq<Path>, i: nat, staging: Files)
    requires i < |paths| && staging == AddPaths(before, root, paths[..i])
    ensures AddPaths(before, root, paths[..i + 1]) == AddPath(staging, root, paths[i])
    ensures NoneClash(before, root, paths[..i + 1]) <==>
      NoneClash(before, root, paths[..i]) && !Clashes(staging, Subtree(root, paths[i]), Destination(staging, paths[i]))
    ensures NoneClash(before, root, paths) ==> NoneClash(before, root, paths[..i + 1])
  {
    assert paths[..i + 1][..i] == paths[..i];
    ClashesStay(before, root, paths, i + 1);
  }

  lemma {:induction false} ClashesStay(before: Files, root: Files, paths: seq<Path>, k: nat)
    requires k <= |paths|
    ensures NoneClash(before, root, paths) ==> NoneClash(before, root, paths[..k])
  {
    if k == |paths| {
      assert paths[..k] == paths;
    } else {
      ClashesStay(before, root, paths[..|paths| - 1], k);
      assert paths[..|paths| - 1][..k] == paths[..k];
    }
  }

  /** `@home` itself is among the subvolumes whenever one of their names mentions it. */
  ghost predicate HomeThere(p: Plan, v: Volume) {
    p.preserveHome && v.Btrfs? && (exists n, i :: n in v.subs && 0 <= i <= |n| - 5 && n[i..][..5] == "@home") ==>
      "@home" in v.subs
  }

  lemma HomeMentioned(p: Plan, v: Volume)
    ensures HomeThere(p, v) <==> (p.preserveHome && ListsHome(v) ==> "@home" in v.subs)
  {
    if n, i :| v.Btrfs? && n in v.subs && 0 <= i <= |n| - 5 && n[i..][..5] == "@home" {
      assert StartsWith(n[i..], "@home") && Contains(n, "@home");
    }
    if ListsHome(v) {
      var n :| n in v.subs.Keys && Contains(n, "@home");
      var i :| 0 <= i <= |n| && StartsWith(n[i..], "@home");
      assert n[i..][..5] == "@home";
    }
  }

  /** The keys and the listed paths can be copied into the staging. */
  ghost predicate CanStage(p: Plan, v: Volume) {
    HomeThere(p, v) && NoneClash(StagedDirectories(p, v), SubvolumeFiles(v, "@"), p.additional)
  }

  lemma KeysDoNotClash(p: Plan, v: Volume)
    ensures !Clashes(Copied(map[], HomeFiles(p, v), STAGED_HOME), KeyFiles(p, v), STAGED_KEYS)
  {
    DirectoriesAreApart(p, v);
    forall k, q: Path | k in KeyFiles(p, v) && STAGED_HOME <= q
      ensures !Nested(STAGED_KEYS + k, q)
    {
      assert (STAGED_KEYS + k)[0] == STAGED_KEYS[0] && q[0] == STAGED_HOME[0];
    }
  }

  lemma NothingCopied(files: Files, path: Path)
    ensures Copied(files, map[], path) == files
  {
  }

  class MigrationRestoreStepExecutor {
    const m: Machine

    constructor (m: Machine)
      ensures this.m == m
    {
      this.m := m;
    }

    /** The staging is kept until all of it is restored; then every path of the target reads
        what was staged for it, or what it read before. */
    method Execute() returns (r: Step)
      requires m.Valid() && TargetMounted(m.st)
      modifies m
      ensures m.st.staging == old(m.st.staging)
        || (old(m.st.staging.Some?) && Restored(old(m.st.staging).value, old(m.st), m.st))
      ensures r.Done? ==> m.st.staging.None?
      ensures r.Done? && old(m.st.staging.Some?) ==> Restored(old(m.st.staging).value, old(m.st), m.st)
      ensures r.Done? && old(m.st.staging.None?) ==> m.st == old(m.st)
      ensures m.faultless ==> r.Done?
    {
      var staged :- m.Ask(m.st.staging.Some?);
      if !staged {
        return Done;
      }
      :- RestoreDirectories(m.st.staging.value);
      label Complete:
      r := m.RunOrRaise(RemoveStaging(m.st));
      RestoredStill(old(m.st.staging.value), old(m.st), old@Complete(m.st), m.st);
    }

    method RestoreDirectories(staging: Files) returns (r: Step)
      requires m.Valid() && TargetMounted(m.st)
      modifies m
      ensures m.st.staging == old(m.st.staging)
      ensures r.Done? ==> Restored(staging, old(m.st), m.st)
      ensures m.faultless ==> r.Done?
    {
      r := RestoreDirectory(staging, STAGED_HOME, HOME);
      :- r;
      label Home:
      :- RestoreDirectory(staging, STAGED_KEYS, SBCTL);
      label Keys:
      :- RestoreDirectory(staging, STAGED_PATHS, []);
      RestoredInTurn(staging, old(m.st), old@Home(m.st), old@Keys(m.st), m.st);
      return Done;
    }

    method RestoreDirectory(staging: Files, staged: Path, destination: Path) returns (r: Step)
      requires m.Valid() && TargetMounted(m.st)
      modifies m
      ensures m.st.staging == old(m.st.staging)
      ensures r.Done? ==> TargetMounted(m.st) && CopiedTo(StagedTree(staging, staged), destination, old(m.st), m.st)
      ensures m.faultless ==> r.Done?
    {
      var tree := StagedTree(staging, staged);
      if DirectoryExists(staging, staged) {
        :- m.RunOrRaise(Quiet(m.st));
        label Copying:
        forall q ensures TargetReads(CopyToTarget(m.st, tree, destination).after, q) ==
          if InCopy(tree, destination, q) then Some(tree[q[|destination|..]]) else TargetReads(m.st, q)
        {
          CopyReads(m.st, tree, destination, q);
        }
        StillMounted(m.st, tree, destination);
        :- m.RunOrRaise(CopyToTarget(m.st, tree, destination));
      }
      return Done;
    }
  }

  ghost predicate CopiedTo(tree: Files, destination: Path, s: State, t: State) {
    forall q :: TargetReads(t, q) == if InCopy(tree, destination, q) then Some(tree[q[|destination|..]]) else TargetReads(s, q)
  }

  lemma RestoredStill(staging: Files, s: State, t: State, u: State)
    requires Restored(staging, s, t) && u == t.(staging := u.staging)
    ensures Restored(staging, s, u)
  {
    forall q ensures TargetReads(u, q) == TargetReads(t, q) {
      var i := Resolve(t.mounts, q);
      if i.Some? {
        assert Content(u)(t.mounts[i.value].source) == Content(t)(t.mounts[i.value].source);
      }
    }
  }

  lemma RestoredInTurn(staging: Files, s: State, home: State, keys: State, t: State)
    requires CopiedTo(StagedTree(staging, STAGED_HOME), HOME, s, home)
    requires CopiedTo(StagedTree(staging, STAGED_KEYS), SBCTL, home, keys)
    requires CopiedTo(StagedTree(staging, STAGED_PATHS), [], keys, t)
    ensures Restored(staging, s, t)
  {
    forall q
      ensures TargetReads(t, q) == if RestoredAt(staging, q).Some? then RestoredAt(staging, q) else TargetReads(s, q)
    {
      assert q[0..] == q && InCopy(StagedTree(staging, STAGED_PATHS), [], q) == (q in StagedTree(staging, STAGED_PATHS));
    }
  }

  lemma ConvergedMounts(p: Plan, s: State)
    requires Converged(p, s) && Declares(p)
    ensures TargetMounted(s)
  {
    var k := OpenKey(s);
    TableMountedOnce(p, k);
    OthersMountedOnce(p.subvolumes, k);
    var others := Others(p.subvolumes, k);
    forall i | 0 <= i < |others|
      ensures others[i].source.Sub? && others[i].source.key == k && others[i].source.name in OpenVolume(s).subs
    {
      var j :| 0 <= j < |p.subvolumes| && p.subvolumes[j].name != "@"
               && others[i] == Mounting(p.subvolumes[j].mountpoint, Sub(k, p.subvolumes[j].name));
      assert p.subvolumes[j].name in Names(p.subvolumes);
    }
    assert s.mounts[0] == Mounting([], Sub(k, "@"));
  }

  /** Every preserved item is intact on the old volume, or complete in staging, or complete at
      its own path of the target. */
  ghost predicate Conserved(p: Plan, s: State, t: State) {
    || DiskUntouched(s, t)
    || (t.staging.Some? && AllStaged(p, OldVolume(s), t.staging.value))
    || AllRestored(p, OldVolume(s), t)
  }

  /** The listed paths fit, and bring no other file for one of the home directories or keys. */
  ghost predicate Preservable(p: Plan, v: Volume) {
    PathsFit(p, v) && Unshadowed(p, v, StagedFiles(p, v))
  }

  /** Staging does not change whether the disk can be installed to. */
  lemma StagingAside(p: Plan, s: State, t: State, suitable: bool, capacityMb: nat)
    requires t == s.(oldroot := t.oldroot, staging := t.staging)
    ensures CanInstall(p, t, suitable, capacityMb) <==> CanInstall(p, s, suitable, capacityMb)
    ensures s.mounts == [] || TargetMounted(s) ==> t.mounts == [] || TargetMounted(t)
  {
  }

  /** A migrating installation up to the restore, with the packages step between writing any
      files. Where the preserved paths allow it, nothing preserved is lost wherever the
      installation stops, and all of it is at its place when it does not. */
  method MigrateInstallation(stage: MigrationStagingStepExecutor, drive: UsbBootDriveStepExecutor,
                             disk: StorageStepExecutor, restore: MigrationRestoreStepExecutor,
                             packages: Files) returns (r: Step)
    requires stage.m == drive.m == disk.m == restore.m && stage.plan == drive.plan == disk.plan
    requires disk.plan.migrate && Declares(disk.plan)
    requires disk.m.Valid() && (disk.m.st.mounts == [] || TargetMounted(disk.m.st)) && OldSystem(OldVolume(disk.m.st))
    modifies disk.m
    ensures old(Preservable(disk.plan, OldVolume(disk.m.st))) ==> Conserved(disk.plan, old(disk.m.st), disk.m.st)
    ensures r.Done? && old(PathsFit(disk.plan, OldVolume(disk.m.st))) ==>
      (AllRestored(disk.plan, old(OldVolume(disk.m.st)), disk.m.st) <==> old(Preservable(disk.plan, OldVolume(disk.m.st))))
    ensures !DiskUntouched(old(disk.m.st), disk.m.st) ==> old(OldOpens(disk.plan, disk.m.st)) && stage.Enough()
    ensures disk.m.faultless && old(disk.m.st.oldroot.None?) ==>
      (r.Done? <==> && old(OldOpens(disk.plan, disk.m.st)) && stage.Enough()
                    && old(CanStage(disk.plan, OldVolume(disk.m.st)))
                    && old(CanInstall(disk.plan, disk.m.st, drive.suitable, drive.capacityMb)))
  {
    ghost var p, v := disk.plan, OldVolume(disk.m.st);
    if PathsFit(p, v) {
      StagedComplete(p, v);
    }
    r := stage.Execute();
    :- r;
    StagingAside(p, old(disk.m.st), disk.m.st, drive.suitable, drive.capacityMb);
    r := InstallTarget(drive, disk, packages);
    :- r;
    r := RestoreStaged(restore, p, v);
  }

  /** The restore step at the end. */
  method RestoreStaged(restore: MigrationRestoreStepExecutor, ghost p: Plan, ghost v: Volume) returns (r: Step)
    requires restore.m.Valid() && TargetMounted(restore.m.st) && OldSystem(v)
    requires restore.m.st.staging == Some(StagedFiles(p, v))
    modifies restore.m
    ensures PathsFit(p, v) && (restore.m.st.staging != old(restore.m.st.staging) || r.Done?) ==>
      (AllRestored(p, v, restore.m.st) <==> Preservable(p, v))
    ensures restore.m.faultless ==> r.Done?
  {
    r := restore.Execute();
    if PathsFit(p, v) && (restore.m.st.staging != old(restore.m.st.staging) || r.Done?) {
      StagedComplete(p, v);
      RestoredItems(p, v, StagedFiles(p, v), old(restore.m.st), restore.m.st);
    }
  }

  /** The steps between staging and restoring leave the staging alone. */
  method InstallTarget(drive: UsbBootDriveStepExecutor, disk: StorageStepExecutor, packages: Files) returns (r: Step)
    requires drive.m == disk.m && drive.plan == disk.plan && Declares(disk.plan)
    requires disk.m.Valid() && (disk.m.st.mounts == [] || TargetMounted(disk.m.st))
    modifies disk.m
    ensures disk.m.st.staging == old(disk.m.st.staging)
    ensures r.Done? ==> TargetMounted(disk.m.st)
    ensures disk.m.faultless ==>
      (r.Done? <==> old(CanInstall(disk.plan, disk.m.st, drive.suitable, drive.capacityMb)))
  {
    r := PrepareTarget(drive, disk);
    :- r;
    StillMounted(disk.m.st, packages, []);
    r := disk.m.RunOrRaise(CopyToTarget(disk.m.st, packages, []));
  }

  /** The drive step, when there is a drive, and the storage step. */
  method PrepareTarget(drive: UsbBootDriveStepExecutor, disk: StorageStepExecutor) returns (r: Step)
    requires drive.m == disk.m && drive.plan == disk.plan && Declares(disk.plan)
    requires disk.m.Valid() && (disk.m.st.mounts == [] || TargetMounted(disk.m.st))
    modifies disk.m
    ensures disk.m.st.staging == old(disk.m.st.staging)
    ensures r.Done? ==> TargetMounted(disk.m.st)
    ensures disk.m.faultless ==>
      (r.Done? <==> old(CanInstall(disk.plan, disk.m.st, drive.suitable, drive.capacityMb)))
  {
    if disk.plan.usb {
      r := drive.Execute();
      :- r;
    }
    assert disk.m.st.mounts == [] || TargetMounted(disk.m.st);
    var unmounted := disk.m.st.mounts == [];
    r := disk.Execute();
    if unmounted && r.Done? {
      ConvergedMounts(disk.plan, disk.m.st);
    }
  }

  /** An installation stopped after the storage step and started again opens the new volume as
      the old system exactly when the new password is the old one; only then can it replace
      the staging, by whatever the new volume holds. */
  lemma RerunOpensNewVolume(p: Plan, s: State)
    requires !p.usb && Converged(p, s) && Unlocks(p, s)
    ensures OldOpens(p, s) <==> p.oldPassword == p.password
    ensures OldOpens(p, s) ==> OldVolume(s) == OpenVolume(s)
  {
  }
}
