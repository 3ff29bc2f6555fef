/** The storage step: from whatever it finds, to an open encrypted volume with its subvolumes
    mounted. */
module Storage {
  import opened Text
  import opened Trees
  import opened Machine
  import opened Plans

  // ------------------------------------------------------------------ what the step reaches

  function Others(subvolumes: seq<Subvolume>, k: Key): seq<Mount> {
    if subvolumes == [] then []
    else
      var rest := Others(subvolumes[..|subvolumes| - 1], k);
      var last := subvolumes[|subvolumes| - 1];
      if last.name == "@" then rest else rest + [Mounting(last.mountpoint, Sub(k, last.name))]
  }

  /** The mount table: `@` first, the other subvolumes as configured, the EFI partition last. */
  function MountTable(p: Plan, k: Key): seq<Mount> {
    [Mounting([], Sub(k, "@"))] + Others(p.subvolumes, k) + [Mounting(["efi"], Esp)]
  }

  predicate HasSubvolumes(p: Plan, v: Volume) {
    v.Btrfs? && Names(p.subvolumes) <= v.subs.Keys
  }

  predicate Converged(p: Plan, s: State) {
    && s.cryptroot.Some? && s.cryptroot.value.whole == p.usb
    && HasSubvolumes(p, OpenVolume(s))
    && s.mounts == MountTable(p, s.cryptroot.value.key)
  }

  /** The header on the boot device opens the volume that is open, with this password. */
  predicate Unlocks(p: Plan, s: State) {
    && s.cryptroot.Some? && HeaderOf(p.usb, s).Some?
    && HeaderOf(p.usb, s).value == Header(p.password, s.cryptroot.value.key)
  }

  // ------------------------------------------------------------------ what a run leaves alone

  /** Every header of b is one of a, or opens with the password. */
  predicate NoNewForeign(p: Plan, a: Device, b: Device) {
    forall at :: at in b.headers ==>
      (at in a.headers && b.headers[at] == a.headers[at]) || b.headers[at].password == p.password
  }

  /** Holds between the start of a storage step and every state the step passes. */
  predicate Within(p: Plan, s: State, t: State) {
    && t.staging == s.staging && Rooted(t)
    && NoNewForeign(p, s.disk, t.disk)
    && t.usb.table == s.usb.table && NoNewForeign(p, s.usb, t.usb)
    && (!p.usb || HeaderOn(s.usb).Some? ==> t.usb.headers == s.usb.headers)
  }

  /** A volume kept its subvolumes and their files, and may have got more subvolumes. */
  predicate VolumeGrown(a: Volume, b: Volume) {
    a.Btrfs? ==> b.Btrfs? && forall n :: n in a.subs ==> n in b.subs && b.subs[n] == a.subs[n]
  }

  /** Nothing was repartitioned or reformatted. */
  predicate Grown(p: Plan, s: State, t: State) {
    && HeaderOf(p.usb, s).Some?
    && t.disk.(vfat := s.disk.vfat) == s.disk && t.usb.(vfat := s.usb.vfat) == s.usb
    && (BootDevice(p.usb, s).vfat ==> BootDevice(p.usb, t).vfat && t.esp == s.esp)
    && VolumeGrown(VolumeOf(s, HeaderOf(p.usb, s).value.key), VolumeOf(t, HeaderOf(p.usb, s).value.key))
  }

  predicate Usable(p: Plan, s: State) {
    HeaderOf(p.usb, s).Some? && HeaderOf(p.usb, s).value.password == p.password
  }

  /** The step goes on with the volume it finds: the wipe is skipped, and the header is there
      (on the internal disk it must also open with the password). A mapping that is already
      open belongs to that header. */
  predicate Keeps(p: Plan, s: State) {
    && WipeMethod(p) == Skip && HeaderOf(p.usb, s).Some? && (!p.usb ==> Usable(p, s))
    && (s.cryptroot.Some? ==> s.cryptroot.value.key == HeaderOf(p.usb, s).value.key)
  }

  /** No header that the password does not open begins where a new second partition would. */
  predicate NothingReexposed(p: Plan, d: Device) {
    p.efiMb in d.headers ==> d.headers[p.efiMb].password == p.password
  }

  /** Exactly when a step meeting no faults reaches its goal. */
  predicate CanConverge(p: Plan, s: State) {
    if p.usb then HasParts(s.usb, 2) && (HeaderOn(s.usb).Some? ==> Usable(p, s))
    else
      || WipeMethod(p) == Secure || WipeMethod(p) == Discard
      || NothingReexposed(p, s.disk)
      || (WipeMethod(p) == Skip && Usable(p, s))
  }

  /** What an earlier installation left: a header that the password does not open begins where
      the new second partition would, and the wipe, if any, forgets the partition table alone. */
  predicate Stuck(p: Plan, s: State) {
    !p.usb && (WipeMethod(p) == Quick || WipeMethod(p) == Skip) && !CanConverge(p, s)
  }

  /** Such states are there: the disk was installed before, with partitions of the same sizes
      and another password. */
  lemma InstalledBefore(p: Plan, s: State, other: Header, parts: nat)
    requires !p.usb && (WipeMethod(p) == Quick || WipeMethod(p) == Skip) && other.password != p.password
    requires s.disk == Device(Some(Table(p.efiMb, parts)), map[p.efiMb := other], true)
    ensures Stuck(p, s)
  {
    assert HeaderOn(s.disk).Some? ==> HeaderOn(s.disk).value == other;
  }

  /** The table is the old one, gone, or one of the new partitions. */
  predicate NewTable(p: Plan, s: State, t: State) {
    t.disk.table == s.disk.table || t.disk.table.None? || t.disk.table.value.efiMb == p.efiMb
  }

  /** A run of the step, stopped anywhere, can be followed by one that keeps what it finds. */
  predicate Resumable(p: Plan, s: State) {
    if p.usb then CanConverge(p, s)
    else NothingReexposed(p, s.disk) || Keeps(p, s)
  }

  /** What a wipe leaves, and the partitioning after it keeps: a secure one that ends leaves no
      old volume or header and random fill on the disk, a discard without faults nothing but
      zeroes, a quick one every volume and header; only a secure one brings random fill. */
  predicate WipedAs(how: Wipe, done: bool, faultless: bool, s: State, t: State) {
    && (done && how == Secure ==> t.volumes == map[] && t.disk.headers == map[] && Noise in t.shows)
    && (faultless && how == Discard ==>
          t.volumes == map[] && t.disk.headers == map[] && Zero in t.shows && t.shows <= {Zero, Clear})
    && (faultless && how == Quick ==> Zero in t.shows)
    && (how == Quick || how == Skip ==> t.volumes == s.volumes && t.disk.headers == s.disk.headers && s.shows <= t.shows)
    && (how != Secure && Noise in t.shows ==> Noise in s.shows)
  }

  /** No volume holds a file. */
  predicate NoFiles(s: State) {
    forall k, n :: k in s.volumes && s.volumes[k].Btrfs? && n in s.volumes[k].subs ==> s.volumes[k].subs[n] == map[]
  }

  /** Headers of the disk stay, and one may begin where its second partition does. */
  predicate HeadersGrown(p: Plan, a: Device, b: Device) {
    && (forall at :: at in a.headers ==> at in b.headers && b.headers[at] == a.headers[at])
    && forall at :: at in b.headers ==> at in a.headers || (!p.usb && HasParts(a, 2) && at == a.table.value.efiMb)
  }

  /** Nothing of what the disk held is left: no file, and no header but one where the second
      partition begins. */
  predicate Renewed(p: Plan, s: State) {
    NoFiles(s) && forall at :: at in s.disk.headers ==> !p.usb && at == p.efiMb
  }

  predicate Hidden(s: State) {
    s.shows <= {Noise, Cipher}
  }

  // ------------------------------------------------------------------ the step

  lemma PartlyErasedTwice(s: State, t: State, u: State, fills: set<Fill>, more: set<Fill>)
    requires PartlyErased(s, t, fills) && PartlyErased(t, u, more)
    ensures PartlyErased(s, u, fills + more)
  {
  }

  class StorageStepExecutor {
    const plan: Plan
    const m: Machine

    constructor (plan: Plan, m: Machine)
      ensures this.plan == plan && this.m == m
    {
      this.plan := plan;
      this.m := m;
    }

    method CleanupStaleMounts() returns (r: Step)
      requires m.Valid() && m.st.mounts == []
      modifies m
      ensures m.st == old(m.st).(cryptroot := m.st.cryptroot, oldroot := m.st.oldroot)
      ensures m.st.cryptroot == old(m.st.cryptroot) || m.st.cryptroot == None
      ensures r.Done? && m.tidy ==> m.st.cryptroot == None
      ensures m.faultless ==> r.Done?
      ensures !r.Raised?
    {
      var _ :- m.Run(UmountTarget(m.st));
      var _ :- m.Run(Quiet(m.st));
      var _ :- m.Run(CloseCryptroot(m.st));
      var _ :- m.Run(Quiet(m.st));
      var _ :- m.Run(RemoveMappings(m.st));
      return Done;
    }

    method WipeDisk(how: Wipe) returns (r: Step)
      requires m.Valid()
      modifies m
      ensures PartlyErased(old(m.st), m.st, if how == Secure then {Zero, Noise} else {Zero})
      ensures r.Done? && how == Secure ==> m.st == ErasedState(old(m.st), Noise)
      ensures m.faultless ==> r.Done?
      ensures how == Quick || how == Skip ==>
        m.st == old(m.st).(disk := old(m.st.disk).(table := m.st.disk.table), shows := m.st.shows)
      ensures how == Quick || how == Skip ==> old(m.st.shows) <= m.st.shows && (m.faultless ==> Zero in m.st.shows)
      ensures m.faultless && how == Discard ==> m.st == ErasedState(old(m.st), Zero)
    {
      r := EraseTable();
      :- r;
      label Forgotten:
      if how == Secure {
        :- FillWithNoise();
      } else if how == Discard {
        var _ :- m.Run(DiscardDisk(m.st));
      }
      PartlyErasedTwice(old(m.st), old@Forgotten(m.st), m.st, {Zero}, if how == Secure then {Noise} else {Zero});
      var _ :- m.Run(Quiet(m.st));
      return Done;
    }

    method EraseTable() returns (r: Step)
      requires m.Valid()
      modifies m
      ensures m.st == old(m.st).(disk := old(m.st.disk).(table := m.st.disk.table), shows := m.st.shows)
      ensures m.st.disk.table == old(m.st.disk.table) || m.st.disk.table == None
      ensures old(m.st.shows) <= m.st.shows <= old(m.st.shows) + {Zero}
      ensures m.faultless ==> Zero in m.st.shows
      ensures !r.Raised? && (m.faultless ==> r.Done?)
    {
      var _ :- m.Run(ForgetTable(m.st));
      var _ :- m.Run(ForgetTable(m.st));
      var _ :- m.Run(ForgetTable(m.st));
      return Done;
    }

    method FillWithNoise() returns (r: Step)
      requires m.Valid()
      modifies m
      ensures PartlyErased(old(m.st), m.st, {Noise})
      ensures r.Done? ==> m.st == ErasedState(old(m.st), Noise)
      ensures m.faultless ==> r.Done?
    {
      var shredded :- m.Run(ShredDisk(m.st));
      label Shredded:
      if !shredded {
        var filled := m.Run(FillDisk(m.st));
        PartlyErasedTwice(old(m.st), old@Shredded(m.st), m.st, {Noise}, {Noise});
        if filled.Killed? {
          return Crashed;
        }
      }
      :- m.RunOrRaise(Quiet(m.st));
      var _ :- m.Run(Quiet(m.st));
      return Done;
    }

    method CreatePartitions() returns (r: Step)
      requires m.Valid()
      modifies m
      ensures m.st == old(m.st).(disk := old(m.st.disk).(table := m.st.disk.table), shows := m.st.shows)
      ensures old(m.st.shows) <= m.st.shows <= old(m.st.shows) + {Zero, Clear}
      ensures r.Done? ==> m.st.disk.table == Some(Table(plan.efiMb, 2))
      ensures NewTable(plan, old(m.st), m.st)
      ensures m.faultless ==> r.Done?
    {
      r := m.RunOrRaise(ForgetTable(m.st));
      :- r;
      :- m.RunOrRaise(NewPartition(m.st, Table(plan.efiMb, 1)));
      :- m.RunOrRaise(NewPartition(m.st, Table(plan.efiMb, 2)));
      var _ :- m.Run(Quiet(m.st));
      r := WaitForPartitions();
    }

    method WaitForPartitions() returns (r: Step)
      requires m.Valid() && HasParts(m.st.disk, 2)
      modifies m
      ensures m.st == old(m.st)
      ensures m.faultless ==> r.Done?
    {
      var polls := 0;
      while polls < 20
        invariant m.st == old(m.st)
        invariant m.faultless ==> polls == 0
      {
        var seen :- m.Appears(HasParts(m.st.disk, 2));
        if seen {
          return Done;
        }
        var _ :- m.Run(Quiet(m.st));
        polls := polls + 1;
      }
      return Raised;
    }

    method SetupLuks() returns (r: Step)
      requires m.Valid()
      modifies m
      ensures r.Done? ==> m.st.cryptroot.Some? && m.st.cryptroot.value.whole == plan.usb
      ensures old(HeaderOf(plan.usb, m.st).Some? || m.st.cryptroot.Some?) ==>
        m.st == old(m.st).(cryptroot := m.st.cryptroot)
      ensures Formatted(plan, old(m.st), m.st)
      ensures HeadersGrown(plan, old(m.st.disk), m.st.disk)
      ensures old(NoFiles(m.st)) ==> NoFiles(m.st)
      ensures old(m.st.cryptroot.Some?) ==> m.st == old(m.st)
      ensures r.Done? && old(m.st.cryptroot.None?) ==> Unlocks(plan, m.st)
      ensures r.Done? && old(m.st.cryptroot.None? && HeaderOf(plan.usb, m.st).None?) ==> OpenKey(m.st) == old(m.st.nextKey)
      ensures r.Done? ==> m.st.volumes.Keys <= old(m.st.volumes.Keys) + {OpenKey(m.st)}
      ensures m.faultless && old(m.st.cryptroot.None?) ==>
        (r.Done? <==> old(HasParts(BootDevice(plan.usb, m.st), 2)
                          && (HeaderOf(plan.usb, m.st).Some? ==> Usable(plan, m.st))))
    {
      var active :- m.Ask(m.st.cryptroot.Some?);
      if active {
        return if m.st.cryptroot.value.whole == plan.usb then Done else Raised;
      }
      var isLuks :- m.Ask(HeaderOf(plan.usb, m.st).Some?);
      if !isLuks {
        :- m.RunOrRaise(LuksFormat(m.st, plan.usb, plan.password));
      }
      :- m.RunOrRaise(LuksOpen(m.st, plan.usb, plan.password));
      :- m.RunOrRaise(Quiet(m.st));
      return Done;
    }

    /** `btrfs subvolume list` is read once, before the loop. */
    method CreateSubvolumes() returns (r: Step)
      requires m.Valid() && OpenVolume(m.st).Btrfs?
      modifies m
      ensures Filled(old(m.st), m.st)
      ensures old(NoFiles(m.st)) ==> NoFiles(m.st)
      ensures r.Done? ==> HasSubvolumes(plan, OpenVolume(m.st))
      ensures m.faultless && Declares(plan) ==> r.Done?
    {
      var existing := OpenVolume(m.st).subs.Keys;
      var i := 0;
      while i < |plan.subvolumes|
        invariant 0 <= i <= |plan.subvolumes|
        invariant Filled(old(m.st), m.st)
        invariant old(NoFiles(m.st)) ==> NoFiles(m.st)
        invariant existing <= OpenVolume(m.st).subs.Keys
        invariant forall j :: 0 <= j < i ==> plan.subvolumes[j].name in OpenVolume(m.st).subs
        invariant forall n :: n in OpenVolume(m.st).subs ==>
          n in existing || exists j :: 0 <= j < i && plan.subvolumes[j].name == n
      {
        if plan.subvolumes[i].name !in existing {
          :- m.RunOrRaise(CreateSubvolume(m.st, plan.subvolumes[i].name));
        }
        i := i + 1;
      }
      return Done;
    }

    method MakeFilesystem() returns (r: Step)
      requires m.Valid() && m.st.cryptroot.Some?
      modifies m
      ensures Filled(old(m.st), m.st)
      ensures r.Done? ==> OpenVolume(m.st).Btrfs?
      ensures r.Done? && old(NoFiles(m.st)) ==> NoFiles(m.st)
      ensures r.Done? ==> m.st.volumes.Keys <= old(m.st.volumes.Keys) + {OpenKey(m.st)}
      ensures m.faultless ==> r.Done?
    {
      r := m.RunOrRaise(Quiet(m.st));
      :- r;
      var isBtrfs :- m.Ask(OpenVolume(m.st).Btrfs?);
      if !isBtrfs {
        var _ :- m.Run(Quiet(m.st));
        :- m.RunOrRaise(Quiet(m.st));
        :- m.RunOrRaise(MakeBtrfs(m.st));
      }
      return Done;
    }

    method SetupBtrfs() returns (r: Step)
      requires m.Valid() && m.st.cryptroot.Some? && m.st.mounts == []
      modifies m
      ensures Filled(old(m.st).(mounts := m.st.mounts), m.st) && Rooted(m.st)
      ensures r.Done? && old(NoFiles(m.st)) ==> NoFiles(m.st)
      ensures r.Done? ==> HasSubvolumes(plan, OpenVolume(m.st)) && m.st.mounts == []
      ensures r.Done? ==> m.st.volumes.Keys <= old(m.st.volumes.Keys) + {OpenKey(m.st)}
      ensures m.faultless && Declares(plan) ==> r.Done?
    {
      r := MakeFilesystem();
      :- r;
      var mounted :- m.Ask(Mounted(m.st));
      if !mounted {
        :- m.RunOrRaise(MountTop(m.st));
      }
      label Formatted:
      :- CreateSubvolumes();
      FilledTwice(old(m.st).(mounts := m.st.mounts), old@Formatted(m.st), m.st);
      :- m.RunOrRaise(UmountTop(m.st));
      return Done;
    }

    method MountFilesystems() returns (r: Step)
      requires m.Valid() && m.st.cryptroot.Some? && m.st.mounts == []
      modifies m
      ensures Attached(plan, old(m.st), m.st) && Rooted(m.st)
      ensures r.Done? ==> m.st.mounts == MountTable(plan, m.st.cryptroot.value.key)
      ensures (m.faultless && Declares(plan) && HasSubvolumes(plan, OpenVolume(m.st))
               && HasParts(BootDevice(plan.usb, old(m.st)), 1)) ==> r.Done?
    {
      var subs := plan.subvolumes;
      ghost var k := m.st.cryptroot.value.key;
      :- m.RunOrRaise(MountSubvolume(m.st, "@", []));
      var i := 0;
      while i < |subs|
        invariant 0 <= i <= |subs|
        invariant m.st == old(m.st).(mounts := [Mounting([], Sub(k, "@"))] + Others(subs[..i], k))
      {
        var subvolume := subs[i];
        assert subs[..i + 1][..i] == subs[..i];
        if subvolume.name != "@" {
          var _ :- m.Run(Quiet(m.st));
          :- m.RunOrRaise(MountSubvolume(m.st, subvolume.name, subvolume.mountpoint));
          var _ :- m.Run(Quiet(m.st));
        }
        i := i + 1;
      }
      assert subs[..i] == subs;
      :- MountEfiPartition();
      return Done;
    }

    method MountEfiPartition() returns (r: Step)
      requires m.Valid() && m.st.mounts != []
      modifies m
      ensures Attached(plan, old(m.st), m.st)
      ensures m.st.mounts == old(m.st.mounts) || m.st.mounts == old(m.st.mounts) + [Mounting(["efi"], Esp)]
      ensures r.Done? ==> m.st.mounts == old(m.st.mounts) + [Mounting(["efi"], Esp)]
      ensures m.faultless ==> (r.Done? <==> old(HasParts(BootDevice(plan.usb, m.st), 1)))
    {
      var isVfat :- m.Ask(HasParts(BootDevice(plan.usb, m.st), 1) && BootDevice(plan.usb, m.st).vfat);
      if !isVfat {
        :- m.RunOrRaise(MakeVfat(m.st, plan.usb));
      }
      :- m.RunOrRaise(Quiet(m.st));
      :- m.RunOrRaise(MountEsp(m.st, plan.usb));
      return Done;
    }

    /** The encrypted volume with its subvolumes, opened. */
    method SetupVolume() returns (r: Step)
      requires m.Valid() && m.st.mounts == []
      modifies m
      ensures VolumeMade(plan, old(m.st), m.st)
      ensures HeadersGrown(plan, old(m.st.disk), m.st.disk)
      ensures r.Done? && old(NoFiles(m.st)) ==> NoFiles(m.st)
      ensures r.Done? ==> m.st.cryptroot.Some? && m.st.cryptroot.value.whole == plan.usb
      ensures r.Done? ==> HasSubvolumes(plan, OpenVolume(m.st)) && m.st.mounts == []
      ensures r.Done? ==> m.st.volumes.Keys <= old(m.st.volumes.Keys) + {OpenKey(m.st)}
      ensures r.Done? && old(m.st.cryptroot.None?) ==> Unlocks(plan, m.st)
      ensures r.Done? && old(m.st.cryptroot.None? && HeaderOf(plan.usb, m.st).None?) ==> OpenKey(m.st) == old(m.st.nextKey)
      ensures old(Continues(plan, m.st)) ==> Grown(plan, old(m.st), m.st)
      ensures old(HeaderOf(plan.usb, m.st).Some?) ==> m.st.disk.headers == old(m.st.disk.headers)
      ensures (m.faultless && Declares(plan) && old(m.st.cryptroot.None?)) ==>
                (r.Done? <==> old(Openable(plan, m.st)))
    {
      r := SetupLuks();
      :- r;
      r := SetupBtrfs();
    }

    /** From a laid out disk to mounted filesystems. */
    method Provision() returns (r: Step)
      requires m.Valid() && m.st.mounts == []
      modifies m
      ensures Within(plan, old(m.st), m.st)
      ensures HeadersGrown(plan, old(m.st.disk), m.st.disk)
      ensures r.Done? && old(NoFiles(m.st)) ==> NoFiles(m.st)
      ensures r.Done? ==> Converged(plan, m.st)
      ensures r.Done? ==> m.st.volumes.Keys <= old(m.st.volumes.Keys) + {OpenKey(m.st)}
      ensures r.Done? && old(m.st.cryptroot.None?) ==> Unlocks(plan, m.st)
      ensures r.Done? && old(m.st.cryptroot.None? && HeaderOf(plan.usb, m.st).None?) ==> OpenKey(m.st) == old(m.st.nextKey)
      ensures old(Continues(plan, m.st)) ==> Grown(plan, old(m.st), m.st)
      ensures old(m.st.shows) <= m.st.shows <= old(m.st.shows) + {Cipher} + (if plan.usb then {} else {Clear})
      ensures m.st.disk.table == old(m.st.disk.table)
      ensures old(HeaderOf(plan.usb, m.st).Some?) ==> m.st.disk.headers == old(m.st.disk.headers)
      ensures (m.faultless && Declares(plan) && old(m.st.cryptroot.None?)) ==>
                (r.Done? <==> old(Openable(plan, m.st)))
    {
      r := SetupVolume();
      :- r;
      r := MountFilesystems();
    }

    /** The disk wiped as the method asks, and partitioned anew. */
    method Repartition(how: Wipe) returns (r: Step)
      requires m.Valid() && !plan.usb
      modifies m
      ensures Laid(plan, old(m.st), m.st)
      ensures r.Done? ==> m.st.disk.table == Some(Table(plan.efiMb, 2))
      ensures WipedAs(how, r.Done?, m.faultless, old(m.st), m.st)
      ensures NewTable(plan, old(m.st), m.st)
      ensures m.faultless ==> r.Done?
    {
      r := WipeDisk(how);
      :- r;
      r := CreatePartitions();
    }

    /** The wipe and the partitions: which of them depends on the wipe method and on what the
        disk holds. */
    method PrepareDisk() returns (r: Step)
      requires m.Valid() && m.st.mounts == []
      modifies m
      ensures Laid(plan, old(m.st), m.st)
      ensures old(Keeps(plan, m.st)) ==> m.st == old(m.st)
      ensures WipedAs(WipeMethod(plan), r.Done?, m.faultless, old(m.st), m.st)
      ensures plan.usb && WipeMethod(plan) == Skip ==> m.st == old(m.st)
      ensures r.Done? && plan.usb && WipeMethod(plan) == Secure ==> m.st.shows == {Noise}
      ensures r.Done? && !plan.usb ==>
        if WipeMethod(plan) == Skip && old(HasParts(m.st.disk, 2) && Usable(plan, m.st)) then m.st == old(m.st)
        else m.st.disk.table == Some(Table(plan.efiMb, 2))
      ensures old(Stuck(plan, m.st)) ==> Stuck(plan, m.st) && (r.Done? ==> HeaderOf(plan.usb, m.st).Some?)
      ensures m.faultless ==> r.Done? && (Openable(plan, m.st) <==> CanConverge(plan, old(m.st)))
    {
      var how := WipeMethod(plan);
      if plan.usb {
        if how != Skip {
          :- WipeDisk(how);
        }
        return Done;
      }
      if how != Skip {
        r := Repartition(how);
        return;
      }
      var exist :- m.Ask(HasParts(m.st.disk, 2));
      if !exist {
        r := CreatePartitions();
        return;
      }
      var usable :- m.Ask(Usable(plan, m.st));
      if !usable {
        r := Repartition(Quick);
        return;
      }
      return Done;
    }

    method Execute() returns (r: Step)
      requires m.Valid() && Rooted(m.st)
      modifies m
      ensures old(Mounted(m.st)) ==> m.st == old(m.st) && !r.Raised?
      ensures Within(plan, old(m.st), m.st)
      ensures r.Done? && !old(Mounted(m.st)) ==> Converged(plan, m.st)
      ensures r.Done? && !old(Mounted(m.st)) && (m.tidy || old(m.st.cryptroot.None?)) ==> Unlocks(plan, m.st)
      ensures old(Keeps(plan, m.st)) ==> Grown(plan, old(m.st), m.st)
      ensures r.Done? && !old(Mounted(m.st)) && (if plan.migrate then plan.usb else plan.wipe == Secure) ==>
        Renewed(plan, m.st) && Noise in m.st.shows
      ensures m.faultless && r.Done? && !old(Mounted(m.st)) && !plan.migrate && plan.wipe == Discard ==>
        Renewed(plan, m.st) && Noise !in m.st.shows
      ensures r.Done? && !old(Mounted(m.st)) && !plan.usb && (plan.migrate || plan.wipe != Skip) ==>
        m.st.disk.table == Some(Table(plan.efiMb, 2))
      ensures r.Done? && !old(Mounted(m.st)) && !plan.usb ==> m.st.disk.table.Some? && 2 <= m.st.disk.table.value.parts
      ensures (if plan.migrate then !plan.usb else plan.wipe == Quick || plan.wipe == Skip) ==>
        forall at :: at in old(m.st.disk.headers) ==>
          at in m.st.disk.headers && m.st.disk.headers[at] == old(m.st.disk.headers)[at]
      ensures (if plan.migrate then !plan.usb else plan.wipe != Secure) && Noise in m.st.shows ==>
        Noise in old(m.st.shows)
      ensures (m.faultless && Declares(plan)) ==>
                (r.Done? <==> old(Mounted(m.st) || CanConverge(plan, m.st)))
      ensures old(Stuck(plan, m.st)) ==> Stuck(plan, m.st)
      ensures (r.Done? && plan.usb && WipeMethod(plan) == Secure && m.tidy
               && old(!Mounted(m.st) && HeaderOf(plan.usb, m.st).None?)) ==> m.st.volumes.Keys == {old(m.st.nextKey)}
      ensures (r.Done? && plan.usb && ValidWipe(plan)
               && (old(Mounted(m.st)) || WipeMethod(plan) == Skip ==> old(Hidden(m.st)))) ==> Hidden(m.st)
      ensures m.faultless && r.Done? && plan.usb && !old(Mounted(m.st)) ==>
        (Hidden(m.st) <==> plan.migrate || plan.wipe == Secure || (plan.wipe == Skip && old(Hidden(m.st))))
    {
      var mounted :- m.Ask(Mounted(m.st));
      if mounted {
        return Done;
      }
      :- CleanupStaleMounts();
      r := Converge();
    }

    /** The step once nothing is mounted: from the disk as it is to mounted filesystems. */
    method Converge() returns (r: Step)
      requires m.Valid() && m.st.mounts == []
      modifies m
      ensures Within(plan, old(m.st), m.st)
      ensures r.Done? ==> Converged(plan, m.st)
      ensures r.Done? && old(m.st.cryptroot.None?) ==> Unlocks(plan, m.st)
      ensures old(Keeps(plan, m.st)) ==> Grown(plan, old(m.st), m.st)
      ensures r.Done? && WipeMethod(plan) == Secure ==> Renewed(plan, m.st) && Noise in m.st.shows
      ensures m.faultless && r.Done? && WipeMethod(plan) == Discard ==> Renewed(plan, m.st) && Noise !in m.st.shows
      ensures r.Done? && !plan.usb && WipeMethod(plan) != Skip ==> m.st.disk.table == Some(Table(plan.efiMb, 2))
      ensures r.Done? && !plan.usb ==> m.st.disk.table.Some? && 2 <= m.st.disk.table.value.parts
      ensures m.faultless && plan.usb && (WipeMethod(plan) == Quick || WipeMethod(plan) == Discard) ==> Zero in m.st.shows
      ensures WipeMethod(plan) == Skip ==> old(m.st.shows) <= m.st.shows
      ensures WipeMethod(plan) == Quick || WipeMethod(plan) == Skip ==>
        forall at :: at in old(m.st.disk.headers) ==>
          at in m.st.disk.headers && m.st.disk.headers[at] == old(m.st.disk.headers)[at]
      ensures WipeMethod(plan) != Secure && Noise in m.st.shows ==> Noise in old(m.st.shows)
      ensures (m.faultless && Declares(plan) && old(m.st.cryptroot.None?)) ==> (r.Done? <==> old(CanConverge(plan, m.st)))
      ensures old(Stuck(plan, m.st)) ==> Stuck(plan, m.st)
      ensures (r.Done? && plan.usb && WipeMethod(plan) == Secure && old(m.st.cryptroot.None? && HeaderOf(true, m.st).None?)) ==>
        m.st.volumes.Keys == {old(m.st.nextKey)}
      ensures (r.Done? && plan.usb && ValidWipe(plan) && (WipeMethod(plan) == Skip ==> old(Hidden(m.st)))) ==> Hidden(m.st)
    {
      r := PrepareDisk();
      :- r;
      r := Provision();
    }
  }

  /** The second partition's header, if there is one, opens with the password. */
  predicate Openable(p: Plan, s: State) {
    HasParts(BootDevice(p.usb, s), 2) && (HeaderOf(p.usb, s).Some? ==> Usable(p, s))
  }

  /** The header is there, and an open mapping belongs to it. */
  predicate Continues(p: Plan, s: State) {
    HeaderOf(p.usb, s).Some? && (s.cryptroot.Some? ==> s.cryptroot.value.key == HeaderOf(p.usb, s).value.key)
  }

  /** All that laying out the disk may change: what is on the disk, no header appearing. */
  predicate Laid(p: Plan, s: State, t: State) {
    && t == s.(disk := t.disk, volumes := t.volumes, shows := t.shows)
    && NoNewForeign(p, s.disk, t.disk)
  }

  /** All that opening the volume and making its filesystem may change. */
  predicate VolumeMade(p: Plan, s: State, t: State) {
    && t == s.(cryptroot := t.cryptroot, disk := t.disk, usb := t.usb, volumes := t.volumes,
               shows := t.shows, mounts := t.mounts, nextKey := t.nextKey)
    && Within(p, s, t)
    && s.shows <= t.shows <= s.shows + {Cipher} + (if p.usb then {} else {Clear})
    && t.disk.(headers := s.disk.headers) == s.disk && t.usb.(headers := s.usb.headers) == s.usb
  }

  /** All that making the filesystem may change: subvolumes, none of them lost. */
  predicate Filled(s: State, t: State) {
    && t == s.(volumes := t.volumes, shows := t.shows)
    && s.shows <= t.shows <= s.shows + {Cipher}
    && VolumeGrown(OpenVolume(s), OpenVolume(t))
    && (OpenVolume(s).Btrfs? ==> t.volumes == s.volumes[OpenKey(s) := OpenVolume(t)])
  }

  lemma FilledTwice(s: State, t: State, u: State)
    requires Filled(s, t) && Filled(t, u)
    ensures Filled(s, u)
  {
  }

  /** All that mounting may change: a vfat filesystem where there was none. */
  predicate Attached(p: Plan, s: State, t: State) {
    && t == s.(mounts := t.mounts, disk := t.disk, usb := t.usb, esp := t.esp, shows := t.shows)
    && s.shows <= t.shows <= s.shows + (if p.usb then {} else {Clear})
    && t.disk.(vfat := s.disk.vfat) == s.disk && t.usb.(vfat := s.usb.vfat) == s.usb
    && (HasParts(BootDevice(p.usb, s), 1) && BootDevice(p.usb, s).vfat ==>
          BootDevice(p.usb, t).vfat && t.esp == s.esp)
  }

  /** All that opening the volume may change: a header of our own where there was none. */
  predicate Formatted(p: Plan, s: State, t: State) {
    && t == s.(cryptroot := t.cryptroot, disk := t.disk, usb := t.usb, volumes := t.volumes,
               shows := t.shows, nextKey := t.nextKey)
    && Within(p, s, t.(mounts := []))
    && s.shows <= t.shows <= s.shows + (if p.usb then {} else {Clear})
    && t.disk.(headers := s.disk.headers) == s.disk && t.usb.(headers := s.usb.headers) == s.usb
  }
}
