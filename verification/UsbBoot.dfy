/** The USB boot drive: the step that keeps or prepares it, and its agreement with the storage
    step about which header opens which volume. */
module UsbBoot {
  import opened Text
  import opened Machine
  import opened Plans
  import opened Storage

  const LUKS_HEADER_PARTITION_SIZE_MB := 32
  const PARTITION_TABLE_SIZE_MB := 2

  /** The capacity check, without a recovery partition when its size is zero. */
  predicate Fits(efiMb: nat, recoveryMb: nat, capacityMb: nat) {
    PARTITION_TABLE_SIZE_MB + efiMb + LUKS_HEADER_PARTITION_SIZE_MB + recoveryMb <= capacityMb
  }

  /** The drive is kept: it holds a header, and the run resumes another one. */
  predicate KeepsDrive(p: Plan, s: State) {
    HeaderOn(s.usb).Some? && (Mounted(s) || (p.wipe == Skip && !p.migrate))
  }

  /** All the step may change: the drive, and what an earlier run left open. */
  predicate DriveOnly(s: State, t: State) {
    && t == s.(usb := t.usb, mounts := t.mounts, cryptroot := t.cryptroot, esp := t.esp)
    && t.mounts <= s.mounts && (t.cryptroot == s.cryptroot || (t.cryptroot == None && t.mounts == []))
    && forall at :: at in t.usb.headers ==> at in s.usb.headers && t.usb.headers[at] == s.usb.headers[at]
  }

  class UsbBootDriveStepExecutor {
    const plan: Plan
    const m: Machine
    /** What `lsblk` and `/dev/disk/by-id` say of the two disks, and the drive's size. */
    const suitable: bool
    const capacityMb: nat

    constructor (plan: Plan, m: Machine, suitable: bool, capacityMb: nat)
      ensures this.plan == plan && this.m == m && this.suitable == suitable && this.capacityMb == capacityMb
    {
      this.plan := plan;
      this.m := m;
      this.suitable := suitable;
      this.capacityMb := capacityMb;
    }

    method Execute() returns (r: Step)
      requires m.Valid() && Rooted(m.st)
      modifies m
      ensures DriveOnly(old(m.st), m.st)
      ensures old(KeepsDrive(plan, m.st)) || !suitable || !Fits(plan.efiMb, plan.recoveryMb, capacityMb) ==> m.st == old(m.st)
      ensures r.Done? ==> suitable && (old(KeepsDrive(plan, m.st)) || Fits(plan.efiMb, plan.recoveryMb, capacityMb))
      ensures r.Done? && !old(KeepsDrive(plan, m.st)) ==>
        && m.st.usb.table == Some(Table(plan.efiMb, if plan.recoveryMb > 0 then 3 else 2)) && m.st.usb.vfat
      ensures r.Done? && !old(KeepsDrive(plan, m.st)) && m.tidy ==>
        HeaderOn(m.st.usb).None? && m.st.mounts == [] && m.st.cryptroot.None?
      ensures m.faultless ==>
        (r.Done? <==> suitable && (old(KeepsDrive(plan, m.st)) || Fits(plan.efiMb, plan.recoveryMb, capacityMb)))
    {
      if !suitable {
        return Raised;
      }
      var mounted :- m.Ask(Mounted(m.st));
      if mounted || (plan.wipe == Skip && !plan.migrate) {
        var holds :- m.Ask(HeaderOn(m.st.usb).Some?);
        if holds {
          return Done;
        }
      }
      if !Fits(plan.efiMb, plan.recoveryMb, capacityMb) {
        return Raised;
      }
      :- ReleaseDrive();
      :- Partition();
      :- m.RunOrRaise(MakeVfat(m.st, true));
      if plan.recoveryMb > 0 {
        :- m.RunOrRaise(Quiet(m.st));
      }
      return Done;
    }

    method ReleaseDrive() returns (r: Step)
      requires m.Valid() && Rooted(m.st)
      modifies m
      ensures m.st == old(m.st).(mounts := m.st.mounts, cryptroot := m.st.cryptroot) && m.st.mounts <= old(m.st.mounts)
      ensures m.st.cryptroot == old(m.st.cryptroot) || (m.st.cryptroot == None && m.st.mounts == [])
      ensures r.Done? && m.tidy ==> m.st.mounts == [] && m.st.cryptroot.None?
      ensures !r.Raised? && (m.faultless ==> r.Done?)
    {
      var _ :- m.Run(UmountTarget(m.st));
      var _ :- m.Run(Quiet(m.st));
      var _ :- m.Run(Quiet(m.st));
      var _ :- m.Run(CloseCryptroot(m.st));
      var _ :- m.Run(Quiet(m.st));
      return Done;
    }

    method Partition() returns (r: Step)
      requires m.Valid()
      modifies m
      ensures m.st == old(m.st).(usb := m.st.usb)
      ensures forall at :: at in m.st.usb.headers ==>
        at in old(m.st.usb.headers) && m.st.usb.headers[at] == old(m.st.usb.headers)[at]
      ensures r.Done? ==> m.st.usb.table == Some(Table(plan.efiMb, if plan.recoveryMb > 0 then 3 else 2))
      ensures r.Done? && m.tidy ==> HeaderOn(m.st.usb).None?
      ensures m.faultless ==> r.Done?
    {
      var _ :- m.Run(ForgetUsbTable(m.st));
      :- m.RunOrRaise(ForgetUsbTable(m.st));
      :- m.RunOrRaise(NewUsbPartition(m.st, Table(plan.efiMb, 1)));
      :- m.RunOrRaise(NewUsbPartition(m.st, Table(plan.efiMb, 2)));
      if plan.recoveryMb > 0 {
        :- m.RunOrRaise(NewUsbPartition(m.st, Table(plan.efiMb, 3)));
      }
      var _ :- m.Run(Quiet(m.st));
      :- WaitForPartition(if plan.recoveryMb > 0 then 3 else 2);
      var _ :- m.Run(WipeHeader(m.st));
      return Done;
    }

    method WaitForPartition(number: nat) returns (r: Step)
      requires m.Valid() && HasParts(m.st.usb, number)
      modifies m
      ensures m.st == old(m.st)
      ensures m.faultless ==> r.Done?
    {
      var polls := 0;
      while polls < 15
        invariant m.st == old(m.st)
        invariant m.faultless ==> polls == 0
      {
        var seen :- m.Appears(HasParts(m.st.usb, number));
        if seen {
          return Done;
        }
        var _ :- m.Run(Quiet(m.st));
        polls := polls + 1;
      }
      return Raised;
    }
  }

  // ------------------------------------------------------------------ the two steps together

  /** A header found on the drive belongs to this disk: it opens the volume that is open, and
      its key is not one yet to come. What is mounted below /mnt is on the open volume. */
  predicate OwnDrive(s: State) {
    && (s.cryptroot.Some? ==> HeaderOn(s.usb).None? || HeaderOn(s.usb).value.key == s.cryptroot.value.key)
    && (HeaderOn(s.usb).Some? ==> HeaderOn(s.usb).value.key < s.nextKey)
    && (Mounted(s) ==> s.cryptroot.Some?)
  }

  /** The header on the drive opens the volume that is open on the internal disk. */
  predicate DriveOpensDisk(s: State) {
    && s.cryptroot.Some? && HeaderOn(s.usb).Some?
    && HeaderOn(s.usb).value.key == s.cryptroot.value.key
  }

  /** What the drive's header opens now, all of it still opens: the header is where it was and
      its volume lost nothing. */
  predicate StillOpens(s: State, t: State) {
    && HeaderOn(s.usb).Some? && HeaderOn(t.usb) == HeaderOn(s.usb)
    && VolumeGrown(VolumeOf(s, HeaderOn(s.usb).value.key), VolumeOf(t, HeaderOn(s.usb).value.key))
  }

  /** A disk that is not wiped now was filled with random data or ciphertext before. */
  predicate FilledBefore(p: Plan, s: State) {
    Mounted(s) || WipeMethod(p) == Skip ==> Hidden(s)
  }

  /** Exactly when both steps, meeting no faults, reach their goals. */
  predicate CanInstall(p: Plan, s: State, suitable: bool, capacityMb: nat) {
    if p.usb then suitable && if KeepsDrive(p, s) then Mounted(s) || Usable(p, s) else Fits(p.efiMb, p.recoveryMb, capacityMb)
    else Mounted(s) || CanConverge(p, s)
  }

  /** The drive step and the storage step, in the order of the installation. Their decisions
      agree: a drive that is kept keeps its header and the volume behind it at every moment
      of the run; one that is prepared anew goes with a disk that is filled with noise, its
      old volume gone; and when both steps return, the drive opens the disk, as long as the
      clean-up commands work. */
  method PrepareDriveAndDisk(drive: UsbBootDriveStepExecutor, disk: StorageStepExecutor) returns (r: Step)
    requires drive.m == disk.m && drive.plan == disk.plan && drive.plan.usb && ValidWipe(drive.plan)
    requires disk.m.Valid() && Rooted(disk.m.st) && OwnDrive(disk.m.st)
    modifies disk.m
    ensures r.Done? && disk.m.tidy ==> DriveOpensDisk(disk.m.st)
    ensures old(KeepsDrive(disk.plan, disk.m.st)) ==> StillOpens(old(disk.m.st), disk.m.st)
    ensures (old(HeaderOn(disk.m.st.usb).Some?) && HeaderOn(disk.m.st.usb) != old(HeaderOn(disk.m.st.usb))) ==>
      !old(Mounted(disk.m.st)) && WipeMethod(disk.plan) == Secure
    ensures (r.Done? && disk.m.tidy && old(HeaderOn(disk.m.st.usb).Some? && !KeepsDrive(disk.plan, disk.m.st))) ==>
      old(HeaderOn(disk.m.st.usb)).value.key !in disk.m.st.volumes
    ensures r.Done? && old(FilledBefore(disk.plan, disk.m.st)) ==> Hidden(disk.m.st)
    ensures disk.m.faultless && Declares(disk.plan) ==>
      (r.Done? <==> old(CanInstall(disk.plan, disk.m.st, drive.suitable, drive.capacityMb)))
  {
    r := drive.Execute();
    :- r;
    r := disk.Execute();
  }
}
