/** The machine an installation runs on, and the effect of every shell command the storage,
    USB drive and migration steps give.

    A command is atomic here: it takes effect, or fails, or the run dies around it. What a
    command may leave that begins and does not finish is its `torn` states. */
module Machine {
  import opened Text
  import opened Trees

  type Key = nat

  /** A LUKS header: the password that opens it, and the volume key it holds. */
  datatype Header = Header(password: string, key: Key)

  /** Partitions 1..parts, the second one starting after an EFI partition of efiMb MiB. */
  datatype Table = Table(efiMb: nat, parts: nat)

  /** What lies on a disk: headers by the offset (in MiB) at which they begin, whether or not
      a partition shows them, and a vfat filesystem where the first partition begins. */
  datatype Device = Device(table: Option<Table>, headers: map<nat, Header>, vfat: bool)

  /** The plaintext of the ciphertext one volume key decrypts. */
  datatype Volume = Blank | Btrfs(subs: map<string, Files>)

  /** Kinds of content found on the sectors of the internal disk. */
  datatype Fill = Zero | Noise | Cipher | Clear

  /** An open dm-crypt mapping, backed by the whole disk or by its second partition. */
  datatype Mapping = Mapping(key: Key, whole: bool)

  datatype Source = Top(key: Key) | Sub(key: Key, name: string) | Esp

  /** Something mounted at a path below /mnt. */
  type Mount = Mounting<Source>

  datatype State = State(
    disk: Device,
    usb: Device,
    volumes: map<Key, Volume>, // ciphertext on the internal disk
    esp: Files,                // what the EFI partition of the boot device holds
    shows: set<Fill>,          // every kind its sectors may show
    cryptroot: Option<Mapping>,
    oldroot: Option<Key>,      // the migrated system, open and mounted
    mounts: seq<Mount>,        // below /mnt, in mount order
    staging: Option<Files>,
    nextKey: Key)

  function VolumeOf(s: State, k: Key): Volume {
    if k in s.volumes then s.volumes[k] else Blank
  }

  predicate HasParts(d: Device, parts: nat) {
    d.table.Some? && parts <= d.table.value.parts
  }

  /** The header the second partition shows. */
  function HeaderOn(d: Device): Option<Header> {
    if HasParts(d, 2) && d.table.value.efiMb in d.headers then Some(d.headers[d.table.value.efiMb]) else None
  }

  /** The device `luks_header_device` and `efi_partition` belong to. */
  function BootDevice(detached: bool, s: State): Device {
    if detached then s.usb else s.disk
  }

  function HeaderOf(detached: bool, s: State): Option<Header> {
    HeaderOn(BootDevice(detached, s))
  }

  predicate Mounted(s: State) {
    exists i :: 0 <= i < |s.mounts| && s.mounts[i].path == []
  }

  /** Nothing is mounted below /mnt unless /mnt is. */
  predicate Rooted(s: State) {
    s.mounts != [] ==> s.mounts[0].path == []
  }

  /** The volume the open mapping shows. */
  function OpenVolume(s: State): Volume {
    if s.cryptroot.Some? then VolumeOf(s, s.cryptroot.value.key) else Blank
  }

  function OpenKey(s: State): Key {
    if s.cryptroot.Some? then s.cryptroot.value.key else s.nextKey
  }

  /** The open volume once a tree is copied to a path below /mnt, through the mount table. */
  function Written(s: State, copy: Files, path: Path): map<Key, Volume>
    requires OpenVolume(s).Btrfs?
  {
    var k := s.cryptroot.value.key;
    var subs := OpenVolume(s).subs;
    s.volumes[k := Btrfs(map n | n in subs :: Share(s.mounts, Sub(k, n), subs[n], copy, path))]
  }

  /** Sectors of the internal disk were overwritten with some kinds of content, and nothing else
      changed. */
  predicate PartlyErased(s: State, t: State, fills: set<Fill>) {
    && t == s.(disk := t.disk, volumes := t.volumes, shows := t.shows)
    && t.shows <= s.shows + fills
    && (t.disk.table == s.disk.table || t.disk.table == None)
    && forall at :: at in t.disk.headers ==> at in s.disk.headers && t.disk.headers[at] == s.disk.headers[at]
  }

  // ------------------------------------------------------------------ the commands

  /** How far a command's success can be relied on: as far as any; whenever it can succeed,
      on a tidy machine; or whenever it can. */
  datatype Care = Ordinary | Tidying | Certain

  /** A shell command in some state: whether it can work there, the state it leads to, and
      what it may leave when it begins and does not finish. */
  datatype Command = Command(works: bool, after: State, torn: State -> bool, care: Care)

  function Whole(works: bool, after: State): Command {
    Command(works, after, (t: State) => false, Ordinary)
  }

  /** sync, settle, mkdir, chattr, partprobe: no effect on the model. */
  function Quiet(s: State): Command {
    Whole(true, s)
  }

  /** `umount -R /mnt` unmounts from the last mount on. */
  function UmountTarget(s: State): Command {
    Command(Mounted(s), s.(mounts := []), (t: State) => t == s.(mounts := t.mounts) && t.mounts <= s.mounts, Tidying)
  }

  function CloseCryptroot(s: State): Command {
    Command(s.cryptroot.Some? && s.mounts == [], s.(cryptroot := None), (t: State) => false, Tidying)
  }

  /** `dmsetup remove_all` removes the mappings nothing uses. */
  function RemoveMappings(s: State): Command {
    Command(true, s.(oldroot := None, cryptroot := if s.mounts == [] then None else s.cryptroot), (t: State) => false, Tidying)
  }

  /** Both `wipefs -af` and `sgdisk -Z` on the internal disk. */
  function ForgetTable(s: State): Command {
    var zeroed := s.(shows := s.shows + {Zero});
    Command(true, zeroed.(disk := s.disk.(table := None)), (t: State) => t == zeroed, Ordinary)
  }

  function ErasedState(s: State, fill: Fill): State {
    s.(disk := Device(None, map[], false), volumes := map[], shows := {fill})
  }

  function ShredDisk(s: State): Command {
    Command(true, ErasedState(s, Noise), (t: State) => PartlyErased(s, t, {Noise}), Ordinary)
  }

  /** dd ends with an error once the disk is full, so it fills the disk however it exits. */
  function FillDisk(s: State): Command {
    Command(true, ErasedState(s, Noise), (t: State) => PartlyErased(s, t, {Noise}), Certain)
  }

  function DiscardDisk(s: State): Command {
    Command(true, ErasedState(s, Zero), (t: State) => PartlyErased(s, t, {Zero}), Ordinary)
  }

  /** `sgdisk -n` for the first or second partition of the internal disk. */
  function NewPartition(s: State, table: Table): Command {
    var written := s.(shows := s.shows + {Zero, Clear});
    Command(table.parts <= 1 || HasParts(s.disk, table.parts - 1),
            written.(disk := s.disk.(table := Some(table))), (t: State) => t == written, Ordinary)
  }

  function WithHeader(d: Device, h: Header): Device
    requires d.table.Some?
  {
    d.(headers := d.headers[d.table.value.efiMb := h])
  }

  /** `cryptsetup luksFormat`: a header with a new volume key. Detached from its volume, it
      goes on the USB drive and nothing is written to the disk. */
  function LuksFormat(s: State, detached: bool, password: string): Command {
    var works := HasParts(BootDevice(detached, s), 2);
    var h := Header(password, s.nextKey);
    var t := s.(volumes := s.volumes[s.nextKey := Blank], nextKey := s.nextKey + 1);
    Whole(works, if !works then s
                 else if detached then t.(usb := WithHeader(s.usb, h))
                 else t.(disk := WithHeader(s.disk, h), shows := s.shows + {Clear}))
  }

  function LuksOpen(s: State, detached: bool, password: string): Command {
    var h := HeaderOf(detached, s);
    var works := s.cryptroot.None? && h.Some? && h.value.password == password;
    Whole(works, if works then s.(cryptroot := Some(Mapping(h.value.key, detached))) else s)
  }

  /** mkfs on the open volume overwrites what other keys could read on the disk. */
  function MakeBtrfs(s: State): Command {
    var k := OpenKey(s);
    Command(s.cryptroot.Some?, s.(volumes := map[k := Btrfs(map[])], shows := s.shows + {Cipher}),
            (t: State) => t == s.(volumes := t.volumes, shows := s.shows + {Cipher}), Ordinary)
  }

  function MountTop(s: State): Command {
    Whole(OpenVolume(s).Btrfs?, s.(mounts := s.mounts + [Mounting([], Top(OpenKey(s)))]))
  }

  function CreateSubvolume(s: State, name: string): Command {
    var v := OpenVolume(s);
    var works := v.Btrfs? && name !in v.subs;
    Whole(works, if !works then s
                 else s.(volumes := s.volumes[OpenKey(s) := Btrfs(v.subs[name := map[]])],
                         shows := s.shows + {Cipher}))
  }

  /** `umount /mnt` takes the last mount when it is at /mnt. */
  function UmountTop(s: State): Command {
    var works := s.mounts != [] && s.mounts[|s.mounts| - 1].path == [];
    Whole(works, if works then s.(mounts := s.mounts[..|s.mounts| - 1]) else s)
  }

  function MountSubvolume(s: State, name: string, path: Path): Command {
    var v := OpenVolume(s);
    Whole(v.Btrfs? && name in v.subs && (path == [] || s.mounts != []),
          s.(mounts := s.mounts + [Mounting(path, Sub(OpenKey(s), name))]))
  }

  function MakeVfat(s: State, detached: bool): Command {
    Whole(HasParts(BootDevice(detached, s), 1),
          if detached then s.(usb := s.usb.(vfat := true), esp := map[])
          else s.(disk := s.disk.(vfat := true), esp := map[], shows := s.shows + {Clear}))
  }

  function MountEsp(s: State, detached: bool): Command {
    Whole(HasParts(BootDevice(detached, s), 1) && BootDevice(detached, s).vfat && s.mounts != [],
          s.(mounts := s.mounts + [Mounting(["efi"], Esp)]))
  }

  /** `wipefs -af` and `sgdisk -Z` on the USB drive. */
  function ForgetUsbTable(s: State): Command {
    Whole(true, s.(usb := s.usb.(table := None)))
  }

  function NewUsbPartition(s: State, table: Table): Command {
    Whole(table.parts <= 1 || HasParts(s.usb, table.parts - 1), s.(usb := s.usb.(table := Some(table))))
  }

  /** `wipefs -af` on the drive's second partition. */
  function WipeHeader(s: State): Command {
    var works := HasParts(s.usb, 2);
    Command(works, if works then s.(usb := s.usb.(headers := s.usb.headers - {s.usb.table.value.efiMb})) else s,
            (t: State) => false, Tidying)
  }

  /** Opens the second partition of the internal disk as the system to migrate, and mounts it. */
  function OpenOld(s: State, password: string): Command {
    var h := HeaderOn(s.disk);
    var works := s.oldroot.None? && h.Some? && h.value.password == password && VolumeOf(s, h.value.key).Btrfs?;
    Whole(works, if works then s.(oldroot := Some(h.value.key)) else s)
  }

  function CloseOld(s: State): Command {
    Command(s.oldroot.Some?, s.(oldroot := None), (t: State) => false, Tidying)
  }

  function RemoveStaging(s: State): Command {
    Command(true, s.(staging := None), (t: State) => t == s.(staging := t.staging), Ordinary)
  }

  function MakeStaging(s: State): Command {
    Whole(true, s.(staging := if s.staging.Some? then s.staging else Some(map[])))
  }

  /** `cp -a` does not replace a file by a directory, nor a directory by a file. */
  function CopyIntoStaging(s: State, source: Files, path: Path): Command {
    var works := s.staging.Some? && !Clashes(s.staging.value, source, path);
    Command(works, if works then s.(staging := Some(Copied(s.staging.value, source, path))) else s,
            (t: State) => t == s.(staging := t.staging), Ordinary)
  }

  /** `cp -a` to a path below /mnt. */
  function CopyToTarget(s: State, source: Files, path: Path): Command {
    var works := s.mounts != [] && OpenVolume(s).Btrfs?;
    Command(works,
            if !works then s
            else s.(volumes := Written(s, source, path), esp := Share(s.mounts, Esp, s.esp, source, path),
                    shows := s.shows + {Cipher}),
            (t: State) => t == s.(volumes := t.volumes, esp := t.esp, shows := s.shows + {Cipher}), Ordinary)
  }

  /** How a command ended, when the run is still there to ask. */
  datatype Answer = Ran(ok: bool) | Killed {
    predicate IsFailure() {
      Killed?
    }
    function PropagateFailure(): Step {
      Crashed
    }
    function Extract(): bool
      requires Ran?
    {
      ok
    }
  }

  /** How a step of the installation ended. */
  datatype Step = Done | Raised | Crashed {
    predicate IsFailure() {
      !Done?
    }
    function PropagateFailure(): Step {
      this
    }
  }

  /** The machine as the command runner sees it. Every command may fail, and the run may end
      around any of them, unless the machine is faultless; on a tidy one the clean-up
      commands succeed whenever they can. */
  class Machine {
    var st: State
    const faultless: bool
    const tidy: bool

    ghost predicate Valid() {
      faultless ==> tidy
    }

    constructor (s: State, faultless: bool, tidy: bool)
      requires faultless ==> tidy
      ensures Valid() && st == s && this.faultless == faultless && this.tidy == tidy
    {
      st := s;
      this.faultless := faultless;
      this.tidy := tidy;
    }

    /** `run(command, raise_on_nonzero_exit=False)` */
    method Run(c: Command) returns (a: Answer)
      requires Valid()
      modifies this
      ensures a.Ran? && a.ok ==> c.works && st == c.after
      ensures a.Ran? && !a.ok ==> st == old(st) || (c.works && c.torn(st))
      ensures a.Killed? ==> st == old(st) || (c.works && (st == c.after || c.torn(st)))
      ensures faultless || (c.care.Tidying? && tidy) || c.care.Certain? ==> a.Ran? ==> a.ok == c.works
      ensures faultless ==> a.Ran?
    {
      if !faultless {
        var left: State := *;
        var fate: nat := *;
        if fate == 0 {
          if c.works && (left == c.after || c.torn(left)) {
            st := left;
          }
          return Killed;
        }
        if fate == 1 && c.works && c.torn(left) && !(c.care.Certain? || (c.care.Tidying? && tidy)) {
          st := left;
          return Ran(false);
        }
        if fate == 2 && !(c.care.Certain? || (c.care.Tidying? && tidy)) {
          return Ran(false);
        }
      }
      if c.works {
        st := c.after;
      }
      return Ran(c.works);
    }

    /** `run(command)`: a failing command ends the step. */
    method RunOrRaise(c: Command) returns (r: Step)
      requires Valid()
      modifies this
      ensures r.Done? ==> c.works && st == c.after
      ensures r.Raised? ==> st == old(st) || (c.works && c.torn(st))
      ensures r.Crashed? ==> st == old(st) || (c.works && (st == c.after || c.torn(st)))
      ensures faultless ==> r == if c.works then Done else Raised
    {
      var ok :- Run(c);
      return if ok then Done else Raised;
    }

    /** A command that only asks, and answers truthfully. */
    method Ask(truth: bool) returns (a: Answer)
      requires Valid()
      ensures a.Ran? ==> a.ok == truth
      ensures faultless ==> a.Ran?
    {
      var killed: bool := *;
      return if killed && !faultless then Killed else Ran(truth);
    }

    /** A device node that may still be missing when it is asked for. */
    method Appears(truth: bool) returns (a: Answer)
      requires Valid()
      ensures a.Ran? && a.ok ==> truth
      ensures faultless ==> a == Ran(truth)
    {
      var late: bool := *;
      a := Ask(truth && (faultless || !late));
    }
  }
}
