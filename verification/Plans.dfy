/** The part of the configuration the storage, USB drive and migration steps read. */
module Plans {
  import opened Trees

  datatype Wipe = Quick | Secure | Discard | Skip

  datatype Subvolume = Subvolume(name: string, mountpoint: Path)

  /** usb and migrate are `usb_boot.enabled` and `migration.enabled`; a mountpoint of `/` is []. */
  datatype Plan = Plan(
    usb: bool,
    wipe: Wipe,
    efiMb: nat,
    password: string,
    subvolumes: seq<Subvolume>,
    recoveryMb: nat,
    migrate: bool,
    oldPassword: string,
    preserveHome: bool,
    preserveKeys: bool,
    additional: seq<Path>)

  function Names(subvolumes: seq<Subvolume>): (names: set<string>)
    ensures forall i :: 0 <= i < |subvolumes| ==> subvolumes[i].name in names
  {
    set i | 0 <= i < |subvolumes| :: subvolumes[i].name
  }

  /** The configured subvolumes have distinct names, and `@` is one of them. */
  predicate Declares(p: Plan) {
    && "@" in Names(p.subvolumes)
    && forall i, j :: 0 <= i < j < |p.subvolumes| ==> p.subvolumes[i].name != p.subvolumes[j].name
  }

  /** The wipe method the storage step uses. */
  function WipeMethod(p: Plan): Wipe {
    if !p.migrate then p.wipe else if p.usb then Secure else Quick
  }

  /** What validation accepts for a USB boot drive. */
  predicate ValidWipe(p: Plan) {
    p.usb ==> p.migrate || p.wipe == Secure || p.wipe == Skip
  }

  /** The same installation, started again to keep what it finds. */
  function Resumed(p: Plan): Plan {
    p.(wipe := Skip, migrate := false)
  }
}
