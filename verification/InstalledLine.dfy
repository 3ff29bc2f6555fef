/** The kernel command line the installer writes, and the entries snapshots get from it. */
module InstalledLine {
  import opened Text
  import opened Replacement
  import opened SnapshotCmdline
  import opened SnapshotBoot

  // ---- the line the installer writes ----

  /** The settings `kernel_cmdline` turns into parameters; the hardening ones without those
      left at the kernel's default. */
  datatype KernelSettings = KernelSettings(
    luksUuid: string,
    root: string,
    rw: bool,
    rootfstype: string,
    rootflags: string,
    detachedHeader: Option<(string, string)>,  // data device path, header partition UUID
    quiet: bool,
    hardening: seq<(string, string)>,
    hibernation: bool,
    resumeOffset: Option<string>)

  function KernelParameters(c: KernelSettings): seq<string> {
    RootParameters(c) + FurtherParameters(c)
  }

  function RootParameters(c: KernelSettings): seq<string> {
    ["rd.luks.name=" + c.luksUuid + "=cryptroot", "root=" + c.root, if c.rw then "rw" else "ro",
     "rootfstype=" + c.rootfstype, ROOTFLAGS + c.rootflags]
  }

  function FurtherParameters(c: KernelSettings): seq<string> {
    HeaderParameters(c.luksUuid, c.detachedHeader)
    + (if c.quiet then ["quiet"] else [])
    + HardeningParameters(c.hardening)
    + ResumeParameters(c)
  }

  function HeaderParameters(uuid: string, header: Option<(string, string)>): seq<string> {
    match header
    case None => []
    case Some((device, partuuid)) =>
      ["rd.luks.data=" + uuid + "=" + device,
       "rd.luks.options=" + uuid + "=" + ("header=/dev/disk/by-partuuid/" + partuuid)]
  }

  function HardeningParameters(values: seq<(string, string)>): seq<string> {
    seq(|values|, i requires 0 <= i < |values| => values[i].0 + "=" + values[i].1)
  }

  function ResumeParameters(c: KernelSettings): seq<string> {
    if !c.hibernation then []
    else ["resume=" + c.root] + (match c.resumeOffset case None => [] case Some(offset) => ["resume_offset=" + offset])
  }

  const ROOTFLAGS_POSITION: nat := 4

  /** No value brings a space, or another "rootflags=", into the line. */
  predicate Regular(ps: seq<string>) {
    && |ps| > ROOTFLAGS_POSITION && AllFree(ps, ' ')
    && forall i :: 0 <= i < |ps| ==> ps[i] != "" && (i != ROOTFLAGS_POSITION ==> !HasRootflags(ps[i]))
  }

  lemma {:induction false} AllNonEmpty(ps: seq<string>)
    requires forall i :: 0 <= i < |ps| ==> ps[i] != ""
    ensures NonEmpty(ps) == ps
  {
    if ps != [] {
      AllNonEmpty(ps[1..]);
    }
  }

  lemma {:induction false} JoinStarts(ps: seq<string>, sep: char)
    requires |ps| >= 1
    ensures StartsWith(Join(ps, sep), ps[0])
  {
    if |ps| > 1 {
      assert Join(ps, sep) == ps[0] + ([sep] + Join(ps[1..], sep));
    }
  }

  lemma {:induction false} LuksIsNamed(ps: seq<string>, uuid: string)
    requires |ps| >= 1 && ps[0] == "rd.luks.name=" + uuid
    ensures HasLuks(Join(ps, ' '))
  {
    var line := Join(ps, ' ');
    JoinStarts(ps, ' ');
    assert line[..|ps[0]|] == ps[0];
    assert ps[0][..7] == "rd.luks";
    assert line[..7] == ps[0][..7];
    assert line[0..] == line && LuksHere(line[0..]);
  }

  // ---- no mode stands inside the parameters of such a line ----

  lemma RunIsSteady(t: string)
    requires AllWordCharacters(t) && !IsMode(t)
    ensures NoMode(t)
  {
    WholeRunStands(t, "rw");
    WholeRunStands(t, "ro");
  }

  lemma JoinedIsSteady(a: string, c: char, b: string, whole: string)
    requires !IsWordCharacter(c) && whole == a + [c] + b
    ensures NoMode(whole) <==> NoMode(a) && NoMode(b)
  {
    StandsOnOneSide(a, c, b, "rw");
    StandsOnOneSide(a, c, b, "ro");
  }

  lemma SettingIsSteady(name: string, value: string, p: string)
    requires AllWordCharacters(name) && !IsMode(name) && p == name + "=" + value
    ensures NoMode(p) <==> NoMode(value)
  {
    RunIsSteady(name);
    JoinedIsSteady(name, '=', value, p);
  }

  /** A parameter such as `rd.luks.name=VALUE`. */
  lemma LuksSettingIsSteady(option: string, value: string, p: string)
    requires AllWordCharacters(option) && !IsMode(option) && p == "rd.luks." + option + "=" + value
    ensures NoMode(p) <==> NoMode(value)
  {
    var setting := option + "=" + value;
    var rest := "luks." + setting;
    assert p == "rd" + ['.'] + rest;
    SettingIsSteady(option, value, setting);
    RunIsSteady("luks");
    JoinedIsSteady("luks", '.', setting, rest);
    RunIsSteady("rd");
    JoinedIsSteady("rd", '.', rest, p);
  }

  /** Neither mode stands in a value of the settings. */
  predicate PlainSettings(c: KernelSettings) {
    && NoMode(c.luksUuid) && NoMode(c.root) && NoMode(c.rootfstype) && NoMode(c.rootflags)
    && (c.detachedHeader.Some? ==> NoMode(c.detachedHeader.value.0) && NoMode(c.detachedHeader.value.1))
    && (forall i :: 0 <= i < |c.hardening| ==> NoMode(c.hardening[i].0) && NoMode(c.hardening[i].1))
    && (c.resumeOffset.Some? ==> NoMode(c.resumeOffset.value))
  }

  lemma RootParametersAreSteady(c: KernelSettings)
    requires PlainSettings(c)
    ensures AllSteady(RootParameters(c))
  {
    var ps := RootParameters(c);
    RunIsSteady("cryptroot");
    JoinedIsSteady(c.luksUuid, '=', "cryptroot", c.luksUuid + "=cryptroot");
    LuksSettingIsSteady("name", c.luksUuid + "=cryptroot", ps[0]);
    SettingIsSteady("root", c.root, ps[1]);
    SettingIsSteady("rootfstype", c.rootfstype, ps[3]);
    SettingIsSteady("rootflags", c.rootflags, ps[4]);
  }

  lemma DirectoryIsSteady(directory: string, c: char, rest: string, path: string)
    requires AllWordCharacters(directory) && !IsMode(directory) && !IsWordCharacter(c)
    requires path == directory + [c] + rest && NoMode(rest)
    ensures NoMode(path)
  {
    RunIsSteady(directory);
    JoinedIsSteady(directory, c, rest, path);
  }

  lemma PartitionPathIsSteady(partuuid: string, path: string)
    requires NoMode(partuuid) && path == "/dev/disk/by-partuuid/" + partuuid
    ensures NoMode(path)
  {
    var byUuid := path[13..];
    DirectoryIsSteady("partuuid", '/', partuuid, byUuid);
    DirectoryIsSteady("by", '-', byUuid, path[10..]);
    DirectoryIsSteady("disk", '/', path[10..], path[5..]);
    DirectoryIsSteady("dev", '/', path[5..], path[1..]);
    DirectoryIsSteady("", '/', path[1..], path);
  }

  lemma DataParameterIsSteady(uuid: string, device: string, p: string)
    requires NoMode(uuid) && NoMode(device) && p == "rd.luks.data=" + uuid + "=" + device
    ensures NoMode(p)
  {
    JoinedIsSteady(uuid, '=', device, uuid + "=" + device);
    LuksSettingIsSteady("data", uuid + "=" + device, p);
  }

  lemma HeaderOptionIsSteady(partuuid: string, option: string)
    requires NoMode(partuuid) && option == "header=/dev/disk/by-partuuid/" + partuuid
    ensures NoMode(option)
  {
    var path := option[7..];
    PartitionPathIsSteady(partuuid, path);
    SettingIsSteady("header", path, option);
  }

  lemma OptionsParameterIsSteady(uuid: string, option: string, p: string)
    requires NoMode(uuid) && NoMode(option) && p == "rd.luks.options=" + uuid + "=" + option
    ensures NoMode(p)
  {
    JoinedIsSteady(uuid, '=', option, uuid + "=" + option);
    LuksSettingIsSteady("options", uuid + "=" + option, p);
  }

  lemma HeaderParametersAreSteady(uuid: string, header: Option<(string, string)>)
    requires NoMode(uuid) && (header.Some? ==> NoMode(header.value.0) && NoMode(header.value.1))
    ensures AllSteady(HeaderParameters(uuid, header))
  {
    if header.Some? {
      var ps, option := HeaderParameters(uuid, header), "header=/dev/disk/by-partuuid/" + header.value.1;
      DataParameterIsSteady(uuid, header.value.0, ps[0]);
      HeaderOptionIsSteady(header.value.1, option);
      assert ps[1] == "rd.luks.options=" + uuid + "=" + option;
      OptionsParameterIsSteady(uuid, option, ps[1]);
    }
  }

  lemma HardeningParametersAreSteady(values: seq<(string, string)>)
    requires forall i :: 0 <= i < |values| ==> NoMode(values[i].0) && NoMode(values[i].1)
    ensures AllSteady(HardeningParameters(values))
  {
    forall i | 0 <= i < |values|
      ensures Steady(HardeningParameters(values)[i])
    {
      JoinedIsSteady(values[i].0, '=', values[i].1, HardeningParameters(values)[i]);
    }
  }

  lemma ResumeParametersAreSteady(c: KernelSettings)
    requires PlainSettings(c)
    ensures AllSteady(ResumeParameters(c))
  {
    if c.hibernation {
      SettingIsSteady("resume", c.root, ResumeParameters(c)[0]);
      if c.resumeOffset.Some? {
        SettingIsSteady("resume_offset", c.resumeOffset.value, ResumeParameters(c)[1]);
      }
    }
  }

  lemma FurtherParametersAreSteady(c: KernelSettings)
    requires PlainSettings(c)
    ensures AllSteady(FurtherParameters(c))
  {
    HeaderParametersAreSteady(c.luksUuid, c.detachedHeader);
    RunIsSteady("quiet");
    HardeningParametersAreSteady(c.hardening);
    ResumeParametersAreSteady(c);
  }

  /** With plain flags in force, no mode stands inside a parameter of the line. */
  lemma InstalledLineIsSteady(c: KernelSettings, flags: string)
    requires PlainSettings(c) && NoMode(flags)
    ensures AllSteady(KernelParameters(c)[ROOTFLAGS_POSITION := ROOTFLAGS + flags])
  {
    RootParametersAreSteady(c);
    FurtherParametersAreSteady(c);
    SettingIsSteady("rootflags", flags, ROOTFLAGS + flags);
  }

  /** The values an installation has unless it is told otherwise are plain. */
  lemma DefaultsArePlain(root: string, rootfstype: string, rootflags: string)
    requires root == "/dev/mapper/cryptroot" && rootfstype == "btrfs" && rootflags == "subvol=@"
    ensures NoMode(root) && NoMode(rootfstype) && NoMode(rootflags)
  {
    RunIsSteady("cryptroot");
    DirectoryIsSteady("mapper", '/', root[12..], root[5..]);
    DirectoryIsSteady("dev", '/', root[5..], root[1..]);
    DirectoryIsSteady("", '/', root[1..], root);
    RunIsSteady(rootfstype);
    RunIsSteady("");
    JoinedIsSteady("", '@', "", "@");
    SettingIsSteady("subvol", "@", rootflags);
  }

  lemma ReplacedIsPlain(name: string, value: string, x: string, rest: string)
    requires NoMode(name + ['='] + (value + rest)) && NoMode(x) && (rest == "" || rest[0] == ',')
    ensures NoMode(name + ['='] + (x + rest))
  {
    JoinedIsSteady(name, '=', value + rest, name + ['='] + (value + rest));
    if rest == "" {
      assert x + rest == x;
    } else {
      assert rest == [','] + rest[1..];
      JoinedIsSteady(value, ',', rest[1..], value + rest);
      JoinedIsSteady(x, ',', rest[1..], x + rest);
    }
    JoinedIsSteady(name, '=', x + rest, name + ['='] + (x + rest));
  }

  lemma SubvolText(a: string, value: string, rest: string)
    ensures a + SUBVOL + value + rest == (a + "subvol") + ['='] + (value + rest)
  {
    assert SUBVOL == "subvol" + ['='];
  }

  /** New root flags are as plain as the old ones and the subvolume's name. */
  lemma NewFlagsArePlain(flags: string, x: string)
    requires NoMode(flags) && NoMode(x)
    ensures NoMode(NewFlags(flags, x))
  {
    if HasSubvol(flags) {
      var a, rest := Before(flags, SUBVOL), After(flags, SUBVOL, ',');
      var value := ReplacedAround(flags, SUBVOL, ',');
      SubvolText(a, value, rest);
      SubvolText(a, x, rest);
      ReplacedIsPlain(a + "subvol", value, x, rest);
    }
  }

  /** Snapshot entries of an installed system. Every parameter of its own entries is there, in
      order, exactly when neither mode stands inside one, as in settings that are plain; and
      then the snapshot is what boots exactly when the configured root flags name their
      subvolume with an option of its own. */
  lemma InstalledSystemsSnapshots(c: KernelSettings, uuid: Option<string>, x: string)
    requires Regular(KernelParameters(c)) && Free(c.rootflags, ' ')
    requires !HasRootflags((ROOTFLAGS + c.rootflags)[1..])
    requires Free(x, ' ') && Free(x, ',') && !HasSubvol(x)
    ensures var line := Parameters(BuildSnapshotCmdline(Join(KernelParameters(c), ' '), uuid, x, "rw"));
            var steady := AllSteady(KernelParameters(c)[ROOTFLAGS_POSITION := ROOTFLAGS + NewFlags(c.rootflags, x)]);
            && (line == SnapshotParameters(KernelParameters(c), ROOTFLAGS_POSITION, c.rootflags, x, "rw") <==> steady)
            && (PlainSettings(c) && NoMode(x) ==> steady)
            && (steady ==> (BootedSubvolume(line) == Some(x)
                            <==> SubvolIsOption(c.rootflags) || MountedSubvolume(c.rootflags) == Some(x)))
  {
    var ps := KernelParameters(c);
    var base := Join(ps, ' ');
    LineHasParameters(c);
    var k := ROOTFLAGS_POSITION;
    assert OnlyRootflags(ps, k, c.rootflags);
    SnapshotLineKeepsParameters(base, uuid, k, c.rootflags, x, "rw");
    if AllSteady(ps[k := ROOTFLAGS + NewFlags(c.rootflags, x)]) {
      EntryBootsItsSnapshot(base, uuid, k, c.rootflags, x, "rw");
      FlagsInForce(ps, k, c.rootflags);
    }
    if PlainSettings(c) && NoMode(x) {
      NewFlagsArePlain(c.rootflags, x);
      InstalledLineIsSteady(c, NewFlags(c.rootflags, x));
    }
  }

  lemma LineHasParameters(c: KernelSettings)
    requires Regular(KernelParameters(c))
    ensures Parameters(Join(KernelParameters(c), ' ')) == KernelParameters(c) && HasLuks(Join(KernelParameters(c), ' '))
  {
    var ps := KernelParameters(c);
    SplitJoin(ps, ' ');
    AllNonEmpty(ps);
    assert ps[0] == "rd.luks.name=" + (c.luksUuid + "=cryptroot");
    LuksIsNamed(ps, c.luksUuid + "=cryptroot");
  }

  lemma FlagsInForce(ps: seq<string>, k: nat, flags: string)
    requires OnlyRootflags(ps, k, flags)
    ensures BootedSubvolume(ps) == MountedSubvolume(flags)
  {
    assert ps == ps[..k] + [ps[k]] + ps[k + 1..];
    OnlyFlagsInForce(ps[..k], ps[k], flags, ps[k + 1..]);
  }

  /** Root flags without "subvol=": every "snapshot" entry boots the default subvolume. */
  lemma WithoutSubvolTheEntryMissesItsSnapshot(flags: string, x: string)
    requires !HasSubvol(flags)
    ensures MountedSubvolume(NewFlags(flags, x)).None?
  {
    NoSubvolNoOption(flags);
  }

  /** An installation whose root flags only set the compression is one of them. */
  lemma CompressionAloneMissesTheSnapshot(number: nat)
    ensures MountedSubvolume(NewFlags("compress=zstd", SnapshotSubvolume(number))).None?
  {
    var flags := "compress=zstd";
    NoneWithout(flags, SUBVOL, 'v');
    WithoutSubvolTheEntryMissesItsSnapshot(flags, SnapshotSubvolume(number));
  }

  /** The subvolume of a snapshot, as the script names it. */
  function SnapshotSubvolume(number: nat): string {
    "@snapshots/" + Decimal(number) + "/snapshot"
  }

  lemma SnapshotSubvolumeIsSteady(number: nat)
    ensures NoMode(SnapshotSubvolume(number))
  {
    var digits := Decimal(number);
    assert digits[0] in digits;
    RunIsSteady(digits);
    RunIsSteady("");
    RunIsSteady("snapshots");
    RunIsSteady("snapshot");
    JoinedIsSteady(digits, '/', "snapshot", digits + "/snapshot");
    JoinedIsSteady("snapshots", '/', digits + "/snapshot", "snapshots/" + digits + "/snapshot");
    assert SnapshotSubvolume(number) == "" + ['@'] + ("snapshots/" + digits + "/snapshot");
    JoinedIsSteady("", '@', "snapshots/" + digits + "/snapshot", SnapshotSubvolume(number));
  }

  /** Such a name is a value the results above apply to. */
  lemma SnapshotSubvolumeIsPlain(number: nat)
    ensures var x := SnapshotSubvolume(number);
            Free(x, ' ') && Free(x, ',') && !HasSubvol(x) && NoMode(x)
  {
    SnapshotSubvolumeIsSteady(number);
    var x := SnapshotSubvolume(number);
    NameIsFree("@snapshots/", Decimal(number), "/snapshot", ' ');
    NameIsFree("@snapshots/", Decimal(number), "/snapshot", ',');
    NameIsFree("@snapshots/", Decimal(number), "/snapshot", '=');
    NoneWithout(x, SUBVOL, '=');
  }

  lemma NameIsFree(before: string, digits: string, after: string, c: char)
    requires Free(before, c) && Free(after, c) && AllDigits(digits) && !IsDigit(c)
    ensures Free(before + digits + after, c)
  {
    FreeAppend(before, digits, c);
    FreeAppend(before + digits, after, c);
  }

  /** The number of the snapshot reads back from the name, so no two snapshots share one. */
  lemma SnapshotOfSubvolume(number: nat, x: string)
    requires x == SnapshotSubvolume(number)
    ensures 20 < |x| && x[..11] == "@snapshots/" && x[|x| - 9..] == "/snapshot"
    ensures AllDigits(x[11..|x| - 9]) && Number(x[11..|x| - 9]) == number
  {
    DecimalRoundTrip(number);
    assert x[11..|x| - 9] == Decimal(number);
  }

  // ---- a line that does not name the LUKS volume ----

  lemma {:induction false} HasIsContains(s: string, word: string)
    requires word != ""
    ensures Has(s, word) <==> Contains(s, word)
  {
    if s == "" {
      assert !StartsWith(s, word);
    } else {
      HasIsContains(s[1..], word);
      if Contains(s, word) {
        var i :| 0 <= i <= |s| && StartsWith(s[i..], word);
        assert i > 0 ==> s[i..] == s[1..][i - 1..];
        assert s[0..] == s;
      }
      if Has(s[1..], word) {
        var i :| 0 <= i <= |s[1..]| && StartsWith(s[1..][i..], word);
        assert s[1..][i..] == s[i + 1..];
      }
      assert s[0..] == s;
    }
  }

  lemma {:induction false} RootflagsBehind(p: string, base: string, line: string)
    requires line == p + " " + base && !HasRootflags(p)
    ensures Contains(line, ROOTFLAGS) <==> Contains(base, ROOTFLAGS)
  {
    HasIsContains(line, ROOTFLAGS);
    HasIsContains(base, ROOTFLAGS);
    assert line == p + (" " + base) == (p + " ") + base;
    if HasRootflags(base) {
      HasAfter(p + " ", base, ROOTFLAGS);
    } else {
      var behind := " " + base;
      assert behind[1..] == base;
      if |behind| >= |ROOTFLAGS| {
        assert behind[..|ROOTFLAGS|][0] == ' ';
      }
      NoneAcross(p, behind, ROOTFLAGS, ' ');
    }
  }

  lemma {:induction false} WordsBehind(p: string, base: string, line: string, x: string)
    requires line == p + " " + base && Free(p, ' ') && !HasRootflags(p)
    ensures SubvolumeWords(line, x) == [p] + SubvolumeWords(base, x)
  {
    RootflagsBehind(p, base, line);
    SplitPrefix(p, base, ' ');
    assert line == p + [' '] + base;
    NoRootflagsNoMatch(p);
    assert ([p] + Split(base, ' '))[1..] == Split(base, ' ');
  }

  /** A parameter before a line stays before the snapshot's parameters. */
  lemma {:induction false} ParameterBefore(p: string, base: string, line: string, x: string, mode: string)
    requires line == p + " " + base && p != "" && Free(p, ' ') && !HasRootflags(p) && NoMode(p)
    requires Free(x, ' ') && IsMode(mode)
    ensures Parameters(BuildSnapshotCmdline(line, None, x, mode))
      == [p] + Parameters(BuildSnapshotCmdline(base, None, x, mode))
  {
    var words := SubvolumeWords(base, x);
    assert Free(mode, ' ') && mode != "";
    SnapshotLineByWord(line, x, mode);
    SnapshotLineByWord(base, x, mode);
    WordsBehind(p, base, line, x);
    ModesRemovedFromEach([p] + words);
    assert ([p] + words)[1..] == words;
    ModesStand(p);
    OneNonEmpty(p, EachWithoutMode(words));
  }

  /** A line that does not name the LUKS volume gets the parameters that do, before its own. */
  lemma {:induction false} VolumeIsNamed(base: string, uuid: string, x: string, mode: string, name: string,
          root: string)
    requires !HasLuks(base) && name == "rd.luks.name=" + uuid + "=cryptroot" && root == "root=/dev/mapper/cryptroot"
    requires Free(uuid, ' ') && NoMode(uuid) && !HasRootflags(name) && Free(x, ' ') && IsMode(mode)
    ensures Parameters(BuildSnapshotCmdline(base, Some(uuid), x, mode))
      == [name, root] + Parameters(BuildSnapshotCmdline(base, None, x, mode))
  {
    NamedLine(base, uuid, x, mode, name, root);
    NameIsSteady(uuid, name);
    RootIsSteady(root, "/dev/mapper/cryptroot");
    RootIsPlainText(root);
    TwoBefore(name, root, base, x, mode);
  }

  lemma {:induction false} TwoBefore(p: string, q: string, base: string, x: string, mode: string)
    requires p != "" && Free(p, ' ') && !HasRootflags(p) && NoMode(p)
    requires q != "" && Free(q, ' ') && !HasRootflags(q) && NoMode(q)
    requires Free(x, ' ') && IsMode(mode)
    ensures Parameters(BuildSnapshotCmdline(p + " " + (q + " " + base), None, x, mode))
      == [p, q] + Parameters(BuildSnapshotCmdline(base, None, x, mode))
  {
    var behind := q + " " + base;
    ParameterBefore(p, behind, p + " " + behind, x, mode);
    ParameterBefore(q, base, behind, x, mode);
  }

  lemma NamedLine(base: string, uuid: string, x: string, mode: string, name: string, root: string)
    requires !HasLuks(base) && name == "rd.luks.name=" + uuid + "=cryptroot" && root == "root=/dev/mapper/cryptroot"
    ensures BuildSnapshotCmdline(base, Some(uuid), x, mode)
      == BuildSnapshotCmdline(name + " " + (root + " " + base), None, x, mode)
  {
    assert WithLuks(base, Some(uuid)) == name + " " + (root + " " + base);
  }

  lemma NameIsSteady(uuid: string, name: string)
    requires name == "rd.luks.name=" + uuid + "=cryptroot" && Free(uuid, ' ') && NoMode(uuid)
    ensures NoMode(name) && Free(name, ' ') && name != ""
  {
    RunIsSteady("cryptroot");
    JoinedIsSteady(uuid, '=', "cryptroot", uuid + "=cryptroot");
    LuksSettingIsSteady("name", uuid + "=cryptroot", name);
  }

  lemma RootIsSteady(root: string, path: string)
    requires root == "root=/dev/mapper/cryptroot" && path == "/dev/mapper/cryptroot"
    ensures NoMode(root)
  {
    DefaultsArePlain(path, "btrfs", "subvol=@");
    assert root == "root" + "=" + path;
    SettingIsSteady("root", path, root);
  }

  lemma RootIsPlainText(root: string)
    requires root == "root=/dev/mapper/cryptroot"
    ensures Free(root, ' ') && !HasRootflags(root) && root != ""
  {
    NoneWithout(root, ROOTFLAGS, 'g');
  }

  // ---- a line without root flags ----

  lemma {:induction false} EachWithoutAppend(words: seq<string>, last: string, word: string)
    requires word != ""
    ensures EachWithout(words + [last], word) == EachWithout(words, word) + [RemoveWord(last, false, word)]
  {
    if words == [] {
      assert words + [last] == [last] && [last][1..] == [];
    } else {
      assert (words + [last])[1..] == words[1..] + [last];
      EachWithoutAppend(words[1..], last, word);
    }
  }

  /** A line without root flags gets some, and the entry boots its snapshot. */
  lemma {:induction false} FlagsAreAdded(base: string, x: string, mode: string, p: string)
    requires !Contains(base, ROOTFLAGS) && p == ROOTFLAGS + (SUBVOL + x) && NoMode(p)
    requires Free(x, ' ') && Free(x, ',') && IsMode(mode)
    ensures BootedSubvolume(Parameters(BuildSnapshotCmdline(base, None, x, mode))) == Some(x)
  {
    var words := Split(base, ' ');
    assert Free(mode, ' ') && mode != "";
    SnapshotLineByWord(base, x, mode);
    assert ROOTFLAGS + SUBVOL + x == p;
    EachWithoutAppend(words, p, "rw");
    EachWithoutAppend(EachWithout(words, "rw"), RemoveWord(p, false, "rw"), "ro");
    ModesStand(p);
    NonEmptyAppend(EachWithoutMode(words), [p]);
    assert NonEmpty([p]) == [p] by {
      assert [p][1..] == [];
    }
    LastFlagsBoot(NonEmpty(EachWithoutMode(words)), p, x, mode);
  }

  lemma {:induction false} LastFlagsBoot(before: seq<string>, p: string, x: string, mode: string)
    requires p == ROOTFLAGS + (SUBVOL + x) && Free(x, ',') && IsMode(mode)
    ensures BootedSubvolume(before + [p] + [mode]) == Some(x)
  {
    ModeHasNoRootflags();
    NoRootflagsParameter([mode]);
    RootFlagsAppend(before + [p], [mode]);
    RootFlagsAppend(before, [p]);
    assert p[..|ROOTFLAGS|] == ROOTFLAGS && p[|ROOTFLAGS|..] == SUBVOL + x && [p][1..] == [];
    MountedAtEnd("", x);
    assert "" + (SUBVOL + x) == SUBVOL + x;
    LastPartEmpty("", ',');
  }
}
