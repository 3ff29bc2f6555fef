/** The settings of the install steps, in run order, with the conditions of their questions. */
module Registry {
  import opened Text
  import opened Schema
  import opened Precedence
  import opened Session

  /** Setting paths: `usb_boot.enabled` is UsbBootEnabled. */
  datatype Path =
    | MigrationEnabled | SourceLuksPassword
    | UsbBootEnabled | UsbBootDevice | RecoverySystem | IsoPath
    | TargetDisk | WipeMethod | SwapEnabled | SwapSizeMb | Hibernation | LuksPassword
    | CpuVendor | GpuVendor | GpuDriver | SelectedDesktops | SelectedKernels
    | Hostname | UserName | Timezone | Keymap | UserPassword
    | DockerEnabled | EnableSnapshotBoot | NotificationsEnabled | FirewallEnabled

  function Asks(path: Path, question: Question, askedWhen: Condition<Path>): Setting<Path> {
    Setting(path, Some(question), askedWhen)
  }

  const ON_OFF := Switch("On", "Off")

  /** The settings in order. Disks are detected when the question is asked; wipe methods,
      vendors, drivers and swap sizes are fixed lists. */
  function Settings(disks: seq<Choice>, wipes: seq<Choice>, sizes: seq<Choice>, cpus: seq<Choice>, gpus: seq<Choice>,
                    drivers: seq<Choice>): seq<Setting<Path>> {
    [ Asks(MigrationEnabled, Switch("Migration from existing Arch", "Fresh installation"), Always),
      Asks(SourceLuksPassword, EnterSecret, When(MigrationEnabled)),
      Asks(UsbBootEnabled, ON_OFF, Always),
      Asks(UsbBootDevice, ChooseOne(disks), When(UsbBootEnabled)),
      Asks(RecoverySystem, ON_OFF, When(UsbBootEnabled)),
      Asks(IsoPath, EnterText, WhenBoth(UsbBootEnabled, RecoverySystem)),
      Asks(TargetDisk, ChooseOne(disks), Always),
      Asks(WipeMethod, ChooseOne(wipes), Always),
      Asks(SwapEnabled, ON_OFF, Always),
      Asks(SwapSizeMb, ChooseOne(sizes), When(SwapEnabled)),
      Asks(Hibernation, ON_OFF, When(SwapEnabled)),
      Asks(LuksPassword, EnterSecret, Always),
      Asks(CpuVendor, ChooseOne(cpus), Always),
      Asks(GpuVendor, ChooseOne(gpus), Always),
      Asks(GpuDriver, ChooseOne(drivers), WhenEqual(GpuVendor, RStr("nvidia"))),
      Asks(SelectedDesktops, ChooseMany, Always),
      Setting(SelectedKernels, None, Always),
      Asks(Hostname, EnterText, Always),
      Asks(UserName, EnterText, Always),
      Asks(Timezone, EnterText, Always),
      Asks(Keymap, EnterText, Always),
      Asks(UserPassword, EnterSecret, Always),
      Asks(DockerEnabled, ON_OFF, Always),
      Asks(EnableSnapshotBoot, ON_OFF, Always),
      Asks(NotificationsEnabled, ON_OFF, Always),
      Asks(FirewallEnabled, ON_OFF, Always) ]
  }

  /** The position of a setting in the order of the questions. */
  function Rank(p: Path): nat {
    match p
    case MigrationEnabled => 0 case SourceLuksPassword => 1
    case UsbBootEnabled => 2 case UsbBootDevice => 3 case RecoverySystem => 4 case IsoPath => 5
    case TargetDisk => 6 case WipeMethod => 7 case SwapEnabled => 8 case SwapSizeMb => 9
    case Hibernation => 10 case LuksPassword => 11
    case CpuVendor => 12 case GpuVendor => 13 case GpuDriver => 14 case SelectedDesktops => 15 case SelectedKernels => 16
    case Hostname => 17 case UserName => 18 case Timezone => 19 case Keymap => 20 case UserPassword => 21
    case DockerEnabled => 22 case EnableSnapshotBoot => 23 case NotificationsEnabled => 24 case FirewallEnabled => 25
  }

  predicate Ranked(settings: seq<Setting<Path>>) {
    forall i :: 0 <= i < |settings| ==>
      Rank(settings[i].path) == i && forall p :: p in Reads(settings[i].askedWhen) ==> Rank(p) < i
  }

  lemma RankedInOrder(settings: seq<Setting<Path>>)
    requires Ranked(settings)
    ensures AskedInOrder(settings)
  {
    forall i, j | 0 <= i < j < |settings|
      ensures settings[i].path != settings[j].path
    {
      assert Rank(settings[i].path) != Rank(settings[j].path);
    }
    forall i, j | 0 <= i <= j < |settings|
      ensures settings[j].path !in Reads(settings[i].askedWhen)
    {
      assert Rank(settings[j].path) == j;
    }
  }

  lemma SettingsRanked(settings: seq<Setting<Path>>, disks: seq<Choice>, wipes: seq<Choice>, sizes: seq<Choice>,
                       cpus: seq<Choice>, gpus: seq<Choice>, drivers: seq<Choice>)
    requires settings == Settings(disks, wipes, sizes, cpus, gpus, drivers)
    ensures Ranked(settings)
  {
    forall i | 0 <= i < |settings|
      ensures Rank(settings[i].path) == i && forall p :: p in Reads(settings[i].askedWhen) ==> Rank(p) < i
    {
    }
  }

  /** The registry's conditions read only settings asked earlier, so for any front-end each of
      its questions is asked exactly when its condition holds on the final values. */
  lemma {:induction false} RegistryAsksOnFinalValues(settings: seq<Setting<Path>>, disks: seq<Choice>,
          wipes: seq<Choice>, sizes: seq<Choice>, cpus: seq<Choice>, gpus: seq<Choice>, drivers: seq<Choice>,
          environment: map<Path, Raw>, file: map<Path, Raw>, inherited: Inherited<Path>, frontend: Path -> Reply,
          final: map<Path, SettingValue<Raw>>, i: nat)
    requires settings == Settings(disks, wipes, sizes, cpus, gpus, drivers) && i < |settings|
    requires Inherits(environment, file, inherited)
    requires Chooses(inherited, Asked(settings, inherited, frontend, |settings|), final)
    ensures AskedInOrder(settings)
    ensures settings[i].path in Asked(settings, inherited, frontend, |settings|) <==>
      settings[i].question.Some? && Wanted(settings[i].askedWhen, final)
  {
    SettingsRanked(settings, disks, wipes, sizes, cpus, gpus, drivers);
    RankedInOrder(settings);
    AskedOnFinalValues(settings, environment, file, inherited, frontend, final, i);
  }

  lemma SettingOf(settings: seq<Setting<Path>>, disks: seq<Choice>, wipes: seq<Choice>, sizes: seq<Choice>,
                  cpus: seq<Choice>, gpus: seq<Choice>, drivers: seq<Choice>, p: Path)
    requires settings == Settings(disks, wipes, sizes, cpus, gpus, drivers)
    ensures Rank(p) < |settings| && settings[Rank(p)].path == p
    ensures settings[Rank(p)].question.Some? <==> p != SelectedKernels
    ensures settings[Rank(p)].askedWhen ==
      match p
      case SourceLuksPassword => When(MigrationEnabled)
      case UsbBootDevice => When(UsbBootEnabled)
      case RecoverySystem => When(UsbBootEnabled)
      case IsoPath => WhenBoth(UsbBootEnabled, RecoverySystem)
      case SwapSizeMb => When(SwapEnabled)
      case Hibernation => When(SwapEnabled)
      case GpuDriver => WhenEqual(GpuVendor, RStr("nvidia"))
      case _ => Always
  {
  }

  /** Which questions the final values call for: those about the drive with a USB boot drive, the
      recovery ISO with a recovery system on it, the swap's with swap, the driver with an NVIDIA
      card, the old password with a migration; all others always, but the kernels never. */
  lemma {:induction false} QuestionsAsked(settings: seq<Setting<Path>>, disks: seq<Choice>, wipes: seq<Choice>,
          sizes: seq<Choice>, cpus: seq<Choice>, gpus: seq<Choice>, drivers: seq<Choice>,
          environment: map<Path, Raw>, file: map<Path, Raw>, inherited: Inherited<Path>, frontend: Path -> Reply,
          final: map<Path, SettingValue<Raw>>, p: Path)
    requires settings == Settings(disks, wipes, sizes, cpus, gpus, drivers) && Inherits(environment, file, inherited)
    requires Chooses(inherited, Asked(settings, inherited, frontend, |settings|), final)
    ensures p in Asked(settings, inherited, frontend, |settings|) <==>
      match p
      case SourceLuksPassword => IsOn(final, MigrationEnabled)
      case UsbBootDevice => IsOn(final, UsbBootEnabled)
      case RecoverySystem => IsOn(final, UsbBootEnabled)
      case IsoPath => IsOn(final, UsbBootEnabled) && IsOn(final, RecoverySystem)
      case SwapSizeMb => IsOn(final, SwapEnabled)
      case Hibernation => IsOn(final, SwapEnabled)
      case GpuDriver => GpuVendor in final && final[GpuVendor].value == RStr("nvidia")
      case SelectedKernels => false
      case _ => true
  {
    SettingOf(settings, disks, wipes, sizes, cpus, gpus, drivers, p);
    RegistryAsksOnFinalValues(settings, disks, wipes, sizes, cpus, gpus, drivers, environment, file, inherited, frontend,
                              final, Rank(p));
  }
}
