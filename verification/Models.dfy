/** The installer's configuration model, as a declared type. */
module Models {
  import opened Schema
  import opened Nesting
  import opened RoundTrip
  import opened ExportedConfig
  import SecretsRun

  const WIPE_METHOD := TEnum(["quick", "secure", "discard", "skip"])
  const CPU_VENDOR := TEnum(["amd", "intel", ""])
  const GPU_VENDOR := TEnum(["amd", "intel", "nvidia", "none"])
  const GPU_DRIVER := TEnum(["nouveau", "nvidia-open", "nvidia-dkms", ""])
  const FIREWALL_POLICY := TEnum(["allow", "deny", "reject"])
  const DESKTOP := TEnum(["kde", "gnome", "hyprland"])
  const BACKUP_CATEGORY := TEnum(["dotfiles", "keepass", "browser", "system"])

  const USER: Type := TSection([Field("name", TStr), Field("groups", TTuple(TStr))])
  const LOCALE: Type := TSection([Field("language", TStr), Field("encoding", TStr), Field("keymap", TStr),
    Field("monetary", TStr), Field("time_format", TStr), Field("numeric", TStr), Field("paper", TStr)])
  const PACMAN_MIRROR: Type := TSection([Field("mirrors", TTuple(TStr)), Field("use_reflector", TBool),
    Field("reflector_countries", TTuple(TStr))])
  const SYSTEM: Type := TSection([Field("hostname", TStr), Field("timezone", TStr), Field("locale", LOCALE),
    Field("user", USER), Field("mirrors", PACMAN_MIRROR), Field("cpu_vendor", CPU_VENDOR)])
  const LUKS: Type := TSection([Field("type", TStr), Field("cipher", TStr), Field("key_size", TInt),
    Field("hash", TStr), Field("pbkdf", TStr), Field("pbkdf_memory", TInt), Field("pbkdf_parallel", TInt),
    Field("pbkdf_time_ms", TInt)])
  const SUBVOLUME: Type := TSection([Field("name", TStr), Field("mountpoint", TStr), Field("nocow", TBool)])
  const BTRFS: Type := TSection([Field("label", TStr), Field("mount_options", TStr),
    Field("subvolumes", TTuple(SUBVOLUME))])
  const SWAP: Type := TSection([Field("enabled", TBool), Field("size_mb", TInt), Field("path", TStr),
    Field("hibernation", TBool)])
  const STORAGE: Type := TSection([Field("target_disk", TStr), Field("efi_size_mb", TInt),
    Field("wipe_method", WIPE_METHOD), Field("luks", LUKS), Field("btrfs", BTRFS), Field("swap", SWAP)])
  const KERNEL: Type := TSection([Field("name", TStr), Field("package", TStr)])
  const UKI_VARIANT: Type := TSection([Field("suffix", TStr), Field("params", TStr)])
  const MITIGATIONS: seq<Field> := [Field("lockdown", TStr), Field("iommu", TStr), Field("intel_iommu", TStr),
    Field("amd_iommu", TStr), Field("pti", TStr), Field("spectre_v2", TStr)]
  const MORE_MITIGATIONS: seq<Field> := [Field("spec_store_bypass_disable", TStr), Field("l1tf", TStr),
    Field("mds", TStr), Field("srbds", TStr), Field("tsx_async_abort", TStr), Field("init_on_alloc", TInt),
    Field("init_on_free", TInt)]
  const CMDLINE_HARDENING: Type := TSection(MITIGATIONS + MORE_MITIGATIONS)
  const CMDLINE: Type := TSection([Field("rootflags", TStr), Field("rootfstype", TStr), Field("rw", TBool),
    Field("quiet", TBool), Field("hardening", CMDLINE_HARDENING)])
  const LOADER: Type := TSection([Field("timeout", TInt), Field("console_mode", TStr), Field("editor", TBool)])
  const SECURE_BOOT: Type := TSection([Field("enroll_keys", TBool), Field("include_microsoft_keys", TBool)])
  const BOOT: Type := TSection([Field("kernels", TTuple(KERNEL)), Field("selected_kernels", TTuple(TStr)),
    Field("variants", TTuple(UKI_VARIANT)), Field("cmdline", CMDLINE), Field("loader", LOADER),
    Field("hooks", TTuple(TStr)), Field("secure_boot", SECURE_BOOT), Field("enable_snapshot_boot", TBool)])
  const DESKTOP_PACKAGES: Type := TSection([Field("kde", TTuple(TStr)), Field("gnome", TTuple(TStr)),
    Field("hyprland", TTuple(TStr))])
  const PACKAGES: Type := TSection([Field("base", TTuple(TStr)), Field("desktops", DESKTOP_PACKAGES),
    Field("selected_desktops", TTuple(DESKTOP)), Field("display_manager", TTuple(TStr)),
    Field("cataloged", TTuple(TStr))])
  const GPU_DRIVER_PACKAGES: Type := TSection([Field("amd", TTuple(TStr)), Field("intel", TTuple(TStr)),
    Field("nouveau", TTuple(TStr)), Field("nvidia_dkms", TTuple(TStr)), Field("nvidia_open", TTuple(TStr))])
  const GPU: Type := TSection([Field("vendor", GPU_VENDOR), Field("driver", GPU_DRIVER),
    Field("drivers", GPU_DRIVER_PACKAGES)])
  const SNAPSHOT_RETENTION: Type := TSection([Field("hourly", TInt), Field("daily", TInt), Field("weekly", TInt),
    Field("monthly", TInt), Field("yearly", TInt)])
  const SNAPPER_VOLUME: Type := TSection([Field("subvolume", TStr), Field("snapshots_subvolume", TStr),
    Field("snapshots_path", TStr), Field("timeline", TBool), Field("cleanup", TBool), Field("number_limit", TInt),
    Field("number_limit_important", TInt), Field("retention", SNAPSHOT_RETENTION)])
  const SNAPPER: Type := TSection([Field("enabled", TBool), Field("allow_groups", TTuple(TStr)),
    Field("root", TOptional(SNAPPER_VOLUME)), Field("home", TOptional(SNAPPER_VOLUME)), Field("snap_pac", TBool),
    Field("bootable_snapshot_count", TInt)])
  const NOTIFICATIONS: Type := TSection([Field("enabled", TBool)])
  const FIREWALL_SSH: Type := TSection([Field("enabled", TBool), Field("port", TInt), Field("allowed_from", TStr)])
  const FIREWALL_ALLOW_RULE: Type := TSection([Field("port", TInt), Field("protocol", TStr)])
  const FIREWALL: Type := TSection([Field("enabled", TBool), Field("default_incoming", FIREWALL_POLICY),
    Field("default_outgoing", FIREWALL_POLICY), Field("logging", TBool), Field("block_icmp", TBool),
    Field("ssh", FIREWALL_SSH), Field("allow_rules", TTuple(FIREWALL_ALLOW_RULE))])
  const DOCKER: Type := TSection([Field("enabled", TBool), Field("storage_driver", TStr), Field("data_root", TStr),
    Field("access_group", TStr)])
  const BACKUP_ITEM: Type := TSection([Field("name", TStr), Field("source_path", TStr), Field("description", TStr)])
  const SYNC: Type := TSection([Field("backup_partition", TStr), Field("backup_items", TTuple(BACKUP_ITEM)),
    Field("backup_categories", TTuple(BACKUP_CATEGORY))])
  const MIGRATION: Type := TSection([Field("enabled", TBool), Field("preserve_home", TBool),
    Field("preserve_secure_boot_keys", TBool), Field("additional_paths", TTuple(TStr))])
  const USB_BOOT: Type := TSection([Field("enabled", TBool), Field("device", TStr), Field("recovery_system", TBool),
    Field("iso_path", TStr)])
  const ENCRYPTED_SECRETS: Type := TSection([Field("luks_password_encrypted", TStr),
    Field("user_password_encrypted", TStr)])
  const PASSWORDS: seq<Field> := [Field("luks_password", TStr), Field("user_password", TStr),
    Field("source_luks_password", TStr)]
  const SECTIONS: seq<Field> := [Field("system", SYSTEM), Field("packages", PACKAGES), Field("storage", STORAGE),
    Field("boot", BOOT), Field("gpu", GPU), Field("snapper", SNAPPER), Field("firewall", FIREWALL),
    Field("docker", DOCKER), Field("notifications", NOTIFICATIONS), Field("sync", SYNC),
    Field("migration", MIGRATION), Field("usb_boot", USB_BOOT), Field("secrets", ENCRYPTED_SECRETS)]
  const INSTALLER_CONFIG: Type := ConfigType(SECTIONS, PASSWORDS)

  /** Field names are distinct and no section is empty. */
  predicate Sound(t: Type) {
    WellFormed(t) && Inhabited(t)
  }

  lemma UserConfigIsSound()
    ensures Sound(USER)
  {
  }

  lemma LocaleConfigIsSound()
    ensures Sound(LOCALE)
  {
  }

  lemma PacmanMirrorConfigIsSound()
    ensures Sound(PACMAN_MIRROR)
  {
  }

  lemma SystemConfigIsSound()
    ensures Sound(SYSTEM)
  {
    LocaleConfigIsSound();
    UserConfigIsSound();
    PacmanMirrorConfigIsSound();
  }

  lemma LuksConfigIsSound()
    ensures Sound(LUKS)
  {
  }

  lemma SubvolumeConfigIsSound()
    ensures Sound(SUBVOLUME)
  {
  }

  lemma BtrfsConfigIsSound()
    ensures Sound(BTRFS)
  {
    SubvolumeConfigIsSound();
  }

  lemma SwapConfigIsSound()
    ensures Sound(SWAP)
  {
  }

  lemma StorageConfigIsSound()
    ensures Sound(STORAGE)
  {
    LuksConfigIsSound();
    BtrfsConfigIsSound();
    SwapConfigIsSound();
  }

  lemma KernelConfigIsSound()
    ensures Sound(KERNEL)
  {
  }

  lemma UkiVariantConfigIsSound()
    ensures Sound(UKI_VARIANT)
  {
  }

  /** Sections whose field names differ between two halves, and within each. */
  lemma Halves(a: seq<Field>, b: seq<Field>)
    requires Sound(TSection(a)) && Sound(TSection(b))
    requires forall i, j :: 0 <= i < |a| && 0 <= j < |b| ==> a[i].name != b[j].name
    ensures Sound(TSection(a + b))
  {
  }

  lemma MitigationsAreSound()
    ensures Sound(TSection(MITIGATIONS))
  {
  }

  lemma MoreMitigationsAreSound()
    ensures Sound(TSection(MORE_MITIGATIONS))
  {
  }

  lemma MitigationsDiffer()
    ensures forall i, j :: 0 <= i < 6 && 0 <= j < 7 ==> MITIGATIONS[i].name != MORE_MITIGATIONS[j].name
  {
    assert MITIGATIONS[1].name[0] != MORE_MITIGATIONS[3].name[0];
    assert MITIGATIONS[4].name[0] != MORE_MITIGATIONS[2].name[0];
  }

  lemma CmdlineHardeningConfigIsSound()
    ensures Sound(CMDLINE_HARDENING)
  {
    MitigationsAreSound();
    MoreMitigationsAreSound();
    MitigationsDiffer();
    Halves(MITIGATIONS, MORE_MITIGATIONS);
  }

  lemma CmdlineConfigIsSound()
    ensures Sound(CMDLINE)
  {
    CmdlineHardeningConfigIsSound();
  }

  lemma LoaderConfigIsSound()
    ensures Sound(LOADER)
  {
  }

  lemma SecureBootConfigIsSound()
    ensures Sound(SECURE_BOOT)
  {
  }

  lemma BootConfigIsSound()
    ensures Sound(BOOT)
  {
    KernelConfigIsSound();
    UkiVariantConfigIsSound();
    CmdlineConfigIsSound();
    LoaderConfigIsSound();
    SecureBootConfigIsSound();
  }

  lemma DesktopPackagesIsSound()
    ensures Sound(DESKTOP_PACKAGES)
  {
  }

  lemma PackagesConfigIsSound()
    ensures Sound(PACKAGES)
  {
    DesktopPackagesIsSound();
  }

  lemma GpuDriverPackagesIsSound()
    ensures Sound(GPU_DRIVER_PACKAGES)
  {
  }

  lemma GpuConfigIsSound()
    ensures Sound(GPU)
  {
    GpuDriverPackagesIsSound();
  }

  lemma SnapshotRetentionIsSound()
    ensures Sound(SNAPSHOT_RETENTION)
  {
  }

  lemma SnapperVolumeConfigIsSound()
    ensures Sound(SNAPPER_VOLUME)
  {
    SnapshotRetentionIsSound();
  }

  lemma SnapperConfigIsSound()
    ensures Sound(SNAPPER)
  {
    SnapperVolumeConfigIsSound();
  }

  lemma NotificationsConfigIsSound()
    ensures Sound(NOTIFICATIONS)
  {
  }

  lemma FirewallSshConfigIsSound()
    ensures Sound(FIREWALL_SSH)
  {
  }

  lemma FirewallAllowRuleIsSound()
    ensures Sound(FIREWALL_ALLOW_RULE)
  {
  }

  lemma FirewallConfigIsSound()
    ensures Sound(FIREWALL)
  {
    FirewallSshConfigIsSound();
    FirewallAllowRuleIsSound();
  }

  lemma DockerConfigIsSound()
    ensures Sound(DOCKER)
  {
  }

  lemma BackupItemConfigIsSound()
    ensures Sound(BACKUP_ITEM)
  {
  }

  lemma SyncConfigIsSound()
    ensures Sound(SYNC)
  {
    BackupItemConfigIsSound();
  }

  lemma MigrationConfigIsSound()
    ensures Sound(MIGRATION)
  {
  }

  lemma UsbBootConfigIsSound()
    ensures Sound(USB_BOOT)
  {
  }

  lemma EncryptedSecretsConfigIsSound()
    ensures Sound(ENCRYPTED_SECRETS)
  {
  }

  lemma PasswordsAreSound()
    ensures Sound(TSection(PASSWORDS))
  {
  }

  lemma SectionsAreDistinct()
    ensures Distinct(SECTIONS)
  {
  }

  lemma EachSound(fields: seq<Field>)
    requires fields != [] && Distinct(fields) && forall i :: 0 <= i < |fields| ==> Sound(fields[i].typ)
    ensures Sound(TSection(fields))
  {
  }

  lemma SectionsAreSound()
    ensures Sound(TSection(SECTIONS))
  {
    SectionsAreDistinct();
    EachSectionIsSound(SECTIONS);
    EachSound(SECTIONS);
  }

  lemma EachSectionIsSound(sections: seq<Field>)
    requires sections == SECTIONS
    ensures forall i :: 0 <= i < |sections| ==> Sound(sections[i].typ)
  {
    SystemConfigIsSound();
    PackagesConfigIsSound();
    StorageConfigIsSound();
    BootConfigIsSound();
    GpuConfigIsSound();
    SnapperConfigIsSound();
    FirewallConfigIsSound();
    DockerConfigIsSound();
    NotificationsConfigIsSound();
    SyncConfigIsSound();
    MigrationConfigIsSound();
    UsbBootConfigIsSound();
    EncryptedSecretsConfigIsSound();
  }

  lemma SectionsDiffer()
    ensures forall i :: 0 <= i < |SECTIONS| ==> SECTIONS[i].name != CREDENTIALS
  {
    assert |CREDENTIALS| == 11;
  }

  lemma InstallerConfigIsSound()
    ensures Sound(INSTALLER_CONFIG)
  {
    var last := Field(CREDENTIALS, TSection(PASSWORDS));
    SectionsAreSound();
    PasswordsAreSound();
    SectionsDiffer();
    Halves(SECTIONS, [last]);
  }

  lemma PasswordsAreText()
    ensures AllText(PASSWORDS)
  {
  }

  /** `ExportThenBuild` for the installer's own sections and passwords. */
  lemma {:induction false} InstallerConfigRoundTrip(sections: seq<Field>, passwords: seq<Field>, v: Value,
          file: Raw, entries: seq<Entry>)
    requires sections == SECTIONS && passwords == PASSWORDS
    requires HasType(ConfigType(sections, passwords), v) && SECRETS in v.arguments
    requires file == RMap(Exported(v)[SECRETS := Export(v.arguments[SECRETS])])
    requires Enumerates(entries, TSection(sections), file)
    ensures var all := BlankCredentials(passwords) + entries;
      && Named(all) && NestAll(all).Some?
      && Convert(ConfigType(sections, passwords), RMap(NestAll(all).value)) == Built(WithBlankCredentials(v, passwords), [])
  {
    InstallerConfigIsSound();
    PasswordsAreText();
    ExportThenBuild(sections, passwords, v, file, entries);
  }

  /** The keys the encrypt-secrets command writes are settings of the secrets section, each named
      after the credential it stands for. */
  lemma SecretsAreSettings(p: SecretsRun.Password)
    ensures Declared(ENCRYPTED_SECRETS.fields, SecretsRun.KeyName(p)) && Declared(PASSWORDS, SecretsRun.SettingName(p))
    ensures SecretsRun.KeyName(p) == SecretsRun.SettingName(p) + "_encrypted"
  {
    var i := if p.Luks? then 0 else 1;
    assert ENCRYPTED_SECRETS.fields[i].name == SecretsRun.KeyName(p) && PASSWORDS[i].name == SecretsRun.SettingName(p);
  }
}
