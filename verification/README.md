# DALI, verified

A Dafny model of DALI, the declarative Arch Linux installer: what its install steps, its
configuration pipeline, its secrets store and its two shell scripts promise, proved for every
input, every run and every interleaving the model admits. `dafny verify dfyconfig.toml` checks all
of it.

Five parts, each with its own modules:

- **Snapshot boot entries.** Snapper adds and deletes snapshots at any time, a path unit is blind
  while its service runs, the service repeats a refresh until a fingerprint is stable, and the USB
  drive with the EFI partition comes and goes. `SnapshotManager` is the script itself, against a
  world that changes under it; `SnapshotProtocol` is the whole life of the entries as a transition
  system, and `SnapshotRuns` shows that the script's runs are runs of that system;
  `SnapshotCmdline` is the `sed`/`tr` pipeline character by character, `SnapshotBoot` what its
  result makes the kernel boot, `InstalledLine` both for the line the installer writes;
  `SnapshotSelection` picks and names the entries.
- **Storage, USB drive and migration.** `Machine` holds disks, headers, volumes, mappings, mounts
  and the staging area. A command takes effect, fails, or the run dies around it, so a contract
  that holds for every outcome holds for every prefix of the run. `Storage`, `UsbBoot` and
  `MigrationSteps` are the executors, `Resume`, `MountOrder`, `UsbLayout` and `Migration` what
  follows from them.
- **Configuration.** `Schema` declares types and converts raw values by them, for every schema;
  `Builder` is the builder as it runs, `Nesting` flattens and nests, `InstallerConfig` goes from the
  values of all sources to the configuration and `GivenValues` follows one of them there,
  `RoundTrip` and `ExportedConfig` show that exporting and building undo each other, `Models` is
  the installer's own schema. `Precedence`, `Session` and `Registry` are where values come from and
  which questions are asked.
- **Encrypted secrets.** `Blobs` is the textual format, `SecretsFile` the line editor,
  `StoredSecrets` what the file then stores, `SecretsRun` the command over any sequence of runs.
  AES-GCM (NIST SP 800-38D), Argon2id (RFC 9106) and base64 (section 4 of RFC 4648) are known only
  by the laws in `Blobs.Lawful`; `LawfulCrypto` shows that those laws can be met.
- **Dotfiles.** `Dotfiles` pushes and pulls file trees (`FileTree`) between machines and a
  repository.

`Text`, `Trees`, `Replacement` and `Plans` hold what the parts share.

## Results that differ from the intent

- A drive pulled while a refresh writes to it loses entries without leaving the marker, because
  the marker is dropped before the build; a change between the last fingerprint and the return of
  the watch, a snapshot that comes and goes within one round, and changes through all five rounds
  leave stale entries too. Each is a named excuse of the protocol's theorem, with a run that
  shows it.
- A command line whose root flags have no `subvol=` is left as it is, so the "snapshot" entry
  boots the default subvolume.
- A snapshot's line damages every parameter in which `rw` or `ro` stands as a word, and no other
  (`SnapshotBoot.SnapshotLineKeepsParameters`).
- The cleanup spares a kernel's own entries exactly when the kernel's name does not start with
  `snapshot`.
- A quick wipe can re-expose an old LUKS header where the new second partition begins. The storage
  step then never converges: `Storage.CanConverge` is the exact condition, no run changes that
  (`Storage.Stuck`), and a disk installed before with the same sizes and another password is such
  a disk (`Storage.InstalledBefore`).
- Of two preserved paths the second is staged completely exactly when no directory is at its place
  at its turn, or all its files end in their places without it (`Migration.PairFits`): with the
  inner of two nested paths listed first, the outer one goes into the directory that is already
  there. A listed path that also holds other files for the home directory or the keys wins over
  them (`Migration.Unshadowed`).
- A migration that is run again after the storage step stages the new volume over the old data
  exactly when both passwords are the same.
- Without force, pulls leave a path alone, whatever the repository, exactly when every mapping that
  overlaps it is a sensitive one: a sensitive file inside a mapped directory is overwritten.
- The two overlapping tmux mappings, when both paths exist, make every push after a push change the
  repository, exactly unless the directory holds the same file in that place.
- A file whose copy is a directory on the other side is put into that directory, and every later
  push or pull does so again; a mapping fails to settle on its own in no other way
  (`FileTree.SettlesUnlessFileOnDirectory`).
- A version is raised by exactly one exactly while its patch is at most 99 and its minor, with the
  carry, at most 100.

## Model

| member | source | states |
|---|---|---|
| SnapshotProtocol.EntriesFollowSnapshots | scripts/manage_snapshot_entries.sh:472-628 | after every run from the start, over every interleaving of snapshots, triggers, rounds, plain refreshes, unplugging and catch-up: entries that lag mean that a trigger is pending, something runs or is queued, the marker is there, or a named excuse holds; so at rest, plugged in and without excuse the entries are exactly the newest snapshots without those whose build failed in the last refresh, and all of the newest when none failed |
| SnapshotProtocol.StepKeepsInv | src/arch_installer/executors/snapper.py:71-90 | each single action of snapper, the drive, the path unit, the services and the script keeps the invariant behind that theorem |
| SnapshotProtocol.RunKeepsInv | scripts/manage_snapshot_entries.sh:472-628 | the invariant holds after every run |
| SnapshotProtocol.SystemStepsUseUpWork | scripts/manage_snapshot_entries.sh:615-628 | every step the system takes on its own decreases a bound on the steps left |
| SnapshotProtocol.SystemRunsAreShort | scripts/manage_snapshot_entries.sh:615-628 | left alone, the system takes at most as many steps as that bound |
| SnapshotProtocol.SystemNeverSticks | src/arch_installer/executors/usb_boot.py:140-153 | a system that is not at rest can always take a step: nothing pending is forgotten |
| SnapshotProtocol.ChangesAreCaughtUp | scripts/manage_snapshot_entries.sh:593-628 | after a change the watch saw, with the drive in and no further change, the system comes to rest within 5 * 5 + 7 steps, and then the entries are exactly the newest snapshots without those whose build failed, whatever excuses there were before |
| SnapshotProtocol.PullingTheDriveLosesEntries | scripts/manage_snapshot_entries.sh:476-482 | a run that ends at rest with stale entries because the drive was pulled inside a refresh |
| SnapshotProtocol.ChangesBeforeTheWatchReturnsAreLost | scripts/manage_snapshot_entries.sh:610-623 | a run that ends at rest with stale entries because a snapshot was taken between the last fingerprint and the return of the watch |
| SnapshotProtocol.FlickeringSnapshotsKeepEntries | scripts/manage_snapshot_entries.sh:593-596 | a run that ends at rest with an entry of a snapshot that came and went within one round |
| SnapshotProtocol.EndlessChangesExhaustTheRounds | scripts/manage_snapshot_entries.sh:615-628 | a run whose five rounds all see a change ends with stale entries |
| SnapshotProtocol.ScriptRefreshFits | scripts/manage_snapshot_entries.sh:472-572 | a refresh as the script carries it out is one the transition system allows, and leaves the same entries |
| SnapshotRuns.RoundFits | scripts/manage_snapshot_entries.sh:617-625 | a round of the script, with the world moving before, within and after its refresh, takes the transition system from one round to the next or to the end, with the same entries, marker and verdict |
| SnapshotRuns.RunService | scripts/manage_snapshot_entries.sh:615-628 | a whole run of the settling loop over any world is a run of the transition system that ends with the same entries and the same marker, and so keeps its invariant |
| SnapshotManager.Manager.RefreshEntries | scripts/manage_snapshot_entries.sh:472-572 | with the drive away it leaves the entries and sets the marker; otherwise it drops the marker, removes every old snapshot entry and leaves exactly one entry for each attempted snapshot whose build succeeded, all other files untouched |
| SnapshotManager.Manager.BuildEntries | scripts/manage_snapshot_entries.sh:526-572 | the build loop attempts exactly the newest of the listed snapshots that had not vanished at their turn, one after the other from the newest down, each while it is there, and builds those whose build succeeds |
| SnapshotManager.Manager.WaitForSnapshotsToSettle | scripts/manage_snapshot_entries.sh:598-610 | waits between one and thirty times and settles only on two equal fingerprints |
| SnapshotManager.Manager.RefreshUntilSettled | scripts/manage_snapshot_entries.sh:615-628 | one to five rounds in turn, each with its refresh as recorded; the files are those of the last refresh that was not postponed; when it returns by the equality test, the last refresh attempted the newest snapshots present at return, and has built them all unless a build failed |
| SnapshotManager.ChangedRoundsDecide | scripts/manage_snapshot_entries.sh:615-628 | the loop settles exactly when fewer than five refresh windows see a change, and then after one refresh more than there were changed windows |
| SnapshotManager.QuietWindow | scripts/manage_snapshot_entries.sh:593-622 | equal fingerprints around a window without flicker mean that the snapshots were the same throughout it |
| SnapshotManager.SettledRefresh | scripts/manage_snapshot_entries.sh:513-539 | a refresh in a window without changes attempts the newest snapshots there are at its end, and builds them all when no build fails |
| SnapshotManager.RefreshSelects | scripts/manage_snapshot_entries.sh:484-572 | with a fixed set of snapshots and builds that succeed, a refresh leaves exactly min(N, their number) entries, those with the highest numbers |
| SnapshotSelection.NewestIsNewest | scripts/manage_snapshot_entries.sh:526-534 | the selection has min(N, number of snapshots) members and passes over none for an older one |
| SnapshotSelection.Descending | scripts/manage_snapshot_entries.sh:526-527 | the sorted list holds every number once, highest first |
| SnapshotSelection.NewestOfWalk | scripts/manage_snapshot_entries.sh:529-572 | a walk down the sorted list that stops after N takings has taken exactly the newest ones |
| SnapshotSelection.SnapshotNaming | scripts/manage_snapshot_entries.sh:487-488 | every entry name is matched by the cleanup pattern and no two snapshots share one |
| SnapshotSelection.CleanupSparesKernels | src/arch_installer/executors/boot.py:63-64 | the cleanup matches a kernel's own entry exactly when the kernel's name starts with "snapshot" |
| SnapshotBoot.SnapshotLineByWord | scripts/manage_snapshot_entries.sh:280-297 | for every line the pipeline acts on each parameter by itself, and ends in the mode |
| SnapshotBoot.SnapshotLineKeepsParameters | scripts/manage_snapshot_entries.sh:257-298 | all other parameters survive in order, only the subvol option changes, and the line ends in a single mode, exactly when neither rw nor ro stands as a word inside another parameter |
| SnapshotBoot.RewrittenFlagsMount | scripts/manage_snapshot_entries.sh:280-286 | rewritten root flags mount the snapshot's subvolume exactly when the last "subvol=" is an option of its own |
| SnapshotBoot.EntryBootsItsSnapshot | scripts/manage_snapshot_entries.sh:257-298 | a snapshot's entry boots that snapshot under the same exact condition |
| SnapshotBoot.RewritingOverwrites | scripts/manage_snapshot_entries.sh:280-297 | rewriting the parameters for one snapshot and then another equals rewriting for the other |
| SnapshotBoot.RewritingLineOverwrites | scripts/manage_snapshot_entries.sh:257-298 | the same for the lines themselves |
| InstalledLine.InstalledSystemsSnapshots | src/arch_installer/executors/boot.py:103-136 | for any line the installer produces, the snapshot's line keeps its parameters exactly when no mode stands inside one, as in settings whose values have none, and then it boots the snapshot exactly when the configured root flags name their subvolume with an option of its own |
| InstalledLine.DefaultsArePlain | config/config.yaml:144-144 | the default root device, root filesystem and root flags are such values |
| InstalledLine.VolumeIsNamed | scripts/manage_snapshot_entries.sh:266-278 | a line without "rd.luks" gets the parameters that name the LUKS volume and the root device, before all its own |
| InstalledLine.FlagsAreAdded | scripts/manage_snapshot_entries.sh:280-286 | a line without root flags gets some, and the entry boots its snapshot |
| InstalledLine.WithoutSubvolTheEntryMissesItsSnapshot | scripts/manage_snapshot_entries.sh:280-286 | whatever root flags have no "subvol=", and whatever the snapshot, the entry boots the default subvolume |
| InstalledLine.SnapshotSubvolumeIsPlain | scripts/manage_snapshot_entries.sh:545-545 | a snapshot's subvolume name is free of separators, of "subvol=" and of words rw and ro, so the results above apply to it |
| InstalledLine.SnapshotOfSubvolume | scripts/manage_snapshot_entries.sh:545-545 | the snapshot's number reads back from the name of its subvolume |
| SnapshotCmdline.SubstituteWord | scripts/manage_snapshot_entries.sh:280-286 | sed's match lies within one parameter, so the first matching parameter is rewritten and no other |
| SnapshotCmdline.RemoveFromLine | scripts/manage_snapshot_entries.sh:290-290 | removing a word between word boundaries acts within the parameters |
| SnapshotCmdline.FirstIsCut | scripts/manage_snapshot_entries.sh:290-290 | the first occurrence with a word boundary on both sides is cut out, and then those in what follows it |
| SnapshotCmdline.RemovesWhatStands | scripts/manage_snapshot_entries.sh:290-290 | a text is unchanged exactly when the word stands nowhere in it with a word boundary on both sides |
| SnapshotCmdline.SqueezeKeepsParameters | scripts/manage_snapshot_entries.sh:290-290 | squeezing spaces changes no parameter |
| Replacement.ReplaceTwice | scripts/manage_snapshot_entries.sh:283-283 | replacing what follows the last occurrence of a word, twice, leaves only the last replacement |
| Machine.Machine.Run | src/arch_installer/core/command.py:57-109 | a command whose failure is ignored succeeds with its effect, fails with nothing or part of it done, or ends the run before, within or after it |
| Machine.Machine.RunOrRaise | src/arch_installer/core/command.py:99-107 | a failing command ends the step; on a machine without faults it fails exactly when it cannot work |
| Storage.StorageStepExecutor.Execute | src/arch_installer/executors/storage.py:24-62 | a mounted target is left alone; otherwise a normal return means every declared subvolume exists and the mount table is the declared one, the header opens the open volume, and at every outcome a kept volume lost neither header, subvolume, file nor EFI filesystem; a secure wipe, or a migration to a USB boot drive, leaves random fill, no old file and no old header, a discard that works the same without random fill, and any other run keeps every header and brings no random fill; without faults it returns exactly when CanConverge, and a disk stuck behind an old header stays so at every outcome; with a USB boot drive a validated run leaves only random fill and ciphertext |
| Storage.InstalledBefore | src/arch_installer/executors/storage.py:40-55 | a disk installed before with the same sizes and another password is stuck under a quick or skipped wipe |
| Storage.StorageStepExecutor.PrepareDisk | src/arch_installer/executors/storage.py:40-55 | which wipe and which partitions: on either kind of installation the disk is left as the wipe method asks (secure: no old volume or header, and random fill; discard: zeroes; quick or skip: every volume and header); nothing is written when the volume is kept, zeroes never come after the random fill of a USB boot installation, no header appears, and an internal disk that is not kept gets the two partitions |
| Storage.StorageStepExecutor.WipeDisk | src/arch_installer/executors/storage.py:103-134 | a secure wipe that returns leaves random fill alone; a quick one changes only the partition table |
| Storage.StorageStepExecutor.CreatePartitions | src/arch_installer/executors/storage.py:136-152 | a normal return leaves exactly the two partitions, whatever lies below them unchanged |
| Storage.StorageStepExecutor.CleanupStaleMounts | src/arch_installer/executors/storage.py:72-78 | closes what an earlier run left open and changes nothing else |
| Storage.StorageStepExecutor.SetupLuks | src/arch_installer/executors/storage.py:190-242 | formats only where there is no header, and a normal return from a closed mapping leaves a header that opens the mapping with the password |
| Storage.StorageStepExecutor.SetupBtrfs | src/arch_installer/executors/storage.py:250-270 | formats only what is not btrfs, removes no subvolume, and ends with all declared ones |
| Storage.StorageStepExecutor.CreateSubvolumes | src/arch_installer/executors/storage.py:272-287 | creates exactly what is missing of the declared subvolumes |
| Storage.StorageStepExecutor.MountFilesystems | src/arch_installer/executors/storage.py:289-324 | ends with `@` mounted first, the others in order and the EFI partition last, an existing vfat not reformatted |
| Storage.StorageStepExecutor.Provision | src/arch_installer/executors/storage.py:57-59 | opening, filling and mounting keep an existing header's volume at every outcome and succeed without faults exactly when the header opens |
| Resume.StopAndResume | src/arch_installer/executors/storage.py:24-101 | a run stopped after any command, with its mounts and mappings gone, followed by a run that skips the wipe: the second converges and keeps a volume that opens |
| Resume.ResumableStays | src/arch_installer/executors/storage.py:24-101 | from every state a run may pass, a keeping run converges |
| MountOrder.NothingShadowed | src/arch_installer/executors/storage.py:289-308 | after the mounting loop every path resolves to the filesystem with the deepest mountpoint above it, exactly when each mountpoint is listed after those above it and none is at or below /efi |
| Trees.MountTableCorrect | src/arch_installer/executors/storage.py:289-308 | exactly the mount tables without a covered mount send every path to its deepest mountpoint |
| Trees.ReadAfterCopy | src/arch_installer/executors/migration.py:175-189 | copying through a mount table changes exactly the paths copied, on whichever filesystem they land |
| UsbBoot.UsbBootDriveStepExecutor.Execute | src/arch_installer/executors/usb_boot.py:235-273 | a kept drive, an unsuitable one and one too small are not written; a prepared one has its partitions and no header; the internal disk is never touched |
| UsbBoot.UsbBootDriveStepExecutor.Partition | src/arch_installer/executors/usb_boot.py:299-316 | writes the two or three partitions and no old header stays visible |
| UsbBoot.UsbBootDriveStepExecutor.ReleaseDrive | src/arch_installer/executors/usb_boot.py:289-297 | unmounts and closes what a previous attempt left, and changes nothing else |
| UsbBoot.PrepareDriveAndDisk | src/arch_installer/executors/usb_boot.py:235-273 | both steps together: on normal return, the clean-up commands working, the drive's header opens the volume on the disk; a kept header and its volume are intact at every outcome; a header-holding drive is prepared anew only on runs whose storage step wipes the disk, and then the old volume is gone; every sector ends as random fill or ciphertext; without faults they return exactly when the drive is suitable and is either kept and opens, or has room |
| UsbLayout.RecoveryHasRoom | src/arch_installer/executors/usb_boot.py:156-159 | the recovery partition is at least 1.1 times the ISO plus 63 MiB, and at most 1.1 times the ISO plus 66 MiB, for every ISO size |
| UsbLayout.LayoutFits | src/arch_installer/executors/usb_boot.py:275-287 | when the capacity check passes the partitions are disjoint and end before the backup GPT; on a drive of whole MiB exactly then |
| MigrationSteps.MigrateInstallation | src/arch_installer/installer.py:31-38 | where the listed paths fit and shadow nothing, after every prefix of a migrating run each preserved item is intact on the old volume, complete in staging, or complete at its own path on the target; where they fit, a normal return has all of it restored exactly when they shadow nothing; the disk is written only after the staging succeeded; a faultless run returns exactly when the old system opens, there is room, nothing clashes in staging and the disk can be installed to |
| MigrationSteps.MigrationStagingStepExecutor.Execute | src/arch_installer/executors/migration.py:44-61 | changes nothing but the staging, and that only once the old system is open and there is room; a normal return has staged nothing but what was to be preserved of the old volume, and all of it where the listed paths fit; the old system is closed again; a faultless run returns exactly when the old system opens, there is room, `@home` is there whenever a subvolume mentions it, and no copy clashes |
| MigrationSteps.MigrationStagingStepExecutor.EnsureStagingSpace | src/arch_installer/executors/migration.py:125-146 | goes on exactly when the free space covers the home directory, all listed paths and 256 MB |
| MigrationSteps.MigrationStagingStepExecutor.CopyToStaging | src/arch_installer/executors/migration.py:148-167 | starts an empty staging and fills it with home, keys and listed paths in order |
| MigrationSteps.MigrationRestoreStepExecutor.Execute | src/arch_installer/executors/migration.py:174-192 | keeps the staging until all of it is restored, and then every path of the target reads what was staged for it or what it read before |
| Migration.StagedComplete | src/arch_installer/executors/migration.py:148-167 | when each listed path fits at its turn, every file of `@home` is in staging if it is to be preserved, every file of the directory that holds the keys (the older one only when the newer one has none) if they are, and every file at or below a listed path |
| Migration.StagedOnlyAsked | src/arch_installer/executors/migration.py:148-167 | whatever the listed paths, what is staged as home directory or key is one that was to be preserved, as it was, and all else is below a listed path |
| Migration.TurnsAreExact | src/arch_installer/executors/migration.py:157-162 | for every list of paths: the listed ones are complete after every turn exactly when each fits at its turn, that is, finds its place free or its files end in their places without it |
| Migration.ApartIsEnough | src/arch_installer/executors/migration.py:148-192 | paths that contain neither one another nor what else is preserved fit, clash with nothing and shadow nothing |
| Migration.RestoredItems | src/arch_installer/executors/migration.py:175-189 | what was staged completely is restored completely: each file of `@home` below /home, each key below /var/lib/sbctl wherever it came from, each listed file at its own path, exactly when no listed path brings another file for a home directory or key |
| Migration.CopyReads | src/arch_installer/executors/migration.py:181-189 | what a path under the target reads after a copy through its mounts |
| Migration.NestedPathsMisplace | src/arch_installer/executors/migration.py:157-162 | for every old system and any two listed paths, in their order: both are complete in staging exactly when no file under the first lies below the second, or every file of the second is under the first or replaced by an equal one |
| MigrationSteps.RerunOpensNewVolume | src/arch_installer/executors/migration.py:77-84 | after the storage step the staging step opens the new volume as the old system exactly when the passwords are the same |
| Building.ConvertFits | src/arch_installer/config/installer_config_builder.py:90-156 | a conversion is refused exactly when a value is ill-typed or a key unknown |
| Building.RefusalIsTrue | src/arch_installer/config/installer_config_builder.py:90-156 | what a refusal names is there: following its path leads to a value of the wrong type, or to a section with an unknown key |
| Building.BuiltTyped | src/arch_installer/config/installer_config_builder.py:90-156 | a result with nothing missing has the declared type: no section is absent where none may be |
| Building.BuiltIsRepresented | src/arch_installer/config/installer_config_builder.py:90-156 | the value built with nothing missing is exactly the one the raw value stands for: null is an empty text or list, or no value where that is declared |
| Building.MissingExact | src/arch_installer/config/installer_config_builder.py:90-110 | the report holds exactly the topmost absent paths, through optional sections and list items |
| Building.MissingInOrder | src/arch_installer/config/installer_config_builder.py:100-107 | the report follows the declaration order |
| Building.NotBeforeItself | src/arch_installer/config/installer_config_builder.py:100-107 | no path comes before itself in that order, so none is reported twice |
| Building.ConvertExport | src/arch_installer/config/models.py:472-487 | building an exported value gives it back with nothing missing |
| Builder.ConfigBuilder.BuildSection | src/arch_installer/config/installer_config_builder.py:90-110 | the running builder returns the specified value and appends exactly the specified paths to the shared list |
| Builder.ConfigBuilder.ConvertValue | src/arch_installer/config/installer_config_builder.py:113-156 | the same for every declared type |
| Builder.BuildConfig | src/arch_installer/config/installer_config_builder.py:84-87 | from a nested mapping a configuration comes out exactly when every value fits and nothing is absent, and then it is the one the mapping stands for, with the declared type; otherwise the report is exact and ordered, and a refusal names what is wrong |
| InstallerConfig.BuildInstallerConfig | src/arch_installer/config/installer_config_builder.py:68-87 | from the values of all sources: refused exactly when a path leads through a value; otherwise a configuration exactly when the nested values fit and none is absent. In it every value given where no other is given above or inside it is found at its path, as its declared type reads it; each credential is the text given for it, or blank when none is, and credentials are never reported missing, unless a value stands for their whole section |
| GivenValues.GivenIsRead | src/arch_installer/config/installer_config_builder.py:68-78 | once all entries are nested, one that no later entry replaces or goes into is read back at its path |
| InstallerConfig.ExportedValuesBuild | src/arch_installer/config/installer_config_builder.py:81-87 | the values of an exported configuration with its secrets put back build the same configuration with blank credentials |
| Nesting.Flatten | src/arch_installer/config/config_file.py:50-69 | refuses exactly unknown keys and non-mappings, and otherwise gives every leaf under its path |
| Nesting.Nest | src/arch_installer/config/installer_config_builder.py:68-78 | the loop inserts the paths one by one, refusing a path through a value |
| RoundTrip.NestIsTree | src/arch_installer/config/installer_config_builder.py:68-78 | nesting separate paths gives the tree they stand for |
| RoundTrip.NestIgnoresOrder | src/arch_installer/config/installer_config_builder.py:68-78 | separate paths nest the same in every order |
| RoundTrip.NestMindsOrder | src/arch_installer/config/installer_config_builder.py:75-77 | for any path and any one that leads through it: second, the longer is refused exactly unless it goes on inside a mapping; first, it is lost |
| RoundTrip.NestUndoesFlatten | src/arch_installer/config/config_file.py:50-69 | nesting the leaves of a mapping in any order gives the mapping back, up to empty section mappings |
| RoundTrip.ExportRoundTrip | src/arch_installer/config/models.py:472-487 | for every schema, exporting, flattening, nesting in any order and building gives the value back |
| ExportedConfig.SecretsStayOut | src/arch_installer/config/models.py:472-487 | neither credentials nor encrypted secrets are in what is exported; every other section is, and stands for the value it was |
| ExportedConfig.ExportThenBuild | src/arch_installer/config/models.py:472-487 | the exported configuration with its secrets put back builds the same configuration with blank credentials |
| Models.InstallerConfigIsSound | src/arch_installer/config/models.py:432-448 | the installer's own schema has distinct field names and no empty section |
| Models.InstallerConfigRoundTrip | src/arch_installer/config/models.py:472-487 | the round trip for the installer's own schema |
| Models.SecretsAreSettings | src/arch_installer/config/models.py:411-413 | the keys written into the secrets section are settings of that section, each named after the credential it stands for |
| Precedence.InheritSettingValues | src/arch_installer/config/value_precedence.py:29-36 | each setting any source gives, with the value and name of the first that gives it: environment, then file |
| Precedence.ApplyTuiChoices | src/arch_installer/config/value_precedence.py:40-48 | the TUI has the last word, and a choice equal to the inherited value keeps its source |
| Precedence.FinalValues | src/arch_installer/config/value_precedence.py:29-48 | the final value is the answer, else the environment's, else the file's; the TUI is the source exactly when its answer differs from what was inherited |
| Session.AskedOnFinalValues | src/arch_installer/setup/session.py:24-34 | for any front-end and any settings in order, a question is asked exactly when its condition holds on the map of final values, which is the answer, else the environment, else the file; the answer given is the final value |
| Session.LaterAnswerComesTooLate | src/arch_installer/setup/session.py:28-31 | a condition on a setting asked later can hold on the final values and the question not be asked |
| Session.RepliesDecide | src/arch_installer/setup/session.py:61-102 | what each kind of reply makes of its setting; a kept secret and a selection of the same items, in any order, stay as inherited, with their source |
| Session.ReviewShows | src/arch_installer/setup/session.py:118-137 | the review tells of a secret only whether there is one, and shows a switch by its state and a choice by the text it was first offered with |
| Session.SetupSession.AskAll | src/arch_installer/setup/session.py:24-31 | the loop asks in order and records every answer |
| Session.SetupSession.Summary | src/arch_installer/setup/session.py:105-116 | the review has a row for every question asked, showing its final value and source |
| Session.RunSetup | src/arch_installer/setup/session.py:24-34 | the answers are returned exactly when the review is accepted, which has a row for exactly the settings answered, showing the final values |
| Registry.RegistryAsksOnFinalValues | src/arch_installer/install_steps/registry.py:140-390 | the registry's conditions read only settings asked earlier, so the above holds for it |
| Registry.QuestionsAsked | src/arch_installer/install_steps/registry.py:140-390 | which settings are answered, by the final values: the drive's with a USB boot drive, the recovery ISO with a recovery system on it, the swap's with swap, the driver with an NVIDIA card, the old password with a migration, all others always but the kernels never |
| Blobs.CostRoundTrip | src/arch_installer/core/secrets.py:37-89 | a printed Argon2id cost parses back exactly when it is within the bounds |
| Blobs.OpensExactly | src/arch_installer/core/secrets.py:62-119 | a secret of any in-bound cost opens with its own key under its own setting, to its plaintext, and with nothing else |
| LawfulCrypto.LawsCanBeMet | src/arch_installer/core/secrets.py:47-75 | the laws assumed of the cryptography do not contradict each other |
| SecretsFile.EditIsLocal | src/arch_installer/config/secrets_file.py:19-28 | the first entry of the key is replaced, keeping its indentation; without one, an entry is inserted below the first header of the section; without a header, a block is appended; all other lines kept in order |
| SecretsFile.SetAgain | src/arch_installer/config/secrets_file.py:19-28 | setting a key again leaves only the last value |
| SecretsFile.SetCommutes | src/arch_installer/config/secrets_file.py:19-28 | setting two different existing keys commutes |
| SecretsFile.TextOfLines | src/arch_installer/config/secrets_file.py:19-28 | the edited text read again has exactly the edited lines |
| StoredSecrets.OtherKeysKept | src/arch_installer/config/secrets_file.py:19-28 | setting one key leaves what is stored for the other, as long as the file parses |
| StoredSecrets.SectionAppended | src/arch_installer/config/secrets_file.py:24-28 | a file without the section gets one that stores exactly the value set |
| StoredSecrets.BothAppended | src/arch_installer/config/secrets_file.py:19-28 | a file without the section stores exactly both values once both keys are set |
| SecretsRun.SecretsStore.EncryptSecrets | src/arch_installer/cli.py:249-294 | a run that does not end with the file written leaves it as it was; one that writes leaves every stored password opening with its key; it refuses to mix keys exactly when a secret it would keep does not open with its key; the checks come in the order given |
| SecretsRun.FirstRunWrites | src/arch_installer/cli.py:268-294 | a run with a key and a password, not told to print only, writes whenever the file has no secrets yet |
| SecretsRun.SecretsStore.WriteEncryptedSecrets | src/arch_installer/config/secrets_file.py:45-56 | the file is written only when every value just set reads back from under the section |
| SecretsRun.WrittenOpens | src/arch_installer/cli.py:249-294 | after a run that writes, every stored password opens with the run's key, those given to what was given |
| SecretsRun.OneKeyAlways | src/arch_installer/cli.py:249-294 | after any sequence of runs, once one has written, the key of the last one that did opens every stored password under its own name |
| FileTree.UpdatedHere | scripts/dotfiles-sync.sh:648-676 | a mapping that is updated or needs no update is the same on both sides afterwards |
| FileTree.UpdatedElsewhere | scripts/dotfiles-sync.sh:666-671 | an update leaves every path that is neither above nor below it |
| FileTree.SettlesUnlessFileOnDirectory | scripts/dotfiles-sync.sh:648-676 | after an update there is nothing left to update, exactly unless a file was to replace a directory, which it then went into |
| Dotfiles.VersionRaisedByOne | scripts/dotfiles-sync.sh:404-427 | the version grows by exactly one exactly when its patch, and its minor with the carry, are in range |
| Dotfiles.PushTransfers | scripts/dotfiles-sync.sh:624-676 | after a push every mapped path that is there and readable is in the repository as on the machine, the others as they were |
| Dotfiles.UpdatesWhenOutOfSync | scripts/dotfiles-sync.sh:648-681 | a push updates something exactly when some readable mapped path differs from the repository as it was, overlapping mappings or not |
| Dotfiles.SecondPushIdle | scripts/dotfiles-sync.sh:648-681 | a push right after a push changes nothing |
| Dotfiles.OverlapNeverSettles | scripts/dotfiles-sync.sh:114-115 | with one destination inside another, in either order, a push after a push changes the repository exactly unless the directory holds the same file in that place |
| Dotfiles.PullTransfers | scripts/dotfiles-sync.sh:754-814 | after a pull every mapped path that the repository has, that may be written if it is there, and that is not sensitive or is pulled with force, is on the machine as in the repository, the others as they were |
| Dotfiles.OverwrittenIsBackedUp | scripts/dotfiles-sync.sh:796-809 | whatever a pull changes at a mapped path was backed up |
| Dotfiles.SensitiveUntouched | scripts/dotfiles-sync.sh:764-769 | unforced pulls from every repository on every machine leave a path alone exactly when every mapping that overlaps it is a sensitive one |
| Dotfiles.SensitiveBelowDirectory | scripts/dotfiles-sync.sh:132-140 | whatever lies below a mapped directory that is not itself sensitive becomes what the repository has there |
| Dotfiles.PushThenPull | scripts/dotfiles-sync.sh:585-836 | what is there and readable on one machine, and writable and not sensitive on the other, arrives |
| Dotfiles.DotfilesSync.PushChanges | scripts/dotfiles-sync.sh:585-715 | the loop makes the specified repository and raises the version once when something changed, which is when something was out of sync; a dry run changes nothing and tells whether there is something to push |
| Dotfiles.DotfilesSync.PullChanges | scripts/dotfiles-sync.sh:718-836 | the loop makes the specified machine and backups; a dry run changes nothing |

## Left out

What the model assumes:

- Refreshes are serialised, snapshot numbers are never reused, and creating a snapshot and noticing it are one step.
- Unplugging the drive and touching the marker are each one step; a failed build leaves no entry file behind; whether a build succeeds is decided as it begins.
- Commands that only ask answer truthfully; `dd` fills the disk however it exits, and a shell command has no effect beyond the one modelled.
- `/tmp` survives the end of a run: a run that dies is not a power failure.
- `Machine.tidy` stands for the assumption that the clean-up commands whose failure is ignored succeed; that the drive opens the disk after a normal return is proved for such a machine.
- Restoring meets no file where a directory is restored, and no directory where a file is.
- A header found on the drive belongs to this disk, as `UsbBoot.OwnDrive` says.

What it leaves unmodelled:

- The refresh with another count, the cleanup command and the space listing of the snapshot script, the choice of the command line file, and making snapshots writable, signing and notifying.
- Empty directories: a tree of the installer's steps is the files in it.
- White space other than the space on a kernel command line.
- The swapfile, loop devices, partitions that do not fit the disk, mount options, and fsck of existing filesystems.
- The contents of the recovery partition, the fstab entry of the removable EFI partition, the safeguards' files, and cloning a spare drive.
- Install steps other than storage, USB drive and migration; the packages step is any set of files written to the target.
- Dotted path text, reading environment variables as text, and the prompts and prints of the command line.
- A ChooseMany question whose inherited value is not a list, and how numbers and lists are formatted in the review.
- YAML beyond block mappings of one entry a line in the secrets section; two files differing in how the rest parses are the same here.
- Names of backup copies, parent directories made on the way, git history and merge conflicts, locks and notifications of the dotfiles script.
- Storage.StorageStepExecutor.Execute: sizes of partitions and of the disk are not modelled, so a disk too small for its partitions counts as faultless.
- Blobs.OpensExactly: the laws are ideal, a forged or colliding ciphertext cannot happen, and the length of a ciphertext is not fixed by that of its plaintext.
- SecretsFile.SetCommutes: two keys that are not both there yet are inserted in the order they are set.
