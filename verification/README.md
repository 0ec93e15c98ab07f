# tuinix installer — a Dafny model

The tuinix installer is a terminal wizard written in Go. It asks for the user account, the
host name and a storage layout, then installs NixOS onto one disk or several. This project
models its core and proves properties of the model:

- **Storage modes** (`types.dfy`, module `Types`). The five layouts, in their Go `iota`
  order:
  - encrypted ZFS on one disk;
  - XFS;
  - encrypted ZFS stripe, raidz and raidz2 across several disks.

  Each layout has a label, ZFS and encryption flags, and a minimum disk count.
- **Helpers** (`helpers.dfy`, module `Helpers`):
  - the three input validators;
  - the host ID drawn from the clock;
  - the `lsblk` disk-list parser;
  - the partition-size plan.

  Go's `strings`/`fmt` behaviours they rely on (`TrimSpace` with Unicode white space,
  `Split`, `Fields`, `Join`, `%d`, `%08x`, and `len` as a UTF-8 byte count) live in
  `text.dfy`, module `Text`.
- **Wizard** (`wizard.dfy`, module `Wizard`). One pure transition function
  `Step(wizard, event, env)` covers every key the `Update` method reacts to, every message
  from background work, and the step-by-step `handleEnter`. The outside world the wizard
  consults is the `Env` record:
  - the disk listing;
  - the disk's byte size;
  - the clock;
  - the GitHub key retrieval.

  Commands are returned as `Cmd` values: quit, probe the network, poll the log, or run the
  installation.
- **Wizard properties:**
  - `wizard_steps.dfy` states, step by step, what Enter does.
  - `wizard_invariant.dfy` proves an invariant over all event sequences: at each step, every
    answer collected so far is valid. As a consequence, the installation only ever starts
    with a configuration every step has accepted.
- **Installation pipeline** (`pipeline.dfy`, module `Pipeline`). `runInstallation` is modelled
  as a fold over the mode's stage plan that stops at the first failing stage. External
  commands are answered by a history-dependent oracle `World`, so the same command may
  succeed once and fail the next time. The ZFS boot-file-system check, the pool finalisation
  and the log copy are modelled call by call.
- **Generated files** (`sections.dfy`, module `Sections`):
  - the parts of the generated `default.nix`, user file and `hardware.nix` that depend on the
    configuration, including Go's `%q` quoting of SSH keys;
  - the disk-layout template chosen for the mode and its placeholder substitutions.
- **Links between the parts** (`install_ready.dfy`, module `InstallReady`). What a
  configuration the wizard hands over guarantees about the generated files and the stages run.

`wrappers.dfy` holds the `Option` type.

Some behaviours of the code are worth stating plainly, because a reader might expect otherwise:

- The home partition gets what is left of the disk, with no lower bound. It is negative on
  disks of 1 to 25 GiB.
- When `lsblk -b` fails, the sizes become the fixed 50G/100G/1G and the boot size is left
  as it was. A size that reads as 0 GiB (an unparsable `lsblk` answer included) is planned
  as 100 GiB.
- The help text (`cmd/installer/types.go:171`) and the error (`cmd/installer/model.go:389`)
  ask for "at least 8 characters", but the code compares `len`, which counts bytes. So a
  four-character password of two-byte characters is accepted.
- The size plan looks at the boot disk only. There is no stripe or parity capacity
  arithmetic.
- The refusal on the confirmation screen says "press q to cancel"
  (`cmd/installer/model.go:567`), but the confirmation screen is not among the screens where
  `q` quits (`cmd/installer/model.go:120`). There, `q` is text for the field.

## Model

| member | source | states |
|---|---|---|
| Types.ZfsIffEncrypted | cmd/installer/types.go:40-46 | ZFS and encryption go together; only XFS has neither |
| Types.MultiDiskIffSeveralDisks | cmd/installer/types.go:48-63 | the multi-disk modes are exactly those needing two or more disks (stripe 2, raidz 3, raidz2 4), and they are encrypted ZFS |
| Types.StorageModesEnumerates | cmd/installer/types.go:102-108 | the mode list offered by the wizard holds each of the five modes once, position i holding the mode with code i |
| Types.CodeRoundTrip | cmd/installer/types.go:13-21 | modes and their integer codes 0..4 convert into each other; every other integer names no mode |
| Types.ModeLabelsDistinct | cmd/installer/types.go:23-38 | the five modes have five different labels, none "Unknown"; every other code is labelled "Unknown" |
| Helpers.EmailShape | cmd/installer/main.go:1268-1274 | an accepted e-mail has exactly one `@`, a non-empty part before it and a `.` after it with text on both sides |
| Helpers.AcceptedNamesAreTrimmed | cmd/installer/main.go:1260-1282 | accepted user and host names neither start nor end with white space, so trimming them changes nothing |
| Helpers.UsernameWithoutUnderscoreIsHostname | cmd/installer/main.go:1260-1282 | a valid user name without `_` is also a valid host name |
| Helpers.HostId | cmd/installer/main.go:1284-1286 | the host ID is eight lower-case hex digits whose value is the clock's low 32 bits |
| Helpers.HostIdCollision | cmd/installer/main.go:1284-1286 | two clock readings give the same host ID exactly when they agree modulo 2^32 |
| Helpers.DiskOfLine | cmd/installer/main.go:1299-1313 | a line yields a disk exactly when it has at least three fields and the third is `disk` |
| Helpers.AvailableDisks | cmd/installer/main.go:1288-1318 | the list is never empty; a failed `lsblk` offers only the test disk; output without a disk row offers only the "No disks found" entry; otherwise the list is exactly the parsed disk rows, in line order |
| Helpers.ParseDiskLinesAppend | cmd/installer/main.go:1298-1314 | each line is parsed on its own: the disks of two blocks of lines are the disks of the first followed by those of the second |
| Helpers.ParseDiskLinesEmpty | cmd/installer/main.go:1298-1317 | the parse finds no disk exactly when no line is a disk row |
| Helpers.DiskRowRoundTrip | cmd/installer/main.go:1299-1313 | a row `NAME SIZE disk MODEL...` yields path `/dev/NAME`, the size, and the model words joined by single spaces |
| Helpers.SizeGiBRoundsDown | cmd/installer/main.go:1331-1333 | the byte count divided three times by 1024 is the number of whole GiB, rounded down |
| Helpers.Allocate | cmd/installer/main.go:1335-1346 | boot 5, nix 5% rounded down but at least 20, atuin 0.05% rounded down but at least 1, and the four areas sum to the disk size |
| Helpers.HomeNegativeOnSmallDisks | cmd/installer/main.go:1346 | the home area is negative exactly for disks of 1 to 25 GiB |
| Helpers.HundredGiBAllocation | cmd/installer/main.go:1333-1352 | a 100 GiB disk, and a size read as 0, give boot/nix/atuin/home of 5/20/1/74 GiB, stored in the configuration as "5G", "20G", "1G" and "74G" |
| Helpers.AllocationFitsInt64 | cmd/installer/main.go:1331-1341 | for any 64-bit byte count the products the code forms stay within 64 bits, so the unbounded arithmetic matches Go's |
| Helpers.GiBRoundTrip | cmd/installer/main.go:1348-1351 | a size written as `%dG` reads back as the same number |
| Helpers.CalculateSpaceAllocation | cmd/installer/main.go:1320-1352 | only the four size fields change; a failed `lsblk` gives 50G/100G/1G and keeps the boot size; otherwise each of boot, nix, atuin and home is the `%dG` text of the matching share of `Allocate` for the disk's whole GiB (100 for 0), so the four read back, sum to that size, and boot is 5G |
| WizardInvariant.FallbackSizesParse | cmd/installer/main.go:1323-1327 | the fixed sizes used when the disk cannot be read are well-formed sizes 50, 100 and 1 |
| Wizard.Step | cmd/installer/model.go:107-195 | only Enter changes the configuration, only Enter on the confirmation step starts the installation, and it is started with the configuration the wizard holds |
| Wizard.HandleKey | cmd/installer/model.go:112-152 | keys other than Enter never change the configuration or the step and issue nothing but quit |
| Wizard.HandleMessage | cmd/installer/model.go:160-195 | messages never change the configuration and issue nothing but a log poll |
| WizardSteps.EnterDispatch | cmd/installer/model.go:123-126 | Enter does nothing during the three animations and is handled by the step otherwise |
| WizardSteps.NetworkCheckStep | cmd/installer/model.go:337-346 | Enter on the network screen moves on after a successful probe, and probes again otherwise |
| WizardSteps.UsernameStep | cmd/installer/model.go:348-359 | the trimmed input is accepted exactly when it is a valid user name; it is then stored and the field cleared, and otherwise the step and configuration stay with an error |
| WizardSteps.FullnameStep | cmd/installer/model.go:360-371 | the full name is refused exactly when the input is all white space; otherwise the trimmed name is stored |
| WizardSteps.EmailStep | cmd/installer/model.go:372-385 | the trimmed e-mail is accepted exactly when valid, and an accepted one has a single `@` |
| WizardSteps.PasswordStep | cmd/installer/model.go:386-397 | the untrimmed password is accepted exactly when it is at least 8 bytes long |
| WizardSteps.PasswordCountsBytes | cmd/installer/model.go:386-391 | a four-character password of two-byte characters passes the 8-byte minimum |
| WizardSteps.PasswordConfirmStep | cmd/installer/model.go:398-411 | the confirmation moves on exactly when it equals the stored password; a mismatch clears the field |
| WizardSteps.HostnameStep | cmd/installer/model.go:412-422 | the trimmed host name is accepted exactly when valid, and the mode list then starts at its first entry |
| WizardSteps.StorageModeStep | cmd/installer/model.go:423-439 | the highlighted mode is stored even when refused; a multi-disk mode with too few listed disks stays with an error; otherwise it goes to the toggle list with nothing toggled, or to the single-disk list |
| WizardSteps.MultiDiskNeedsDiskListing | cmd/installer/model.go:423-435 | when `lsblk` fails, every multi-disk mode is refused |
| WizardSteps.DiskStep | cmd/installer/model.go:440-460 | the highlighted disk becomes the only disk and the boot disk, a host ID is drawn, and XFS skips the passphrase |
| WizardSteps.DiskMultiStep | cmd/installer/model.go:461-483 | too few toggled disks leave the configuration unchanged with an error; otherwise the toggled paths in list order become the disks, the first is the boot disk, and a host ID is drawn |
| WizardSteps.SelectedPathsMembers | cmd/installer/model.go:462-467 | a path is selected exactly when some toggled disk has it |
| WizardSteps.SelectedPathsAppend | cmd/installer/model.go:462-467 | selection keeps list order: the selection from two lists is the first's followed by the second's |
| WizardSteps.SelectedPathsExtremes | cmd/installer/model.go:462-467 | nothing toggled selects nothing; everything toggled selects every path |
| WizardSteps.PassphraseStep | cmd/installer/model.go:484-495 | the passphrase is accepted exactly when at least 8 bytes long |
| WizardSteps.PassphraseConfirmStep | cmd/installer/model.go:496-509 | the confirmation moves on to the locale exactly when it equals the stored passphrase |
| WizardSteps.LocaleStep | cmd/installer/model.go:510-513 | the highlighted locale is stored and the keymap list starts at its first entry |
| WizardSteps.KeymapStep | cmd/installer/model.go:515-521 | layout and console keymap come from the same entry, then the sizes are planned by `CalculateSpaceAllocation` for the boot disk's `lsblk` answer (50G/100G/1G when it failed), and nothing else changes |
| WizardSteps.SshStep | cmd/installer/model.go:523-533 | SSH is enabled exactly when the first option is chosen, which leads to the GitHub step; the other leads to the summary |
| WizardSteps.GitHubUserStep | cmd/installer/model.go:535-555 | an empty name, a failed retrieval and a user without keys are refused with the configuration untouched; otherwise the user and keys are stored |
| WizardSteps.SummaryStep | cmd/installer/model.go:556-559 | the summary leads to the confirmation with an empty field |
| WizardSteps.ConfirmStep | cmd/installer/model.go:561-567 | the installation starts exactly when the field holds `DESTROY`, at step 0 and with the configuration as it stands |
| WizardSteps.ConfirmIsExact | cmd/installer/model.go:562 | `DESTROY ` and `destroy` do not start the installation |
| WizardSteps.EnterElsewhere | cmd/installer/model.go:569-570 | Enter quits on the two end screens and does nothing during the animations or the installation |
| WizardSteps.ConfigChangesOnlyOnAdvance | cmd/installer/model.go:107-214 | every configuration change comes from Enter and moves to another step, except the refused storage mode |
| WizardSteps.CursorUp | cmd/installer/model.go:132-137 | in a list, Up moves the cursor back by one, stopping at the top, and the cursor stays on an entry |
| WizardSteps.CursorDown | cmd/installer/model.go:138-151 | in a list, Down moves the cursor on by one, stopping at the last entry (the SSH list has two) |
| WizardSteps.CursorIgnoredElsewhere | cmd/installer/model.go:132-151 | outside the lists the cursor keys do nothing |
| WizardSteps.SpaceTogglesOne | cmd/installer/model.go:127-131 | Space flips exactly the highlighted toggle on the multi-disk list and does nothing elsewhere |
| WizardSteps.QuitKeys | cmd/installer/model.go:114-122 | Ctrl-C always quits; `q` quits exactly on the listed screens and is ignored as a command on the text screens |
| WizardSteps.ConfirmIgnoresQ | cmd/installer/model.go:116-122 | on the confirmation screen, whose refusal (model.go:567) offers `q` to cancel, `q` is not a quit key: it issues no command and the wizard stays put |
| WizardSteps.EditText | cmd/installer/model.go:197-206 | editing reaches the field only on the text screens, and the field never exceeds 64 characters |
| WizardSteps.StartupSequence | cmd/installer/model.go:216-295 | from start-up, three finished animations lead to the network screen, and a successful probe to the user-name question |
| WizardSteps.InstallDoneCompletes | cmd/installer/model.go:168-170 | the end of the installation moves to the completion screen wherever the wizard is |
| WizardSteps.InstallFailedKeepsCause | cmd/installer/model.go:172-175 | a failed installation moves to the error screen and keeps its cause |
| WizardSteps.LogTailPolls | cmd/installer/model.go:186-194 | the log is polled again only while installing, and a negative step number leaves the counter alone |
| WizardInvariant.InitialEstablished | cmd/installer/model.go:25-56 | the wizard starts at the fire animation, and its initial configuration (boot size `5G`) satisfies the invariant |
| WizardInvariant.EstablishedAtConfirmIsReady | cmd/installer/model.go:348-568 | at the confirmation step every answer has been accepted: names, e-mail, password, disks and host ID, passphrase when encrypted, sizes, and keys when SSH is on |
| WizardInvariant.UsernameKeeps | cmd/installer/model.go:348-359 | the user-name step keeps the invariant |
| WizardInvariant.FullnameKeeps | cmd/installer/model.go:360-371 | the full-name step keeps the invariant |
| WizardInvariant.EmailKeeps | cmd/installer/model.go:372-385 | the e-mail step keeps the invariant |
| WizardInvariant.PasswordKeeps | cmd/installer/model.go:386-397 | the password step keeps the invariant |
| WizardInvariant.PasswordConfirmKeeps | cmd/installer/model.go:398-411 | the password confirmation keeps the invariant |
| WizardInvariant.HostnameKeeps | cmd/installer/model.go:412-422 | the host-name step keeps the invariant |
| WizardInvariant.StorageModeKeeps | cmd/installer/model.go:423-439 | the storage-mode step keeps the invariant, including the refusal that stores the mode |
| WizardInvariant.DiskKeeps | cmd/installer/model.go:440-460 | the single-disk step keeps the invariant |
| WizardInvariant.DiskMultiKeeps | cmd/installer/model.go:461-483 | the multi-disk step keeps the invariant |
| WizardInvariant.PassphraseKeeps | cmd/installer/model.go:484-495 | the passphrase step keeps the invariant |
| WizardInvariant.PassphraseConfirmKeeps | cmd/installer/model.go:496-509 | the passphrase confirmation keeps the invariant |
| WizardInvariant.LocaleKeeps | cmd/installer/model.go:510-513 | the locale step keeps the invariant |
| WizardInvariant.KeymapKeeps | cmd/installer/model.go:515-521 | the keymap step, which plans the sizes, keeps the invariant |
| WizardInvariant.SshKeeps | cmd/installer/model.go:523-533 | the SSH step keeps the invariant |
| WizardInvariant.GitHubUserKeeps | cmd/installer/model.go:535-555 | the GitHub step keeps the invariant |
| WizardInvariant.SummaryKeeps | cmd/installer/model.go:556-559 | the summary keeps the invariant |
| WizardInvariant.ConfirmKeeps | cmd/installer/model.go:561-567 | the confirmation keeps the invariant |
| WizardInvariant.HandleEnterKeeps | cmd/installer/model.go:335-570 | Enter on any step keeps the invariant |
| WizardInvariant.MessageKeeps | cmd/installer/model.go:160-195 | messages keep the invariant |
| WizardInvariant.StepKeepsEstablished | cmd/installer/model.go:107-195 | every event keeps the invariant |
| WizardInvariant.InstallStartsReady | cmd/installer/model.go:561-566 | an installation started by any event has a configuration every step accepted, equal to the one the wizard keeps |
| WizardInvariant.RunKeepsEstablished | cmd/installer/model.go:107-195 | along any sequence of events the invariant holds and every installation started has such a configuration |
| WizardInvariant.InstallerNeverStartsUnvalidated | cmd/installer/model.go:561-566 | from start-up, no sequence of events starts the installation with a configuration some step would refuse |
| Pipeline.ConfigureZfsBoot | cmd/installer/install.go:377-393 | sets bootfs to `<pool>/root` and reads it back only if the set succeeded; succeeds exactly when both calls succeed and the trimmed read-back equals `<pool>/root`; each failure carries its own message: "set bootfs: ", "get bootfs: " plus the cause, or "bootfs not set correctly, got: " plus the raw read-back |
| Pipeline.ReadbackCheck | cmd/installer/install.go:388-390 | a read-back padded with white space is accepted; one naming only the pool is not |
| Pipeline.FinalizeZfsPool | cmd/installer/install.go:472-488 | unmounts, then exports, force-imports and exports again; it stops at the first failing pool call with that call's message ("export pool: ", "import pool: " or "final export: " plus the cause) and succeeds exactly when all three pool calls succeed |
| Pipeline.UnmountIgnored | cmd/installer/install.go:473 | what the unmount answers changes nothing |
| Pipeline.CopyInstallLog | cmd/installer/install.go:491-503 | copies the log to `/mnt/home/<user>/tuinix-install.log` and hands it to uid 1000, gid 100 only if the copy worked; never fails |
| Pipeline.Plan | cmd/installer/install.go:13-99 | ZFS modes run nine stages and XFS seven; the ZFS boot and pool finalisation stages run exactly for ZFS |
| Pipeline.PlanOrder | cmd/installer/install.go:13-99 | stages run in the fixed order, none twice; XFS runs the ZFS plan without its two ZFS stages; the log is copied after the user flake and, with ZFS, right before the pool is finalised |
| Pipeline.RunStage | cmd/installer/install.go:82-86 | the log-copy stage never fails |
| Pipeline.RunStagesFailFast | cmd/installer/install.go:13-99 | the executed stages are a prefix of the plan; the run is done exactly when every stage ran and passed; a failure is the last executed stage, all before it passed, and the error is its label, a colon and its cause |
| Pipeline.RunStagesReplays | cmd/installer/install.go:13-99 | each stage runs after every call of the stages before it, in order |
| Pipeline.InstallationFailsFast | cmd/installer/install.go:13-99 | the installation follows its plan to the first failure; when done, its completed-stage counter is 9 (ZFS) or 7 (XFS); a failure never names the log copy |
| Pipeline.LaterStagesNeedEarlierOnes | cmd/installer/install.go:13-99 | a stage runs only when every earlier stage of the plan succeeded |
| Pipeline.CooperativeWorldCompletes | cmd/installer/install.go:13-99 | when every command succeeds and bootfs reads back as set, every mode installs to the end |
| Pipeline.FormatFailureStops | cmd/installer/install.go:32-37 | a disk that cannot be formatted stops the run after the host configuration, with the message `format disk: <cause>` |
| Sections.EscapeRoundTrip | cmd/installer/install.go:157 | escaping loses nothing and leaves no line break |
| Sections.QuoteRoundTrip | cmd/installer/install.go:157 | `%q` of a key reads back as the key, and the quoted key fits on one line |
| Sections.KeysSection | cmd/installer/install.go:153-161 | the authorized-keys block is written exactly when SSH is enabled and there is at least one key |
| Sections.KeysSectionLines | cmd/installer/install.go:153-161 | the block is its header, one line per key in order that unquotes to that key, and its footer |
| Sections.ZfsConfigLines | cmd/installer/install.go:202-208 | `default.nix` enables ZFS exactly for the ZFS modes, and only then adds an encryption line carrying the mode's encryption |
| Sections.SshConfigLines | cmd/installer/install.go:210-217 | the SSH setting is empty without SSH; with it, its last two lines enable the SSH server and the firewall |
| Sections.ZfsFilesAgree | cmd/installer/install.go:303-323 | ZFS is on in `default.nix` exactly when `hardware.nix` has a host ID line, boot-time ZFS options and scrubbing, and both files carry the same encryption choice |
| Sections.DiskoSubstitutions | cmd/installer/install.go:255-285 | only the single-disk modes use a template, and each template substitutes each placeholder at most once |
| Sections.XfsSubstitutions | cmd/installer/install.go:257-265 | the XFS template gets the disk and the boot size and nothing else |
| Sections.ZfsSingleSubstitutions | cmd/installer/install.go:267-279 | the encrypted single-disk template gets the disk, host name, boot, nix and atuin sizes and pool name |
| InstallReady.ReadyTemplatesAreFilled | cmd/installer/install.go:255-279 | for a configuration the wizard accepted, the template's device is the chosen disk and every size substituted is a whole number of GiB |
| InstallReady.ReadyHostIdLine | cmd/installer/install.go:307-308 | for an accepted ZFS configuration, `hardware.nix` gets an eight-hex-digit host ID |
| InstallReady.ReadyKeysIffSsh | cmd/installer/install.go:153-161 | for an accepted configuration, the user file lists keys exactly when SSH is enabled in `default.nix` |
| InstallReady.ZfsStagesMatchHardware | cmd/installer/install.go:56-64 | the ZFS boot and pool finalisation stages run exactly for the configurations whose `hardware.nix` has a host ID and ZFS boot options |

## Left out

- Rendering: the views, the header and step indicator, the scrolling description, and the
  window size. None of them changes what the wizard decides.
- Animations: the fire, splash and gravity animations are reduced to an `AnimationDone`
  message, and the timer ticks to the messages they produce. The spring animation on step
  changes is left out.
- The text field: editing is an `Edit(value)` key that leaves the field holding `value`,
  truncated to 64 characters. The cursor, echo mode and placeholders are left out. The `k`
  and `j` aliases of Up and Down are the same keys in the model. A `q` typed on a text screen
  reaches the field as an `Edit`.
- The older copies of the wizard and pipeline functions in `main.go` (lines 354-711 and
  1373-1750). The versions in `model.go` and `install.go` are modelled.
- External commands (`lsblk`, `zpool`, `umount`, `cp`, `chown`) and the GitHub key retrieval:
  their outcomes are parameters. The oracles are `Env` in the wizard and `World` in the
  pipeline. The clock is a parameter.
- The inner calls of generating the host files, formatting, generating the hardware file,
  installing NixOS, copying the flake and setting up the user flake (`hashPassword`, file
  writes, `nixos-generate-config`, `disko`, `nixos-install`). Each is one opaque call that
  succeeds or fails.
- Logging, the log file's location (a parameter), and the log-tail polling command itself.
- `generateMultiDiskDiskoConfig`: the multi-disk layout is only marked as generated, not built.
- `findProjectRoot`: the project root is a parameter of the initial wizard.
- The fixed text of the generated files around the modelled sections. The sections are
  modelled; the surrounding template text is not.
- Sections.Quote: models `%q` for the characters it escapes as `\"`, `\\`, `\n`, `\r` and
  `\t`. The other escapes Go writes for non-printable characters (`\a`, `\b`, `\f`, `\v`,
  `\x..`, `\u....`) are not modelled.
- Sections.DiskoFor: records which template file is used and which placeholder values are
  substituted, in order. The `strings.ReplaceAll` over the template text is not modelled,
  because the templates themselves are not part of this model.
- Pipeline.RunStage: the stages other than ZFS boot, pool finalisation and log copy are
  opaque, so their internal error messages are the oracle's causes.
