/**
 What the wizard guarantees about the configuration it hands to the installation: every
 step that has been passed has validated and stored its answer, so by the time the
 confirmation step starts the installation, the whole configuration is valid.
 */
module WizardInvariant {
  import opened Wrappers
  import opened Text
  import opened Types
  import opened Helpers
  import opened Wizard

  /** The four partition sizes are written as whole numbers of GiB. */
  predicate SpacePlanned(c: Config) {
    && ParseGiB(c.spaceBoot).Some? && ParseGiB(c.spaceNix).Some?
    && ParseGiB(c.spaceHome).Some? && ParseGiB(c.spaceAtuin).Some?
  }

  /** Enough disks are chosen for the mode, the first one carries the boot partition, a
      single-disk mode uses exactly that one, and a host ID has been generated. */
  predicate DisksChosen(c: Config) {
    && |c.disks| >= c.storageMode.MinDisks()
    && |c.disks| >= 1
    && c.disk == c.disks[0]
    && (!c.storageMode.IsMultiDisk() ==> c.disks == [c.disk])
    && IsHostId(c.hostId)
  }

  /** A configuration every step of the wizard has accepted. */
  predicate Ready(c: Config) {
    && IsValidUsername(c.username)
    && c.fullname != ""
    && IsValidEmail(c.email)
    && Utf8Len(c.password) >= 8
    && IsValidHostname(c.hostname)
    && DisksChosen(c)
    && (c.storageMode.IsEncrypted() ==> Utf8Len(c.passphrase) >= 8)
    && SpacePlanned(c)
    && (c.enableSsh ==> c.gitHubUser != "" && |c.sshKeys| > 0)
  }

  /** What the wizard's position says about the configuration collected so far. */
  predicate Established(m: Wizard) {
    Holds(m.state, m.config)
  }

  /** How many of the wizard's answers a state has behind it: the user name from `Fullname`
      on, the full name from `Email` on, and so on up to the SSH keys from `Summary` on. The
      animation states, `Username`, and the two end states have none. */
  function Level(s: State): nat {
    match s
    case Fullname => 1
    case Email => 2
    case Password => 3
    case PasswordConfirm => 4
    case Hostname => 4
    case StorageModeChoice => 5
    case Disk => 5
    case DiskMulti => 5
    case Passphrase => 6
    case PassphraseConfirm => 6
    case Locale => 7
    case Keymap => 7
    case Ssh => 8
    case GitHubUser => 8
    case Summary => 9
    case Confirm => 9
    case Installing => 9
    case _ => 0
  }
  /** The first `k` answers are stored and valid. */
  predicate Facts(k: nat, c: Config) {
    && (k >= 1 ==> IsValidUsername(c.username))
    && (k >= 2 ==> c.fullname != "")
    && (k >= 3 ==> IsValidEmail(c.email))
    && (k >= 4 ==> Utf8Len(c.password) >= 8)
    && (k >= 5 ==> IsValidHostname(c.hostname))
    && (k >= 6 ==> DisksChosen(c))
    && (k >= 7 ==> (c.storageMode.IsEncrypted() ==> Utf8Len(c.passphrase) >= 8))
    && (k >= 8 ==> SpacePlanned(c))
    && (k >= 9 ==> (c.enableSsh ==> c.gitHubUser != "" && |c.sshKeys| > 0))
  }
  /** What a state says about the answers it is itself collecting. */
  predicate Local(s: State, c: Config) {
    match s
    case Disk => !c.storageMode.IsMultiDisk()
    case DiskMulti => c.storageMode.IsMultiDisk()
    case Passphrase => c.storageMode.IsEncrypted()
    case PassphraseConfirm => c.storageMode.IsEncrypted() && Utf8Len(c.passphrase) >= 8
    case GitHubUser => c.enableSsh
    case _ => true
  }
  /** The facts a configuration satisfies once the wizard is at state `s`. */
  predicate Holds(s: State, c: Config) {
    ParseGiB(c.spaceBoot).Some? && Facts(Level(s), c) && Local(s, c)
  }

  /** At the confirmation step and while installing, the configuration is complete. */
  lemma EstablishedAtConfirmIsReady(m: Wizard)
    requires Established(m)
    requires m.state == Confirm || m.state == Installing
    ensures Ready(m.config)
  {
  }

  /** The fixed sizes used when the disk size cannot be read are well-formed. */
  lemma FallbackSizesParse()
    ensures ParseGiB("50G") == Some(50) && ParseGiB("100G") == Some(100) && ParseGiB("1G") == Some(1)
  {
    GiBRoundTrip(50);
    GiBRoundTrip(100);
    GiBRoundTrip(1);
    assert FormatGiB(50) == "50G";
    assert FormatGiB(100) == "100G";
    assert FormatGiB(1) == "1G";
  }

  /** The start-up wizard is well formed and has established nothing but the boot size. */
  lemma InitialEstablished(projectRoot: string)
    ensures Wf(InitialWizard(projectRoot))
    ensures Established(InitialWizard(projectRoot))
    ensures InitialWizard(projectRoot).state == FireTransition
  {
    GiBRoundTrip(5);
    assert FormatGiB(5) == "5G";
  }

  // What each accepted answer adds: the facts of one state, plus the accepted value, give
  // the facts of the next state.

  lemma AcceptUsername(c: Config, v: string)
    requires Holds(Username, c) && IsValidUsername(v)
    ensures Holds(Fullname, c.(username := v))
  {
  }

  lemma AcceptFullname(c: Config, v: string)
    requires Holds(Fullname, c) && v != ""
    ensures Holds(Email, c.(fullname := v))
  {
  }

  lemma AcceptEmail(c: Config, v: string)
    requires Holds(Email, c) && IsValidEmail(v)
    ensures Holds(Password, c.(email := v))
  {
  }

  lemma AcceptPassword(c: Config, v: string)
    requires Holds(Password, c) && Utf8Len(v) >= 8
    ensures Holds(PasswordConfirm, c.(password := v))
  {
  }

  lemma AcceptPasswordConfirm(c: Config)
    requires Holds(PasswordConfirm, c)
    ensures Holds(Hostname, c)
  {
  }

  lemma AcceptHostname(c: Config, v: string)
    requires Holds(Hostname, c) && IsValidHostname(v)
    ensures Holds(StorageModeChoice, c.(hostname := v))
  {
  }

  lemma ChooseStorageMode(c: Config, mode: StorageMode)
    requires Holds(StorageModeChoice, c)
    ensures Holds(StorageModeChoice, c.(storageMode := mode))
    ensures mode.IsMultiDisk() ==> Holds(DiskMulti, c.(storageMode := mode))
    ensures !mode.IsMultiDisk() ==> Holds(Disk, c.(storageMode := mode))
  {
  }

  lemma AcceptDisk(c: Config, path: string, hostId: string)
    requires Holds(Disk, c) && IsHostId(hostId)
    ensures c.storageMode.IsEncrypted() ==> Holds(Passphrase, c.(disk := path, disks := [path], hostId := hostId))
    ensures !c.storageMode.IsEncrypted() ==> Holds(Locale, c.(disk := path, disks := [path], hostId := hostId))
  {
    MultiDiskIffSeveralDisks(c.storageMode);
  }

  lemma AcceptDiskMulti(c: Config, selected: seq<string>, hostId: string)
    requires Holds(DiskMulti, c) && IsHostId(hostId)
    requires |selected| >= c.storageMode.MinDisks()
    ensures Holds(Passphrase, c.(disks := selected, disk := selected[0], hostId := hostId))
  {
    MultiDiskIffSeveralDisks(c.storageMode);
  }

  lemma AcceptPassphrase(c: Config, v: string)
    requires Holds(Passphrase, c) && Utf8Len(v) >= 8
    ensures Holds(PassphraseConfirm, c.(passphrase := v))
  {
  }

  lemma AcceptPassphraseConfirm(c: Config)
    requires Holds(PassphraseConfirm, c)
    ensures Holds(Locale, c)
  {
  }

  lemma AcceptLocale(c: Config, locale: string)
    requires Holds(Locale, c)
    ensures Holds(Keymap, c.(locale := locale))
  {
  }

  /** Planning the partition sizes leaves every stored answer in place and makes all four sizes readable. */
  lemma PlanningKeepsFacts(c: Config, sizeBytes: Option<int>)
    requires Facts(7, c) && ParseGiB(c.spaceBoot).Some?
    ensures Facts(8, CalculateSpaceAllocation(c, sizeBytes))
    ensures ParseGiB(CalculateSpaceAllocation(c, sizeBytes).spaceBoot).Some?
  {
    var c1 := CalculateSpaceAllocation(c, sizeBytes);
    assert c1 == c.(spaceBoot := c1.spaceBoot, spaceNix := c1.spaceNix, spaceHome := c1.spaceHome, spaceAtuin := c1.spaceAtuin);
    if sizeBytes.None? {
      FallbackSizesParse();
    }
  }

  /** Storing the keyboard layout touches no answer the invariant speaks about. */
  lemma KeymapKeepsFacts(c: Config, km: KeymapEntry)
    requires Holds(Keymap, c)
    ensures Facts(7, c.(keymap := km.xkbLayout, consoleKeyMap := km.consoleMap))
    ensures ParseGiB(c.(keymap := km.xkbLayout, consoleKeyMap := km.consoleMap).spaceBoot).Some?
  {
  }

  lemma HoldsFromFacts(s: State, c: Config)
    requires Facts(Level(s), c) && ParseGiB(c.spaceBoot).Some? && Local(s, c)
    ensures Holds(s, c)
  {
  }

  lemma AcceptSsh(c: Config)
    requires Holds(Ssh, c)
    ensures Holds(GitHubUser, c.(enableSsh := true))
    ensures Holds(Summary, c.(enableSsh := false))
  {
  }

  lemma AcceptGitHubUser(c: Config, v: string, keys: seq<string>)
    requires Holds(GitHubUser, c) && v != "" && |keys| > 0
    ensures Holds(Summary, c.(gitHubUser := v, sshKeys := keys))
  {
  }

  lemma AcceptSummary(c: Config)
    requires Holds(Summary, c)
    ensures Holds(Confirm, c) && Holds(Installing, c)
  {
  }

  // Each step, when it accepts, moves the configuration to the facts of the next state;
  // when it rejects, it leaves state and configuration as they were.

  lemma UsernameKeeps(m: Wizard)
    requires Wf(m) && Established(m) && m.state == Username
    ensures Established(EnterUsername(m).next)
  {
    var v := TrimSpace(m.input);
    var n := EnterUsername(m).next;
    if IsValidUsername(v) {
      assert n.state == Fullname && n.config == m.config.(username := v);
      AcceptUsername(m.config, v);
    } else {
      assert n.state == m.state && n.config == m.config;
    }
  }

  lemma FullnameKeeps(m: Wizard)
    requires Wf(m) && Established(m) && m.state == Fullname
    ensures Established(EnterFullname(m).next)
  {
    var v := TrimSpace(m.input);
    var n := EnterFullname(m).next;
    if v != "" {
      assert n.state == Email && n.config == m.config.(fullname := v);
      AcceptFullname(m.config, v);
    } else {
      assert n.state == m.state && n.config == m.config;
    }
  }

  lemma EmailKeeps(m: Wizard)
    requires Wf(m) && Established(m) && m.state == Email
    ensures Established(EnterEmail(m).next)
  {
    var v := TrimSpace(m.input);
    var n := EnterEmail(m).next;
    if IsValidEmail(v) {
      assert n.state == Password && n.config == m.config.(email := v);
      AcceptEmail(m.config, v);
    } else {
      assert n.state == m.state && n.config == m.config;
    }
  }

  lemma PasswordKeeps(m: Wizard)
    requires Wf(m) && Established(m) && m.state == Password
    ensures Established(EnterPassword(m).next)
  {
    var n := EnterPassword(m).next;
    if Utf8Len(m.input) >= 8 {
      assert n.state == PasswordConfirm && n.config == m.config.(password := m.input);
      AcceptPassword(m.config, m.input);
    } else {
      assert n.state == m.state && n.config == m.config;
    }
  }

  lemma PasswordConfirmKeeps(m: Wizard)
    requires Wf(m) && Established(m) && m.state == PasswordConfirm
    ensures Established(EnterPasswordConfirm(m).next)
  {
    var n := EnterPasswordConfirm(m).next;
    if m.input == m.config.password {
      assert n.state == Hostname && n.config == m.config;
      AcceptPasswordConfirm(m.config);
    } else {
      assert n.state == m.state && n.config == m.config;
    }
  }

  lemma HostnameKeeps(m: Wizard)
    requires Wf(m) && Established(m) && m.state == Hostname
    ensures Established(EnterHostname(m).next)
  {
    var v := TrimSpace(m.input);
    var n := EnterHostname(m).next;
    if IsValidHostname(v) {
      assert n.state == StorageModeChoice && n.config == m.config.(hostname := v);
      AcceptHostname(m.config, v);
    } else {
      assert n.state == m.state && n.config == m.config;
    }
  }

  lemma StorageModeKeeps(m: Wizard, lsblk: Option<string>)
    requires Wf(m) && Established(m) && m.state == StorageModeChoice
    ensures Established(EnterStorageMode(m, lsblk).next)
  {
    StorageModeOutcome(m, lsblk);
    ChooseStorageMode(m.config, StorageModes[m.selectedIdx]);
  }

  /** The storage-mode step stores the highlighted mode and moves on only to the disk screen
      that mode asks for. */
  lemma StorageModeOutcome(m: Wizard, lsblk: Option<string>)
    requires Wf(m) && m.state == StorageModeChoice
    ensures var mode := StorageModes[m.selectedIdx]; var n := EnterStorageMode(m, lsblk).next;
      && n.config == m.config.(storageMode := mode)
      && (n.state == StorageModeChoice || (n.state == DiskMulti && mode.IsMultiDisk()) || (n.state == Disk && !mode.IsMultiDisk()))
  {
  }

  lemma DiskKeeps(m: Wizard, clock: int)
    requires Wf(m) && Established(m) && m.state == Disk
    ensures Established(EnterDisk(m, clock).next)
  {
    var n := EnterDisk(m, clock).next;
    if |m.disks| > 0 {
      var path := m.disks[m.selectedIdx].path;
      assert n.config == m.config.(disk := path, disks := [path], hostId := HostId(clock));
      assert (n.state == Passphrase && m.config.storageMode.IsEncrypted()) || (n.state == Locale && !m.config.storageMode.IsEncrypted());
      AcceptDisk(m.config, path, HostId(clock));
    }
  }

  lemma DiskMultiKeeps(m: Wizard, clock: int)
    requires Wf(m) && Established(m) && m.state == DiskMulti
    ensures Established(EnterDiskMulti(m, clock).next)
  {
    var selected := SelectedPaths(m.disks, m.diskSelected);
    var n := EnterDiskMulti(m, clock).next;
    if |selected| >= m.config.storageMode.MinDisks() {
      MultiDiskIffSeveralDisks(m.config.storageMode);
      assert n.state == Passphrase && n.config == m.config.(disks := selected, disk := selected[0], hostId := HostId(clock));
      AcceptDiskMulti(m.config, selected, HostId(clock));
    } else {
      assert n.state == m.state && n.config == m.config;
    }
  }

  lemma PassphraseKeeps(m: Wizard)
    requires Wf(m) && Established(m) && m.state == Passphrase
    ensures Established(EnterPassphrase(m).next)
  {
    var n := EnterPassphrase(m).next;
    if Utf8Len(m.input) >= 8 {
      assert n.state == PassphraseConfirm && n.config == m.config.(passphrase := m.input);
      AcceptPassphrase(m.config, m.input);
    } else {
      assert n.state == m.state && n.config == m.config;
    }
  }

  lemma PassphraseConfirmKeeps(m: Wizard)
    requires Wf(m) && Established(m) && m.state == PassphraseConfirm
    ensures Established(EnterPassphraseConfirm(m).next)
  {
    var n := EnterPassphraseConfirm(m).next;
    if m.input == m.config.passphrase {
      assert n.state == Locale && n.config == m.config;
      AcceptPassphraseConfirm(m.config);
    } else {
      assert n.state == m.state && n.config == m.config;
    }
  }

  lemma LocaleKeeps(m: Wizard)
    requires Wf(m) && Established(m) && m.state == Locale
    ensures Established(EnterLocale(m).next)
  {
    var n := EnterLocale(m).next;
    assert n.state == Keymap && n.config == m.config.(locale := m.locales[m.selectedIdx]);
    AcceptLocale(m.config, m.locales[m.selectedIdx]);
  }

  lemma KeymapKeeps(m: Wizard, sizeBytes: Option<int>)
    requires Wf(m) && Established(m) && m.state == Keymap
    ensures Established(EnterKeymap(m, sizeBytes).next)
  {
    var n := EnterKeymap(m, sizeBytes).next;
    KeymapPlansSizes(m, sizeBytes);
    HoldsFromFacts(Ssh, n.config);
  }

  /** The keymap step stores the layout, then plans the sizes; together they keep every fact. */
  lemma KeymapPlansSizes(m: Wizard, sizeBytes: Option<int>)
    requires Wf(m) && Established(m) && m.state == Keymap
    ensures var n := EnterKeymap(m, sizeBytes).next;
      n.state == Ssh && Facts(8, n.config) && ParseGiB(n.config.spaceBoot).Some?
  {
    var km := m.keymaps[m.selectedIdx];
    var c0 := m.config.(keymap := km.xkbLayout, consoleKeyMap := km.consoleMap);
    assert EnterKeymap(m, sizeBytes).next.config == CalculateSpaceAllocation(c0, sizeBytes);
    KeymapKeepsFacts(m.config, km);
    PlanningKeepsFacts(c0, sizeBytes);
  }

  lemma SshKeeps(m: Wizard)
    requires Wf(m) && Established(m) && m.state == Ssh
    ensures Established(EnterSsh(m).next)
  {
    var n := EnterSsh(m).next;
    AcceptSsh(m.config);
    if m.selectedIdx == 0 {
      assert n.state == GitHubUser && n.config == m.config.(enableSsh := true);
    } else {
      assert n.state == Summary && n.config == m.config.(enableSsh := false);
    }
  }

  lemma GitHubUserKeeps(m: Wizard, fetchKeys: string -> Fetch)
    requires Wf(m) && Established(m) && m.state == GitHubUser
    ensures Established(EnterGitHubUser(m, fetchKeys).next)
  {
    var v := TrimSpace(m.input);
    var n := EnterGitHubUser(m, fetchKeys).next;
    if v != "" && fetchKeys(v).Fetched? && |fetchKeys(v).keys| > 0 {
      assert n.state == Summary && n.config == m.config.(gitHubUser := v, sshKeys := fetchKeys(v).keys);
      AcceptGitHubUser(m.config, v, fetchKeys(v).keys);
    } else {
      assert n.state == m.state && n.config == m.config;
    }
  }

  lemma SummaryKeeps(m: Wizard)
    requires Wf(m) && Established(m) && m.state == Summary
    ensures Established(EnterSummary(m).next)
  {
    var n := EnterSummary(m).next;
    assert n.state == Confirm && n.config == m.config;
    AcceptSummary(m.config);
  }

  lemma ConfirmKeeps(m: Wizard)
    requires Wf(m) && Established(m) && m.state == Confirm
    ensures Established(EnterConfirm(m).next)
  {
    var n := EnterConfirm(m).next;
    assert n.state == Installing || n.state == Confirm;
    assert n.config == m.config;
  }

  lemma EnterAccountKeeps(m: Wizard)
    requires Wf(m) && Established(m) && IsAccountState(m.state)
    ensures Established(EnterAccount(m).next)
  {
    match m.state
    case NetworkCheck => assert EnterAccount(m).next.config == m.config;
    case Username => UsernameKeeps(m);
    case Fullname => FullnameKeeps(m);
    case Email => EmailKeeps(m);
    case Password => PasswordKeeps(m);
    case PasswordConfirm => PasswordConfirmKeeps(m);
    case Hostname => HostnameKeeps(m);
  }

  lemma EnterStorageKeeps(m: Wizard, env: Env)
    requires Wf(m) && Established(m) && IsStorageState(m.state)
    ensures Established(EnterStorage(m, env).next)
  {
    match m.state
    case StorageModeChoice => StorageModeKeeps(m, env.lsblkList);
    case Disk => DiskKeeps(m, env.clock);
    case DiskMulti => DiskMultiKeeps(m, env.clock);
    case Passphrase => PassphraseKeeps(m);
    case PassphraseConfirm => PassphraseConfirmKeeps(m);
  }

  lemma EnterSystemKeeps(m: Wizard, env: Env)
    requires Wf(m) && Established(m) && IsSystemState(m.state)
    ensures Established(EnterSystem(m, env).next)
  {
    match m.state
    case Locale => LocaleKeeps(m);
    case Keymap => KeymapKeeps(m, env.lsblkSize);
    case Ssh => SshKeeps(m);
    case GitHubUser => GitHubUserKeeps(m, env.fetchKeys);
  }

  /** Enter keeps the invariant in every state. */
  lemma HandleEnterKeeps(m: Wizard, env: Env)
    requires Wf(m) && Established(m)
    ensures Established(HandleEnter(m, env).next)
  {
    if IsAccountState(m.state) {
      EnterAccountKeeps(m);
    } else if IsStorageState(m.state) {
      EnterStorageKeeps(m, env);
    } else if IsSystemState(m.state) {
      EnterSystemKeeps(m, env);
    } else if m.state == Summary {
      SummaryKeeps(m);
    } else if m.state == Confirm {
      ConfirmKeeps(m);
    }
  }

  /** Every event keeps the invariant. */
  lemma StepKeepsEstablished(m: Wizard, ev: Event, env: Env)
    requires Wf(m) && Established(m)
    ensures Established(Step(m, ev, env).next)
  {
    match ev
    case Press(Enter) =>
      if m.state != FireTransition && m.state != GravityOut && m.state != Splash {
        HandleEnterKeeps(m, env);
      }
    case Press(k) =>
      assert Step(m, ev, env) == HandleKey(m, k);
    case Receive(msg) =>
      var r := HandleMessage(m, msg);
      MessageKeeps(m, msg);
      assert Step(m, ev, env) == r;
  }

  /** Messages move only to states that ask nothing of the configuration, or keep the state. */
  lemma MessageKeeps(m: Wizard, msg: Message)
    requires Wf(m) && Established(m)
    ensures Established(HandleMessage(m, msg).next)
  {
    var n := HandleMessage(m, msg).next;
    assert n.config == m.config;
    if n.state != m.state {
      MessageTargets(m, msg);
      StartStatesHold(m.config);
    }
  }

  /** The states a message can move the wizard to. */
  lemma MessageTargets(m: Wizard, msg: Message)
    requires Wf(m)
    ensures var s := HandleMessage(m, msg).next.state;
      s == m.state || s == Splash || s == GravityOut || s == NetworkCheck || s == Username || s == Complete || s == Error
  {
  }

  /** The states a message can move to hold of any configuration with a parseable boot size. */
  lemma StartStatesHold(c: Config)
    requires ParseGiB(c.spaceBoot).Some?
    ensures Holds(Splash, c) && Holds(GravityOut, c) && Holds(NetworkCheck, c)
    ensures Holds(Username, c) && Holds(Complete, c) && Holds(Error, c)
  {
  }

  /** The installation is only ever started with a configuration every step has accepted,
      and it is started with the configuration exactly as the wizard holds it. */
  lemma InstallStartsReady(m: Wizard, ev: Event, env: Env)
    requires Wf(m) && Established(m)
    ensures var r := Step(m, ev, env);
      r.cmd.RunInstall? ==> Ready(r.cmd.config) && r.cmd.config == r.next.config
  {
    var r := Step(m, ev, env);
    if r.cmd.RunInstall? {
      assert m.state == Confirm && r.cmd.config == m.config == r.next.config;
      EstablishedAtConfirmIsReady(m);
    }
  }

  /** The wizard's answer to a sequence of events: where it ends and every command it issued. */
  datatype Trace = Trace(last: Wizard, cmds: seq<Cmd>)

  function Run(m: Wizard, inputs: seq<(Event, Env)>): (t: Trace)
    requires Wf(m)
    ensures Wf(t.last)
    ensures |t.cmds| == |inputs|
    decreases |inputs|
  {
    if |inputs| == 0 then Trace(m, [])
    else
      var r := Step(m, inputs[0].0, inputs[0].1);
      var t := Run(r.next, inputs[1..]);
      Trace(t.last, [r.cmd] + t.cmds)
  }

  /** Along any run the invariant holds and every installation started has a ready configuration. */
  lemma {:induction false} RunKeepsEstablished(m: Wizard, inputs: seq<(Event, Env)>)
    requires Wf(m) && Established(m)
    ensures Established(Run(m, inputs).last)
    ensures forall k :: 0 <= k < |inputs| && Run(m, inputs).cmds[k].RunInstall? ==> Ready(Run(m, inputs).cmds[k].config)
    decreases |inputs|
  {
    if |inputs| > 0 {
      var r := Step(m, inputs[0].0, inputs[0].1);
      StepKeepsEstablished(m, inputs[0].0, inputs[0].1);
      InstallStartsReady(m, inputs[0].0, inputs[0].1);
      RunKeepsEstablished(r.next, inputs[1..]);
      var t := Run(m, inputs);
      forall k | 0 <= k < |inputs| && t.cmds[k].RunInstall? ensures Ready(t.cmds[k].config) {
        if k > 0 {
          assert t.cmds[k] == Run(r.next, inputs[1..]).cmds[k - 1];
        }
      }
    }
  }

  /** Whatever the user types and whatever the outside world answers, an installation the
      wizard starts from its initial state runs with a configuration every step accepted. */
  lemma InstallerNeverStartsUnvalidated(projectRoot: string, inputs: seq<(Event, Env)>)
    ensures Wf(InitialWizard(projectRoot))
    ensures var t := Run(InitialWizard(projectRoot), inputs);
      forall k :: 0 <= k < |t.cmds| && t.cmds[k].RunInstall? ==> Ready(t.cmds[k].config)
  {
    InitialEstablished(projectRoot);
    RunKeepsEstablished(InitialWizard(projectRoot), inputs);
  }
}
