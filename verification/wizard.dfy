/**
 The installer's wizard: one pure transition function `Step` over the wizard record,
 driven by key presses and by the messages the background commands send back. Every
 effect the wizard has on the outside world (listing disks, reading a disk size, reading
 the clock, fetching SSH keys) is an `Env` oracle, and the commands it starts are
 returned as `Cmd` values instead of being run.
 */
module Wizard {
  import opened Wrappers
  import opened Text
  import opened Types
  import opened Helpers

  const Locales: seq<string> :=
    ["en_US.UTF-8", "en_GB.UTF-8", "pt_PT.UTF-8", "pt_BR.UTF-8", "de_DE.UTF-8", "fr_FR.UTF-8", "es_ES.UTF-8"]

  const Keymaps: seq<KeymapEntry> := [
    KeymapEntry("us", "us", "us"),
    KeymapEntry("uk", "gb", "uk"),
    KeymapEntry("pt", "pt", "pt-latin1"),
    KeymapEntry("br", "br", "br-abnt2"),
    KeymapEntry("de", "de", "de-latin1"),
    KeymapEntry("fr", "fr", "fr-latin1"),
    KeymapEntry("es", "es", "es")
  ]

  /** The text field holds at most this many characters. */
  const CharLimit: nat := 64

  /** The text the user must type at the final confirmation. */
  const ConfirmWord: string := "DESTROY"

  /** The error shown under the current step. */
  datatype WizardError =
    | InvalidUsername
    | FullnameRequired
    | InvalidEmail
    | PasswordTooShort
    | PasswordMismatch
    | InvalidHostname
    | NotEnoughDisks(mode: StorageMode, found: nat)
    | TooFewSelected(mode: StorageMode)
    | PassphraseTooShort
    | PassphraseMismatch
    | GitHubUserRequired
    | KeyFetchFailed(cause: string)
    | NoKeysFound(user: string)
    | ConfirmRequired

  /** The answer of the public-key retrieval for a GitHub user. */
  datatype Fetch = Fetched(keys: seq<string>) | FetchFailed(cause: string)

  /** What the outside world answers when the wizard asks: the output of the disk listing
      (`None` when `lsblk` fails), the byte size of the boot disk (`None` when `lsblk` fails),
      the clock in nanoseconds, and the key retrieval. */
  datatype Env = Env(lsblkList: Option<string>, lsblkSize: Option<int>, clock: int, fetchKeys: string -> Fetch)

  /** The keys the wizard reacts to; `Edit` stands for any editing of the text field, which
      leaves it holding `value`. */
  datatype Key = Enter | Up | Down | Space | CtrlC | KeyQ | Edit(value: string)

  /** The messages background work sends back: the end of an animation, the network probe,
      and the installation's progress and outcome. */
  datatype Message =
    | AnimationDone
    | NetworkChecked(ok: bool)
    | InstallProgress(step: int)
    | LogTail(currentStep: int)
    | InstallDone
    | InstallFailed(cause: string)

  /** Inputs to the wizard. */
  datatype Event = Press(key: Key) | Receive(msg: Message)

  /** Commands the wizard hands back to the runtime. */
  datatype Cmd = NoCmd | Quit | CheckNetwork | PollLog | RunInstall(config: Config)

  /** The wizard's record. */
  datatype Wizard = Wizard(
    state: State,
    config: Config,
    input: string,
    err: Option<WizardError>,
    disks: seq<DiskInfo>,
    selectedIdx: int,
    diskSelected: seq<bool>,
    locales: seq<string>,
    keymaps: seq<KeymapEntry>,
    networkOk: bool,
    installStep: int,
    installErr: Option<string>)

  datatype Transition = Transition(next: Wizard, cmd: Cmd)

  /** The configuration before any step: pool name, boot size and work directory preset. */
  function InitialConfig(projectRoot: string): Config {
    Config("", "", "", "", "", "", [], "", "", ZfsEncryptedSingle, "", "", "", false, "", [],
           "5G", "", "", "", "NIXROOT", projectRoot, "/tmp/tuinix-install")
  }

  /** The wizard at start-up, given the project root found on the installation medium. */
  function InitialWizard(projectRoot: string): Wizard {
    Wizard(FireTransition, InitialConfig(projectRoot), "", None, [], 0, [], Locales, Keymaps, false, 0, None)
  }

  /** States that show a list navigated with the cursor keys. */
  predicate IsListState(s: State) {
    s == Disk || s == DiskMulti || s == Locale || s == Keymap || s == Ssh || s == StorageModeChoice
  }

  /** States in which the text field receives keys. */
  predicate IsTextState(s: State) {
    || s == Username || s == Fullname || s == Email || s == Password || s == PasswordConfirm
    || s == Hostname || s == Passphrase || s == PassphraseConfirm || s == GitHubUser
    || s == Confirm || s == StorageModeChoice || s == DiskMulti
  }

  /** States in which `q` quits rather than being typed. */
  predicate IsQuitState(s: State) {
    || s == Splash || s == NetworkCheck || s == Disk || s == DiskMulti || s == Locale
    || s == Keymap || s == Ssh || s == Summary || s == StorageModeChoice || s == Complete || s == Error
  }

  /** Length of the list the state shows (0 for states without a list). */
  function ListLen(m: Wizard): int {
    match m.state
    case Disk => |m.disks|
    case DiskMulti => |m.disks|
    case Locale => |m.locales|
    case Keymap => |m.keymaps|
    case Ssh => 2
    case StorageModeChoice => |StorageModes|
    case _ => 0
  }

  /** The cursor is inside the list on screen, and the toggles match the disks one to one. */
  predicate Wf(m: Wizard) {
    && |m.locales| > 0
    && |m.keymaps| > 0
    && 0 <= m.selectedIdx
    && |m.input| <= CharLimit
    && ((m.state == Disk || m.state == DiskMulti) ==> m.selectedIdx < |m.disks|)
    && (m.state == Locale ==> m.selectedIdx < |m.locales|)
    && (m.state == Keymap ==> m.selectedIdx < |m.keymaps|)
    && (m.state == Ssh ==> m.selectedIdx < 2)
    && (m.state == StorageModeChoice ==> m.selectedIdx < |StorageModes|)
    && (m.state == DiskMulti ==> |m.diskSelected| == |m.disks|)
  }

  /** How many toggles are on. */
  function CountOn(selected: seq<bool>): nat {
    if |selected| == 0 then 0 else (if selected[0] then 1 else 0) + CountOn(selected[1..])
  }

  /** The paths of the toggled disks, in list order. */
  function SelectedPaths(disks: seq<DiskInfo>, selected: seq<bool>): (r: seq<string>)
    requires |selected| <= |disks|
    ensures |r| == CountOn(selected) <= |selected|
  {
    if |selected| == 0 then []
    else (if selected[0] then [disks[0].path] else []) + SelectedPaths(disks[1..], selected[1..])
  }

  /** The reaction to one event. Only Enter changes the configuration, and only Enter on
      the confirmation step starts the installation. */
  function Step(m: Wizard, ev: Event, env: Env): (r: Transition)
    requires Wf(m)
    ensures Wf(r.next)
    ensures r.next.locales == m.locales && r.next.keymaps == m.keymaps
    ensures r.next.config != m.config ==> ev == Press(Enter)
    ensures r.cmd.RunInstall? ==> ev == Press(Enter) && m.state == Confirm && r.next.state == Installing && r.cmd.config == m.config == r.next.config
  {
    match ev
    case Press(Enter) =>
      if m.state == FireTransition || m.state == GravityOut || m.state == Splash then Transition(m, NoCmd)
      else HandleEnter(m, env)
    case Press(k) => HandleKey(m, k)
    case Receive(msg) => HandleMessage(m, msg)
  }

  /** Keys other than Enter: quitting, cursor movement, toggling a disk, editing the text field. */
  function HandleKey(m: Wizard, k: Key): (r: Transition)
    requires Wf(m)
    ensures Wf(r.next)
    ensures r.next.config == m.config && r.next.state == m.state
    ensures r.next.locales == m.locales && r.next.keymaps == m.keymaps
    ensures r.cmd == NoCmd || r.cmd == Quit
  {
    match k
    case Enter => Transition(m, NoCmd)
    case CtrlC => Transition(m, Quit)
    case KeyQ => if IsQuitState(m.state) then Transition(m, Quit) else Transition(m, NoCmd)
    case Space =>
      if m.state == DiskMulti && m.selectedIdx < |m.disks| then
        Transition(m.(diskSelected := m.diskSelected[m.selectedIdx := !m.diskSelected[m.selectedIdx]]), NoCmd)
      else Transition(m, NoCmd)
    case Up =>
      if IsListState(m.state) && m.selectedIdx > 0 then Transition(m.(selectedIdx := m.selectedIdx - 1), NoCmd)
      else Transition(m, NoCmd)
    case Down =>
      if IsListState(m.state) && m.selectedIdx < ListLen(m) - 1 then Transition(m.(selectedIdx := m.selectedIdx + 1), NoCmd)
      else Transition(m, NoCmd)
    case Edit(v) =>
      if IsTextState(m.state) then Transition(m.(input := if |v| <= CharLimit then v else v[..CharLimit]), NoCmd)
      else Transition(m, NoCmd)
  }

  /** Messages from background work. They may arrive in any state: the end of the
      installation moves to `Complete` or `Error` wherever the wizard is. */
  function HandleMessage(m: Wizard, msg: Message): (r: Transition)
    requires Wf(m)
    ensures Wf(r.next)
    ensures r.next.config == m.config
    ensures r.next.locales == m.locales && r.next.keymaps == m.keymaps
    ensures r.cmd == NoCmd || r.cmd == PollLog
  {
    match msg
    case AnimationDone =>
      if m.state == FireTransition then Transition(m.(state := Splash), NoCmd)
      else if m.state == Splash then Transition(m.(state := GravityOut, input := ""), NoCmd)
      else if m.state == GravityOut then Transition(m.(state := NetworkCheck), NoCmd)
      else Transition(m, NoCmd)
    case NetworkChecked(ok) =>
      if ok then Transition(m.(networkOk := ok, state := Username, input := ""), NoCmd)
      else Transition(m.(networkOk := ok), NoCmd)
    case InstallProgress(step) => Transition(m.(installStep := step), NoCmd)
    case LogTail(current) =>
      var m1 := if current >= 0 then m.(installStep := current) else m;
      Transition(m1, if m.state == Installing then PollLog else NoCmd)
    case InstallDone => Transition(m.(state := Complete), NoCmd)
    case InstallFailed(cause) => Transition(m.(installErr := Some(cause), state := Error), NoCmd)
  }

  /** The reaction to Enter, state by state. */
  function HandleEnter(m: Wizard, env: Env): (r: Transition)
    requires Wf(m)
    ensures Wf(r.next)
    ensures r.next.locales == m.locales && r.next.keymaps == m.keymaps
    ensures r.cmd.RunInstall? ==> m.state == Confirm && r.next.state == Installing && r.cmd.config == m.config == r.next.config
  {
    if IsAccountState(m.state) then EnterAccount(m)
    else if IsStorageState(m.state) then EnterStorage(m, env)
    else if IsSystemState(m.state) then EnterSystem(m, env)
    else if m.state == Summary then EnterSummary(m)
    else if m.state == Confirm then EnterConfirm(m)
    else if m.state == Complete || m.state == Error then Transition(m, Quit)
    else Transition(m, NoCmd)
  }

  /** The steps that collect the user account and the host name. */
  predicate IsAccountState(s: State) {
    s == NetworkCheck || s == Username || s == Fullname || s == Email || s == Password
    || s == PasswordConfirm || s == Hostname
  }

  /** The steps that choose the disk layout and its passphrase. */
  predicate IsStorageState(s: State) {
    s == StorageModeChoice || s == Disk || s == DiskMulti || s == Passphrase || s == PassphraseConfirm
  }

  /** The steps that choose locale, keyboard and remote access. */
  predicate IsSystemState(s: State) {
    s == Locale || s == Keymap || s == Ssh || s == GitHubUser
  }

  function EnterAccount(m: Wizard): (r: Transition)
    requires Wf(m) && IsAccountState(m.state)
    ensures Wf(r.next)
    ensures r.next.locales == m.locales && r.next.keymaps == m.keymaps
    ensures !r.cmd.RunInstall?
  {
    match m.state
    case NetworkCheck => EnterNetworkCheck(m)
    case Username => EnterUsername(m)
    case Fullname => EnterFullname(m)
    case Email => EnterEmail(m)
    case Password => EnterPassword(m)
    case PasswordConfirm => EnterPasswordConfirm(m)
    case Hostname => EnterHostname(m)
  }

  function EnterStorage(m: Wizard, env: Env): (r: Transition)
    requires Wf(m) && IsStorageState(m.state)
    ensures Framed(m, r)
  {
    match m.state
    case StorageModeChoice => EnterStorageMode(m, env.lsblkList)
    case Disk => EnterDisk(m, env.clock)
    case DiskMulti => EnterDiskMulti(m, env.clock)
    case Passphrase => EnterPassphrase(m)
    case PassphraseConfirm => EnterPassphraseConfirm(m)
  }

  function EnterSystem(m: Wizard, env: Env): (r: Transition)
    requires Wf(m) && IsSystemState(m.state)
    ensures Framed(m, r)
  {
    match m.state
    case Locale => EnterLocale(m)
    case Keymap => EnterKeymap(m, env.lsblkSize)
    case Ssh => EnterSsh(m)
    case GitHubUser => EnterGitHubUser(m, env.fetchKeys)
  }

  /** Frame shared by the steps: the cursor and toggle invariant holds afterwards, the lists
      offered never change, and nothing but the confirmation step starts a command. */
  predicate Framed(m: Wizard, r: Transition) {
    Wf(r.next) && r.next.locales == m.locales && r.next.keymaps == m.keymaps && r.cmd == NoCmd
  }

  /** Enter on the network check retries the probe until it has succeeded. */
  function EnterNetworkCheck(m: Wizard): (r: Transition)
    requires Wf(m) && m.state == NetworkCheck
    ensures Wf(r.next) && r.next.config == m.config && r.next.locales == m.locales && r.next.keymaps == m.keymaps
    ensures r.next.state == Username || r.cmd == CheckNetwork
  {
    if m.networkOk then Transition(m.(state := Username, input := ""), NoCmd)
    else Transition(m, CheckNetwork)
  }

  function EnterUsername(m: Wizard): (r: Transition)
    requires Wf(m) && m.state == Username
    ensures Framed(m, r)
  {
    var v := TrimSpace(m.input);
    if !IsValidUsername(v) then Transition(m.(err := Some(InvalidUsername)), NoCmd)
    else Transition(m.(config := m.config.(username := v), err := None, state := Fullname, input := ""), NoCmd)
  }

  function EnterFullname(m: Wizard): (r: Transition)
    requires Wf(m) && m.state == Fullname
    ensures Framed(m, r)
  {
    var v := TrimSpace(m.input);
    if v == "" then Transition(m.(err := Some(FullnameRequired)), NoCmd)
    else Transition(m.(config := m.config.(fullname := v), err := None, state := Email, input := ""), NoCmd)
  }

  function EnterEmail(m: Wizard): (r: Transition)
    requires Wf(m) && m.state == Email
    ensures Framed(m, r)
  {
    var v := TrimSpace(m.input);
    if !IsValidEmail(v) then Transition(m.(err := Some(InvalidEmail)), NoCmd)
    else Transition(m.(config := m.config.(email := v), err := None, state := Password, input := ""), NoCmd)
  }

  /** The password is taken as typed, without trimming, and measured in bytes. */
  function EnterPassword(m: Wizard): (r: Transition)
    requires Wf(m) && m.state == Password
    ensures Framed(m, r)
  {
    var v := m.input;
    if Utf8Len(v) < 8 then Transition(m.(err := Some(PasswordTooShort)), NoCmd)
    else Transition(m.(config := m.config.(password := v), err := None, state := PasswordConfirm, input := ""), NoCmd)
  }

  function EnterPasswordConfirm(m: Wizard): (r: Transition)
    requires Wf(m) && m.state == PasswordConfirm
    ensures Framed(m, r)
  {
    if m.input != m.config.password then Transition(m.(err := Some(PasswordMismatch), input := ""), NoCmd)
    else Transition(m.(err := None, state := Hostname, input := ""), NoCmd)
  }

  /** The text field keeps the host name: the next step does not clear it. */
  function EnterHostname(m: Wizard): (r: Transition)
    requires Wf(m) && m.state == Hostname
    ensures Framed(m, r)
  {
    var v := TrimSpace(m.input);
    if !IsValidHostname(v) then Transition(m.(err := Some(InvalidHostname)), NoCmd)
    else Transition(m.(config := m.config.(hostname := v), err := None, state := StorageModeChoice, selectedIdx := 0), NoCmd)
  }

  /** The chosen mode is stored before the disk count is checked, and the disks are listed
      afresh every time. */
  function EnterStorageMode(m: Wizard, lsblk: Option<string>): (r: Transition)
    requires Wf(m) && m.state == StorageModeChoice
    ensures Framed(m, r)
  {
    var mode := StorageModes[m.selectedIdx];
    var disks := AvailableDisks(lsblk);
    var m1 := m.(config := m.config.(storageMode := mode), disks := disks, selectedIdx := 0, err := None);
    if mode.IsMultiDisk() then
      if |disks| < mode.MinDisks() then Transition(m1.(err := Some(NotEnoughDisks(mode, |disks|))), NoCmd)
      else Transition(m1.(diskSelected := seq(|disks|, _ => false), state := DiskMulti), NoCmd)
    else Transition(m1.(state := Disk), NoCmd)
  }

  function EnterDisk(m: Wizard, clock: int): (r: Transition)
    requires Wf(m) && m.state == Disk
    ensures Framed(m, r)
  {
    if |m.disks| > 0 then
      var path := m.disks[m.selectedIdx].path;
      var c1 := m.config.(disk := path, disks := [path], hostId := HostId(clock));
      if m.config.storageMode.IsEncrypted() then Transition(m.(config := c1, state := Passphrase, input := ""), NoCmd)
      else Transition(m.(config := c1, state := Locale, input := "", selectedIdx := 0), NoCmd)
    else Transition(m, NoCmd)
  }

  function EnterDiskMulti(m: Wizard, clock: int): (r: Transition)
    requires Wf(m) && m.state == DiskMulti
    ensures Framed(m, r)
  {
    var selected := SelectedPaths(m.disks, m.diskSelected);
    var minRequired := m.config.storageMode.MinDisks();
    if |selected| < minRequired then Transition(m.(err := Some(TooFewSelected(m.config.storageMode))), NoCmd)
    else
      var c1 := m.config.(disks := selected, disk := selected[0], hostId := HostId(clock));
      Transition(m.(config := c1, err := None, state := Passphrase, input := ""), NoCmd)
  }

  function EnterPassphrase(m: Wizard): (r: Transition)
    requires Wf(m) && m.state == Passphrase
    ensures Framed(m, r)
  {
    var v := m.input;
    if Utf8Len(v) < 8 then Transition(m.(err := Some(PassphraseTooShort)), NoCmd)
    else Transition(m.(config := m.config.(passphrase := v), err := None, state := PassphraseConfirm, input := ""), NoCmd)
  }

  function EnterPassphraseConfirm(m: Wizard): (r: Transition)
    requires Wf(m) && m.state == PassphraseConfirm
    ensures Framed(m, r)
  {
    if m.input != m.config.passphrase then Transition(m.(err := Some(PassphraseMismatch), input := ""), NoCmd)
    else Transition(m.(err := None, state := Locale, input := "", selectedIdx := 0), NoCmd)
  }

  function EnterLocale(m: Wizard): (r: Transition)
    requires Wf(m) && m.state == Locale
    ensures Framed(m, r)
  {
    Transition(m.(config := m.config.(locale := m.locales[m.selectedIdx]), state := Keymap, selectedIdx := 0), NoCmd)
  }

  /** Choosing the keymap also plans the partition sizes, from the size of the boot disk. */
  function EnterKeymap(m: Wizard, sizeBytes: Option<int>): (r: Transition)
    requires Wf(m) && m.state == Keymap
    ensures Framed(m, r)
  {
    var km := m.keymaps[m.selectedIdx];
    var c1 := CalculateSpaceAllocation(m.config.(keymap := km.xkbLayout, consoleKeyMap := km.consoleMap), sizeBytes);
    Transition(m.(config := c1, state := Ssh, selectedIdx := 0), NoCmd)
  }

  function EnterSsh(m: Wizard): (r: Transition)
    requires Wf(m) && m.state == Ssh
    ensures Framed(m, r)
  {
    if m.selectedIdx == 0 then Transition(m.(config := m.config.(enableSsh := true), state := GitHubUser, input := ""), NoCmd)
    else Transition(m.(config := m.config.(enableSsh := false), state := Summary), NoCmd)
  }

  function EnterGitHubUser(m: Wizard, fetchKeys: string -> Fetch): (r: Transition)
    requires Wf(m) && m.state == GitHubUser
    ensures Framed(m, r)
  {
    var v := TrimSpace(m.input);
    if v == "" then Transition(m.(err := Some(GitHubUserRequired)), NoCmd)
    else
      match fetchKeys(v)
      case FetchFailed(cause) => Transition(m.(err := Some(KeyFetchFailed(cause))), NoCmd)
      case Fetched(keys) =>
        if |keys| == 0 then Transition(m.(err := Some(NoKeysFound(v))), NoCmd)
        else Transition(m.(config := m.config.(gitHubUser := v, sshKeys := keys), err := None, state := Summary), NoCmd)
  }

  function EnterSummary(m: Wizard): (r: Transition)
    requires Wf(m) && m.state == Summary
    ensures Framed(m, r)
  {
    Transition(m.(state := Confirm, input := ""), NoCmd)
  }

  /** Only the exact word, untrimmed, starts the installation. */
  function EnterConfirm(m: Wizard): (r: Transition)
    requires Wf(m) && m.state == Confirm
    ensures Wf(r.next) && r.next.config == m.config
    ensures r.cmd.RunInstall? ==> r.next.state == Installing && r.cmd.config == m.config == r.next.config
  {
    if m.input == ConfirmWord then Transition(m.(state := Installing, installStep := 0), RunInstall(m.config))
    else Transition(m.(err := Some(ConfirmRequired)), NoCmd)
  }
}
