/**
 Step-by-step behaviour of the wizard: what each Enter accepts, what it stores, where it
 goes, and what a rejection leaves alone; how the cursor, the disk toggles and the quit
 keys behave; and how the start-up and the end of the installation move the wizard.
 */
module WizardSteps {
  import opened Wrappers
  import opened Text
  import opened Types
  import opened Helpers
  import opened Wizard

  // ---------------------------------------------------------------------------
  // Which step handles Enter

  /** Enter is ignored during the three animations and otherwise handled by the current step. */
  lemma EnterDispatch(m: Wizard, env: Env)
    requires Wf(m)
    ensures m.state == FireTransition || m.state == Splash || m.state == GravityOut ==>
      Step(m, Press(Enter), env) == Transition(m, NoCmd)
    ensures !(m.state == FireTransition || m.state == Splash || m.state == GravityOut) ==>
      Step(m, Press(Enter), env) == HandleEnter(m, env)
  {
  }

  /** The network screen and the account questions handle Enter themselves. */
  lemma AccountDispatch(m: Wizard, env: Env)
    requires Wf(m) && IsAccountState(m.state)
    ensures Step(m, Press(Enter), env) == EnterAccount(m)
  {
    var t := HandleEnter(m, env);
    HandleEnterAccount(m, env);
    assert Step(m, Press(Enter), env) == t;
  }

  lemma HandleEnterAccount(m: Wizard, env: Env)
    requires Wf(m) && IsAccountState(m.state)
    ensures HandleEnter(m, env) == EnterAccount(m)
  {
  }

  lemma StorageDispatch(m: Wizard, env: Env)
    requires Wf(m) && IsStorageState(m.state)
    ensures Step(m, Press(Enter), env) == EnterStorage(m, env)
  {
    var t := HandleEnter(m, env);
    HandleEnterStorage(m, env);
    assert Step(m, Press(Enter), env) == t;
  }

  lemma HandleEnterStorage(m: Wizard, env: Env)
    requires Wf(m) && IsStorageState(m.state)
    ensures HandleEnter(m, env) == EnterStorage(m, env)
  {
  }

  lemma SystemDispatch(m: Wizard, env: Env)
    requires Wf(m) && IsSystemState(m.state)
    ensures Step(m, Press(Enter), env) == EnterSystem(m, env)
  {
    var t := HandleEnter(m, env);
    HandleEnterSystem(m, env);
    assert Step(m, Press(Enter), env) == t;
  }

  lemma HandleEnterSystem(m: Wizard, env: Env)
    requires Wf(m) && IsSystemState(m.state)
    ensures HandleEnter(m, env) == EnterSystem(m, env)
  {
  }

  // ---------------------------------------------------------------------------
  // Account steps

  /** The user name is validated after trimming and stored trimmed; a rejection keeps the
      step and the configuration. */
  lemma UsernameStep(m: Wizard, env: Env)
    requires Wf(m) && m.state == Username
    ensures var r := EnterUsername(m).next; var v := TrimSpace(m.input);
      && (r.state == Fullname <==> IsValidUsername(v))
      && (IsValidUsername(v) ==> r.config == m.config.(username := v) && r.err == None && r.input == "")
      && (!IsValidUsername(v) ==> r.state == Username && r.config == m.config && r.err == Some(InvalidUsername))
      && Trimmed(r.config.username) == (IsValidUsername(v) || Trimmed(m.config.username))
  {
    var v := TrimSpace(m.input);
    if IsValidUsername(v) {
      AcceptedNamesAreTrimmed(v);
    }
  }

  /** The full name only has to be non-empty once trimmed. */
  lemma FullnameStep(m: Wizard, env: Env)
    requires Wf(m) && m.state == Fullname
    ensures var r := EnterFullname(m).next; var v := TrimSpace(m.input);
      && (r.state == Email <==> !AllSpace(m.input))
      && (!AllSpace(m.input) ==> r.config == m.config.(fullname := v) && r.err == None && Trimmed(v) && v != "")
      && (AllSpace(m.input) ==> r.state == Fullname && r.config == m.config && r.err == Some(FullnameRequired))
  {
    TrimSpaceEmptyIffAllSpace(m.input);
  }

  /** A whole input of white space trims to nothing, and anything else keeps a character. */
  lemma TrimSpaceEmptyIffAllSpace(s: string)
    ensures TrimSpace(s) == "" <==> AllSpace(s)
  {
    var t := TrimStart(s);
    assert TrimSpace(s) == TrimEnd(t);
    TrimStartEmptyIffAllSpace(s);
    TrimEndEmptyIffAllSpace(t);
  }

  /** The e-mail address is validated after trimming; an accepted one has exactly one `@`,
      with text before it and a dot strictly inside the domain. */
  lemma EmailStep(m: Wizard, env: Env)
    requires Wf(m) && m.state == Email
    ensures var r := EnterEmail(m).next; var v := TrimSpace(m.input);
      && (r.state == Password <==> IsValidEmail(v))
      && (IsValidEmail(v) ==> r.config == m.config.(email := v) && r.err == None && Count(v, '@') == 1)
      && (!IsValidEmail(v) ==> r.state == Email && r.config == m.config && r.err == Some(InvalidEmail))
  {
    EmailShape(TrimSpace(m.input));
  }

  /** The password is neither trimmed nor checked for content: only its length in bytes counts. */
  lemma PasswordStep(m: Wizard, env: Env)
    requires Wf(m) && m.state == Password
    ensures var r := EnterPassword(m).next;
      && (r.state == PasswordConfirm <==> Utf8Len(m.input) >= 8)
      && (Utf8Len(m.input) >= 8 ==> r.config == m.config.(password := m.input) && r.err == None && r.input == "")
      && (Utf8Len(m.input) < 8 ==> r.state == Password && r.config == m.config && r.err == Some(PasswordTooShort))
  {
  }

  /** Four two-byte characters are a long enough password, though they are only four characters. */
  lemma PasswordCountsBytes(m: Wizard, env: Env)
    requires Wf(m) && m.state == Password && m.input == "ãããã"
    ensures EnterPassword(m).next.state == PasswordConfirm
    ensures |m.input| == 4
  {
    assert Utf8Len("ã") == 2 by { assert "ã"[..0] == ""; }
    assert Utf8Len("ãã") == 4 by { assert "ãã"[..1] == "ã"; }
    assert Utf8Len("ããã") == 6 by { assert "ããã"[..2] == "ãã"; }
    assert Utf8Len("ãããã") == 8 by { assert "ãããã"[..3] == "ããã"; }
  }

  /** The confirmation must repeat the password exactly; a mismatch clears the field and
      never touches the stored password. */
  lemma PasswordConfirmStep(m: Wizard, env: Env)
    requires Wf(m) && m.state == PasswordConfirm
    ensures var r := EnterPasswordConfirm(m).next;
      && r.config == m.config
      && (r.state == Hostname <==> m.input == m.config.password)
      && (m.input != m.config.password ==> r.state == PasswordConfirm && r.input == "" && r.err == Some(PasswordMismatch))
  {
  }

  /** The host name is validated after trimming; the field keeps its text into the next step. */
  lemma HostnameStep(m: Wizard, env: Env)
    requires Wf(m) && m.state == Hostname
    ensures var r := EnterHostname(m).next; var v := TrimSpace(m.input);
      && (r.state == StorageModeChoice <==> IsValidHostname(v))
      && (IsValidHostname(v) ==> r.config == m.config.(hostname := v) && r.selectedIdx == 0 && r.input == m.input)
      && (!IsValidHostname(v) ==> r.state == Hostname && r.config == m.config && r.err == Some(InvalidHostname))
  {
  }

  // ---------------------------------------------------------------------------
  // Storage steps

  /** The highlighted mode is stored at once, even when it is then refused for want of disks.
      Multi-disk modes go to the toggle list with nothing toggled; the others to the single
      disk list. */
  lemma StorageModeStep(m: Wizard, env: Env)
    requires Wf(m) && m.state == StorageModeChoice
    ensures var r := EnterStorageMode(m, env.lsblkList).next;
      var mode := StorageModes[m.selectedIdx];
      var disks := AvailableDisks(env.lsblkList);
      && r.config == m.config.(storageMode := mode)
      && r.disks == disks && r.selectedIdx == 0
      && (mode.IsMultiDisk() && |disks| < mode.MinDisks() ==>
            r.state == StorageModeChoice && r.err == Some(NotEnoughDisks(mode, |disks|)))
      && (mode.IsMultiDisk() && |disks| >= mode.MinDisks() ==>
            r.state == DiskMulti && r.err == None && |r.diskSelected| == |disks|
            && forall i :: 0 <= i < |r.diskSelected| ==> !r.diskSelected[i])
      && (!mode.IsMultiDisk() ==> r.state == Disk && r.err == None)
  {
  }

  /** With a failing `lsblk` only the placeholder disk is offered, so every multi-disk mode is refused. */
  lemma MultiDiskNeedsDiskListing(m: Wizard, env: Env)
    requires Wf(m) && m.state == StorageModeChoice && env.lsblkList.None?
    requires StorageModes[m.selectedIdx].IsMultiDisk()
    ensures EnterStorageMode(m, env.lsblkList).next.state == StorageModeChoice
    ensures EnterStorageMode(m, env.lsblkList).next.err.Some?
  {
    MultiDiskIffSeveralDisks(StorageModes[m.selectedIdx]);
  }

  /** The single-disk choice uses the highlighted disk as the only disk and draws a host ID
      from the clock; XFS skips both passphrase steps. */
  lemma DiskStep(m: Wizard, env: Env)
    requires Wf(m) && m.state == Disk
    ensures var r := EnterDisk(m, env.clock).next;
      var path := m.disks[m.selectedIdx].path;
      && r.config == m.config.(disk := path, disks := [path], hostId := HostId(env.clock))
      && r.config.disks == [r.config.disk]
      && (m.config.storageMode.IsEncrypted() ==> r.state == Passphrase)
      && (!m.config.storageMode.IsEncrypted() ==> r.state == Locale && r.selectedIdx == 0)
  {
  }

  /** The multi-disk choice takes the toggled disks in list order; too few of them are
      refused without touching the disks, the boot disk or the host ID. */
  lemma DiskMultiStep(m: Wizard, env: Env)
    requires Wf(m) && m.state == DiskMulti
    ensures var r := EnterDiskMulti(m, env.clock).next;
      var selected := SelectedPaths(m.disks, m.diskSelected);
      var mode := m.config.storageMode;
      && (|selected| < mode.MinDisks() ==>
            r.state == DiskMulti && r.config == m.config && r.err == Some(TooFewSelected(mode)))
      && (|selected| >= mode.MinDisks() ==>
            r.state == Passphrase && |selected| >= 1
            && r.config == m.config.(disks := selected, disk := selected[0], hostId := HostId(env.clock)))
  {
    MultiDiskIffSeveralDisks(m.config.storageMode);
  }

  /** A path is selected exactly when some toggled disk has it. */
  lemma {:induction false} SelectedPathsMembers(disks: seq<DiskInfo>, selected: seq<bool>, p: string)
    requires |selected| <= |disks|
    ensures p in SelectedPaths(disks, selected) <==>
      exists i :: 0 <= i < |selected| && selected[i] && disks[i].path == p
    decreases |selected|
  {
    if |selected| > 0 {
      SelectedPathsMembers(disks[1..], selected[1..], p);
      if p in SelectedPaths(disks, selected) {
        if !(selected[0] && disks[0].path == p) {
          var i :| 0 <= i < |selected[1..]| && selected[1..][i] && disks[1..][i].path == p;
          assert selected[i + 1] && disks[i + 1].path == p;
        }
      }
      if exists i :: 0 <= i < |selected| && selected[i] && disks[i].path == p {
        var i :| 0 <= i < |selected| && selected[i] && disks[i].path == p;
        if i > 0 {
          assert selected[1..][i - 1] && disks[1..][i - 1].path == p;
        }
      }
    }
  }

  /** The selection keeps list order: toggles over a concatenation select the first part's
      disks before the second part's. */
  lemma {:induction false} SelectedPathsAppend(disks: seq<DiskInfo>, a: seq<bool>, b: seq<bool>)
    requires |a| + |b| <= |disks|
    ensures SelectedPaths(disks, a + b) == SelectedPaths(disks, a) + SelectedPaths(disks[|a|..], b)
    decreases |a|
  {
    if |a| > 0 {
      assert (a + b)[1..] == a[1..] + b;
      SelectedPathsAppend(disks[1..], a[1..], b);
      assert disks[1..][|a[1..]|..] == disks[|a|..];
    } else {
      assert a + b == b;
    }
  }

  /** Toggling nothing selects nothing; toggling everything selects every disk, in order. */
  lemma {:induction false} SelectedPathsExtremes(disks: seq<DiskInfo>, selected: seq<bool>)
    requires |selected| == |disks|
    ensures (forall i :: 0 <= i < |selected| ==> !selected[i]) ==> SelectedPaths(disks, selected) == []
    ensures (forall i :: 0 <= i < |selected| ==> selected[i]) ==>
      SelectedPaths(disks, selected) == seq(|disks|, i requires 0 <= i < |disks| => disks[i].path)
    decreases |selected|
  {
    if |selected| > 0 {
      SelectedPathsExtremes(disks[1..], selected[1..]);
      if forall i :: 0 <= i < |selected| ==> !selected[i] {
        assert forall i :: 0 <= i < |selected[1..]| ==> !selected[1..][i] by {
          forall i | 0 <= i < |selected[1..]| ensures !selected[1..][i] { assert selected[1..][i] == selected[i + 1]; }
        }
      }
      if forall i :: 0 <= i < |selected| ==> selected[i] {
        assert forall i :: 0 <= i < |selected[1..]| ==> selected[1..][i] by {
          forall i | 0 <= i < |selected[1..]| ensures selected[1..][i] { assert selected[1..][i] == selected[i + 1]; }
        }
        var all := seq(|disks|, i requires 0 <= i < |disks| => disks[i].path);
        var rest := seq(|disks[1..]|, i requires 0 <= i < |disks[1..]| => disks[1..][i].path);
        assert all == [disks[0].path] + rest;
      }
    }
  }

  /** The passphrase, like the password, is taken as typed and measured in bytes. */
  lemma PassphraseStep(m: Wizard, env: Env)
    requires Wf(m) && m.state == Passphrase
    ensures var r := EnterPassphrase(m).next;
      && (r.state == PassphraseConfirm <==> Utf8Len(m.input) >= 8)
      && (Utf8Len(m.input) >= 8 ==> r.config == m.config.(passphrase := m.input) && r.err == None && r.input == "")
      && (Utf8Len(m.input) < 8 ==> r.state == Passphrase && r.config == m.config && r.err == Some(PassphraseTooShort))
  {
  }

  lemma PassphraseConfirmStep(m: Wizard, env: Env)
    requires Wf(m) && m.state == PassphraseConfirm
    ensures var r := EnterPassphraseConfirm(m).next;
      && r.config == m.config
      && (r.state == Locale <==> m.input == m.config.passphrase)
      && (m.input != m.config.passphrase ==> r.state == PassphraseConfirm && r.input == "" && r.err == Some(PassphraseMismatch))
  {
  }

  // ---------------------------------------------------------------------------
  // System steps

  lemma LocaleStep(m: Wizard, env: Env)
    requires Wf(m) && m.state == Locale
    ensures var r := EnterLocale(m).next;
      r.state == Keymap && r.selectedIdx == 0 && r.config == m.config.(locale := m.locales[m.selectedIdx])
  {
  }

  /** The keyboard layout and the console keymap come from the same entry, and the partition
      sizes are planned; nothing else in the configuration changes. */
  lemma KeymapStep(m: Wizard, env: Env)
    requires Wf(m) && m.state == Keymap
    ensures var r := EnterKeymap(m, env.lsblkSize).next;
      var km := m.keymaps[m.selectedIdx];
      && r.state == Ssh && r.selectedIdx == 0
      && r.config.keymap == km.xkbLayout && r.config.consoleKeyMap == km.consoleMap
      && r.config == m.config.(keymap := km.xkbLayout, consoleKeyMap := km.consoleMap,
                               spaceBoot := r.config.spaceBoot, spaceNix := r.config.spaceNix,
                               spaceHome := r.config.spaceHome, spaceAtuin := r.config.spaceAtuin)
      && r.config == CalculateSpaceAllocation(m.config.(keymap := km.xkbLayout, consoleKeyMap := km.consoleMap), env.lsblkSize)
      && (env.lsblkSize.Some? ==> SizesSumTo(r.config, EffectiveGiB(env.lsblkSize.value)))
      && (env.lsblkSize.None? ==> r.config.spaceNix == "50G" && r.config.spaceHome == "100G" && r.config.spaceAtuin == "1G")
  {
  }

  /** The first option enables SSH and asks for a GitHub user; the second skips to the summary. */
  lemma SshStep(m: Wizard, env: Env)
    requires Wf(m) && m.state == Ssh
    ensures var r := EnterSsh(m).next;
      && (r.config.enableSsh <==> m.selectedIdx == 0)
      && r.config == m.config.(enableSsh := r.config.enableSsh)
      && (r.state == GitHubUser <==> m.selectedIdx == 0)
      && (r.state == Summary <==> m.selectedIdx == 1)
  {
  }

  /** The GitHub step refuses an empty name, a failed retrieval and a user without keys, in
      every case leaving the configuration alone; otherwise it stores the user and the keys. */
  lemma GitHubUserStep(m: Wizard, env: Env)
    requires Wf(m) && m.state == GitHubUser
    ensures var r := EnterGitHubUser(m, env.fetchKeys).next; var v := TrimSpace(m.input);
      && (v == "" ==> r.state == GitHubUser && r.config == m.config && r.err == Some(GitHubUserRequired))
      && (v != "" && env.fetchKeys(v).FetchFailed? ==>
            r.state == GitHubUser && r.config == m.config && r.err == Some(KeyFetchFailed(env.fetchKeys(v).cause)))
      && (v != "" && env.fetchKeys(v) == Fetched([]) ==>
            r.state == GitHubUser && r.config == m.config && r.err == Some(NoKeysFound(v)))
      && (r.state == Summary <==> v != "" && env.fetchKeys(v).Fetched? && |env.fetchKeys(v).keys| > 0)
      && (r.state == Summary ==> r.config == m.config.(gitHubUser := v, sshKeys := env.fetchKeys(v).keys) && r.err == None)
  {
  }

  lemma SummaryStep(m: Wizard, env: Env)
    requires Wf(m) && m.state == Summary
    ensures var r := EnterSummary(m).next;
      r.state == Confirm && r.input == "" && r.config == m.config
  {
  }

  /** Only the exact word, with no surrounding space, starts the installation, from step 0
      and with the configuration as it stands. */
  lemma ConfirmStep(m: Wizard, env: Env)
    requires Wf(m) && m.state == Confirm
    ensures var r := EnterConfirm(m);
      && (r.next.state == Installing <==> m.input == "DESTROY")
      && (m.input == "DESTROY" ==> r.next.installStep == 0 && r.cmd == RunInstall(m.config))
      && (m.input != "DESTROY" ==> r.next.state == Confirm && r.next.err == Some(ConfirmRequired) && r.cmd == NoCmd)
  {
  }

  /** A trailing space or lower case is not the confirmation word. */
  lemma ConfirmIsExact(m: Wizard, env: Env)
    requires Wf(m) && m.state == Confirm && (m.input == "DESTROY " || m.input == "destroy")
    ensures EnterConfirm(m).next.state == Confirm
  {
    assert m.input != "DESTROY" by {
      if m.input == "destroy" { assert m.input[0] != "DESTROY"[0]; }
    }
  }

  /** Enter on the network screen moves on once the probe has succeeded, and otherwise probes again. */
  lemma NetworkCheckStep(m: Wizard, env: Env)
    requires Wf(m) && m.state == NetworkCheck
    ensures var r := EnterNetworkCheck(m);
      && (m.networkOk ==> r.next.state == Username && r.next.input == "" && r.cmd == NoCmd)
      && (!m.networkOk ==> r.next == m && r.cmd == CheckNetwork)
  {
  }

  /** Enter on the two end screens quits; during the animations and the installation it does nothing. */
  lemma EnterElsewhere(m: Wizard, env: Env)
    requires Wf(m)
    ensures var r := Step(m, Press(Enter), env);
      && ((m.state == Complete || m.state == Error) ==> r.next == m && r.cmd == Quit)
      && ((m.state == FireTransition || m.state == Splash || m.state == GravityOut || m.state == Installing) ==>
            r.next == m && r.cmd == NoCmd)
  {
    EnterDispatch(m, env);
    if m.state == Complete || m.state == Error || m.state == Installing {
      HandleEnterEnds(m, env);
    }
  }

  lemma HandleEnterEnds(m: Wizard, env: Env)
    requires Wf(m) && (m.state == Complete || m.state == Error || m.state == Installing)
    ensures HandleEnter(m, env) == Transition(m, if m.state == Installing then NoCmd else Quit)
  {
    assert !IsAccountState(m.state);
    assert !IsStorageState(m.state);
    assert !IsSystemState(m.state);
    assert m.state != Summary && m.state != Confirm;
  }

  // ---------------------------------------------------------------------------
  // Configuration changes

  /** Only Enter changes the configuration, and every change moves the wizard to another step,
      save for the storage-mode step storing a mode it then refuses. */
  lemma ConfigChangesOnlyOnAdvance(m: Wizard, ev: Event, env: Env)
    requires Wf(m)
    ensures var r := Step(m, ev, env).next;
      r.config != m.config ==>
        && ev == Press(Enter)
        && (r.state != m.state || (m.state == StorageModeChoice && r.err.Some?))
  {
    if ev == Press(Enter) {
      EnterChangesAdvance(m, env);
    }
  }

  lemma EnterChangesAdvance(m: Wizard, env: Env)
    requires Wf(m)
    ensures var r := Step(m, Press(Enter), env).next;
      r.config != m.config ==> r.state != m.state || (m.state == StorageModeChoice && r.err.Some?)
  {
    if IsAccountState(m.state) {
      AccountDispatch(m, env);
      AccountChangesAdvance(m, env);
    } else if IsStorageState(m.state) {
      StorageDispatch(m, env);
      StorageChangesAdvance(m, env);
    } else if IsSystemState(m.state) {
      SystemDispatch(m, env);
      SystemChangesAdvance(m, env);
    } else if m.state == Summary || m.state == Confirm {
      EnterDispatch(m, env);
      assert Step(m, Press(Enter), env) == (if m.state == Summary then EnterSummary(m) else EnterConfirm(m));
    } else {
      EnterElsewhere(m, env);
    }
  }

  lemma AccountChangesAdvance(m: Wizard, env: Env)
    requires Wf(m) && IsAccountState(m.state)
    ensures var r := EnterAccount(m).next; r.config != m.config ==> r.state != m.state
  {
    match m.state
    case Username => UsernameStep(m, env);
    case Fullname => FullnameStep(m, env);
    case Email => EmailStep(m, env);
    case Password => PasswordStep(m, env);
    case PasswordConfirm => PasswordConfirmStep(m, env);
    case Hostname => HostnameStep(m, env);
    case NetworkCheck => NetworkCheckStep(m, env);
  }

  lemma StorageChangesAdvance(m: Wizard, env: Env)
    requires Wf(m) && IsStorageState(m.state)
    ensures var r := EnterStorage(m, env).next;
      r.config != m.config ==> r.state != m.state || (m.state == StorageModeChoice && r.err.Some?)
  {
    match m.state
    case StorageModeChoice => StorageModeStep(m, env);
    case Disk => DiskStep(m, env);
    case DiskMulti => DiskMultiStep(m, env);
    case Passphrase => PassphraseStep(m, env);
    case PassphraseConfirm => PassphraseConfirmStep(m, env);
  }

  lemma SystemChangesAdvance(m: Wizard, env: Env)
    requires Wf(m) && IsSystemState(m.state)
    ensures var r := EnterSystem(m, env).next; r.config != m.config ==> r.state != m.state
  {
    match m.state
    case Locale => LocaleStep(m, env);
    case Keymap => KeymapStep(m, env);
    case Ssh => SshStep(m, env);
    case GitHubUser => GitHubUserStep(m, env);
  }

  // ---------------------------------------------------------------------------
  // Keys

  /** In a list, the cursor is always on an entry, and Up moves it back by one, stopping at the top. */
  lemma CursorUp(m: Wizard, env: Env)
    requires Wf(m) && IsListState(m.state)
    ensures 0 <= m.selectedIdx < ListLen(m)
    ensures var up := Step(m, Press(Up), env).next;
      && up.selectedIdx == (if m.selectedIdx > 0 then m.selectedIdx - 1 else 0)
      && 0 <= up.selectedIdx < ListLen(up)
  {
  }

  /** Down moves the cursor on by one, stopping at the last entry. */
  lemma CursorDown(m: Wizard, env: Env)
    requires Wf(m) && IsListState(m.state)
    ensures var down := Step(m, Press(Down), env).next;
      && down.selectedIdx == (if m.selectedIdx < ListLen(m) - 1 then m.selectedIdx + 1 else m.selectedIdx)
      && 0 <= down.selectedIdx < ListLen(down)
  {
  }

  /** Outside the lists the cursor keys do nothing. */
  lemma CursorIgnoredElsewhere(m: Wizard, k: Key, env: Env)
    requires Wf(m) && !IsListState(m.state) && (k == Up || k == Down)
    ensures Step(m, Press(k), env) == Transition(m, NoCmd)
  {
  }

  /** Space flips exactly the highlighted toggle, and only on the multi-disk list. */
  lemma SpaceTogglesOne(m: Wizard, env: Env)
    requires Wf(m)
    ensures var r := Step(m, Press(Space), env).next;
      && |r.diskSelected| == |m.diskSelected|
      && (m.state == DiskMulti ==>
            && r.diskSelected[m.selectedIdx] == !m.diskSelected[m.selectedIdx]
            && forall j :: 0 <= j < |m.diskSelected| && j != m.selectedIdx ==> r.diskSelected[j] == m.diskSelected[j])
      && (m.state != DiskMulti ==> r == m)
      && r.config == m.config && r.state == m.state
  {
  }

  /** Ctrl-C always quits; `q` quits exactly on the screens without a text field of their own
      to type into, and on the storage-mode and multi-disk lists. */
  lemma QuitKeys(m: Wizard, env: Env)
    requires Wf(m)
    ensures Step(m, Press(CtrlC), env) == Transition(m, Quit)
    ensures Step(m, Press(KeyQ), env).cmd == Quit <==> IsQuitState(m.state)
    ensures Step(m, Press(KeyQ), env).next == m
    ensures m.state == Username ==> Step(m, Press(KeyQ), env).cmd == NoCmd
  {
  }

  /** The confirmation screen's refusal offers `q` to cancel, but `q` is not a quit key there:
      it issues no command and leaves the wizard on the confirmation screen. */
  lemma ConfirmIgnoresQ(m: Wizard, env: Env)
    requires Wf(m) && m.state == Confirm
    ensures !IsQuitState(m.state)
    ensures Step(m, Press(KeyQ), env) == Transition(m, NoCmd)
  {
  }

  /** Editing reaches the text field only on the screens that have one, and the field never
      holds more than its character limit. */
  lemma EditText(m: Wizard, v: string, env: Env)
    requires Wf(m)
    ensures var r := Step(m, Press(Edit(v)), env).next;
      && |r.input| <= CharLimit
      && (IsTextState(m.state) && |v| <= CharLimit ==> r.input == v)
      && (IsTextState(m.state) && |v| > CharLimit ==> r.input == v[..CharLimit])
      && (!IsTextState(m.state) ==> r == m)
      && r.config == m.config && r.state == m.state
  {
  }

  // ---------------------------------------------------------------------------
  // Messages

  /** From start-up, the three animations lead to the network screen, and a successful probe
      to the first question with an empty field. */
  lemma StartupSequence(projectRoot: string, env: Env)
    ensures var m0 := InitialWizard(projectRoot);
      Wf(m0) &&
      var m1 := Step(m0, Receive(AnimationDone), env).next;
      var m2 := Step(m1, Receive(AnimationDone), env).next;
      var m3 := Step(m2, Receive(AnimationDone), env).next;
      var m4 := Step(m3, Receive(NetworkChecked(true)), env).next;
      && m1.state == Splash && m2.state == GravityOut && m3.state == NetworkCheck
      && m4.state == Username && m4.input == "" && m4.networkOk
      && m4.config == m0.config
  {
  }

  /** The end of the installation is reported wherever the wizard is. */
  lemma InstallDoneCompletes(m: Wizard, env: Env)
    requires Wf(m)
    ensures var done := Step(m, Receive(InstallDone), env);
      done.next.state == Complete && done.next.config == m.config && done.cmd == NoCmd
  {
  }

  /** A failed installation is reported wherever the wizard is, and keeps its cause. */
  lemma InstallFailedKeepsCause(m: Wizard, cause: string, env: Env)
    requires Wf(m)
    ensures var failed := Step(m, Receive(InstallFailed(cause)), env);
      failed.next.state == Error && failed.next.installErr == Some(cause) && failed.next.config == m.config
  {
  }

  /** The log is polled again only while installing, and an unknown step number leaves the counter alone. */
  lemma LogTailPolls(m: Wizard, step: int, env: Env)
    requires Wf(m)
    ensures var tail := Step(m, Receive(LogTail(step)), env);
      && tail.next.installStep == (if step >= 0 then step else m.installStep)
      && (tail.cmd == PollLog <==> m.state == Installing)
      && tail.next.state == m.state && tail.next.config == m.config
  {
  }
}
