/**
 The mode- and choice-driven parts of the generated host files: the authorized-keys block of
 the user file, the ZFS and SSH settings of `default.nix`, the host ID and ZFS boot settings of
 `hardware.nix`, and which disk-layout template is used with which substitutions.
 */
module Sections {
  import opened Wrappers
  import opened Text
  import opened Types

  // ---------------------------------------------------------------------------
  // Go's `%q`

  /** The escape sequence `%q` writes for a character, or the character itself. */
  function EscapeChar(c: char): string {
    if c == '"' then "\\\""
    else if c == '\\' then "\\\\"
    else if c == '\n' then "\\n"
    else if c == '\r' then "\\r"
    else if c == '\t' then "\\t"
    else [c]
  }

  function Escape(s: string): string {
    if s == "" then "" else EscapeChar(s[0]) + Escape(s[1..])
  }

  /** `%q` of a string: quoted, with quotes, backslashes and line breaks escaped. */
  function Quote(s: string): string {
    "\"" + Escape(s) + "\""
  }

  /** The character an escape letter stands for. */
  function Unescaped(c: char): Option<char> {
    if c == '"' then Some('"')
    else if c == '\\' then Some('\\')
    else if c == 'n' then Some('\n')
    else if c == 'r' then Some('\r')
    else if c == 't' then Some('\t')
    else None
  }

  /** Reads the inside of a quoted string back; a bare quote or a dangling backslash is malformed. */
  function Unescape(e: string): Option<string> {
    if e == "" then Some("")
    else if e[0] == '"' then None
    else if e[0] == '\\' then
      if |e| < 2 || Unescaped(e[1]).None? then None
      else match Unescape(e[2..]) {
        case None => None
        case Some(rest) => Some([Unescaped(e[1]).value] + rest)
      }
    else match Unescape(e[1..]) {
      case None => None
      case Some(rest) => Some([e[0]] + rest)
    }
  }

  function Unquote(q: string): Option<string> {
    if |q| >= 2 && q[0] == '"' && q[|q| - 1] == '"' then Unescape(q[1..|q| - 1]) else None
  }

  /** An escaped character reads back as itself, whatever follows it. */
  lemma EscapeCharReads(c: char, rest: string)
    ensures Unescape(EscapeChar(c) + rest) ==
      match Unescape(rest) { case None => None case Some(r) => Some([c] + r) }
    ensures '\n' !in EscapeChar(c)
  {
    var e := EscapeChar(c) + rest;
    if |EscapeChar(c)| == 2 {
      assert e[0] == '\\' && Unescaped(e[1]) == Some(c);
      assert e[2..] == rest;
    } else {
      assert e[0] == c && c != '"' && c != '\\';
      assert e[1..] == rest;
    }
  }

  /** Quoting loses nothing, and a quoted string never spans two lines. */
  lemma {:induction false} EscapeRoundTrip(s: string)
    ensures Unescape(Escape(s)) == Some(s)
    ensures '\n' !in Escape(s)
  {
    if s != "" {
      EscapeRoundTrip(s[1..]);
      EscapeCharReads(s[0], Escape(s[1..]));
      assert [s[0]] + s[1..] == s;
    }
  }

  lemma QuoteRoundTrip(s: string)
    ensures Unquote(Quote(s)) == Some(s)
    ensures '\n' !in Quote(s)
  {
    EscapeRoundTrip(s);
    assert Quote(s)[1..|Quote(s)| - 1] == Escape(s);
  }

  // ---------------------------------------------------------------------------
  // The user file

  const KeysHeader: string := "    openssh.authorizedKeys.keys = ["
  const KeysFooter: string := "    ];"

  /** The line of the block that carries one key. */
  function KeyLine(key: string): string {
    "      " + Quote(key)
  }

  /** The key lines, each ended by a newline. */
  function KeyLines(keys: seq<string>): string {
    if keys == [] then "" else KeyLine(keys[0]) + "\n" + KeyLines(keys[1..])
  }

  /** The authorized-keys block of the user file: present only with SSH enabled and at least one key. */
  function KeysSection(c: Config): (s: string)
    ensures s == "" <==> !(c.enableSsh && |c.sshKeys| > 0)
  {
    if c.enableSsh && |c.sshKeys| > 0 then KeysHeader + "\n" + KeyLines(c.sshKeys) + KeysFooter else ""
  }

  /** The key lines, one per key and in order. */
  function KeyLineList(keys: seq<string>): (r: seq<string>)
    ensures |r| == |keys|
    ensures forall i :: 0 <= i < |keys| ==> r[i] == KeyLine(keys[i])
  {
    if keys == [] then [] else [KeyLine(keys[0])] + KeyLineList(keys[1..])
  }

  lemma {:induction false} KeyLinesJoin(keys: seq<string>, footer: string)
    ensures KeyLines(keys) + footer == Join(KeyLineList(keys) + [footer], "\n")
  {
    if keys == [] {
      assert KeyLineList(keys) + [footer] == [footer];
    } else {
      KeyLinesJoin(keys[1..], footer);
      var rest := KeyLineList(keys[1..]) + [footer];
      var all := KeyLineList(keys) + [footer];
      assert all == [KeyLine(keys[0])] + rest;
      assert all[1..] == rest;
      assert Join(all, "\n") == KeyLine(keys[0]) + "\n" + Join(rest, "\n");
    }
  }

  /** The lines the block is made of. */
  function KeysBlock(keys: seq<string>): seq<string> {
    [KeysHeader] + KeyLineList(keys) + [KeysFooter]
  }

  lemma KeysBlockJoin(keys: seq<string>)
    ensures KeysHeader + "\n" + KeyLines(keys) + KeysFooter == Join(KeysBlock(keys), "\n")
  {
    var middle := KeyLineList(keys);
    var lines := KeysBlock(keys);
    KeyLinesJoin(keys, KeysFooter);
    assert lines == [KeysHeader] + (middle + [KeysFooter]);
    assert lines[1..] == middle + [KeysFooter];
  }

  lemma KeysBlockHasNoNewline(keys: seq<string>)
    ensures forall i :: 0 <= i < |KeysBlock(keys)| ==> '\n' !in KeysBlock(keys)[i]
  {
    var lines := KeysBlock(keys);
    forall i | 0 <= i < |lines| ensures '\n' !in lines[i] {
      if i == 0 {
        assert forall k :: 0 <= k < |KeysHeader| ==> KeysHeader[k] != '\n';
      } else if i == |lines| - 1 {
        assert forall k :: 0 <= k < |KeysFooter| ==> KeysFooter[k] != '\n';
      } else {
        QuoteRoundTrip(keys[i - 1]);
        assert lines[i] == "      " + Quote(keys[i - 1]);
      }
    }
  }

  /** The block is its header, one line per key in order holding the quoted key, and its footer. */
  lemma KeysSectionLines(c: Config)
    requires c.enableSsh && |c.sshKeys| > 0
    ensures var lines := SplitLines(KeysSection(c));
      && |lines| == |c.sshKeys| + 2
      && lines[0] == KeysHeader && lines[|lines| - 1] == KeysFooter
      && forall i :: 0 <= i < |c.sshKeys| ==>
           lines[i + 1] == KeyLine(c.sshKeys[i]) && Unquote(lines[i + 1][6..]) == Some(c.sshKeys[i])
  {
    var keys := c.sshKeys;
    KeysBlockJoin(keys);
    KeysBlockHasNoNewline(keys);
    SplitJoinLines(KeysBlock(keys));
    assert SplitLines(KeysSection(c)) == KeysBlock(keys);
    forall i | 0 <= i < |keys| ensures Unquote(KeyLine(keys[i])[6..]) == Some(keys[i]) {
      QuoteRoundTrip(keys[i]);
      assert KeyLine(keys[i])[6..] == Quote(keys[i]);
    }
  }

  // ---------------------------------------------------------------------------
  // default.nix and hardware.nix

  /** Go's `%v` of a boolean. */
  function BoolText(b: bool): string {
    if b then "true" else "false"
  }

  function ZfsEnableLine(b: bool): string {
    "  tuinix.zfs.enable = " + BoolText(b) + ";"
  }

  function ZfsEncryptionLine(b: bool): string {
    "  tuinix.zfs.encryption = " + BoolText(b) + ";"
  }

  /** The ZFS setting of `default.nix`. */
  function ZfsConfig(mode: StorageMode): string {
    if mode.IsZfs() then ZfsEnableLine(true) + "\n" + ZfsEncryptionLine(mode.IsEncrypted())
    else ZfsEnableLine(false)
  }

  /** ZFS is enabled exactly for the ZFS modes, and only then is an encryption line written,
      carrying the mode's encryption. */
  lemma ZfsConfigLines(mode: StorageMode)
    ensures var lines := SplitLines(ZfsConfig(mode));
      && lines[0] == ZfsEnableLine(mode.IsZfs())
      && |lines| == (if mode.IsZfs() then 2 else 1)
      && (mode.IsZfs() ==> lines[1] == ZfsEncryptionLine(mode.IsEncrypted()))
  {
    NoNewlineInSettings();
    if mode.IsZfs() {
      SplitLinesCons(ZfsEnableLine(true), ZfsEncryptionLine(mode.IsEncrypted()));
    }
  }

  /** No setting line breaks across lines. */
  lemma NoNewlineInSettings()
    ensures forall b :: '\n' !in ZfsEnableLine(b) && '\n' !in ZfsEncryptionLine(b)
  {
    forall b ensures '\n' !in ZfsEnableLine(b) && '\n' !in ZfsEncryptionLine(b) {
      assert '\n' !in BoolText(b);
    }
  }

  const SshLine: string := "  tuinix.security.ssh.enable = true;"
  const FirewallLine: string := "  tuinix.security.firewall.enable = true;"

  const SshComment: string := "  # SSH and firewall"

  /** The lines of the SSH setting of `default.nix`: a blank line, then a commented block
      enabling SSH and the firewall. */
  const SshBlock: seq<string> := ["", "", SshComment, SshLine, FirewallLine]

  /** The SSH setting of `default.nix`, empty without SSH. */
  function SshConfig(enableSsh: bool): string {
    if enableSsh then Join(SshBlock, "\n") else ""
  }

  lemma SshLinesHaveNoNewline()
    ensures forall i :: 0 <= i < |SshBlock| ==> '\n' !in SshBlock[i]
  {
    assert forall i :: 0 <= i < |SshLine| ==> SshLine[i] != '\n';
    assert forall i :: 0 <= i < |FirewallLine| ==> FirewallLine[i] != '\n';
    assert forall i :: 0 <= i < |SshComment| ==> SshComment[i] != '\n';
  }

  /** With SSH, the setting enables the SSH server and the firewall together on its last two lines. */
  lemma SshConfigLines(enableSsh: bool)
    ensures SshConfig(enableSsh) == "" <==> !enableSsh
    ensures enableSsh ==>
      var lines := SplitLines(SshConfig(enableSsh));
      |lines| == 5 && lines[3] == SshLine && lines[4] == FirewallLine
  {
    if enableSsh {
      SshLinesHaveNoNewline();
      SplitJoinLines(SshBlock);
      assert SplitLines(SshConfig(enableSsh)) == SshBlock;
      assert SshConfig(enableSsh) != "" by {
        assert |Join(SshBlock, "\n")| > 0 by {
          assert Join(SshBlock, "\n") == "" + "\n" + Join(SshBlock[1..], "\n");
        }
      }
    }
  }

  /** The host-ID line of `hardware.nix`, empty for XFS. */
  function HostIdLine(c: Config): string {
    if c.storageMode.IsZfs() then "  networking.hostId = \"" + c.hostId + "\";" else ""
  }

  /** The ZFS options of the boot block of `hardware.nix`: whether to ask for the encryption
      key at boot, absent for XFS. */
  function RequestEncryptionCredentials(mode: StorageMode): Option<bool> {
    if mode.IsZfs() then Some(mode.IsEncrypted()) else None
  }

  /** Whether `hardware.nix` turns on periodic scrubbing. */
  function AutoScrub(mode: StorageMode): bool {
    mode.IsZfs()
  }

  /** The two generated files agree on ZFS: it is enabled in `default.nix` exactly when
      `hardware.nix` has a host ID, boot-time ZFS options and scrubbing, and both files carry
      the same encryption choice. */
  lemma ZfsFilesAgree(c: Config)
    ensures var zfs := SplitLines(ZfsConfig(c.storageMode))[0] == ZfsEnableLine(true);
      && (zfs <==> HostIdLine(c) != "")
      && (zfs <==> RequestEncryptionCredentials(c.storageMode).Some?)
      && (zfs <==> AutoScrub(c.storageMode))
      && (zfs <==> c.storageMode != Xfs)
      && (zfs ==> SplitLines(ZfsConfig(c.storageMode))[1] == ZfsEncryptionLine(RequestEncryptionCredentials(c.storageMode).value))
  {
    ZfsConfigLines(c.storageMode);
    assert ZfsEnableLine(true) != ZfsEnableLine(false) by {
      assert ZfsEnableLine(true)[22] != ZfsEnableLine(false)[22];
    }
  }

  // ---------------------------------------------------------------------------
  // The disk layout

  /** Where the disk layout comes from: a template file with placeholder substitutions applied
      in order, or the multi-disk generator, which is not part of this model. */
  datatype DiskoSource = Template(file: string, substitutions: seq<(string, string)>) | MultiDiskLayout

  const DiskDeviceKey: string := "{{DISK_DEVICE}}"
  const HostnameKey: string := "{{HOSTNAME}}"
  const SpaceBootKey: string := "{{SPACE_BOOT}}"
  const SpaceNixKey: string := "{{SPACE_NIX}}"
  const SpaceAtuinKey: string := "{{SPACE_ATUIN}}"
  const PoolNameKey: string := "{{ZFS_POOL_NAME}}"

  /** Placeholders the templates may contain. */
  const Placeholders: seq<string> := [DiskDeviceKey, HostnameKey, SpaceBootKey, SpaceNixKey, SpaceAtuinKey, PoolNameKey]

  /** The layout source for the configuration's mode. */
  function DiskoFor(c: Config): DiskoSource {
    match c.storageMode
    case Xfs =>
      Template("disko-xfs.nix", [(DiskDeviceKey, c.disk), (SpaceBootKey, c.spaceBoot)])
    case ZfsEncryptedSingle =>
      Template("disko-template.nix", [
        (DiskDeviceKey, c.disk), (HostnameKey, c.hostname), (SpaceBootKey, c.spaceBoot),
        (SpaceNixKey, c.spaceNix), (SpaceAtuinKey, c.spaceAtuin), (PoolNameKey, c.zfsPoolName)])
    case _ => MultiDiskLayout
  }

  /** The value substituted for a placeholder, if the template substitutes it. */
  function Lookup(subs: seq<(string, string)>, key: string): Option<string> {
    if subs == [] then None else if subs[0].0 == key then Some(subs[0].1) else Lookup(subs[1..], key)
  }

  /** A substitution list that names each placeholder once. */
  predicate DistinctKeys(subs: seq<(string, string)>) {
    forall i, j :: 0 <= i < j < |subs| ==> subs[i].0 != subs[j].0
  }

  /** In a list naming each placeholder once, each placeholder finds its own value. */
  lemma {:induction false} LookupFinds(subs: seq<(string, string)>, k: nat)
    requires DistinctKeys(subs) && k < |subs|
    ensures Lookup(subs, subs[k].0) == Some(subs[k].1)
  {
    if k > 0 {
      assert subs[0].0 != subs[k].0;
      assert DistinctKeys(subs[1..]) by {
        forall i, j | 0 <= i < j < |subs[1..]| ensures subs[1..][i].0 != subs[1..][j].0 {
          assert subs[1..][i] == subs[i + 1] && subs[1..][j] == subs[j + 1];
        }
      }
      LookupFinds(subs[1..], k - 1);
    }
  }

  /** A placeholder the list does not name finds nothing. */
  lemma {:induction false} LookupMisses(subs: seq<(string, string)>, key: string)
    requires forall i :: 0 <= i < |subs| ==> subs[i].0 != key
    ensures Lookup(subs, key).None?
  {
    if subs != [] {
      assert subs[0].0 != key;
      assert forall i :: 0 <= i < |subs[1..]| ==> subs[1..][i] == subs[i + 1];
      LookupMisses(subs[1..], key);
    }
  }

  /** No two placeholders are alike. */
  lemma PlaceholdersDistinct()
    ensures forall i, j :: 0 <= i < j < |Placeholders| ==> Placeholders[i] != Placeholders[j]
  {
    assert DiskDeviceKey[2] == 'D' && HostnameKey[2] == 'H' && PoolNameKey[2] == 'Z';
    assert SpaceBootKey[2] == 'S' && SpaceNixKey[2] == 'S' && SpaceAtuinKey[2] == 'S';
    assert SpaceBootKey[8] == 'B' && SpaceNixKey[8] == 'N' && SpaceAtuinKey[8] == 'A';
  }

  /** Only the single-disk modes use a template, and each substitutes every placeholder at
      most once. */
  lemma DiskoSubstitutions(c: Config)
    ensures DiskoFor(c).Template? <==> !c.storageMode.IsMultiDisk()
    ensures DiskoFor(c).Template? ==>
      var subs := DiskoFor(c).substitutions;
      && DistinctKeys(subs)
      && (forall i :: 0 <= i < |subs| ==> subs[i].0 in Placeholders)
  {
    PlaceholdersDistinct();
    var d := DiskoFor(c);
    if d.Template? {
      var subs := d.substitutions;
      if c.storageMode == Xfs {
        assert subs[0].0 == Placeholders[0] && subs[1].0 == Placeholders[2];
      } else {
        assert forall i :: 0 <= i < |subs| ==> subs[i].0 == Placeholders[i];
      }
    }
  }

  /** The XFS template gets the disk and the boot size, and nothing else: no host name, no
      other size and no pool name. */
  lemma XfsSubstitutions(c: Config)
    requires c.storageMode == Xfs
    ensures var subs := DiskoFor(c).substitutions;
      && DiskoFor(c).file == "disko-xfs.nix"
      && Lookup(subs, DiskDeviceKey) == Some(c.disk)
      && Lookup(subs, SpaceBootKey) == Some(c.spaceBoot)
      && Lookup(subs, HostnameKey).None? && Lookup(subs, SpaceNixKey).None?
      && Lookup(subs, SpaceAtuinKey).None? && Lookup(subs, PoolNameKey).None?
  {
    PlaceholdersDistinct();
    var subs := DiskoFor(c).substitutions;
    DiskoSubstitutions(c);
    assert subs[0].0 == Placeholders[0] && subs[1].0 == Placeholders[2];
    LookupFinds(subs, 0);
    LookupFinds(subs, 1);
    LookupMisses(subs, HostnameKey);
    LookupMisses(subs, SpaceNixKey);
    LookupMisses(subs, SpaceAtuinKey);
    LookupMisses(subs, PoolNameKey);
  }

  /** The encrypted single-disk template gets the disk, the host name, the boot, nix and atuin
      sizes and the pool name. The home size is never substituted. */
  lemma ZfsSingleSubstitutions(c: Config)
    requires c.storageMode == ZfsEncryptedSingle
    ensures var subs := DiskoFor(c).substitutions;
      && DiskoFor(c).file == "disko-template.nix"
      && Lookup(subs, DiskDeviceKey) == Some(c.disk)
      && Lookup(subs, HostnameKey) == Some(c.hostname)
      && Lookup(subs, SpaceBootKey) == Some(c.spaceBoot)
      && Lookup(subs, SpaceNixKey) == Some(c.spaceNix)
      && Lookup(subs, SpaceAtuinKey) == Some(c.spaceAtuin)
      && Lookup(subs, PoolNameKey) == Some(c.zfsPoolName)
  {
    var subs := DiskoFor(c).substitutions;
    DiskoSubstitutions(c);
    LookupFinds(subs, 0);
    LookupFinds(subs, 1);
    LookupFinds(subs, 2);
    LookupFinds(subs, 3);
    LookupFinds(subs, 4);
    LookupFinds(subs, 5);
  }
}
