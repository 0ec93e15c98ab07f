/**
 The installer's shared vocabulary: the five storage modes and their capability table,
 the wizard's states, the configuration record the wizard fills in, and the disk and
 keymap entries it offers for selection.
 */
module Types {
  import opened Wrappers

  /** The disk layout strategy. The constructors are declared in the order of their Go `iota` codes. */
  datatype StorageMode = ZfsEncryptedSingle | Xfs | ZfsStripe | ZfsRaidz | ZfsRaidz2 {

    /** The integer the mode is stored as. */
    function Code(): int {
      match this
      case ZfsEncryptedSingle => 0
      case Xfs => 1
      case ZfsStripe => 2
      case ZfsRaidz => 3
      case ZfsRaidz2 => 4
    }

    predicate IsZfs() {
      this != Xfs
    }

    predicate IsEncrypted() {
      this != Xfs
    }

    predicate IsMultiDisk() {
      this == ZfsStripe || this == ZfsRaidz || this == ZfsRaidz2
    }

    function MinDisks(): int {
      match this
      case ZfsRaidz => 3
      case ZfsRaidz2 => 4
      case ZfsStripe => 2
      case _ => 1
    }

    /** The human-readable label of the mode. */
    function Name(): string {
      ModeString(Code())
    }
  }

  /** The mode an integer code stands for, if any. */
  function ModeOfCode(code: int): Option<StorageMode> {
    if code == 0 then Some(ZfsEncryptedSingle)
    else if code == 1 then Some(Xfs)
    else if code == 2 then Some(ZfsStripe)
    else if code == 3 then Some(ZfsRaidz)
    else if code == 4 then Some(ZfsRaidz2)
    else None
  }

  /** The `String` method, which is defined on every integer, not just the five codes. */
  function ModeString(code: int): string {
    match ModeOfCode(code)
    case Some(ZfsEncryptedSingle) => "Encrypted ZFS (single disk)"
    case Some(Xfs) => "XFS unencrypted (max performance)"
    case Some(ZfsStripe) => "Encrypted ZFS stripe (combined space)"
    case Some(ZfsRaidz) => "Encrypted ZFS raidz (1-disk fault tolerance)"
    case Some(ZfsRaidz2) => "Encrypted ZFS raidz2 (2-disk fault tolerance)"
    case None => "Unknown"
  }

  /** The order in which the storage-mode step lists the modes. */
  const StorageModes: seq<StorageMode> := [ZfsEncryptedSingle, Xfs, ZfsStripe, ZfsRaidz, ZfsRaidz2]

  /** ZFS and encryption go together, and only XFS has neither. */
  lemma ZfsIffEncrypted(m: StorageMode)
    ensures m.IsZfs() == m.IsEncrypted()
    ensures !m.IsZfs() <==> m == Xfs
  {
  }

  /** The multi-disk modes are exactly the ones that need two or more disks, and all of them are encrypted ZFS. */
  lemma MultiDiskIffSeveralDisks(m: StorageMode)
    ensures m.IsMultiDisk() <==> m.MinDisks() >= 2
    ensures m.IsMultiDisk() ==> m.IsZfs() && m.IsEncrypted()
    ensures m.MinDisks() >= 1
    ensures m.MinDisks() == (match m case ZfsStripe => 2 case ZfsRaidz => 3 case ZfsRaidz2 => 4 case _ => 1)
  {
  }

  /** `StorageModes` lists every mode exactly once, and position `i` holds the mode with code `i`. */
  lemma StorageModesEnumerates()
    ensures |StorageModes| == 5
    ensures forall i :: 0 <= i < |StorageModes| ==> StorageModes[i].Code() == i
    ensures forall i, j :: 0 <= i < j < |StorageModes| ==> StorageModes[i] != StorageModes[j]
    ensures forall m: StorageMode :: m in StorageModes
  {
    forall m: StorageMode ensures m in StorageModes {
      assert StorageModes[m.Code()] == m;
    }
  }

  /** Codes and modes convert into each other; every other integer names no mode. */
  lemma CodeRoundTrip(m: StorageMode, code: int)
    ensures ModeOfCode(m.Code()) == Some(m)
    ensures ModeOfCode(code).Some? <==> 0 <= code < 5
    ensures ModeOfCode(code).Some? ==> ModeOfCode(code).value.Code() == code
  {
  }

  /** The five modes have five different labels, none of them "Unknown"; any other code is "Unknown". */
  lemma ModeLabelsDistinct(a: int, b: int)
    ensures 0 <= a < 5 && 0 <= b < 5 && a != b ==> ModeString(a) != ModeString(b)
    ensures 0 <= a < 5 ==> ModeString(a) != "Unknown"
    ensures !(0 <= a < 5) ==> ModeString(a) == "Unknown"
  {
  }

  /** The positions of the installer's state machine, in the order of their Go `iota` codes. */
  datatype State =
    | FireTransition | Splash | GravityOut | NetworkCheck
    | Username | Fullname | Email | Password | PasswordConfirm | Hostname
    | StorageModeChoice | Disk | DiskMulti | Passphrase | PassphraseConfirm
    | Locale | Keymap | Ssh | GitHubUser | Summary | Confirm
    | Installing | Complete | Error

  /** A block device as offered by the disk list. */
  datatype DiskInfo = DiskInfo(path: string, size: string, model: string)

  /** A keyboard layout: its display name, the X11/Wayland layout and the Linux console keymap. */
  datatype KeymapEntry = KeymapEntry(name: string, xkbLayout: string, consoleMap: string)

  /** Everything the installation needs, filled in step by step by the wizard. */
  datatype Config = Config(
    username: string,
    fullname: string,
    email: string,
    password: string,
    hostname: string,
    disk: string,          // the only disk, or the disk holding the boot partition
    disks: seq<string>,    // every disk of the pool
    hostId: string,
    passphrase: string,
    storageMode: StorageMode,
    locale: string,
    keymap: string,
    consoleKeyMap: string,
    enableSsh: bool,
    gitHubUser: string,
    sshKeys: seq<string>,
    spaceBoot: string,
    spaceNix: string,
    spaceHome: string,
    spaceAtuin: string,
    zfsPoolName: string,
    projectRoot: string,
    workDir: string)
}
