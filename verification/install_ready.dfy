/**
 What a configuration the wizard hands to the installer guarantees about the files generated
 from it and the stages run for it.
 */
module InstallReady {
  import opened Wrappers
  import opened Text
  import opened Types
  import opened Helpers
  import opened WizardInvariant
  import opened Sections
  import opened Pipeline

  /** A ready configuration fills every template placeholder with usable values: the device
      is the chosen disk and every size is a whole number of GiB. */
  lemma ReadyTemplatesAreFilled(c: Config)
    requires Ready(c)
    ensures DiskoFor(c).Template? ==>
      var subs := DiskoFor(c).substitutions;
      && Lookup(subs, DiskDeviceKey) == Some(c.disks[0])
      && Lookup(subs, SpaceBootKey).Some? && ParseGiB(Lookup(subs, SpaceBootKey).value).Some?
      && (Lookup(subs, SpaceNixKey).Some? ==> ParseGiB(Lookup(subs, SpaceNixKey).value).Some?)
      && (Lookup(subs, SpaceAtuinKey).Some? ==> ParseGiB(Lookup(subs, SpaceAtuinKey).value).Some?)
  {
    if c.storageMode == Xfs {
      XfsSubstitutions(c);
    } else if c.storageMode == ZfsEncryptedSingle {
      ZfsSingleSubstitutions(c);
    }
  }

  /** A ready ZFS configuration writes a well-formed host ID into `hardware.nix`. */
  lemma ReadyHostIdLine(c: Config)
    requires Ready(c) && c.storageMode.IsZfs()
    ensures exists id :: IsHostId(id) && HostIdLine(c) == "  networking.hostId = \"" + id + "\";"
  {
    assert IsHostId(c.hostId);
  }

  /** In a ready configuration, the user file lists keys exactly when SSH is enabled. */
  lemma ReadyKeysIffSsh(c: Config)
    requires Ready(c)
    ensures KeysSection(c) != "" <==> c.enableSsh
    ensures KeysSection(c) != "" <==> SshConfig(c.enableSsh) != ""
  {
    SshConfigLines(c.enableSsh);
  }

  /** The stages that configure the ZFS boot file system and finalize the pool run exactly for
      the configurations whose `hardware.nix` carries a host ID. */
  lemma ZfsStagesMatchHardware(c: Config)
    ensures ZfsBoot in Plan(c.storageMode) <==> HostIdLine(c) != ""
    ensures FinalizePool in Plan(c.storageMode) <==> RequestEncryptionCredentials(c.storageMode).Some?
  {
    ZfsFilesAgree(c);
  }
}
