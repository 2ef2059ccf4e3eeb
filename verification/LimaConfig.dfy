/** The two Lima configuration files: default.yaml, whose settings only a new machine picks up, and override.yaml. */
module LimaConfig {
  import opened Wrappers

  /** The configured machine type; it is not checked, and macOS supports two of them. */
  datatype VmType = Vz | Qemu | Wsl2 | OtherType
  datatype MountType = Virtiofs | ReverseSshfs

  /** Whether the system has the virtualization framework, or the check for it fails. */
  datatype Support = Supported | Unsupported | CheckFails

  /** What Finch is configured to do, and what it runs on. */
  datatype Config = Config(vmType: VmType, rosetta: bool, inotify: bool, arm64: bool, support: Support)

  /** The settings that only a new machine picks up. */
  datatype Settings = Settings(vmType: VmType, mountType: MountType, rosetta: bool, binfmt: bool, inotify: bool,
                               emulation: bool)

  /** default.yaml: its settings, if it has been written in full, and how often the network snippet follows. */
  datatype DefaultYaml = NoFile | Yaml(settings: Option<Settings>, networks: nat)

  /** override.yaml; once written in full, it may name Finch's disk. */
  datatype OverrideYaml = NoOverride | Blank | Filled(namesDisk: bool)

  /** Each file is emptied first and filled last. */
  datatype WriteFault = BothWrites | FirstFails | SecondFails

  /** The settings for a new machine, unless its type is not to be had. */
  function Framework(c: Config): Option<Settings> {
    if c.rosetta && c.arm64 then
      if c.support == Supported then Some(Settings(Vz, Virtiofs, true, true, c.inotify, false)) else None
    else
      match c.vmType
      case Vz => if c.support == Supported then Some(Settings(Vz, Virtiofs, false, false, c.inotify, true)) else None
      case Qemu => Some(Settings(Qemu, ReverseSshfs, false, false, c.inotify, true))
      case _ => None
  }

  /** A new machine is a vz machine, on a supporting system, or a qemu one that does without; the mount type
      follows from its type, and emulation is by Rosetta or by a script, never by both. */
  lemma SettingsAreConsistent(c: Config)
    ensures Framework(c).Some? ==>
              var s := Framework(c).value;
              && (s.vmType == Vz || s.vmType == Qemu)
              && (s.vmType == Vz <==> s.mountType == Virtiofs)
              && (s.vmType == Vz ==> c.support == Supported)
              && (s.rosetta == s.binfmt == !s.emulation)
              && (s.rosetta ==> s.vmType == Vz && c.arm64)
    ensures Framework(c).Some? && Framework(c).value.vmType != c.vmType
            <==> c.rosetta && c.arm64 && c.support == Supported && c.vmType != Vz
    ensures Framework(c).None? <==> (c.support != Supported && (c.vmType == Vz || (c.rosetta && c.arm64)))
                                    || ((c.vmType == Wsl2 || c.vmType == OtherType) && !(c.rosetta && c.arm64))
  {
  }

  /** default.yaml after configuring it; `ok` tells whether that succeeded. */
  datatype Written = Written(ok: bool, yaml: DefaultYaml)

  function ConfigureDefault(y: DefaultYaml, c: Config, f: WriteFault): Written {
    if f == FirstFails then Written(false, y)
    else if f == SecondFails || Framework(c).None? then Written(false, Yaml(None, 0))
    else Written(true, Yaml(Framework(c), 0))
  }

  /** The disk is added for every machine type but wsl2. */
  function ConfigureOverride(y: OverrideYaml, vmType: VmType, f: WriteFault): OverrideYaml {
    match f
    case FirstFails => y
    case SecondFails => Blank
    case BothWrites => Filled(vmType != Wsl2)
  }

  /** The framework settings, filled in field by field as the applier does. */
  method ConfigureVirtualizationFramework(c: Config) returns (settings: Option<Settings>)
    ensures settings == Framework(c)
  {
    var rosetta, binfmt, emulation := false, false, false;
    var vmType, mountType := c.vmType, ReverseSshfs;
    if c.rosetta && c.arm64 {
      if c.support != Supported {
        return None;
      }
      rosetta, binfmt := true, true;
      vmType, mountType := Vz, Virtiofs;
    } else {
      match c.vmType {
        case Vz =>
          if c.support != Supported {
            return None;
          }
          mountType := Virtiofs;
        case Qemu =>
          mountType := ReverseSshfs;
        case _ =>
          return None;
      }
      emulation := true;
    }
    return Some(Settings(vmType, mountType, rosetta, binfmt, c.inotify, emulation));
  }
}
