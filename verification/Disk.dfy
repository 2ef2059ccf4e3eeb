/** The manager of the persistent user-data disk on macOS: a few file-system steps, each of which may fail. */
module Disk {

  datatype Format = Raw | Qcow2

  /** A disk image; `data` identifies what it holds. */
  datatype Image = Image(format: Format, data: nat)

  /** What stands at a path: a link always points to the persistent disk. */
  datatype Node = Absent | File(img: Image) | Link

  datatype Place = LimaDisk | UserDisk | Sibling

  /** Lima's datadisk, the persistent disk, its `.qcow2` sibling, their directory, and Lima's lock. */
  datatype FileSystem = FileSystem(lima: Node, disk: Node, sibling: Node, dir: bool, lock: bool)

  datatype Event =
    | Renamed(from: Place, to: Place, overwrote: bool)
    | Removed(place: Place)
    | Linked
    | MadeDir
    | Created
    | Converted
    | Unlocked

  const FRESH: nat := 0
  const DAMAGED: nat := 1

  datatype ConvertFault = Converts | FailsClean | FailsPartial
  datatype CreateFault = Creates | CreateFails | CreatesPartly
  /** What creating a Lima disk does to a dangling link. */
  datatype Dangling = Refused | Replaced | WrittenThrough

  /** Which operations of one attachment fail, or, for `Stat`, misreport. */
  datatype AttachFaults = AttachFaults(statDisk: bool, statDir: bool, mkdir: bool, rename: bool,
                                       statLima: bool, remove: bool, symlink: bool)

  datatype Faults = Faults(ls: bool, listsDangling: bool, info: bool, backUp: bool, convert: ConvertFault,
                           afterConvert: AttachFaults, readlink: bool, attach: AttachFaults,
                           create: CreateFault, dangling: Dangling, statLock: bool, unlock: bool)

  /** Result of a step: whether it succeeded, the state it left, and what it changed, in order. */
  datatype Outcome = Outcome(ok: bool, fs: FileSystem, log: seq<Event>)

  datatype Found = Present | Missing | Loop

  /** What `Stat` says, following links. */
  function Stat(fs: FileSystem, n: Node): Found {
    match n
    case Absent => Missing
    case File(_) => Present
    case Link => (match fs.disk case File(_) => Present case Absent => Missing case Link => Loop)
  }

  /** What a step did after another, which stands alone if it failed. */
  function After(before: Outcome, step: Outcome): Outcome {
    if before.ok then Outcome(step.ok, step.fs, before.log + step.log) else before
  }

  /** `limactl disk ls`: Lima lists the disk when its datadisk resolves. */
  predicate LimaDiskExists(fs: FileSystem, f: Faults) {
    !f.ls && (Stat(fs, fs.lima) == Present || (f.listsDangling && fs.lima != Absent))
  }

  predicate PersistentDiskExists(fs: FileSystem, f: AttachFaults) {
    !f.statDisk && Stat(fs, fs.disk) == Present
  }

  /** Moves Lima's datadisk to the persistent path, making the directory if it is missing. */
  function MoveUp(fs: FileSystem, f: AttachFaults): Outcome {
    var makes := !fs.dir && !f.statDir;
    if makes && f.mkdir then Outcome(false, fs, [])
    else
      var made, log := if makes then fs.(dir := true) else fs, if makes then [MadeDir] else [];
      if f.rename || made.lima == Absent || !made.dir then Outcome(false, made, log)
      else Outcome(true, made.(disk := made.lima, lima := Absent),
                   log + [Renamed(LimaDisk, UserDisk, made.disk != Absent)])
  }

  /** Clears Lima's datadisk path, if it resolves. */
  function ClearLima(fs: FileSystem, f: AttachFaults): Outcome {
    if f.statLima || Stat(fs, fs.lima) == Loop then Outcome(false, fs, [])
    else if Stat(fs, fs.lima) == Missing then Outcome(true, fs, [])
    else if f.remove then Outcome(false, fs, [])
    else Outcome(true, fs.(lima := Absent), [Removed(LimaDisk)])
  }

  /** Links Lima's datadisk path to the persistent disk; an entry that is there already is an error. */
  function LinkLima(fs: FileSystem, f: AttachFaults): Outcome {
    if f.symlink || fs.lima != Absent then Outcome(false, fs, [])
    else Outcome(true, fs.(lima := Link), [Linked])
  }

  function Attach(fs: FileSystem, f: AttachFaults): Outcome {
    var moved := if PersistentDiskExists(fs, f) then Outcome(true, fs, []) else MoveUp(fs, f);
    var cleared := After(moved, ClearLima(moved.fs, f));
    After(cleared, LinkLima(cleared.fs, f))
  }

  /** Renames the persistent disk to its sibling and converts the sibling back in place. */
  function ConvertToRaw(fs: FileSystem, f: Faults): Outcome {
    if f.backUp || fs.disk == Absent then Outcome(false, fs, [])
    else
      var renamed := fs.(sibling := fs.disk, disk := Absent);
      var log := [Renamed(UserDisk, Sibling, fs.sibling != Absent)];
      if f.convert == FailsPartial then Outcome(false, renamed.(disk := File(Image(Raw, DAMAGED))), log)
      else if f.convert == FailsClean || !renamed.sibling.File? then Outcome(false, renamed, log)
      else Outcome(true, renamed.(disk := File(Image(Raw, renamed.sibling.img.data))), log + [Converted])
  }

  function CreateLimaDisk(fs: FileSystem, f: Faults): Outcome {
    var blank := File(Image(Raw, FRESH));
    if Stat(fs, fs.lima) == Present || f.create == CreateFails then Outcome(false, fs, [])
    else if fs.lima == Link then
      match f.dangling
      case Refused => Outcome(false, fs, [])
      case Replaced => Outcome(f.create == Creates, fs.(lima := blank), [Created])
      case WrittenThrough =>
        if Stat(fs, fs.lima) == Loop || !fs.dir then Outcome(false, fs, [])
        else Outcome(f.create == Creates, fs.(disk := blank), [Created])
    else Outcome(f.create == Creates, fs.(lima := blank), [Created])
  }

  function Unlock(fs: FileSystem, f: Faults): Outcome {
    if f.statLock || !fs.lock then Outcome(true, fs, [])
    else if f.unlock then Outcome(false, fs, [])
    else Outcome(true, fs.(lock := false), [Unlocked])
  }

  /** With vz, a persistent disk that is not raw is converted and attached again. */
  function EnsureRaw(fs: FileSystem, f: Faults): Outcome {
    if f.info || !fs.disk.File? then Outcome(false, fs, [])
    else if fs.disk.img.format == Raw then Outcome(true, fs, [])
    else After(ConvertToRaw(fs, f), Attach(ConvertToRaw(fs, f).fs, f.afterConvert))
  }

  /** A datadisk that is not the link is replaced by it. */
  function EnsureLink(fs: FileSystem, f: Faults): Outcome {
    if f.readlink || fs.lima == Absent then Outcome(false, fs, [])
    else if fs.lima == Link then Outcome(true, fs, [])
    else Attach(fs, f.attach)
  }

  function CreateAndAttach(fs: FileSystem, f: Faults): Outcome {
    After(CreateLimaDisk(fs, f), Attach(CreateLimaDisk(fs, f).fs, f.attach))
  }

  function EnsureDisk(fs: FileSystem, vz: bool, f: Faults): Outcome {
    if LimaDiskExists(fs, f) then
      var raw := if vz then EnsureRaw(fs, f) else Outcome(true, fs, []);
      After(raw, EnsureLink(raw.fs, f))
    else CreateAndAttach(fs, f)
  }

  /** A disk that Lima lists is made raw if it must be, and then linked. */
  lemma EnsureDiskInTwo(fs: FileSystem, vz: bool, f: Faults, log: seq<Event>)
    requires LimaDiskExists(fs, f) && (vz ==> EnsureRaw(fs, f).ok)
    ensures var raw := if vz then EnsureRaw(fs, f) else Outcome(true, fs, []);
            var link := EnsureLink(raw.fs, f);
            && EnsureDisk(fs, vz, f).ok == link.ok && EnsureDisk(fs, vz, f).fs == link.fs
            && log + EnsureDisk(fs, vz, f).log == log + raw.log + link.log
  {
  }

  /** One run of `EnsureUserDataDisk`. */
  function Ensure(fs: FileSystem, vz: bool, f: Faults): Outcome {
    After(EnsureDisk(fs, vz, f), Unlock(EnsureDisk(fs, vz, f).fs, f))
  }

  /** The manager as Finch runs it: each method changes the file system step by step and stops at an error. */
  class UserDataDiskManager {
    var fs: FileSystem
    ghost var log: seq<Event>
    const vz: bool

    constructor (fs: FileSystem, vz: bool)
      ensures this.fs == fs && this.vz == vz && log == []
    {
      this.fs, this.log, this.vz := fs, [], vz;
    }

    /** The step did what `o` says. */
    twostate predicate Did(ok: bool, o: Outcome)
      reads this
    {
      ok == o.ok && fs == o.fs && log == old(log) + o.log
    }

    method MoveLimaDiskUp(f: AttachFaults) returns (ok: bool)
      modifies this
      ensures Did(ok, MoveUp(old(fs), f))
    {
      if !fs.dir && !f.statDir {
        if f.mkdir {
          return false;
        }
        fs := fs.(dir := true);
        log := log + [MadeDir];
      }
      if f.rename || fs.lima == Absent || !fs.dir {
        return false;
      }
      log := log + [Renamed(LimaDisk, UserDisk, fs.disk != Absent)];
      fs := fs.(disk := fs.lima, lima := Absent);
      return true;
    }

    method AttachPersistentDiskToLimaDisk(f: AttachFaults) returns (ok: bool)
      modifies this
      ensures Did(ok, Attach(old(fs), f))
    {
      if !PersistentDiskExists(fs, f) {
        ok := MoveLimaDiskUp(f);
        if !ok {
          return;
        }
      }
      var found := Stat(fs, fs.lima);
      if f.statLima || found == Loop {
        return false;
      } else if found == Present {
        if f.remove {
          return false;
        }
        fs := fs.(lima := Absent);
        log := log + [Removed(LimaDisk)];
      }
      if f.symlink || fs.lima != Absent {
        return false;
      }
      fs := fs.(lima := Link);
      log := log + [Linked];
      return true;
    }

    method ConvertDiskToRaw(f: Faults) returns (ok: bool)
      modifies this
      ensures Did(ok, ConvertToRaw(old(fs), f))
    {
      if f.backUp || fs.disk == Absent {
        return false;
      }
      log := log + [Renamed(UserDisk, Sibling, fs.sibling != Absent)];
      fs := fs.(sibling := fs.disk, disk := Absent);
      match f.convert {
        case FailsPartial =>
          fs := fs.(disk := File(Image(Raw, DAMAGED)));
          return false;
        case FailsClean =>
          return false;
        case Converts =>
          if !fs.sibling.File? {
            return false;
          }
          fs := fs.(disk := File(Image(Raw, fs.sibling.img.data)));
          log := log + [Converted];
          return true;
      }
    }

    /** A Lima disk that resolves is never created anew, and no file that is there is touched. */
    method CreateDisk(f: Faults) returns (ok: bool)
      modifies this
      ensures Did(ok, CreateLimaDisk(old(fs), f))
      ensures ok ==> Stat(fs, fs.lima) == Present
      ensures old(Stat(fs, fs.lima)) == Present ==> !ok && fs == old(fs)
      ensures fs.sibling == old(fs.sibling) && (old(fs.disk) != Absent ==> fs.disk == old(fs.disk))
      ensures old(fs.lima.File?) ==> fs.lima == old(fs.lima)
    {
      if Stat(fs, fs.lima) == Present || f.create == CreateFails {
        return false;
      }
      var blank := File(Image(Raw, FRESH));
      if fs.lima != Link {
        fs := fs.(lima := blank);
      } else {
        match f.dangling {
          case Refused =>
            return false;
          case Replaced =>
            fs := fs.(lima := blank);
          case WrittenThrough =>
            if fs.disk != Absent || !fs.dir {
              return false;
            }
            fs := fs.(disk := blank);
        }
      }
      log := log + [Created];
      return f.create == Creates;
    }

    method EnsureRawDisk(f: Faults) returns (ok: bool)
      modifies this
      ensures Did(ok, EnsureRaw(old(fs), f))
    {
      if f.info || !fs.disk.File? {
        return false;
      }
      if fs.disk.img.format == Raw {
        return true;
      }
      ok := ConvertDiskToRaw(f);
      if ok {
        ok := AttachPersistentDiskToLimaDisk(f.afterConvert);
      }
    }

    method EnsureLinkedDisk(f: Faults) returns (ok: bool)
      modifies this
      ensures Did(ok, EnsureLink(old(fs), f))
    {
      if f.readlink || fs.lima == Absent {
        return false;
      }
      if fs.lima == Link {
        return true;
      }
      ok := AttachPersistentDiskToLimaDisk(f.attach);
    }

    method CreateAttachedDisk(f: Faults) returns (ok: bool)
      modifies this
      ensures Did(ok, CreateAndAttach(old(fs), f))
    {
      ok := CreateDisk(f);
      if ok {
        ok := AttachPersistentDiskToLimaDisk(f.attach);
      }
    }

    method EnsureLimaDisk(f: Faults) returns (ok: bool)
      modifies this
      ensures Did(ok, EnsureDisk(old(fs), vz, f))
    {
      if !LimaDiskExists(fs, f) {
        ok := CreateAttachedDisk(f);
        return;
      }
      if vz {
        ok := EnsureRawDisk(f);
        if !ok {
          return;
        }
      }
      EnsureDiskInTwo(old(fs), vz, f, old(log));
      ok := EnsureLinkedDisk(f);
    }

    method EnsureUserDataDisk(f: Faults) returns (ok: bool)
      modifies this
      ensures Did(ok, Ensure(old(fs), vz, f))
    {
      ok := EnsureLimaDisk(f);
      if ok && !f.statLock && fs.lock {
        if f.unlock {
          return false;
        }
        fs := fs.(lock := false);
        log := log + [Unlocked];
      }
    }
  }
}
