/** What the disk manager guarantees over every history of runs, with operations failing at any point. */
module DiskTheorems {
  import opened Disk

  // ---- user data survives ----

  predicate Holds(n: Node, u: nat) { n.File? && n.img.data == u }

  /** The data `u` is in some regular file. */
  predicate Survives(fs: FileSystem, u: nat) { Holds(fs.lima, u) || Holds(fs.disk, u) || Holds(fs.sibling, u) }

  predicate NotQcow2(n: Node) { n.File? ==> n.img.format == Raw }

  /** What every run keeps: `u` is out of reach of removal, and a sibling is never to be overwritten. */
  predicate Inv(fs: FileSystem, u: nat) {
    && fs.disk != Link && fs.sibling != Link
    && (fs.sibling.File? ==> NotQcow2(fs.disk) && NotQcow2(fs.lima))
    && (NotQcow2(fs.disk) || NotQcow2(fs.lima))
    && (Holds(fs.disk, u) || Holds(fs.sibling, u) || (fs.disk == Absent && Holds(fs.lima, u)))
  }

  /** `Stat` on the persistent disk tells the truth. */
  predicate TruthfulStat(f: Faults) { !f.afterConvert.statDisk && !f.attach.statDisk }

  predicate KeepsSibling(log: seq<Event>) {
    forall i :: 0 <= i < |log| ==> !(log[i].Renamed? && log[i].to == Sibling && log[i].overwrote)
  }

  lemma AttachKeepsInv(fs: FileSystem, f: AttachFaults, u: nat)
    requires Inv(fs, u) && !f.statDisk && (fs.disk == Absent ==> fs.lima != Link)
    ensures Inv(Attach(fs, f).fs, u) && KeepsSibling(Attach(fs, f).log)
  {
  }

  lemma EnsureRawKeepsInv(fs: FileSystem, f: Faults, u: nat)
    requires Inv(fs, u) && TruthfulStat(f)
    ensures Inv(EnsureRaw(fs, f).fs, u) && KeepsSibling(EnsureRaw(fs, f).log)
  {
    if !f.info && fs.disk.File? && fs.disk.img.format == Qcow2 {
      var converted := ConvertToRaw(fs, f);
      assert Inv(converted.fs, u) && KeepsSibling(converted.log);
      if converted.ok {
        AttachKeepsInv(converted.fs, f.afterConvert, u);
      }
    }
  }

  lemma EnsureLinkKeepsInv(fs: FileSystem, f: Faults, u: nat)
    requires Inv(fs, u) && TruthfulStat(f)
    ensures Inv(EnsureLink(fs, f).fs, u) && KeepsSibling(EnsureLink(fs, f).log)
  {
    if fs.lima != Link {
      AttachKeepsInv(fs, f.attach, u);
    }
  }

  lemma CreateAndAttachKeepsInv(fs: FileSystem, f: Faults, u: nat)
    requires Inv(fs, u) && TruthfulStat(f)
    ensures Inv(CreateAndAttach(fs, f).fs, u) && KeepsSibling(CreateAndAttach(fs, f).log)
  {
    var created := CreateLimaDisk(fs, f);
    assert Inv(created.fs, u) && KeepsSibling(created.log);
    if created.ok {
      AttachKeepsInv(created.fs, f.attach, u);
    }
  }

  lemma KeepsSiblingTogether(a: seq<Event>, b: seq<Event>)
    requires KeepsSibling(a) && KeepsSibling(b)
    ensures KeepsSibling(a + b)
  {
  }

  /** One run keeps the invariant, whatever fails in it, and overwrites no sibling. */
  lemma RunKeepsInv(fs: FileSystem, vz: bool, f: Faults, u: nat)
    requires Inv(fs, u) && TruthfulStat(f)
    ensures Inv(Ensure(fs, vz, f).fs, u) && KeepsSibling(Ensure(fs, vz, f).log)
  {
    if LimaDiskExists(fs, f) {
      var raw := if vz then EnsureRaw(fs, f) else Outcome(true, fs, []);
      if vz {
        EnsureRawKeepsInv(fs, f, u);
      }
      EnsureLinkKeepsInv(raw.fs, f, u);
      KeepsSiblingTogether(raw.log, EnsureLink(raw.fs, f).log);
    } else {
      CreateAndAttachKeepsInv(fs, f, u);
    }
    var o := EnsureDisk(fs, vz, f);
    assert Inv(o.fs, u) && KeepsSibling(o.log);
    KeepsSiblingTogether(o.log, Unlock(o.fs, f).log);
  }

  /** A run under some configuration; afterwards the lock is as the virtual machine leaves it. */
  datatype Run = Run(vz: bool, f: Faults, lock: bool)

  function History(fs: FileSystem, runs: seq<Run>): FileSystem
    decreases |runs|
  {
    if runs == [] then fs
    else History(Ensure(fs, runs[0].vz, runs[0].f).fs.(lock := runs[0].lock), runs[1..])
  }

  function HistoryLog(fs: FileSystem, runs: seq<Run>): seq<Event>
    decreases |runs|
  {
    if runs == [] then []
    else
      var o := Ensure(fs, runs[0].vz, runs[0].f);
      o.log + HistoryLog(o.fs.(lock := runs[0].lock), runs[1..])
  }

  predicate TruthfulRuns(runs: seq<Run>) { forall i :: 0 <= i < |runs| ==> TruthfulStat(runs[i].f) }

  lemma {:induction false} HistoryKeepsInv(fs: FileSystem, runs: seq<Run>, u: nat)
    requires Inv(fs, u) && TruthfulRuns(runs)
    ensures Inv(History(fs, runs), u) && KeepsSibling(HistoryLog(fs, runs))
    decreases |runs|
  {
    if runs != [] {
      var o := Ensure(fs, runs[0].vz, runs[0].f);
      RunKeepsInv(fs, runs[0].vz, runs[0].f, u);
      HistoryKeepsInv(o.fs.(lock := runs[0].lock), runs[1..], u);
    }
  }

  /** Before Finch has ever converted: no sibling, and `u` is on the persistent disk. */
  predicate Start(fs: FileSystem, u: nat) { fs.sibling == Absent && Holds(fs.disk, u) && !Holds(fs.lima, u) }

  const NO_FAULT := AttachFaults(false, false, false, false, false, false, false)
  const ALL_WELL := Faults(false, false, false, false, Converts, NO_FAULT, false, NO_FAULT, Creates, Refused, false, false)

  /** The first run moves the disk to its sibling, and its conversion fails. */
  lemma FailedConversion(fs: FileSystem)
    requires fs.disk.File? && fs.lima.File? && !NotQcow2(fs.disk)
    ensures Ensure(fs, true, ALL_WELL.(convert := FailsClean)).fs.(lock := false)
            == FileSystem(fs.lima, Absent, fs.disk, fs.dir, false)
  {
  }

  /** The second takes Lima's own datadisk for the persistent disk. */
  lemma LimaDiskTaken(fs: FileSystem)
    requires fs.disk == Absent && fs.lima.File?
    ensures Ensure(fs, false, ALL_WELL).fs.(lock := false) == FileSystem(Link, fs.lima, fs.sibling, true, false)
  {
  }

  /** The third converts that one, over the sibling. */
  lemma SiblingOverwritten(fs: FileSystem)
    requires fs.lima == Link && fs.disk.File? && !NotQcow2(fs.disk) && fs.dir
    ensures Ensure(fs, true, ALL_WELL).fs.(lock := false)
            == FileSystem(Link, File(Image(Raw, fs.disk.img.data)), fs.disk, true, false)
  {
  }

  /** Conversion fails, the machine type goes to qemu and back: the old data is overwritten. */
  lemma TwoQcow2DisksLoseData(fs: FileSystem, u: nat) returns (runs: seq<Run>)
    requires Start(fs, u) && !NotQcow2(fs.disk) && !NotQcow2(fs.lima)
    ensures TruthfulRuns(runs) && !Survives(History(fs, runs), u)
  {
    var r1 := Run(true, ALL_WELL.(convert := FailsClean), false);
    var r2 := Run(false, ALL_WELL, false);
    var r3 := Run(true, ALL_WELL, false);
    runs := [r1, r2, r3];
    var fs1 := FileSystem(fs.lima, Absent, fs.disk, fs.dir, false);
    FailedConversion(fs);
    var fs2 := FileSystem(Link, fs.lima, fs.disk, true, false);
    LimaDiskTaken(fs1);
    var fs3 := FileSystem(Link, File(Image(Raw, fs.lima.img.data)), fs.lima, true, false);
    SiblingOverwritten(fs2);
    assert runs[1..] == [r2, r3] && runs[1..][1..] == [r3];
    assert History(fs, runs) == History(fs1, [r2, r3]) == History(fs2, [r3]) == History(fs3, []);
  }

  /** Over every history of runs in which `Stat` tells the truth about the persistent disk, the user data
      survives if and only if Lima's own datadisk and the persistent disk are not both qcow2 files. */
  lemma DataSurvivesIff(fs: FileSystem, u: nat)
    requires Start(fs, u)
    ensures (forall runs :: TruthfulRuns(runs) ==> Survives(History(fs, runs), u))
            <==> NotQcow2(fs.disk) || NotQcow2(fs.lima)
  {
    if NotQcow2(fs.disk) || NotQcow2(fs.lima) {
      forall runs | TruthfulRuns(runs)
        ensures Survives(History(fs, runs), u)
      {
        HistoryKeepsInv(fs, runs, u);
      }
    } else {
      var _ := TwoQcow2DisksLoseData(fs, u);
    }
  }

  /** From the invariant, no history overwrites a sibling, and the data survives, wherever it started. */
  lemma SiblingIsNeverOverwritten(fs: FileSystem, runs: seq<Run>, u: nat)
    requires fs.sibling == Absent && fs.disk != Link && (NotQcow2(fs.disk) || NotQcow2(fs.lima))
    requires if fs.disk == Absent then Holds(fs.lima, u) else Holds(fs.disk, u)
    requires TruthfulRuns(runs)
    ensures KeepsSibling(HistoryLog(fs, runs)) && Survives(History(fs, runs), u)
  {
    HistoryKeepsInv(fs, runs, u);
  }

  /** Attaching loses the only copy of the data exactly when `Stat` misses the persistent disk and the
      rename of Lima's datadisk onto it goes through. */
  lemma AttachLosesDataIff(fs: FileSystem, f: AttachFaults, u: nat)
    requires Holds(fs.disk, u) && !Holds(fs.sibling, u) && !Holds(fs.lima, u)
    ensures !Survives(Attach(fs, f).fs, u)
            <==> f.statDisk && fs.lima != Absent && !f.rename && (fs.dir || (!f.statDir && !f.mkdir))
  {
  }

  /** A run in which one `Stat` of the persistent disk fails replaces it by a fresh, empty disk. */
  lemma OneBadStatLosesTheDisk(fs: FileSystem, vz: bool, u: nat) returns (f: Faults)
    requires Holds(fs.disk, u) && !Holds(fs.sibling, u) && fs.lima == Absent && fs.dir && u != FRESH
    ensures Ensure(fs, vz, f).ok && Ensure(fs, vz, f).fs.disk == File(Image(Raw, FRESH))
    ensures !Survives(Ensure(fs, vz, f).fs, u)
  {
    f := ALL_WELL.(attach := NO_FAULT.(statDisk := true));
  }

  // ---- runs settle ----

  /** Nothing is left to do. */
  predicate Settled(fs: FileSystem, vz: bool) {
    fs.lima == Link && fs.disk.File? && !fs.lock && (vz ==> fs.disk.img.format == Raw)
  }

  /** `Stat` and the list of disks tell the truth. */
  predicate Honest(f: Faults) { TruthfulStat(f) && !f.statLock && !f.listsDangling }

  /** A successful run from a settled state changes nothing. */
  lemma SettledStays(fs: FileSystem, vz: bool, f: Faults)
    requires Settled(fs, vz) && Ensure(fs, vz, f).ok
    ensures Ensure(fs, vz, f).fs == fs && Ensure(fs, vz, f).log == []
  {
  }

  /** A successful attachment leaves a link to a regular file. */
  lemma AttachLinks(fs: FileSystem, f: AttachFaults)
    requires fs.disk != Link && !f.statDisk && Attach(fs, f).ok && (fs.disk == Absent ==> fs.lima.File?)
    ensures Attach(fs, f).fs.lima == Link && Attach(fs, f).fs.lock == fs.lock
    ensures Attach(fs, f).fs.disk == if fs.disk == Absent then fs.lima else fs.disk
  {
  }

  /** One successful run settles the disk, except when the Lima disk is missing and vz needs a conversion. */
  lemma OneRunSettlesIff(fs: FileSystem, vz: bool, f: Faults)
    requires fs.disk != Link && Honest(f) && Ensure(fs, vz, f).ok
    ensures Settled(Ensure(fs, vz, f).fs, vz)
            <==> !(vz && !NotQcow2(fs.disk) && !LimaDiskExists(fs, f))
    ensures Ensure(fs, vz, f).fs.lima == Link && Ensure(fs, vz, f).fs.disk.File?
  {
    if LimaDiskExists(fs, f) {
      var raw := if vz then EnsureRaw(fs, f) else Outcome(true, fs, []);
      if vz && fs.disk.img.format == Qcow2 {
        AttachLinks(ConvertToRaw(fs, f).fs, f.afterConvert);
      }
      if raw.fs.lima != Link {
        AttachLinks(raw.fs, f.attach);
      }
    } else {
      AttachLinks(CreateLimaDisk(fs, f).fs, f.attach);
    }
  }

  /** Two successful runs under one configuration always settle the disk, whatever the lock did between. */
  lemma TwoRunsSettle(fs: FileSystem, vz: bool, f1: Faults, lock: bool, f2: Faults)
    requires fs.disk != Link && Honest(f1) && Honest(f2)
    requires Ensure(fs, vz, f1).ok && Ensure(Ensure(fs, vz, f1).fs.(lock := lock), vz, f2).ok
    ensures Settled(Ensure(Ensure(fs, vz, f1).fs.(lock := lock), vz, f2).fs, vz)
  {
    OneRunSettlesIff(fs, vz, f1);
    OneRunSettlesIff(Ensure(fs, vz, f1).fs.(lock := lock), vz, f2);
  }
}
