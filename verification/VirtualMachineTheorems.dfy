/** What every sequence of virtual-machine commands keeps, forced and failing ones included. */
module VirtualMachineTheorems {
  import opened Wrappers
  import opened LimaConfig
  import opened Vmnet
  import opened VirtualMachine
  import Disk
  import DT = DiskTheorems
  import CD = CredDaemon
  import CT = CredDaemonTheorems

  // ---- the credential daemon lives only while the machine runs ----

  /** No process that is left can still serve or touch a file. */
  ghost predicate AllSpent(c: CD.State) { CD.OthersSpent(c, None) }

  /** Between commands, no daemon is active unless the machine is running. */
  ghost predicate DaemonInv(s: State) {
    CD.Inv(s.cred) && s.cred.cli == CD.Idle && (s.vm != Running ==> AllSpent(s.cred))
  }

  lemma DaemonStepKeepsSpent(c: CD.State, l: CD.Label)
    requires IsDaemonStep(l) && AllSpent(c) && CD.Next(c, l).Some?
    ensures AllSpent(CD.Next(c, l).value) && CD.Next(c, l).value.cli == c.cli
  {
  }

  lemma {:induction false} DaemonsKeepSpent(c: CD.State, ls: seq<CD.Label>)
    requires CD.Inv(c) && CD.Run(c, ls).Some?
    requires forall i :: 0 <= i < |ls| ==> IsDaemonStep(ls[i])
    ensures CD.Inv(CD.Run(c, ls).value) && CD.Run(c, ls).value.cli == c.cli
    ensures AllSpent(c) ==> AllSpent(CD.Run(c, ls).value)
    decreases |ls|
  {
    if ls != [] {
      DaemonStepKeeps(c, ls[0]);
      DaemonsKeepSpent(CD.Next(c, ls[0]).value, ls[1..]);
    }
  }

  lemma DaemonStepKeeps(c: CD.State, l: CD.Label)
    requires CD.Inv(c) && IsDaemonStep(l) && CD.Next(c, l).Some?
    ensures CD.Inv(CD.Next(c, l).value) && CD.Next(c, l).value.cli == c.cli
    ensures AllSpent(c) ==> AllSpent(CD.Next(c, l).value)
  {
    CT.StepKeepsInv(c, l);
    if AllSpent(c) {
      DaemonStepKeepsSpent(c, l);
    }
  }

  /** The stop command is on its way, or over, and then nothing active is left. */
  ghost predicate Stopping(c: CD.State) {
    CD.Inv(c) && (CT.StepsLeft(c.cli) > 0 || (c.cli == CD.Idle && AllSpent(c)))
  }

  lemma StopStep(c: CD.State, l: CD.Label)
    requires Stopping(c) && !l.BeginStart? && !l.BeginStop? && CD.Next(c, l).Some?
    ensures Stopping(CD.Next(c, l).value)
  {
    CT.StepKeepsInv(c, l);
    if l.CliStep? {
      StopCliStep(c);
    } else if c.cli == CD.Idle && IsDaemonStep(l) {
      DaemonStepKeepsSpent(c, l);
    }
  }

  lemma StopCliStep(c: CD.State)
    requires Stopping(c) && c.cli != CD.Idle
    ensures Stopping(CD.CliNext(c))
  {
    CT.CliKeepsInv(c);
    CT.StopEnds(c);
    if c.cli == CD.RemovePid {
      CT.StopIsFinal(c);
    }
  }

  lemma {:induction false} StopRun(c: CD.State, ls: seq<CD.Label>)
    requires Stopping(c) && BeginsNothing(ls) && CD.Run(c, ls).Some?
    ensures Stopping(CD.Run(c, ls).value)
    decreases |ls|
  {
    if ls != [] {
      StopStep(c, ls[0]);
      StopRun(CD.Next(c, ls[0]).value, ls[1..]);
    }
  }

  /** Whatever the daemons do meanwhile, after a whole stop no active one is left. */
  lemma StoppedDaemons(c: CD.State, ls: seq<CD.Label>)
    requires CD.Inv(c) && c.cli == CD.Idle && Completes(c, CD.BeginStop, ls)
    ensures CD.Inv(After(c, [CD.BeginStop] + ls)) && After(c, [CD.BeginStop] + ls).cli == CD.Idle
    ensures AllSpent(After(c, [CD.BeginStop] + ls))
  {
    assert ([CD.BeginStop] + ls)[1..] == ls;
    CT.StepKeepsInv(c, CD.BeginStop);
    StopRun(CD.Next(c, CD.BeginStop).value, ls);
  }

  lemma StartedDaemons(c: CD.State, ls: seq<CD.Label>)
    requires CD.Inv(c) && Completes(c, CD.BeginStart, ls)
    ensures CD.Inv(After(c, [CD.BeginStart] + ls)) && After(c, [CD.BeginStart] + ls).cli == CD.Idle
  {
    CT.RunKeepsInv(c, [CD.BeginStart] + ls);
  }

  /** The command takes a running machine down without stopping the daemon first, since the path of its own
      executable is not known. */
  predicate SkipsDaemon(s: State, c: Command) {
    (c.Stop? || c.Remove?) && Proceeds(s, c) && !c.exe
  }

  /** A possible command keeps the daemon's rule, if and only if it does not both skip the daemon and take down the
      machine under an active one. */
  lemma StepKeepsDaemonIff(s: State, c: Command)
    requires DaemonInv(s) && Possible(s, c)
    ensures DaemonInv(Step(s, c)) <==> !(SkipsDaemon(s, c) && c.lima.vm != Running && !AllSpent(s.cred))
  {
    if c.Init? || c.Start? {
      BootKeepsDaemon(s, c);
    } else if c.Stop? || c.Remove? {
      TakeDownKeepsDaemonIff(s, c);
    } else if c.DaemonsRun? {
      DaemonsKeepSpent(s.cred, c.steps);
    }
  }

  lemma BootKeepsDaemon(s: State, c: Command)
    requires DaemonInv(s) && Possible(s, c) && (c.Init? || c.Start?)
    ensures DaemonInv(Step(s, c))
  {
    BootFromSame(s, c);
    BootedKeepsDaemon(if c.Init? then RunInit(s, c) else RunStart(s, c), c.post);
  }

  /** Up to and including `limactl`, a boot leaves the daemons alone, and a successful one has the machine running. */
  lemma BootFromSame(s: State, c: Command)
    requires DaemonInv(s) && Possible(s, c) && (c.Init? || c.Start?)
    ensures var r := if c.Init? then RunInit(s, c) else RunStart(s, c);
            && DaemonInv(r.s) && r.s.cred == s.cred && (r.ok ==> r.s.vm == Running && MayStart(r.s, c.post))
  {
    if c.Init? {
      InitFromSame(s, c);
    } else {
      StartFromSame(s, c);
    }
  }

  predicate MayStart(s: State, p: Post) {
    p.port && !p.zero && p.exe ==> Completes(s.cred, CD.BeginStart, p.steps)
  }

  lemma InitFromSame(s: State, c: Command)
    requires DaemonInv(s) && Possible(s, c) && c.Init?
    ensures var r := RunInit(s, c); r.s.cred == s.cred && (r.s.vm == s.vm || AllSpent(s.cred)) && (r.ok ==> r.s.vm == Running)
  {
  }

  lemma StartFromSame(s: State, c: Command)
    requires DaemonInv(s) && Possible(s, c) && c.Start?
    ensures var r := RunStart(s, c); r.s.cred == s.cred && (r.s.vm == s.vm || AllSpent(s.cred)) && (r.ok ==> r.s.vm == Running)
  {
  }

  lemma BootedKeepsDaemon(r: Outcome, p: Post)
    requires DaemonInv(r.s) && (r.ok ==> r.s.vm == Running && MayStart(r.s, p))
    ensures DaemonInv(Booted(r, p))
  {
    if r.ok && p.port && !p.zero && p.exe {
      StartedDaemons(r.s.cred, p.steps);
    }
  }

  lemma TakeDownKeepsDaemonIff(s: State, c: Command)
    requires DaemonInv(s) && Possible(s, c) && (c.Stop? || c.Remove?)
    ensures DaemonInv(Step(s, c)) <==> !(SkipsDaemon(s, c) && c.lima.vm != Running && !AllSpent(s.cred))
  {
    if Proceeds(s, c) && c.exe {
      StoppedDaemons(s.cred, c.steps);
    }
  }

  predicate KnowsItsPath(c: Command) { c.Stop? || c.Remove? ==> c.exe }

  /** Over every sequence of commands that know where Finch is installed, a daemon that can still serve or touch a
      file between commands means that the machine is running. */
  lemma {:induction false} DaemonOnlyWhileRunning(s: State, cs: seq<Command>)
    requires DaemonInv(s) && AllPossible(s, cs)
    requires forall i :: 0 <= i < |cs| ==> KnowsItsPath(cs[i])
    ensures DaemonInv(History(s, cs))
    ensures forall p :: p in History(s, cs).cred.live && !CD.Spent(History(s, cs).cred.live[p])
              ==> History(s, cs).vm == Running
    decreases |cs|
  {
    if cs != [] {
      StepKeepsDaemonIff(s, cs[0]);
      DaemonOnlyWhileRunning(Step(s, cs[0]), cs[1..]);
    }
  }

  // ---- no daemon serves without a machine, inside a command either ----

  /** Starting up, or serving. */
  predicate Serves(d: CD.Daemon) { CD.StartingUp(d) || d.main == CD.Serving }

  ghost predicate NoneServes(c: CD.State) { forall p :: p in c.live ==> !Serves(c.live[p]) }

  ghost predicate Guarded(s: State) { s.vm != Running ==> NoneServes(s.cred) }

  ghost predicate AllGuarded(ms: seq<State>) { forall i :: 0 <= i < |ms| ==> Guarded(ms[i]) }

  /** No daemon serves, and the command line is not about to start one. */
  ghost predicate Quiet(c: CD.State) { NoneServes(c) && (c.cli == CD.Idle || CT.StepsLeft(c.cli) > 0) }

  lemma QuietStep(c: CD.State, l: CD.Label)
    requires Quiet(c) && !l.BeginStart? && CD.Next(c, l).Some?
    ensures Quiet(CD.Next(c, l).value)
  {
  }

  lemma {:induction false} QuietMoments(s: State, ls: seq<CD.Label>)
    requires Quiet(s.cred) && forall i :: 0 <= i < |ls| ==> !ls[i].BeginStart?
    ensures forall i :: 0 <= i < |CredMoments(s, ls)| ==> NoneServes(CredMoments(s, ls)[i].cred)
    decreases |ls|
  {
    if ls != [] && CD.Run(s.cred, ls).Some? {
      QuietStep(s.cred, ls[0]);
      QuietMoments(s.(cred := CD.Next(s.cred, ls[0]).value), ls[1..]);
    }
  }

  /** Steps that start no daemon are guarded throughout, whether or not the machine runs. */
  lemma GuardedSteps(s: State, ls: seq<CD.Label>)
    requires DaemonInv(s) && forall i :: 0 <= i < |ls| ==> !ls[i].BeginStart?
    ensures AllGuarded(CredMoments(s, ls))
  {
    OnlyDaemonsMove(s, ls);
    if s.vm != Running {
      QuietMoments(s, ls);
    }
  }

  lemma GuardedBoot(s: State, c: Command)
    requires DaemonInv(s) && Possible(s, c) && (c.Init? || c.Start?)
    ensures AllGuarded(Moments(s, c))
  {
    BootFromSame(s, c);
    GuardedPost(if c.Init? then RunInit(s, c) else RunStart(s, c), c.post);
  }

  lemma GuardedPost(r: Outcome, p: Post)
    requires Guarded(r.s) && (r.ok ==> r.s.vm == Running)
    ensures AllGuarded(BootMoments(r, p))
  {
    if r.ok && p.port && !p.zero && p.exe {
      OnlyDaemonsMove(r.s, [CD.BeginStart] + p.steps);
    }
  }

  lemma GuardedTakeDownIff(s: State, c: Command)
    requires DaemonInv(s) && Possible(s, c) && (c.Stop? || c.Remove?)
    ensures AllGuarded(Moments(s, c)) <==> !(SkipsDaemon(s, c) && c.lima.vm != Running && !NoneServes(s.cred))
  {
    if Proceeds(s, c) {
      var taken := TakeDown(s, c.exe, c.steps, c.lima);
      if c.exe {
        GuardedSteps(s, [CD.BeginStop] + c.steps);
        StoppedDaemons(s.cred, c.steps);
        assert Guarded(taken);
      } else {
        assert Moments(s, c) == [taken];
        assert AllGuarded([taken]) <==> Guarded([taken][0]);
      }
    }
  }

  /** At no moment inside a possible command is a daemon starting up or serving while the machine is down, if and only
      if the command does not both skip the daemon and take down the machine under a serving one. */
  lemma MomentsAreGuardedIff(s: State, c: Command)
    requires DaemonInv(s) && Possible(s, c)
    ensures AllGuarded(Moments(s, c)) <==> !(SkipsDaemon(s, c) && c.lima.vm != Running && !NoneServes(s.cred))
  {
    if c.Init? || c.Start? {
      GuardedBoot(s, c);
    } else if c.Stop? || c.Remove? {
      GuardedTakeDownIff(s, c);
    } else if c.DaemonsRun? {
      GuardedSteps(s, c.steps);
    }
  }

  /** Over every sequence of commands that know where Finch is installed, at no moment inside or between them is a
      daemon starting up or serving while the machine is down. */
  lemma {:induction false} NoneServesWithoutMachine(s: State, cs: seq<Command>)
    requires DaemonInv(s) && AllPossible(s, cs)
    requires forall i :: 0 <= i < |cs| ==> KnowsItsPath(cs[i])
    ensures AllGuarded(HistoryMoments(s, cs))
    decreases |cs|
  {
    if cs != [] {
      StepKeepsDaemonIff(s, cs[0]);
      MomentsAreGuardedIff(s, cs[0]);
      NoneServesWithoutMachine(Step(s, cs[0]), cs[1..]);
    }
  }

  /** A stop or remove that knows its path is done with the daemon when `limactl` takes the machine down: the machine is
      as it was at every moment before the last, and no active daemon is left at the one before the last. */
  lemma DaemonStopsBeforeMachine(s: State, c: Command)
    requires DaemonInv(s) && Possible(s, c) && (c.Stop? || c.Remove?) && Proceeds(s, c) && c.exe
    ensures var ms := Moments(s, c);
            && |ms| > 1 && ms[|ms| - 1] == Step(s, c) && (forall i :: 0 <= i < |ms| - 1 ==> ms[i].vm == s.vm)
            && ms[|ms| - 2].cred.cli == CD.Idle && AllSpent(ms[|ms| - 2].cred)
  {
    OnlyDaemonsMove(s, [CD.BeginStop] + c.steps);
    StoppedDaemons(s.cred, c.steps);
  }

  // ---- init-only settings ----

  /** While a machine exists, default.yaml has the settings with which it was created. */
  predicate SettingsInv(s: State) {
    s.vm != Nonexistent ==> s.created.Some? && s.host.yaml.Yaml? && s.host.yaml.settings == s.created
  }

  /** An init that was told there is no machine, while there is one, and rewrites its settings to others. */
  predicate RewritesOthersSettings(s: State, c: Command) {
    c.Init? && s.vm != Nonexistent && c.status == Silence && c.default != FirstFails
    && !(c.default == BothWrites && Framework(c.config) == s.created)
  }

  lemma InitSettings(s: State, c: Command)
    requires SettingsInv(s) && c.Init? && LimaMay(s.vm, c)
    ensures SettingsInv(RunInit(s, c).s) <==> !RewritesOthersSettings(s, c)
  {
    var d := ConfigureDefault(s.host.yaml, c.config, c.default);
    InstalledIs(s.host.(yaml := d.yaml), c.deps);
  }

  /** A possible command keeps the settings of an existing machine if and only if it is not an init that is wrongly
      told that there is none. */
  lemma StepKeepsSettingsIff(s: State, c: Command)
    requires SettingsInv(s) && Possible(s, c)
    ensures SettingsInv(Step(s, c)) <==> !RewritesOthersSettings(s, c)
  {
    match c
    case Init(_, _, _, _, _, _, _, _) => InitSettings(s, c);
    case Start(_, _, _, _, deps, _, _) => InstalledIs(s.host, c.deps);
    case _ =>
  }

  predicate TrueStatus(c: Command) { c.Init? || c.Start? || c.Stop? || c.Remove? ==> c.status != Silence }

  lemma {:induction false} SettingsAreKept(s: State, cs: seq<Command>)
    requires SettingsInv(s) && AllPossible(s, cs)
    requires forall i :: 0 <= i < |cs| ==> TrueStatus(cs[i])
    ensures SettingsInv(History(s, cs))
    decreases |cs|
  {
    if cs != [] {
      StepKeepsSettingsIff(s, cs[0]);
      SettingsAreKept(Step(s, cs[0]), cs[1..]);
    }
  }

  /** As long as the machine is not removed, no command changes with what settings it was created. */
  lemma CreatedOnce(s: State, c: Command)
    requires Possible(s, c) && s.vm != Nonexistent
    ensures Step(s, c).created == s.created
  {
  }

  /** Only an init that finds no machine touches anything in default.yaml but the snippet at its end. */
  lemma OthersOnlyAppend(s: State, c: Command)
    requires Possible(s, c) && TrueStatus(c) && !(c.Init? && s.vm == Nonexistent)
    ensures Step(s, c).host.yaml == s.host.yaml
            || (c.Start? && s.vm == Stopped && Step(s, c).host.yaml == AppendNetwork(s.host.yaml)
                && Step(s, c).host.binaries && Step(s, c).host.sudoers)
  {
    if c.Start? {
      InstalledIs(s.host, c.deps);
    }
  }

  /** The machine is in a state in which the command, unforced, is to be rejected. */
  predicate ToBeRejected(vm: Vm, c: Command) {
    match c
    case Init(_, _, _, _, _, _, _, _) => vm != Nonexistent
    case Start(_, _, _, _, _, _, _) => vm != Stopped
    case Stop(force, _, _, _, _) => !force && vm != Running
    case Remove(force, _, _, _, _) => !force && vm != Stopped
    case _ => false
  }

  /** A command that is to be rejected changes nothing at all, whatever it is told of the machine, unless it is an init
      and is told that there is none: exactly then it gets past its check. */
  lemma RejectedChangesNothing(s: State, c: Command)
    requires ToBeRejected(s.vm, c)
    ensures Proceeds(s, c) <==> c.Init? && c.status == Silence
    ensures !Proceeds(s, c) ==> Step(s, c) == s
  {
  }

  // ---- the network snippet ----

  predicate OneSnippet(s: State) { s.host.yaml.Yaml? ==> s.host.yaml.networks <= 1 }

  /** The host whose dependencies the command installs, if it gets that far. */
  function Prepared(s: State, c: Command): Option<Host> {
    if c.Init? && Proceeds(s, c) && c.override == BothWrites && ConfigureDefault(s.host.yaml, c.config, c.default).ok
    then Some(s.host.(yaml := ConfigureDefault(s.host.yaml, c.config, c.default).yaml))
    else if c.Start? && Proceeds(s, c) then Some(s.host)
    else None
  }

  /** A command reaches default.yaml by configuring it anew or by installing dependencies. */
  lemma YamlAfter(s: State, c: Command)
    ensures Step(s, c).host.yaml ==
            if Prepared(s, c).Some? then Installed(Prepared(s, c).value, c.deps).yaml
            else if c.Init? && Proceeds(s, c) then ConfigureDefault(s.host.yaml, c.config, c.default).yaml
            else s.host.yaml
  {
  }

  /** The command installs dependencies while default.yaml cannot be read. */
  predicate Unreadable(c: Command) { (c.Init? || c.Start?) && c.deps.read }

  lemma StepKeepsOneSnippetIff(s: State, c: Command)
    requires OneSnippet(s)
    ensures OneSnippet(Step(s, c))
            <==> !(c.Start? && Proceeds(s, c) && Unreadable(c) && !c.deps.append && HasNetworkSection(s.host.yaml)
                   && Installed(s.host, c.deps).binaries && Installed(s.host, c.deps).sudoers)
  {
    YamlAfter(s, c);
    if Prepared(s, c).Some? {
      OneSnippetIff(Prepared(s, c).value, c.deps);
    }
  }

  /** Over every sequence of commands that can read default.yaml, it has the network snippet at most once. */
  lemma {:induction false} AtMostOneSnippet(s: State, cs: seq<Command>)
    requires OneSnippet(s)
    requires forall i :: 0 <= i < |cs| ==> !Unreadable(cs[i])
    ensures OneSnippet(History(s, cs))
    decreases |cs|
  {
    if cs != [] {
      StepKeepsOneSnippetIff(s, cs[0]);
      AtMostOneSnippet(Step(s, cs[0]), cs[1..]);
    }
  }

  /** Whatever command appends the snippet, both prerequisites are there when it does. */
  lemma SnippetNeedsPrerequisites(s: State, c: Command)
    requires Prepared(s, c).Some? && Step(s, c).host.yaml != Prepared(s, c).value.yaml
    ensures Step(s, c).host.binaries && Step(s, c).host.sudoers
    ensures Step(s, c).host.yaml == AppendNetwork(Prepared(s, c).value.yaml)
  {
    YamlAfter(s, c);
    AppendedOnlyWithPrerequisites(Prepared(s, c).value, c.deps);
  }

  // ---- the disk ----

  /** An init that is wrongly told that there is no machine, and gets as far as the disk. */
  predicate ReachesDiskInUse(s: State, c: Command) {
    c.Init? && c.status == Silence && ConfigureDefault(s.host.yaml, c.config, c.default).ok && c.override == BothWrites
  }

  /** On a running machine, such an init ensures the disk in use, and no other command reaches the disk, but for the
      lock: so the disk is left alone if and only if there is no such init or nothing is left to ensure. */
  lemma DiskIsLeftAloneWhileRunning(s: State, c: Command)
    requires Possible(s, c) && s.vm == Running
    ensures var d := Step(s, c).disk;
            && (ReachesDiskInUse(s, c) ==> d == Disk.Ensure(s.disk, c.config.vmType == Vz, c.disk).fs.(lock := d.lock))
            && (!ReachesDiskInUse(s, c) ==> d == s.disk.(lock := d.lock))
            && (d == s.disk.(lock := d.lock)
                <==> !ReachesDiskInUse(s, c)
                     || SameDisk(Disk.Ensure(s.disk, c.config.vmType == Vz, c.disk).fs, s.disk))
  {
    if ReachesDiskInUse(s, c) {
      InitReachesDisk(s, c);
    }
  }

  predicate SameDisk(fs: Disk.FileSystem, gs: Disk.FileSystem) { fs == gs.(lock := fs.lock) }

  lemma InitReachesDisk(s: State, c: Command)
    requires ReachesDiskInUse(s, c)
    ensures var d := RunInit(s, c).s.disk; SameDisk(d, Disk.Ensure(s.disk, c.config.vmType == Vz, c.disk).fs)
  {
    var yaml := ConfigureDefault(s.host.yaml, c.config, c.default).yaml;
    var s2 := s.(host := s.host.(yaml := yaml), override := ConfigureOverride(s.override, c.config.vmType, c.override));
    var s3 := s2.(host := Installed(s2.host, c.deps));
    assert RunInit(s, c).s.disk == Launch(s3, c.config.vmType == Vz, c.disk, c.lima).s.disk;
  }

  predicate StatsDisk(c: Command) { c.Init? || c.Start? ==> DT.TruthfulStat(c.disk) }

  /** `d` is the disk as it was, or as ensuring it left it, up to the lock. */
  predicate Ensured(fs: Disk.FileSystem, d: Disk.FileSystem, c: Command) {
    || d == fs.(lock := d.lock)
    || ((c.Init? || c.Start?) && d == Disk.Ensure(fs, c.config.vmType == Vz, c.disk).fs.(lock := d.lock))
  }

  lemma LaunchEnsures(s: State, c: Command)
    requires c.Init? || c.Start?
    ensures Ensured(s.disk, Launch(s, c.config.vmType == Vz, c.disk, c.lima).s.disk, c)
  {
    var e := Disk.Ensure(s.disk, c.config.vmType == Vz, c.disk);
    assert e.fs == e.fs.(lock := e.fs.lock);
  }

  lemma InitEnsures(s: State, c: Command)
    requires c.Init?
    ensures Ensured(s.disk, RunInit(s, c).s.disk, c)
  {
    var yaml := ConfigureDefault(s.host.yaml, c.config, c.default).yaml;
    var s2 := s.(host := s.host.(yaml := yaml), override := ConfigureOverride(s.override, c.config.vmType, c.override));
    LaunchEnsures(s2.(host := Installed(s2.host, c.deps)), c);
  }

  lemma StartEnsures(s: State, c: Command)
    requires c.Start?
    ensures Ensured(s.disk, RunStart(s, c).s.disk, c)
  {
    var s2 := s.(host := Installed(s.host, c.deps), override := ConfigureOverride(s.override, c.config.vmType, c.override));
    LaunchEnsures(s2, c);
  }

  /** A command ensures the disk, or leaves its paths alone. */
  lemma StepEnsures(s: State, c: Command)
    ensures Ensured(s.disk, Step(s, c).disk, c)
  {
    if c.Init? {
      InitEnsures(s, c);
    } else if c.Start? {
      StartEnsures(s, c);
    }
  }

  lemma LockDoesNotMatter(fs: Disk.FileSystem, lock: bool, u: nat)
    requires DT.Inv(fs, u)
    ensures DT.Inv(fs.(lock := lock), u)
  {
  }

  lemma StepKeepsDisk(s: State, c: Command, u: nat)
    requires DT.Inv(s.disk, u) && StatsDisk(c)
    ensures DT.Inv(Step(s, c).disk, u)
  {
    StepEnsures(s, c);
    var lock := Step(s, c).disk.lock;
    LockDoesNotMatter(s.disk, lock, u);
    if c.Init? || c.Start? {
      var o := Disk.Ensure(s.disk, c.config.vmType == Vz, c.disk);
      DT.RunKeepsInv(s.disk, c.config.vmType == Vz, c.disk, u);
      LockDoesNotMatter(o.fs, lock, u);
    }
  }

  /** The user data survives every sequence of commands, removals of the machine included. */
  lemma {:induction false} UserDataSurvives(s: State, cs: seq<Command>, u: nat)
    requires DT.Inv(s.disk, u)
    requires forall i :: 0 <= i < |cs| ==> StatsDisk(cs[i])
    ensures DT.Inv(History(s, cs).disk, u) && DT.Survives(History(s, cs).disk, u)
    decreases |cs|
  {
    if cs != [] {
      StepKeepsDisk(s, cs[0], u);
      UserDataSurvives(Step(s, cs[0]), cs[1..], u);
    }
  }

  /** The command boots the machine. */
  predicate Boots(s: State, c: Command) { (c.Init? && RunInit(s, c).ok) || (c.Start? && RunStart(s, c).ok) }

  /** The disk to be used, before it is ensured. */
  function Source(fs: Disk.FileSystem): Disk.Node { if fs.disk.File? then fs.disk else fs.lima }

  lemma EnsuredIsRawIff(fs: Disk.FileSystem, vz: bool, f: Disk.Faults)
    requires fs.disk != Disk.Link && DT.Honest(f) && Disk.Ensure(fs, vz, f).ok
    ensures DT.NotQcow2(Disk.Ensure(fs, vz, f).fs.disk)
            <==> DT.NotQcow2(Source(fs)) || (vz && Disk.LimaDiskExists(fs, f))
  {
    DT.OneRunSettlesIff(fs, vz, f);
  }

  /** A machine that boots has the linked, existing disk; its configuration names the disk if and only if the
      configured type is not wsl2, which an init with Rosetta and a start accept. The disk is raw if and only if it
      was so before, or the configured type is vz and Lima lists the disk. */
  lemma BootedDisk(s: State, c: Command)
    requires Boots(s, c) && s.disk.disk != Disk.Link && DT.Honest(c.disk)
    ensures var r := Step(s, c);
            && r.override == Filled(c.config.vmType != Wsl2) && r.disk.lima == Disk.Link && r.disk.disk.File?
            && (DT.NotQcow2(r.disk.disk)
                <==> DT.NotQcow2(Source(s.disk)) || (c.config.vmType == Vz && Disk.LimaDiskExists(s.disk, c.disk)))
  {
    BootEnsuresDisk(s, c);
    EnsuredDisk(s.disk, c.config.vmType == Vz, c.disk);
  }

  /** A boot leaves the disk as ensured, but for the lock, and override.yaml filled. */
  lemma BootEnsuresDisk(s: State, c: Command)
    requires Boots(s, c)
    ensures var o := Disk.Ensure(s.disk, c.config.vmType == Vz, c.disk);
            && o.ok && Step(s, c).override == Filled(c.config.vmType != Wsl2)
            && Step(s, c).disk.lima == o.fs.lima && Step(s, c).disk.disk == o.fs.disk
  {
    if c.Init? {
      InitEnsuresDisk(s, c);
    } else {
      StartEnsuresDisk(s, c);
    }
  }

  lemma InitEnsuresDisk(s: State, c: Command)
    requires c.Init? && RunInit(s, c).ok
    ensures var o, r := Disk.Ensure(s.disk, c.config.vmType == Vz, c.disk), RunInit(s, c).s;
            && o.ok && r.override == Filled(c.config.vmType != Wsl2) && r.disk.lima == o.fs.lima && r.disk.disk == o.fs.disk
  {
  }

  lemma StartEnsuresDisk(s: State, c: Command)
    requires c.Start? && RunStart(s, c).ok
    ensures var o, r := Disk.Ensure(s.disk, c.config.vmType == Vz, c.disk), RunStart(s, c).s;
            && o.ok && r.override == Filled(c.config.vmType != Wsl2) && r.disk.lima == o.fs.lima && r.disk.disk == o.fs.disk
  {
  }

  lemma EnsuredDisk(fs: Disk.FileSystem, vz: bool, f: Disk.Faults)
    requires fs.disk != Disk.Link && DT.Honest(f) && Disk.Ensure(fs, vz, f).ok
    ensures var r := Disk.Ensure(fs, vz, f).fs;
            && r.lima == Disk.Link && r.disk.File?
            && (DT.NotQcow2(r.disk) <==> DT.NotQcow2(Source(fs)) || (vz && Disk.LimaDiskExists(fs, f)))
  {
    DT.OneRunSettlesIff(fs, vz, f);
    EnsuredIsRawIff(fs, vz, f);
  }

  /** With Rosetta on arm64 the machine is a vz one whatever type is configured, so with "qemu" configured it boots
      on a qcow2 disk: the disk manager goes by the configured type. */
  lemma RosettaBootsOnQcow2(s: State, c: Command)
    requires c.Init? && Boots(s, c) && s.vm == Nonexistent && LimaMay(s.vm, c)
    requires s.disk.disk != Disk.Link && DT.Honest(c.disk)
    requires c.config.rosetta && c.config.arm64 && c.config.vmType != Vz
    ensures Step(s, c).created.Some? && Step(s, c).created.value.vmType == Vz
    ensures DT.NotQcow2(Step(s, c).disk.disk) <==> DT.NotQcow2(Source(s.disk))
  {
    BootedDisk(s, c);
    SettingsAreConsistent(c.config);
  }

  // ---- a daemon that outlives its machine ----

  const NO_POST := Post(false, false, false, [])
  const WELL := DepFaults(Attempt(true, true), Attempt(true, true), false, false)
  const FIRST_INIT := Init(Truth, Config(Qemu, false, false, false, Supported), BothWrites, BothWrites, WELL, DT.ALL_WELL,
                           Limactl(true, Running, true), Post(true, false, true, STEPS))
  const BLIND_STOP := Stop(false, Truth, false, [], Limactl(true, Stopped, false))
  const STEPS := [CD.CliStep, CD.CliStep, CD.CliStep, CD.CliStep, CD.CliStep]

  /** The whole start of a first daemon. */
  lemma FirstDaemonStarts()
    ensures Completes(CD.INITIAL, CD.BeginStart, STEPS)
    ensures After(CD.INITIAL, [CD.BeginStart] + STEPS)
            == CD.State(Some(0), None, map[0 := CD.Daemon(CD.Boot, CD.Off, false)], 1, CD.Idle)
  {
    var ls := [CD.BeginStart] + STEPS;
    var live := map[0 := CD.Daemon(CD.Boot, CD.Off, false)];
    var c1 := CD.INITIAL.(cli := CD.GuardRead);
    var c2, c3, c4 := c1.(cli := CD.StartRead), c1.(cli := CD.MakeDirs), c1.(cli := CD.Spawn);
    var c5 := CD.State(None, None, live, 1, CD.WritePid(0));
    var c6 := CD.State(Some(0), None, live, 1, CD.Idle);
    assert CD.INITIAL.live[0 := CD.Daemon(CD.Boot, CD.Off, false)] == live;
    assert CD.Next(CD.INITIAL, ls[0]) == Some(c1) && CD.Next(c1, CD.CliStep) == Some(c2);
    assert CD.Next(c2, CD.CliStep) == Some(c3) && CD.Next(c3, CD.CliStep) == Some(c4);
    assert CD.Next(c4, CD.CliStep) == Some(c5) && CD.Next(c5, CD.CliStep) == Some(c6);
    assert ls[1..][0] == ls[2..][0] == ls[3..][0] == ls[4..][0] == ls[5..][0] == CD.CliStep;
    assert ls[1..][1..] == ls[2..] && ls[2..][1..] == ls[3..] && ls[3..][1..] == ls[4..] && ls[4..][1..] == ls[5..];
    assert ls[5..][1..] == [];
    assert CD.Run(c5, ls[5..]) == CD.Run(c6, []) == Some(c6);
    assert CD.Run(c4, ls[4..]) == CD.Run(c3, ls[3..]) == CD.Run(c2, ls[2..]) == Some(c6);
    assert CD.Run(c1, ls[1..]) == CD.Run(CD.INITIAL, ls) == Some(c6);
  }

  /** From a host without a machine: a successful init, and a successful stop by a command that does not learn the
      path of its executable. The machine is stopped, and the daemon is still there. */
  lemma DaemonOutlivesMachine(s: State) returns (cs: seq<Command>)
    requires s.vm == Nonexistent && s.cred == CD.INITIAL && s.host.binaries && s.host.sudoers
    requires s.disk == Disk.FileSystem(Disk.Absent, Disk.Absent, Disk.Absent, true, false)
    ensures AllPossible(s, cs) && History(s, cs).vm == Stopped
    ensures 0 in History(s, cs).cred.live && !CD.Spent(History(s, cs).cred.live[0])
  {
    cs := [FIRST_INIT, BLIND_STOP];
    FirstInit(s);
    StopSkipsDaemon(Step(s, FIRST_INIT));
    TwoCommands(s, FIRST_INIT, BLIND_STOP);
  }

  lemma TwoCommands(s: State, c: Command, d: Command)
    requires Possible(s, c) && Possible(Step(s, c), d)
    ensures AllPossible(s, [c, d]) && History(s, [c, d]) == Step(Step(s, c), d)
  {
    var s1 := Step(s, c);
    assert [c, d][1..] == [d] && [d][1..] == [];
    assert AllPossible(Step(s1, d), []) && AllPossible(s1, [d]);
    assert History(s1, [d]) == History(Step(s1, d), []);
  }

  /** An init that starts the first daemon. */
  lemma FirstInit(s: State)
    requires s.vm == Nonexistent && s.cred == CD.INITIAL && s.host.binaries && s.host.sudoers
    requires s.disk == Disk.FileSystem(Disk.Absent, Disk.Absent, Disk.Absent, true, false)
    ensures Possible(s, FIRST_INIT) && Step(s, FIRST_INIT).vm == Running
    ensures 0 in Step(s, FIRST_INIT).cred.live && !CD.Spent(Step(s, FIRST_INIT).cred.live[0])
  {
    FirstDaemonStarts();
    assert RunInit(s, FIRST_INIT).ok && RunInit(s, FIRST_INIT).s.cred == CD.INITIAL;
  }

  /** A stop that does not know its own path leaves the daemons alone. */
  lemma StopSkipsDaemon(s: State)
    requires s.vm == Running
    ensures Possible(s, BLIND_STOP) && Step(s, BLIND_STOP).vm == Stopped && Step(s, BLIND_STOP).cred == s.cred
  {
  }
}
