/** The commands on the virtual machine, over its configuration files, dependencies, disk and credential daemon. */
module VirtualMachine {
  import opened Wrappers
  import opened LimaConfig
  import opened Vmnet
  import Dependencies
  import Disk
  import CredDaemon

  datatype Vm = Nonexistent | Stopped | Running

  /** What `limactl ls` reports: the truth, a failure or an unknown status, or a failure without any output, which
      is read as "no such machine". */
  datatype Report = Truth | Failure | Silence

  /** How a `limactl` command on the machine turns out, and how it leaves the machine and its disk's lock. */
  datatype Limactl = Limactl(ok: bool, vm: Vm, lock: bool)

  /** After a start: whether the SSH port is reported, whether it is 0, whether the path of the executable is known,
      and the steps the daemon's start takes, daemons running in between. */
  datatype Post = Post(port: bool, zero: bool, exe: bool, steps: seq<CredDaemon.Label>)

  datatype Command =
    | Init(status: Report, config: Config, default: WriteFault, override: WriteFault, deps: DepFaults,
           disk: Disk.Faults, lima: Limactl, post: Post)
    | Start(status: Report, config: Config, override: WriteFault, deps: DepFaults, disk: Disk.Faults,
            lima: Limactl, post: Post)
    | Stop(force: bool, status: Report, exe: bool, steps: seq<CredDaemon.Label>, lima: Limactl)
    | Remove(force: bool, status: Report, exe: bool, steps: seq<CredDaemon.Label>, lima: Limactl)
    | DaemonsRun(steps: seq<CredDaemon.Label>)       // between commands
    | HostChanges(binaries: bool, sudoers: bool)     // somebody installs or removes a prerequisite

  /** `created` records the settings with which the machine was created. */
  datatype State = State(vm: Vm, created: Option<Settings>, host: Host, override: OverrideYaml, disk: Disk.FileSystem,
                         cred: CredDaemon.State)

  datatype Outcome = Outcome(ok: bool, s: State)

  function Status(vm: Vm, r: Report): Option<Vm> {
    match r
    case Truth => Some(vm)
    case Failure => None
    case Silence => Some(Nonexistent)
  }

  // ---- the credential daemon, as a command uses it ----

  predicate IsDaemonStep(l: CredDaemon.Label) { l.MainStep? || l.MainFails? || l.ServeReturns? || l.SigStep? }

  predicate BeginsNothing(ls: seq<CredDaemon.Label>) {
    forall i :: 0 <= i < |ls| ==> !ls[i].BeginStart? && !ls[i].BeginStop?
  }

  /** `ls` are the steps of one whole command, begun by `l`. */
  predicate Completes(c: CredDaemon.State, l: CredDaemon.Label, ls: seq<CredDaemon.Label>) {
    BeginsNothing(ls) && CredDaemon.Run(c, [l] + ls).Some? && CredDaemon.Run(c, [l] + ls).value.cli == CredDaemon.Idle
  }

  function After(c: CredDaemon.State, ls: seq<CredDaemon.Label>): CredDaemon.State {
    if CredDaemon.Run(c, ls).Some? then CredDaemon.Run(c, ls).value else c
  }

  // ---- the commands ----

  /** Where a start of the machine is heading: dependencies and override.yaml are done, the disk comes next. */
  function Launch(s: State, vz: bool, f: Disk.Faults, lima: Limactl): Outcome {
    var e := Disk.Ensure(s.disk, vz, f);
    if !e.ok then Outcome(false, s.(disk := e.fs))
    else Outcome(lima.ok, s.(vm := lima.vm, disk := e.fs.(lock := lima.lock)))
  }

  function RunInit(s: State, c: Command): Outcome
    requires c.Init?
  {
    if Status(s.vm, c.status) != Some(Nonexistent) then Outcome(false, s)
    else
      var d := ConfigureDefault(s.host.yaml, c.config, c.default);
      var s1 := s.(host := s.host.(yaml := d.yaml));
      if !d.ok then Outcome(false, s1)
      else
        var s2 := s1.(override := ConfigureOverride(s.override, c.config.vmType, c.override));
        if c.override != BothWrites then Outcome(false, s2)
        else
          var s3 := s2.(host := Installed(s2.host, c.deps));
          var r := Launch(s3, c.config.vmType == Vz, c.disk, c.lima);
          if s.vm == Nonexistent && r.s.vm != Nonexistent then r.(s := r.s.(created := Framework(c.config))) else r
  }

  function RunStart(s: State, c: Command): Outcome
    requires c.Start?
  {
    if Status(s.vm, c.status) != Some(Stopped) then Outcome(false, s)
    else
      var s1 := s.(host := Installed(s.host, c.deps));
      var s2 := s1.(override := ConfigureOverride(s.override, c.config.vmType, c.override));
      if c.override != BothWrites then Outcome(false, s2)
      else Launch(s2, c.config.vmType == Vz, c.disk, c.lima)
  }

  /** Once the machine is up: starts the daemon, unless it is running. */
  function RunPost(s: State, p: Post): State {
    if p.port && !p.zero && p.exe then s.(cred := After(s.cred, [CredDaemon.BeginStart] + p.steps)) else s
  }

  /** Stops the daemon, then stops or removes the machine. */
  function TakeDown(s: State, exe: bool, ls: seq<CredDaemon.Label>, lima: Limactl): State {
    var cred := if exe then After(s.cred, [CredDaemon.BeginStop] + ls) else s.cred;
    s.(vm := lima.vm, cred := cred, disk := s.disk.(lock := lima.lock))
  }

  /** A successful start or init goes on to the daemon. */
  function Booted(r: Outcome, p: Post): State { if r.ok then RunPost(r.s, p) else r.s }

  /** The command gets past its check of the machine's status. */
  predicate Proceeds(s: State, c: Command) {
    match c
    case Init(r, _, _, _, _, _, _, _) => Status(s.vm, r) == Some(Nonexistent)
    case Start(r, _, _, _, _, _, _) => Status(s.vm, r) == Some(Stopped)
    case Stop(force, r, _, _, _) => force || Status(s.vm, r) == Some(Running)
    case Remove(force, r, _, _, _) => force || Status(s.vm, r) == Some(Stopped)
    case _ => true
  }

  function Step(s: State, c: Command): State {
    match c
    case Init(_, _, _, _, _, _, _, post) => Booted(RunInit(s, c), post)
    case Start(_, _, _, _, _, _, post) => Booted(RunStart(s, c), post)
    case Stop(_, _, exe, ls, lima) => if Proceeds(s, c) then TakeDown(s, exe, ls, lima) else s
    case Remove(_, _, exe, ls, lima) => if Proceeds(s, c) then TakeDown(s, exe, ls, lima) else s
    case DaemonsRun(ls) => s.(cred := After(s.cred, ls))
    case HostChanges(binaries, sudoers) => s.(host := s.host.(binaries := binaries, sudoers := sudoers))
  }

  // ---- inside a command ----

  /** The states after each of the steps that command line and daemons take. */
  function CredMoments(s: State, ls: seq<CredDaemon.Label>): seq<State>
    decreases |ls|
  {
    if ls == [] || CredDaemon.Run(s.cred, ls).None? then []
    else
      var s' := s.(cred := CredDaemon.Next(s.cred, ls[0]).value);
      [s'] + CredMoments(s', ls[1..])
  }

  /** In between, nothing but the daemons and what is known of them changes; the last one has them as they stay. */
  lemma {:induction false} OnlyDaemonsMove(s: State, ls: seq<CredDaemon.Label>)
    ensures var ms := CredMoments(s, ls);
            && (forall i :: 0 <= i < |ms| ==> ms[i] == s.(cred := ms[i].cred))
            && (ms != [] ==> ms[|ms| - 1].cred == After(s.cred, ls))
            && (ls != [] && CredDaemon.Run(s.cred, ls).Some? ==> ms != [])
    decreases |ls|
  {
    if ls != [] && CredDaemon.Run(s.cred, ls).Some? {
      var s' := s.(cred := CredDaemon.Next(s.cred, ls[0]).value);
      OnlyDaemonsMove(s', ls[1..]);
      assert CredDaemon.Run(s'.cred, ls[1..]) == CredDaemon.Run(s.cred, ls);
      if CredMoments(s', ls[1..]) == [] {
        assert ls[1..] == [] && CredMoments(s, ls) == [s'];
      }
    }
  }

  function PostMoments(s: State, p: Post): seq<State> {
    if p.port && !p.zero && p.exe then CredMoments(s, [CredDaemon.BeginStart] + p.steps) else []
  }

  function BootMoments(r: Outcome, p: Post): seq<State> { [r.s] + if r.ok then PostMoments(r.s, p) else [] }

  function TakeDownMoments(s: State, exe: bool, ls: seq<CredDaemon.Label>, lima: Limactl): seq<State> {
    (if exe then CredMoments(s, [CredDaemon.BeginStop] + ls) else []) + [TakeDown(s, exe, ls, lima)]
  }

  /** The states that a command passes through: after each step of the daemon's protocol, and after `limactl`. */
  function Moments(s: State, c: Command): seq<State> {
    match c
    case Init(_, _, _, _, _, _, _, post) => BootMoments(RunInit(s, c), post)
    case Start(_, _, _, _, _, _, post) => BootMoments(RunStart(s, c), post)
    case Stop(_, _, exe, ls, lima) => if Proceeds(s, c) then TakeDownMoments(s, exe, ls, lima) else []
    case Remove(_, _, exe, ls, lima) => if Proceeds(s, c) then TakeDownMoments(s, exe, ls, lima) else []
    case DaemonsRun(ls) => CredMoments(s, ls)
    case HostChanges(_, _) => [Step(s, c)]
  }

  /** A sequence of commands, everything in between included. */
  function History(s: State, cs: seq<Command>): State
    decreases |cs|
  {
    if cs == [] then s else History(Step(s, cs[0]), cs[1..])
  }

  function HistoryMoments(s: State, cs: seq<Command>): seq<State>
    decreases |cs|
  {
    if cs == [] then [] else Moments(s, cs[0]) + HistoryMoments(Step(s, cs[0]), cs[1..])
  }

  // ---- what the surroundings may do ----

  /** What `limactl` may make of the machine: only a start runs it, only a remove deletes it, an instance that exists
      is not created again, and a success does what was asked. */
  predicate LimaMay(before: Vm, c: Command) {
    match c
    case Init(_, _, _, _, _, _, lima, _) =>
      if before == Nonexistent then lima.ok ==> lima.vm == Running else !lima.ok && lima.vm == before
    case Start(_, _, _, _, _, lima, _) =>
      && (lima.vm == Nonexistent <==> before == Nonexistent)
      && (lima.ok ==> lima.vm == Running)
    case Stop(_, _, _, _, lima) =>
      && (lima.vm == Nonexistent <==> before == Nonexistent)
      && (lima.vm == Running ==> before == Running)
      && (lima.ok ==> lima.vm != Running)
    case Remove(_, _, _, _, lima) =>
      && (before == Nonexistent ==> lima.vm == Nonexistent)
      && (lima.vm == Running ==> before == Running)
      && (lima.ok ==> lima.vm == Nonexistent)
    case _ => true
  }

  /** The steps that the command takes with the daemon are those of a whole start or stop. */
  predicate DaemonMay(s: State, c: Command) {
    match c
    case Init(_, _, _, _, _, _, _, p) =>
      RunInit(s, c).ok && p.port && !p.zero && p.exe ==> Completes(s.cred, CredDaemon.BeginStart, p.steps)
    case Start(_, _, _, _, _, _, p) =>
      RunStart(s, c).ok && p.port && !p.zero && p.exe ==> Completes(s.cred, CredDaemon.BeginStart, p.steps)
    case Stop(_, _, exe, ls, _) => Proceeds(s, c) && exe ==> Completes(s.cred, CredDaemon.BeginStop, ls)
    case Remove(_, _, exe, ls, _) => Proceeds(s, c) && exe ==> Completes(s.cred, CredDaemon.BeginStop, ls)
    case DaemonsRun(ls) => CredDaemon.Run(s.cred, ls).Some? && forall i :: 0 <= i < |ls| ==> IsDaemonStep(ls[i])
    case HostChanges(_, _) => true
  }

  predicate Possible(s: State, c: Command) { LimaMay(s.vm, c) && DaemonMay(s, c) }

  predicate AllPossible(s: State, cs: seq<Command>)
    decreases |cs|
  {
    cs != [] ==> Possible(s, cs[0]) && AllPossible(Step(s, cs[0]), cs[1..])
  }

  /** The host as Finch runs on it: each method makes its changes in order and stops where the source does. */
  class FinchHost {
    var vm: Vm
    ghost var created: Option<Settings>
    var host: Host
    var override: OverrideYaml
    var disk: Disk.FileSystem
    var cred: CredDaemon.State
    ghost var moments: seq<State>

    constructor (host: Host, disk: Disk.FileSystem)
      ensures moments == []
      ensures View() == State(Nonexistent, None, host, NoOverride, disk, CredDaemon.INITIAL)
    {
      this.vm, this.created, this.host, this.override := Nonexistent, None, host, NoOverride;
      this.disk, this.cred, this.moments := disk, CredDaemon.INITIAL, [];
    }

    ghost function View(): State
      reads this
    {
      State(vm, created, host, override, disk, cred)
    }

    method ConfigureDefaultLimaYaml(c: Config, f: WriteFault) returns (ok: bool)
      modifies `host
      ensures var d := ConfigureDefault(old(host.yaml), c, f);
              ok == d.ok && View() == old(View()).(host := old(host).(yaml := d.yaml))
    {
      if f == FirstFails {
        return false;
      }
      host := host.(yaml := Yaml(None, 0));
      var settings := ConfigureVirtualizationFramework(c);
      if settings.None? || f == SecondFails {
        return false;
      }
      host := host.(yaml := Yaml(settings, 0));
      return true;
    }

    method ConfigureOverrideLimaYaml(vmType: VmType, f: WriteFault) returns (ok: bool)
      modifies `override
      ensures ok == (f == BothWrites) && View() == old(View()).(override := ConfigureOverride(old(override), vmType, f))
    {
      if f == FirstFails {
        return false;
      }
      override := Blank;
      if f == SecondFails {
        return false;
      }
      override := Filled(vmType != Wsl2);
      return true;
    }

    /** Installs what is missing; a failure is only logged. */
    method InstallDependencies(f: DepFaults)
      modifies `host
      ensures View() == old(View()).(host := Installed(old(host), f))
    {
      var h, _ := Dependencies.InstallOptionalDeps([Group(f)], host);
      assert Dependencies.WorldAfter([Group(f)], host, 0) == host;
      host := h;
    }

    method EnsureUserDataDisk(vz: bool, f: Disk.Faults) returns (ok: bool)
      modifies `disk
      ensures var e := Disk.Ensure(old(disk), vz, f); ok == e.ok && View() == old(View()).(disk := e.fs)
    {
      var manager := new Disk.UserDataDiskManager(disk, vz);
      ok := manager.EnsureUserDataDisk(f);
      disk := manager.fs;
    }

    method RunInitAction(c: Command) returns (ok: bool)
      requires c.Init?
      modifies `vm, `created, `host, `override, `disk
      ensures ok == RunInit(old(View()), c).ok && View() == RunInit(old(View()), c).s
    {
      if Status(vm, c.status) != Some(Nonexistent) {
        return false;
      }
      ghost var was := vm;
      ok := ConfigureDefaultLimaYaml(c.config, c.default);
      if !ok {
        return;
      }
      ok := ConfigureOverrideLimaYaml(c.config.vmType, c.override);
      if !ok {
        return;
      }
      InstallDependencies(c.deps);
      ok := EnsureUserDataDisk(c.config.vmType == Vz, c.disk);
      if !ok {
        return;
      }
      vm, disk, ok := c.lima.vm, disk.(lock := c.lima.lock), c.lima.ok;
      if was == Nonexistent && vm != Nonexistent {
        created := Framework(c.config);
      }
    }

    method RunStartAction(c: Command) returns (ok: bool)
      requires c.Start?
      modifies `vm, `host, `override, `disk
      ensures ok == RunStart(old(View()), c).ok && View() == RunStart(old(View()), c).s
    {
      if Status(vm, c.status) != Some(Stopped) {
        return false;
      }
      InstallDependencies(c.deps);
      ok := ConfigureOverrideLimaYaml(c.config.vmType, c.override);
      if !ok {
        return;
      }
      ok := EnsureUserDataDisk(c.config.vmType == Vz, c.disk);
      if !ok {
        return;
      }
      vm, disk, ok := c.lima.vm, disk.(lock := c.lima.lock), c.lima.ok;
    }

    /** Steps of the command line and of the daemons, one by one; nothing, if they cannot all be taken. */
    method TakeSteps(ls: seq<CredDaemon.Label>)
      modifies `cred, `moments
      ensures cred == After(old(cred), ls) && moments == old(moments) + CredMoments(old(View()), ls)
    {
      if CredDaemon.Run(cred, ls).None? {
        return;
      }
      for i := 0 to |ls|
        invariant CredDaemon.Run(cred, ls[i..]) == CredDaemon.Run(old(cred), ls)
        invariant moments + CredMoments(View(), ls[i..]) == old(moments) + CredMoments(old(View()), ls)
      {
        assert ls[i..][1..] == ls[i + 1..];
        cred := CredDaemon.Next(cred, ls[i]).value;
        moments := moments + [View()];
      }
    }

    /** Starts the daemon if it can be reached, and changes nothing else meanwhile. */
    method RunPostAction(p: Post)
      modifies `cred, `moments
      ensures View() == RunPost(old(View()), p) && moments == old(moments) + PostMoments(old(View()), p)
      ensures forall i :: |old(moments)| <= i < |moments| ==> moments[i] == old(View()).(cred := moments[i].cred)
    {
      if p.port && !p.zero && p.exe {
        OnlyDaemonsMove(View(), [CredDaemon.BeginStart] + p.steps);
        TakeSteps([CredDaemon.BeginStart] + p.steps);
      }
    }

    /** Stops the daemon, then stops or removes the machine: at every moment before the last, the machine is still as
        it was, and at the one before the last the daemon is dealt with. */
    method StopOrRemove(exe: bool, ls: seq<CredDaemon.Label>, lima: Limactl)
      modifies `vm, `disk, `cred, `moments
      ensures View() == TakeDown(old(View()), exe, ls, lima)
      ensures moments == old(moments) + TakeDownMoments(old(View()), exe, ls, lima)
      ensures moments != [] && moments[|moments| - 1] == View()
      ensures forall i :: |old(moments)| <= i < |moments| - 1 ==> moments[i] == old(View()).(cred := moments[i].cred)
      ensures |moments| > |old(moments)| + 1 ==> moments[|moments| - 2].cred == cred
    {
      if exe {
        OnlyDaemonsMove(View(), [CredDaemon.BeginStop] + ls);
        TakeSteps([CredDaemon.BeginStop] + ls);
      }
      vm, disk := lima.vm, disk.(lock := lima.lock);
      moments := moments + [View()];
    }

    /** What is left to do once the machine has been booted, or has failed to. */
    method FinishBoot(ok: bool, p: Post)
      modifies `cred, `moments
      ensures View() == Booted(Outcome(ok, old(View())), p)
      ensures moments == old(moments) + BootMoments(Outcome(ok, old(View())), p)
    {
      ghost var s := View();
      moments := moments + [s];
      if ok {
        RunPostAction(p);
        assert old(moments) + [s] + PostMoments(s, p) == old(moments) + ([s] + PostMoments(s, p));
      } else {
        assert [s] + [] == [s];
      }
    }

    method InitCommand(c: Command)
      requires c.Init?
      modifies this
      ensures View() == Step(old(View()), c) && moments == old(moments) + Moments(old(View()), c)
    {
      var ok := RunInitAction(c);
      FinishBoot(ok, c.post);
    }

    method StartCommand(c: Command)
      requires c.Start?
      modifies this
      ensures View() == Step(old(View()), c) && moments == old(moments) + Moments(old(View()), c)
    {
      var ok := RunStartAction(c);
      FinishBoot(ok, c.post);
    }

    method Run(c: Command)
      modifies this
      ensures View() == Step(old(View()), c) && moments == old(moments) + Moments(old(View()), c)
    {
      match c {
        case Init(_, _, _, _, _, _, _, _) =>
          InitCommand(c);
        case Start(_, _, _, _, _, _, _) =>
          StartCommand(c);
        case Stop(force, status, exe, ls, lima) =>
          if force || Status(vm, status) == Some(Running) {
            StopOrRemove(exe, ls, lima);
          }
        case Remove(force, status, exe, ls, lima) =>
          if force || Status(vm, status) == Some(Stopped) {
            StopOrRemove(exe, ls, lima);
          }
        case DaemonsRun(ls) =>
          TakeSteps(ls);
        case HostChanges(binaries, sudoers) =>
          host := host.(binaries := binaries, sudoers := sudoers);
          moments := moments + [View()];
      }
    }
  }
}
