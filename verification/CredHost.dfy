/** Starting and stopping the credential daemon as the command line does it, while daemons run between its system calls. */
module CredHost {
  import opened Wrappers
  import opened CredDaemon
  import opened CredDaemonTheorems

  /** Which daemon steps happen before each system call of the command line. */
  type Schedule = nat -> seq<Label>

  lemma DaemonStepShrinks(s: State, l: Label)
    requires Actor(l).Some? && Next(s, l).Some?
    ensures Next(s, l).value.cli == s.cli && Next(s, l).value.live.Keys <= s.live.Keys
    ensures Next(s, l).value.next == s.next
  {
  }

  lemma DaemonStep(s: State, l: Label)
    requires Inv(s) && Actor(l).Some? && Next(s, l).Some?
    ensures Inv(Next(s, l).value) && Next(s, l).value.cli == s.cli && Next(s, l).value.next == s.next
    ensures forall p :: p in Next(s, l).value.live ==> p in s.live
  {
    StepKeepsInv(s, l);
    DaemonStepShrinks(s, l);
    assert forall p :: p in Next(s, l).value.live ==> p in Next(s, l).value.live.Keys;
  }

  /** The state once daemons have taken those of the given steps that they can. */
  function Ran(s: State, ls: seq<Label>): State
    decreases |ls|
  {
    if ls == [] then s
    else if Actor(ls[0]).Some? && Next(s, ls[0]).Some? then Ran(Next(s, ls[0]).value, ls[1..])
    else Ran(s, ls[1..])
  }

  /** While a start is under way, all that daemons can do is exit. */
  lemma {:induction false} RanWhileStarting(s: State, ls: seq<Label>)
    requires Inv(s) && Starts(s.cli)
    ensures Inv(Ran(s, ls)) && Ran(s, ls).cli == s.cli && Ran(s, ls).pidFile == s.pidFile
    decreases |ls|
  {
    if ls != [] {
      if Actor(ls[0]).Some? && Next(s, ls[0]).Some? {
        DaemonStep(s, ls[0]);
        ExitKeepsFile(s, ls[0]);
        RanWhileStarting(Next(s, ls[0]).value, ls[1..]);
      } else {
        RanWhileStarting(s, ls[1..]);
      }
    }
  }

  lemma {:induction false} RanKeepsCli(s: State, ls: seq<Label>)
    ensures Ran(s, ls).cli == s.cli
    decreases |ls|
  {
    if ls != [] {
      if Actor(ls[0]).Some? && Next(s, ls[0]).Some? {
        DaemonStepShrinks(s, ls[0]);
        RanKeepsCli(Next(s, ls[0]).value, ls[1..]);
      } else {
        RanKeepsCli(s, ls[1..]);
      }
    }
  }

  lemma ExitKeepsFile(s: State, l: Label)
    requires OthersSpent(s, None) && Actor(l).Some? && Next(s, l).Some?
    ensures Next(s, l).value.pidFile == s.pidFile
  {
  }

  /** What a system call of the stop command may lead to. */
  predicate Follows(cli: Cli, next: Cli) {
    match cli
    case TermRead => next.TermProbe? || next.RemovePid?
    case TermProbe(p) => next == TermSend(p) || next.RemovePid?
    case TermSend(p) => next == Poll(p, 0) || next.RemovePid?
    case Poll(p, k) => if k < POLLS then next.RemovePid? || next == Poll(p, k + 1) else next == Kill(p)
    case Kill(_) => next.RemovePid?
    case RemovePid => next.Idle?
    case _ => true
  }

  lemma CliCall(s: State)
    requires Inv(s) && StepsLeft(s.cli) > 0
    ensures Inv(CliNext(s)) && Follows(s.cli, CliNext(s).cli)
    ensures forall p :: p in CliNext(s).live ==> p in s.live
    ensures s.cli == RemovePid ==>
              CliNext(s).pidFile.None? && forall p :: p in CliNext(s).live ==> Spent(CliNext(s).live[p])
  {
    CliKeepsInv(s);
  }

  /** What a system call of the start command may lead to, `fails` telling whether it fails. */
  predicate StartFollows(cli: Cli, next: Cli, fails: bool) {
    match cli
    case GuardRead => next.GuardProbe? || next.StartRead?
    case GuardProbe(_) => next.Idle? || next.StartRead?
    case StartRead => next.RecheckRead? || next.MakeDirs?
    case RecheckRead => next.RecheckProbe? || next.RemoveStale?
    case RecheckProbe(_) => next.MakeDirs? || next.RemoveStale?
    case RemoveStale => next.MakeDirs?
    case MakeDirs => if fails then next.Idle? else next.Spawn?
    case Spawn => if fails then next.Idle? else next.WritePid?
    case WritePid(_) => next.Idle?
    case _ => false
  }

  predicate StartCommand(cli: Cli) { cli.GuardRead? || cli.GuardProbe? || Starts(cli) || cli.WritePid? }

  /** The state after a system call of the start command. */
  function Called(s: State, fails: bool): State {
    if fails && CliNextFails(s).Some? then CliNextFails(s).value else CliNext(s)
  }

  lemma StartCall(s: State, fails: bool)
    requires Inv(s) && StartCommand(s.cli)
    ensures Inv(Called(s, fails)) && StartFollows(s.cli, Called(s, fails).cli, fails)
    ensures Called(s, fails).next == s.next + if s.cli == Spawn && !fails then 1 else 0
    ensures s.cli == Spawn && !fails ==> Called(s, fails).cli == WritePid(s.next)
    ensures s.cli.WritePid? ==> Called(s, fails).pidFile == Some(s.cli.p)
  {
    if fails && CliNextFails(s).Some? {
      CliFailureKeepsInv(s);
    } else {
      CliKeepsInv(s);
    }
  }

  /** The PID file, read before the first call, names a process that lives at the second. */
  predicate FoundRunning(s: State, sched: Schedule) {
    var read := Ran(s, sched(0));
    read.pidFile.Some? && Alive(Ran(CliNext(read), sched(1)), read.pidFile.value)
  }

  /** The PID file names a process that does not live when it is probed again. */
  predicate Stale(s: State, sched: Schedule) {
    s.pidFile.Some? && !Alive(Ran(CliNext(Ran(CliNext(Ran(s, sched(2))), sched(3))), sched(4)), s.pidFile.value)
  }

  class CredentialHost {
    var s: State

    constructor ()
      ensures s == INITIAL && Inv(s)
    {
      s := INITIAL;
    }

    /** Daemons take those of the given steps that they can. */
    method DaemonsRun(ls: seq<Label>)
      requires Inv(s)
      modifies this
      ensures s == Ran(old(s), ls) && Inv(s) && s.cli == old(s.cli) && s.next == old(s.next)
      ensures forall p :: p in s.live ==> p in old(s.live)
    {
      for i := 0 to |ls|
        invariant Ran(s, ls[i..]) == Ran(old(s), ls) && Inv(s) && s.cli == old(s.cli) && s.next == old(s.next)
        invariant forall p :: p in s.live ==> p in old(s.live)
      {
        assert ls[i..][0] == ls[i] && ls[i..][1..] == ls[i + 1..];
        if Actor(ls[i]).Some? && Next(s, ls[i]).Some? {
          DaemonStep(s, ls[i]);
          s := Next(s, ls[i]).value;
        }
      }
    }

    /** One system call of the stop command. */
    method Call(ls: seq<Label>)
      requires Inv(s) && StepsLeft(s.cli) > 0
      modifies this
      ensures Inv(s) && Follows(old(s.cli), s.cli)
      ensures forall p :: p in s.live ==> p in old(s.live)
      ensures old(s.cli) == RemovePid ==> s.pidFile.None? && forall p :: p in s.live ==> Spent(s.live[p])
    {
      DaemonsRun(ls);
      CliCall(s);
      s := CliNext(s);
    }

    /** One system call of the start command. */
    method StartStep(ls: seq<Label>, fails: bool)
      requires Inv(s) && StartCommand(s.cli)
      modifies this
      ensures s == Called(Ran(old(s), ls), fails) && Inv(s) && StartFollows(old(s.cli), s.cli, fails)
      ensures s.next == old(s.next) + if old(s.cli) == Spawn && !fails then 1 else 0
      ensures old(s.cli) == Spawn && !fails ==> s.cli == WritePid(old(s.next))
      ensures old(s.cli).WritePid? ==> s.pidFile == Some(old(s.cli).p)
    {
      DaemonsRun(ls);
      StartCall(s, fails);
      s := Called(s, fails);
    }

    /** `IsDaemonRunning`: whether the PID file names a live process. */
    method FindsDaemonRunning(sched: Schedule) returns (running: bool)
      requires Inv(s) && s.cli == GuardRead
      modifies this
      ensures running <==> FoundRunning(old(s), sched)
      ensures Inv(s) && s.next == old(s.next) && s.cli == if running then Idle else StartRead
    {
      RanKeepsCli(s, sched(0));
      StartStep(sched(0), false);
      running := false;
      if s.cli.GuardProbe? {
        RanKeepsCli(s, sched(1));
        StartStep(sched(1), false);
        running := s.cli.Idle?;
      }
    }

    /** Removes a PID file that names no live process; failing to is only logged. */
    method CleanUpStaleFile(sched: Schedule, fails: bool)
      requires Inv(s) && s.cli == StartRead
      modifies this
      ensures s.pidFile == if Stale(old(s), sched) && !fails then None else old(s.pidFile)
      ensures Inv(s) && s.next == old(s.next) && s.cli == MakeDirs
    {
      RanWhileStarting(s, sched(2));
      StartStep(sched(2), false);
      if s.cli.RecheckRead? {
        RanWhileStarting(s, sched(3));
        StartStep(sched(3), false);
        if s.cli.RecheckProbe? {
          RanWhileStarting(s, sched(4));
          StartStep(sched(4), false);
        }
        if s.cli.RemoveStale? {
          RanWhileStarting(s, sched(5));
          StartStep(sched(5), fails);
        }
      }
    }

    /** Starts the process and writes the PID file. */
    method StartProcess(sched: Schedule, fails: bool) returns (started: bool)
      requires Inv(s) && s.cli == Spawn
      modifies this
      ensures started <==> !fails
      ensures Inv(s) && s.cli == Idle
      ensures started ==> s.pidFile == Some(old(s.next)) && s.next == old(s.next) + 1
      ensures !started ==> s.next == old(s.next)
    {
      StartStep(sched(7), fails);
      if s.cli.Idle? {
        return false;
      }
      StartStep(sched(8), false);
      return true;
    }

    /** Starts a daemon if and only if none is found running and no step fails. Then the PID file names the process
        that was started, and only that one was; otherwise none was. */
    method StartDaemon(sched: Schedule, fails: nat -> bool) returns (started: bool)
      requires Inv(s) && s.cli == Idle
      modifies this
      ensures started <==> !FoundRunning(old(s).(cli := GuardRead), sched) && !fails(1) && !fails(2)
      ensures Inv(s) && s.cli == Idle
      ensures started ==> s.pidFile == Some(old(s.next)) && s.next == old(s.next) + 1
      ensures !started ==> s.next == old(s.next)
    {
      s := s.(cli := GuardRead);
      var running := FindsDaemonRunning(sched);
      started := false;
      if !running {
        started := StartFresh(sched, fails);
      }
    }

    /** The start command, when no daemon was found running. */
    method StartFresh(sched: Schedule, fails: nat -> bool) returns (started: bool)
      requires Inv(s) && s.cli == StartRead
      modifies this
      ensures started <==> !fails(1) && !fails(2)
      ensures Inv(s) && s.cli == Idle
      ensures started ==> s.pidFile == Some(old(s.next)) && s.next == old(s.next) + 1
      ensures !started ==> s.next == old(s.next)
    {
      CleanUpStaleFile(sched, fails(0));
      StartStep(sched(6), fails(1));
      if s.cli.Idle? {
        return false;
      }
      started := StartProcess(sched, fails(2));
    }

    /** Whatever the daemons do meanwhile, stopping ends after at most twenty polls; then the PID file is
        gone, the daemon it named is dead, and no process that is left will touch a file again. */
    method StopDaemon(sched: Schedule) returns (polls: nat)
      requires Inv(s) && s.cli == Idle
      modifies this
      ensures Inv(s) && s.cli == Idle && s.pidFile.None? && polls <= POLLS
      ensures forall p :: p in s.live ==> p in old(s.live) && Spent(s.live[p])
    {
      s := s.(cli := TermRead);
      polls := Terminate(sched);
      Call(sched(POLLS + 5));
    }

    /** Signals the process that the PID file names, if it lives, and waits for it. */
    method Terminate(sched: Schedule) returns (polls: nat)
      requires Inv(s) && s.cli == TermRead
      modifies this
      ensures Inv(s) && s.cli == RemovePid && polls <= POLLS
      ensures forall p :: p in s.live ==> p in old(s.live)
    {
      polls := 0;
      Call(sched(0));
      if s.cli.TermProbe? {
        Call(sched(1));
        if s.cli.TermSend? {
          Call(sched(2));
          polls := PollUntilGone(sched);
        }
      }
    }

    /** Polls the process up to twenty times, then kills it. */
    method PollUntilGone(sched: Schedule) returns (polls: nat)
      requires Inv(s) && (s.cli.RemovePid? || (s.cli.Poll? && s.cli.tries == 0))
      modifies this
      ensures Inv(s) && s.cli == RemovePid && polls <= POLLS
      ensures forall p :: p in s.live ==> p in old(s.live)
    {
      polls := 0;
      while s.cli.Poll? && polls < POLLS
        invariant Inv(s) && polls <= POLLS && (s.cli.RemovePid? || (s.cli.Poll? && s.cli.tries == polls))
        invariant forall p :: p in s.live ==> p in old(s.live)
      {
        Call(sched(3 + polls));
        if s.cli.Poll? {
          polls := polls + 1;
        }
      }
      if s.cli.Poll? {
        Call(sched(3 + POLLS));
        Call(sched(4 + POLLS));
      }
    }
  }
}
