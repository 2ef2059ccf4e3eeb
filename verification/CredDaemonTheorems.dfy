/** What holds in every interleaving of command line and daemons. */
module CredDaemonTheorems {
  import opened Wrappers
  import opened CredDaemon

  lemma InitialInv()
    ensures Inv(INITIAL)
  {
  }

  lemma GuardKeepsInv(s: State)
    requires Inv(s) && (s.cli.GuardRead? || s.cli.GuardProbe? || s.cli.StartRead? || s.cli.RecheckRead?)
    ensures Inv(CliNext(s))
  {
  }

  lemma StartKeepsInv(s: State)
    requires Inv(s) && (s.cli.RecheckProbe? || s.cli.RemoveStale? || s.cli.MakeDirs?)
    ensures Inv(CliNext(s))
  {
  }

  lemma SpawnKeepsInv(s: State)
    requires Inv(s) && (s.cli.Spawn? || s.cli.WritePid?)
    ensures Inv(CliNext(s))
  {
  }

  lemma TermKeepsInv(s: State)
    requires Inv(s) && (s.cli.TermRead? || s.cli.TermProbe?)
    ensures Inv(CliNext(s))
  {
  }

  lemma SendKeepsInv(s: State)
    requires Inv(s) && s.cli.TermSend?
    ensures Inv(CliNext(s))
  {
  }

  lemma WaitKeepsInv(s: State)
    requires Inv(s) && (s.cli.Poll? || s.cli.Kill? || s.cli.RemovePid?)
    ensures Inv(CliNext(s))
  {
  }

  lemma CliKeepsInv(s: State)
    requires Inv(s) && s.cli != Idle
    ensures Inv(CliNext(s))
  {
    if s.cli.GuardRead? || s.cli.GuardProbe? || s.cli.StartRead? || s.cli.RecheckRead? {
      GuardKeepsInv(s);
    } else if s.cli.RecheckProbe? || s.cli.RemoveStale? || s.cli.MakeDirs? {
      StartKeepsInv(s);
    } else if s.cli.Spawn? || s.cli.WritePid? {
      SpawnKeepsInv(s);
    } else if s.cli.TermRead? || s.cli.TermProbe? {
      TermKeepsInv(s);
    } else if s.cli.TermSend? {
      SendKeepsInv(s);
    } else {
      WaitKeepsInv(s);
    }
  }

  lemma CliFailureKeepsInv(s: State)
    requires Inv(s) && CliNextFails(s).Some?
    ensures Inv(CliNextFails(s).value)
  {
  }

  /** At most one live daemon can still touch a file. */
  lemma OneActive(s: State, p: Pid)
    requires Inv(s) && p in s.live && !Spent(s.live[p])
    ensures OthersSpent(s, Some(p))
  {
  }

  lemma BootKeepsInv(s: State, p: Pid)
    requires Inv(s) && p in s.live && s.live[p].main.Boot?
    ensures Inv(MainNext(s, p).value)
  {
    OneActive(s, p);
  }

  lemma BindKeepsInv(s: State, p: Pid)
    requires Inv(s) && p in s.live && s.live[p].main.Unlinked?
    ensures Inv(MainNext(s, p).value)
  {
    OneActive(s, p);
  }

  lemma RegisterKeepsInv(s: State, p: Pid)
    requires Inv(s) && p in s.live && (s.live[p].main.Bound? || s.live[p].main.Ready?)
    ensures Inv(MainNext(s, p).value)
  {
    OneActive(s, p);
  }

  lemma CloseOpenKeepsInv(s: State, p: Pid)
    requires Inv(s) && p in s.live && s.live[p].main.Closing? && s.live[p].open
    ensures Inv(MainNext(s, p).value)
  {
    OneActive(s, p);
  }

  lemma CloseShutKeepsInv(s: State, p: Pid)
    requires Inv(s) && p in s.live && s.live[p].main.Closing? && !s.live[p].open
    ensures Inv(MainNext(s, p).value)
  {
    OneActive(s, p);
  }

  lemma UnlinkKeepsInv(s: State, p: Pid)
    requires Inv(s) && p in s.live && s.live[p].main.Unlinking?
    ensures Inv(MainNext(s, p).value)
  {
    OneActive(s, p);
  }

  lemma ForgetKeepsInv(s: State, p: Pid)
    requires Inv(s) && p in s.live && s.live[p].main.Forgetting?
    ensures Inv(MainNext(s, p).value)
  {
    OneActive(s, p);
  }

  lemma ExitKeepsInv(s: State, p: Pid)
    requires Inv(s) && p in s.live && s.live[p].main.Leaving?
    ensures Inv(MainNext(s, p).value)
  {
  }

  lemma MainKeepsInv(s: State, p: Pid)
    requires Inv(s) && p in s.live && MainNext(s, p).Some?
    ensures Inv(MainNext(s, p).value)
  {
    if s.live[p].main.Boot? {
      BootKeepsInv(s, p);
    } else if s.live[p].main.Unlinked? {
      BindKeepsInv(s, p);
    } else if s.live[p].main.Bound? || s.live[p].main.Ready? {
      RegisterKeepsInv(s, p);
    } else if s.live[p].main.Leaving? {
      ExitKeepsInv(s, p);
    } else if s.live[p].main.Forgetting? {
      ForgetKeepsInv(s, p);
    } else if s.live[p].main.Closing? {
      if s.live[p].open {
        CloseOpenKeepsInv(s, p);
      } else {
        CloseShutKeepsInv(s, p);
      }
    } else {
      UnlinkKeepsInv(s, p);
    }
  }

  lemma MainFailureKeepsInv(s: State, p: Pid)
    requires Inv(s) && p in s.live && MainNextFails(s, p).Some?
    ensures Inv(MainNextFails(s, p).value)
  {
    OneActive(s, p);
  }

  lemma SigCloseKeepsInv(s: State, p: Pid)
    requires Inv(s) && p in s.live && s.live[p].sig.SigClosing?
    ensures Inv(SigNext(s, p).value)
  {
    OneActive(s, p);
  }

  lemma SigRemovalKeepsInv(s: State, p: Pid)
    requires Inv(s) && p in s.live && (s.live[p].sig.SigUnlinking? || s.live[p].sig.SigForgetting?)
    ensures Inv(SigNext(s, p).value)
  {
    OneActive(s, p);
  }

  lemma SigKeepsInv(s: State, p: Pid)
    requires Inv(s) && p in s.live && SigNext(s, p).Some?
    ensures Inv(SigNext(s, p).value)
  {
    if s.live[p].sig.SigClosing? {
      SigCloseKeepsInv(s, p);
    } else if s.live[p].sig.SigUnlinking? || s.live[p].sig.SigForgetting? {
      SigRemovalKeepsInv(s, p);
    }
  }

  lemma ServeKeepsInv(s: State, p: Pid)
    requires Inv(s) && p in s.live && s.live[p].main == Serving
    ensures Inv(With(s, p, s.live[p].(main := Closing)))
  {
    OneActive(s, p);
  }

  lemma StepKeepsInv(s: State, l: Label)
    requires Inv(s) && Next(s, l).Some?
    ensures Inv(Next(s, l).value)
  {
    match l
    case BeginStart =>
    case BeginStop =>
    case CliStep => CliKeepsInv(s);
    case CliFails => CliFailureKeepsInv(s);
    case MainStep(p) => MainKeepsInv(s, p);
    case MainFails(p) => MainFailureKeepsInv(s, p);
    case ServeReturns(p) => ServeKeepsInv(s, p);
    case SigStep(p) => SigKeepsInv(s, p);
  }

  /** Every interleaving keeps the invariant. */
  lemma {:induction false} RunKeepsInv(s: State, ls: seq<Label>)
    requires Inv(s) && Run(s, ls).Some?
    ensures Inv(Run(s, ls).value)
    decreases |ls|
  {
    if ls != [] {
      StepKeepsInv(s, ls[0]);
      RunKeepsInv(Next(s, ls[0]).value, ls[1..]);
    }
  }

  /** Between commands, in every interleaving: a live daemon is named by the PID file or has finished its
      cleanup and only has to exit, so at most one can still serve or touch a file. A serving one has its socket. */
  lemma BetweenCommands(ls: seq<Label>)
    requires Run(INITIAL, ls).Some? && Run(INITIAL, ls).value.cli == Idle
    ensures var s := Run(INITIAL, ls).value;
            && (forall p :: p in s.live ==> s.pidFile == Some(p) || Spent(s.live[p]))
            && (forall p, q :: p in s.live && q in s.live && !Spent(s.live[p]) && !Spent(s.live[q]) ==> p == q)
            && (forall p :: p in s.live && s.live[p].main == Serving ==> s.socket == Some(p))
  {
    InitialInv();
    RunKeepsInv(INITIAL, ls);
  }

  /** The process that takes a step; none for the command line. */
  function Actor(l: Label): Option<Pid> {
    match l
    case MainStep(p) => Some(p)
    case MainFails(p) => Some(p)
    case ServeReturns(p) => Some(p)
    case SigStep(p) => Some(p)
    case _ => None
  }

  /** No daemon ever removes the PID file or takes the socket of another daemon that is still at work. */
  lemma DaemonsRemoveOnlyTheirOwn(s: State, l: Label, q: Pid)
    requires Inv(s) && Actor(l).Some? && Next(s, l).Some?
    requires q in s.live && !Spent(s.live[q]) && Actor(l) != Some(q)
    ensures Next(s, l).value.pidFile == s.pidFile
    ensures Next(s, l).value.socket == s.socket
  {
    OneActive(s, q);
  }

  /** When the stop command is done, the PID file is gone and whatever still lives only has to exit. */
  lemma StopIsFinal(s: State)
    requires Inv(s) && s.cli == RemovePid
    ensures CliNext(s).cli == Idle && CliNext(s).pidFile.None?
    ensures forall p :: p in CliNext(s).live ==> Spent(CliNext(s).live[p])
  {
  }

  /** A spent daemon changes neither file, whatever it still does. */
  lemma SpentTouchesNothing(s: State, l: Label, p: Pid)
    requires p in s.live && Spent(s.live[p]) && s.live[p].sig != Off && Actor(l) == Some(p) && Next(s, l).Some?
    ensures Next(s, l).value == Gone(s, p)
  {
  }

  /** Steps the stop command has still to take, at most. */
  function StepsLeft(cli: Cli): nat {
    match cli
    case TermRead => 26
    case TermProbe(_) => 25
    case TermSend(_) => 24
    case Poll(_, k) => if k <= POLLS then 23 - k else 3
    case Kill(_) => 2
    case RemovePid => 1
    case _ => 0
  }

  /** The stop command ends: each of its steps leaves fewer, with at most twenty polls. */
  lemma StopEnds(s: State)
    requires Inv(s) && StepsLeft(s.cli) > 0
    ensures StepsLeft(CliNext(s).cli) < StepsLeft(s.cli)
    ensures CliNext(s).cli.Poll? ==> CliNext(s).cli.tries <= POLLS
    ensures StepsLeft(CliNext(s).cli) == 0 ==> CliNext(s).cli == Idle
  {
    CliKeepsInv(s);
  }

  // ---- when serving ends only by being stopped ----

  /** Serving returns because the listener was closed, not by an error of its own. */
  predicate OrderlyStep(s: State, l: Label) { l.ServeReturns? && l.p in s.live ==> !s.live[l.p].open }

  predicate Orderly(s: State, ls: seq<Label>)
    decreases |ls|
  {
    ls != [] ==> OrderlyStep(s, ls[0]) && (Next(s, ls[0]).Some? ==> Orderly(Next(s, ls[0]).value, ls[1..]))
  }

  /** A daemon is in its deferred cleanup only after a signal. */
  ghost predicate CleansUpWhenSignalled(s: State) {
    forall p :: p in s.live && !StartingUp(s.live[p]) && s.live[p].main != Serving ==> Signalled(s.live[p])
  }

  lemma CliKeepsOrder(s: State)
    requires CleansUpWhenSignalled(s) && s.cli != Idle
    ensures CleansUpWhenSignalled(CliNext(s))
  {
  }

  lemma MainKeepsOrder(s: State, p: Pid)
    requires Inv(s) && CleansUpWhenSignalled(s) && p in s.live && MainNext(s, p).Some?
    ensures CleansUpWhenSignalled(MainNext(s, p).value)
  {
  }

  lemma MainFailureKeepsOrder(s: State, p: Pid)
    requires CleansUpWhenSignalled(s) && p in s.live && MainNextFails(s, p).Some?
    ensures CleansUpWhenSignalled(MainNextFails(s, p).value)
  {
  }

  lemma SigKeepsOrder(s: State, p: Pid)
    requires CleansUpWhenSignalled(s) && p in s.live && SigNext(s, p).Some?
    ensures CleansUpWhenSignalled(SigNext(s, p).value)
  {
  }

  lemma OrderlyStepKeeps(s: State, l: Label)
    requires Inv(s) && CleansUpWhenSignalled(s) && OrderlyStep(s, l) && Next(s, l).Some?
    ensures CleansUpWhenSignalled(Next(s, l).value)
  {
    match l
    case CliStep => CliKeepsOrder(s);
    case MainStep(p) => MainKeepsOrder(s, p);
    case MainFails(p) => MainFailureKeepsOrder(s, p);
    case SigStep(p) => SigKeepsOrder(s, p);
    case _ =>
  }

  lemma {:induction false} OrderlyRunKeeps(s: State, ls: seq<Label>)
    requires Inv(s) && CleansUpWhenSignalled(s) && Orderly(s, ls) && Run(s, ls).Some?
    ensures Inv(Run(s, ls).value) && CleansUpWhenSignalled(Run(s, ls).value)
    decreases |ls|
  {
    if ls != [] {
      StepKeepsInv(s, ls[0]);
      OrderlyStepKeeps(s, ls[0]);
      OrderlyRunKeeps(Next(s, ls[0]).value, ls[1..]);
    }
  }

  /** If no daemon fails while serving, then between commands at most one is live, and the PID file names it. */
  lemma AtMostOneNamedDaemon(ls: seq<Label>)
    requires Orderly(INITIAL, ls) && Run(INITIAL, ls).Some? && Run(INITIAL, ls).value.cli == Idle
    ensures var s := Run(INITIAL, ls).value; forall p :: p in s.live ==> s.pidFile == Some(p)
    ensures var s := Run(INITIAL, ls).value; forall p, q :: p in s.live && q in s.live ==> p == q
  {
    InitialInv();
    OrderlyRunKeeps(INITIAL, ls);
  }

  // ---- when a daemon fails while serving ----

  /** Some steps lead from `s0` to `s`. */
  ghost predicate Leads(s0: State, s: State) { exists ls :: Run(s0, ls) == Some(s) }

  lemma {:induction false} RunExtended(s: State, ls: seq<Label>, l: Label)
    requires Run(s, ls).Some?
    ensures Run(s, ls + [l]) == Next(Run(s, ls).value, l)
    decreases |ls|
  {
    if ls == [] {
      assert [l][1..] == [];
      assert ls + [l] == [l];
    } else {
      RunExtended(Next(s, ls[0]).value, ls[1..], l);
      assert (ls + [l])[1..] == ls[1..] + [l];
    }
  }

  lemma LeadsOn(s0: State, s: State, l: Label, s': State)
    requires Leads(s0, s) && Next(s, l) == Some(s')
    ensures Leads(s0, s')
  {
    var ls :| Run(s0, ls) == Some(s);
    RunExtended(s0, ls, l);
  }

  /** The six steps of a start that finds no PID file. */
  lemma StartFromNoFile(s0: State, s: State)
    requires Leads(s0, s) && s.cli == Idle && s.pidFile.None?
    ensures Leads(s0, State(Some(s.next), s.socket, s.live[s.next := Daemon(Boot, Off, false)], s.next + 1, Idle))
  {
    var spawned := s.(cli := WritePid(s.next), live := s.live[s.next := Daemon(Boot, Off, false)], next := s.next + 1);
    LeadsOn(s0, s, BeginStart, s.(cli := GuardRead));
    LeadsOn(s0, s.(cli := GuardRead), CliStep, s.(cli := StartRead));
    LeadsOn(s0, s.(cli := StartRead), CliStep, s.(cli := MakeDirs));
    LeadsOn(s0, s.(cli := MakeDirs), CliStep, s.(cli := Spawn));
    LeadsOn(s0, s.(cli := Spawn), CliStep, spawned);
    LeadsOn(s0, spawned, CliStep, spawned.(cli := Idle, pidFile := Some(s.next)));
  }

  /** The daemon's own cleanup, after its serving has returned. */
  lemma CleansUp(s0: State, s: State, p: Pid, d: Daemon)
    requires Leads(s0, s) && p in s.live && s.live[p] == d && d.main == Closing && d.open
    ensures Leads(s0, s.(pidFile := None, socket := None, live := s.live[p := Daemon(Leaving, d.sig, false)]))
  {
    var live1, live2 := s.live[p := d.(main := Unlinking, open := false)], s.live[p := d.(main := Forgetting, open := false)];
    var live3 := s.live[p := Daemon(Leaving, d.sig, false)];
    assert live1[p := d.(main := Forgetting, open := false)] == live2;
    assert live2[p := Daemon(Leaving, d.sig, false)] == live3;
    LeadsOn(s0, s, MainStep(p), s.(socket := None, live := live1));
    LeadsOn(s0, s.(socket := None, live := live1), MainStep(p), s.(socket := None, live := live2));
    LeadsOn(s0, s.(socket := None, live := live2), MainStep(p), s.(socket := None, live := live3, pidFile := None));
  }

  /** The converse of `AtMostOneNamedDaemon`: whenever a daemon may fail while serving, in any idle state whatever,
      the failure may lead to two live daemons between commands, of which the PID file names the younger. */
  lemma FailureMayLeaveTwo(s: State, p: Pid) returns (two: State)
    requires Inv(s) && s.cli == Idle && p in s.live && s.live[p].main == Serving
    ensures !OrderlyStep(s, ServeReturns(p)) && Next(s, ServeReturns(p)).Some?
    ensures Leads(Next(s, ServeReturns(p)).value, two) && two.cli == Idle
    ensures p in two.live && s.next in two.live && p != s.next && two.pidFile == Some(s.next)
  {
    assert !Signalled(s.live[p]);
    var failed := Next(s, ServeReturns(p)).value;
    assert Run(failed, []) == Some(failed);
    CleansUp(failed, failed, p, s.live[p].(main := Closing));
    var cleaned := failed.(pidFile := None, socket := None,
                           live := failed.live[p := Daemon(Leaving, s.live[p].sig, false)]);
    StartFromNoFile(failed, cleaned);
    two := State(Some(s.next), None, cleaned.live[s.next := Daemon(Boot, Off, false)], s.next + 1, Idle);
  }

  /** The four steps in which the first daemon starts up. */
  lemma FirstDaemonServes(s0: State, s: State)
    requires Leads(s0, s) && s == State(Some(0), None, map[0 := Daemon(Boot, Off, false)], 1, Idle)
    ensures Leads(s0, State(Some(0), Some(0), map[0 := Daemon(Serving, Armed, true)], 1, Idle))
  {
    var s1 := s.(live := map[0 := Daemon(Unlinked, Off, false)]);
    var s2 := s.(live := map[0 := Daemon(Bound, Off, true)], socket := Some(0));
    var s3 := s2.(live := map[0 := Daemon(Ready, Off, true)]);
    assert s.live[0 := Daemon(Unlinked, Off, false)] == s1.live && s1.live[0 := Daemon(Bound, Off, true)] == s2.live;
    assert s2.live[0 := Daemon(Ready, Off, true)] == s3.live;
    assert s3.live[0 := Daemon(Serving, Armed, true)] == map[0 := Daemon(Serving, Armed, true)];
    LeadsOn(s0, s, MainStep(0), s1);
    LeadsOn(s0, s1, MainStep(0), s2);
    LeadsOn(s0, s2, MainStep(0), s3);
    LeadsOn(s0, s3, MainStep(0), s2.(live := map[0 := Daemon(Serving, Armed, true)]));
  }

  lemma {:induction false} LeadsThrough(s: State, ls: seq<Label>, ms: seq<Label>)
    requires Run(s, ls).Some?
    ensures Run(s, ls + ms) == Run(Run(s, ls).value, ms)
    decreases |ls|
  {
    if ls == [] {
      assert ls + ms == ms;
    } else {
      LeadsThrough(Next(s, ls[0]).value, ls[1..], ms);
      assert (ls + ms)[1..] == ls[1..] + ms;
    }
  }

  /** So two live daemons are within reach of the first state. */
  lemma TwoLiveDaemons() returns (s: State)
    ensures Leads(INITIAL, s) && s.cli == Idle && 0 in s.live && 1 in s.live && s.pidFile == Some(1)
  {
    assert Run(INITIAL, []) == Some(INITIAL);
    StartFromNoFile(INITIAL, INITIAL);
    var started := State(Some(0), None, map[0 := Daemon(Boot, Off, false)], 1, Idle);
    assert INITIAL.live[0 := Daemon(Boot, Off, false)] == started.live;
    FirstDaemonServes(INITIAL, started);
    var serving := State(Some(0), Some(0), map[0 := Daemon(Serving, Armed, true)], 1, Idle);
    var ls :| Run(INITIAL, ls) == Some(serving);
    RunKeepsInv(INITIAL, ls);
    s := FailureMayLeaveTwo(serving, 0);
    LeadsOn(INITIAL, serving, ServeReturns(0), Next(serving, ServeReturns(0)).value);
    var before :| Run(INITIAL, before) == Some(Next(serving, ServeReturns(0)).value);
    var after :| Run(Next(serving, ServeReturns(0)).value, after) == Some(s);
    LeadsThrough(INITIAL, before, after);
  }
}
