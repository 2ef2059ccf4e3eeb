/** The credential daemon and the command line that starts and stops it, as interleaved steps over a PID
    file, a socket and signals. */
module CredDaemon {
  import opened Wrappers

  type Pid = nat

  /** Where the daemon's main goroutine is: starting up, serving, or in its deferred cleanup. */
  datatype Main = Boot | Unlinked | Bound | Ready | Serving | Closing | Unlinking | Forgetting | Leaving

  /** Where the signal goroutine is: not registered, waiting, or in its own cleanup. */
  datatype Sig = Off | Armed | SigClosing | SigUnlinking | SigForgetting | SigLeaving

  datatype Daemon = Daemon(main: Main, sig: Sig, open: bool)

  /** What the command line is doing: the steps of one command at a time. */
  datatype Cli =
    | Idle
    | GuardRead                    // IsDaemonRunning, before starting
    | GuardProbe(p: Pid)
    | StartRead                    // StartCredentialServer
    | RecheckRead
    | RecheckProbe(p: Pid)
    | RemoveStale
    | MakeDirs
    | Spawn
    | WritePid(p: Pid)
    | TermRead                     // stopDaemon
    | TermProbe(p: Pid)
    | TermSend(p: Pid)
    | Poll(p: Pid, tries: nat)
    | Kill(p: Pid)
    | RemovePid

  datatype State = State(pidFile: Option<Pid>, socket: Option<Pid>, live: map<Pid, Daemon>, next: Pid, cli: Cli)

  const POLLS: nat := 20

  datatype Label =
    | BeginStart                   // after a successful start or init of the machine
    | BeginStop
    | CliStep
    | CliFails                     // the system call of this step fails
    | MainStep(p: Pid)
    | MainFails(p: Pid)            // a start-up step fails, and the daemon with it
    | ServeReturns(p: Pid)
    | SigStep(p: Pid)

  predicate Alive(s: State, p: Pid) { p in s.live }

  // ---- the command line ----

  function CliNext(s: State): State {
    match s.cli
    case Idle => s
    case GuardRead => s.(cli := if s.pidFile.Some? then GuardProbe(s.pidFile.value) else StartRead)
    case GuardProbe(p) => s.(cli := if Alive(s, p) then Idle else StartRead)
    case StartRead => s.(cli := if s.pidFile.Some? then RecheckRead else MakeDirs)
    case RecheckRead => s.(cli := if s.pidFile.Some? then RecheckProbe(s.pidFile.value) else RemoveStale)
    case RecheckProbe(p) => s.(cli := if Alive(s, p) then MakeDirs else RemoveStale)
    case RemoveStale => s.(cli := MakeDirs, pidFile := None)
    case MakeDirs => s.(cli := Spawn)
    case Spawn => s.(cli := WritePid(s.next), live := s.live[s.next := Daemon(Boot, Off, false)], next := s.next + 1)
    case WritePid(p) => s.(cli := Idle, pidFile := Some(p))
    case TermRead => s.(cli := if s.pidFile.Some? then TermProbe(s.pidFile.value) else RemovePid)
    case TermProbe(p) => s.(cli := if Alive(s, p) then TermSend(p) else RemovePid)
    case TermSend(p) => if Alive(s, p) then Terminate(s, p) else s.(cli := RemovePid)
    case Poll(p, k) =>
      s.(cli := if k >= POLLS then Kill(p) else if Alive(s, p) then Poll(p, k + 1) else RemovePid)
    case Kill(p) => s.(cli := RemovePid, live := s.live - {p})
    case RemovePid => s.(cli := Idle, pidFile := None)
  }

  /** SIGTERM wakes the signal goroutine, or kills a daemon that has not registered one. */
  function Terminate(s: State, p: Pid): State
    requires p in s.live
  {
    var d := s.live[p];
    var live := if d.sig == Off then s.live - {p}
                else if d.sig == Armed then s.live[p := d.(sig := SigClosing)]
                else s.live;
    s.(cli := Poll(p, 0), live := live)
  }

  /** Removing a stale PID file may fail quietly; the directory or the process may fail to be made. */
  function CliNextFails(s: State): Option<State> {
    match s.cli
    case RemoveStale => Some(s.(cli := MakeDirs))
    case MakeDirs => Some(s.(cli := Idle))
    case Spawn => Some(s.(cli := Idle))
    case _ => None
  }

  // ---- the daemon ----

  function With(s: State, p: Pid, d: Daemon): State { s.(live := s.live[p := d]) }

  function Gone(s: State, p: Pid): State { s.(live := s.live - {p}) }

  /** Closing the listener also unlinks the socket path, once. */
  function CloseListener(s: State, d: Daemon): State { if d.open then s.(socket := None) else s }

  function MainNext(s: State, p: Pid): Option<State>
    requires p in s.live
  {
    var d := s.live[p];
    match d.main
    case Boot => Some(With(s, p, d.(main := Unlinked)).(socket := None))
    case Unlinked => if s.socket.Some? then Some(Gone(s, p))
                     else Some(With(s, p, d.(main := Bound, open := true)).(socket := Some(p)))
    case Bound => Some(With(s, p, d.(main := Ready)))
    case Ready => Some(With(s, p, d.(main := Serving, sig := Armed)))
    case Serving => None
    case Closing => Some(With(CloseListener(s, d), p, d.(main := Unlinking, open := false)))
    case Unlinking => Some(With(s, p, d.(main := Forgetting)).(socket := None))
    case Forgetting => Some(With(s, p, d.(main := Leaving)).(pidFile := None))
    case Leaving => Some(Gone(s, p))
  }

  function MainNextFails(s: State, p: Pid): Option<State>
    requires p in s.live
  {
    match s.live[p].main
    case Boot => Some(Gone(s, p))
    case Unlinked => Some(Gone(s, p))
    case Bound => Some(Gone(s, p).(socket := None))
    case _ => None
  }

  function SigNext(s: State, p: Pid): Option<State>
    requires p in s.live
  {
    var d := s.live[p];
    match d.sig
    case SigClosing => Some(With(CloseListener(s, d), p, d.(sig := SigUnlinking, open := false)))
    case SigUnlinking => Some(With(s, p, d.(sig := SigForgetting)).(socket := None))
    case SigForgetting => Some(With(s, p, d.(sig := SigLeaving)).(pidFile := None))
    case SigLeaving => Some(Gone(s, p))
    case _ => None
  }

  function Next(s: State, l: Label): Option<State> {
    match l
    case BeginStart => if s.cli == Idle then Some(s.(cli := GuardRead)) else None
    case BeginStop => if s.cli == Idle then Some(s.(cli := TermRead)) else None
    case CliStep => if s.cli == Idle then None else Some(CliNext(s))
    case CliFails => CliNextFails(s)
    case MainStep(p) => if p in s.live then MainNext(s, p) else None
    case MainFails(p) => if p in s.live then MainNextFails(s, p) else None
    case ServeReturns(p) =>
      if p in s.live && s.live[p].main == Serving then Some(With(s, p, s.live[p].(main := Closing))) else None
    case SigStep(p) => if p in s.live then SigNext(s, p) else None
  }

  const INITIAL := State(None, None, map[], 0, Idle)

  /** The states reached by a sequence of steps from `s`. */
  function Run(s: State, ls: seq<Label>): Option<State>
    decreases |ls|
  {
    if ls == [] then Some(s)
    else match Next(s, ls[0])
      case None => None
      case Some(s') => Run(s', ls[1..])
  }

  // ---- the invariant ----

  predicate Signalled(d: Daemon) { d.sig != Off && d.sig != Armed }

  /** The stop command is waiting for `p`. */
  predicate Awaits(cli: Cli, p: Pid) { (cli.Poll? || cli.Kill?) && cli.p == p }

  /** The command has read its `p` in the PID file. */
  predicate HasRead(cli: Cli) {
    cli.TermProbe? || cli.TermSend? || cli.Poll? || cli.Kill? || cli.GuardProbe? || cli.RecheckProbe?
  }

  /** Past its cleanup, or about to be killed by nothing but its own exit: it touches no file any more. */
  predicate Spent(d: Daemon) { d.main == Leaving && !Signalled(d) }

  /** All live daemons other than `p` have finished their cleanup. */
  ghost predicate OthersSpent(s: State, p: Option<Pid>) {
    forall q :: q in s.live && Some(q) != p ==> Spent(s.live[q])
  }

  /** The start command has found no running daemon. */
  predicate Starts(cli: Cli) {
    cli.StartRead? || cli.RecheckRead? || cli.RecheckProbe? || cli.RemoveStale? || cli.MakeDirs? || cli.Spawn?
  }

  /** A live daemon is named by the PID file, or about to be, or being stopped, or past its cleanup. */
  predicate Accounted(s: State, p: Pid)
    requires p in s.live
  {
    s.pidFile == Some(p) || s.cli == WritePid(p) || Awaits(s.cli, p) || Spent(s.live[p])
  }

  predicate Known(s: State, o: Option<Pid>) { o.Some? ==> o.value < s.next }

  predicate StartingUp(d: Daemon) { d.main.Boot? || d.main.Unlinked? || d.main.Bound? || d.main.Ready? }

  /** What is consistent within one daemon. */
  predicate Coherent(d: Daemon) {
    && (!StartingUp(d) <==> d.sig != Off)
    && (!Signalled(d) && (d.main.Bound? || d.main.Ready? || d.main.Serving?) ==> d.open)
    && (d.open ==> d.main.Bound? || d.main.Ready? || d.main.Serving? || d.main.Closing?)
  }

  ghost predicate Inv(s: State) {
    && (forall p :: p in s.live ==> p < s.next && Accounted(s, p) && Coherent(s.live[p]))
    && Known(s, s.pidFile)
    && (forall p :: p in s.live && Signalled(s.live[p]) ==> Awaits(s.cli, p))
    && (Starts(s.cli) || s.cli == RemovePid ==> OthersSpent(s, None))
    && (s.cli.WritePid? ==> s.cli.p < s.next && OthersSpent(s, Some(s.cli.p)) && s.pidFile != Some(s.cli.p))
    && (HasRead(s.cli) ==> s.pidFile.None? || s.pidFile == Some(s.cli.p))
    && (s.cli.Poll? ==> s.cli.tries <= POLLS)
    && (forall p :: p in s.live && s.live[p].open && !Signalled(s.live[p]) ==> s.socket == Some(p))
  }
}
