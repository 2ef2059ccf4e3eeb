/** Finch's rewriting of the arguments of `run`, `exec` and `compose` before they reach nerdctl in the VM. */
module Nerdctl {
  import opened Wrappers
  import opened Strings
  import opened CommandLine
  import EnvOrder
  import Mounts

  /** The order in which Go visits a map, which may differ from call to call. */
  type MapOrder = (nat, map<string, string>) -> seq<string>

  ghost predicate ValidOrder(order: MapOrder) { forall n, m :: Mounts.IsOrder(order(n, m), m) }

  datatype Config = Config(tables: Tables, handlesMount: bool, host: Host, order: MapOrder)

  function ConfigOf(cmd: Command, host: Host, order: MapOrder): Config {
    Config(TablesOf(cmd), cmd == ContainerRun, host, order)
  }

  /** What the scan has collected: arguments for nerdctl, environment entries, the trailing command. */
  datatype Output = Output(nerdctl: seq<string>, envs: seq<string>, fileEnvs: seq<string>, cmd: seq<string>)
  {
    function Plus(o: Output): Output {
      Output(nerdctl + o.nerdctl, envs + o.envs, fileEnvs + o.fileEnvs, cmd + o.cmd)
    }
  }

  const NOTHING := Output([], [], [], [])

  function Args(args: seq<string>): Output { NOTHING.(nerdctl := args) }

  /** Reading options, passing over a consumed value, or past the last option. */
  datatype Mode = InOptions | Skipping | InCommand

  datatype Step = Step(out: Output, mode: Mode, rest: seq<string>)

  predicate IsDigit(c: char) { '0' <= c <= '9' }

  /** A digit right after an optional minus sign. */
  predicate IsNumeric(s: string) {
    || (|s| > 0 && IsDigit(s[0]))
    || (|s| > 1 && s[0] == '-' && IsDigit(s[1]))
  }

  predicate ArgIsEnv(arg: string) { "-e" <= arg || ("--env" <= arg && !("--env-file" <= arg)) }

  /** `host-gateway` becomes the address by which the VM reaches its host; without a ':' the code panics. */
  function ResolveIP(host: string): Result<string> {
    if ':' !in host then Err(Panic)
    else if After(host, ':') == "host-gateway" then Ok(Before(host, ':') + ":192.168.5.2")
    else Ok(host)
  }

  /** Whether the value came from the next argument, and the entry to set, "" for none. */
  function HandleEnv(h: Host, arg: string, next: string): (bool, string) {
    var skip := arg == "-e" || arg == "--env";
    var v := if skip then next
             else if "-e" <= arg then arg[2..]
             else if '=' in arg then After(arg, '=')
             else arg;
    (skip, if '=' in v then v else if v in h.env then v + "=" + h.env[v] else "")
  }

  function EnvFileName(arg: string, next: string): string
    requires "--env-file" <= arg
  {
    if arg == "--env-file" then next else arg[11..]
  }

  function HandleEnvFile(h: Host, arg: string, next: string): Result<(bool, seq<string>)>
    requires "--env-file" <= arg
  {
    var name := EnvFileName(arg, next);
    if name !in h.files then Err(OpenError)
    else match h.files[name]
      case Broken => Err(ReadError)
      case Lines(lines) => Ok((arg == "--env-file", LineEntries(h, lines)))
  }

  /** Whether the value came from the next argument, and the flag and value; no flag when it is dropped. */
  function HandleFlagArg(arg: string, next: string): (bool, string, string) {
    if "--" <= arg && '=' in arg then (false, Before(arg, '='), After(arg, '='))
    else if "--" <= arg && (IsNumeric(next) || !("-" <= next)) then (true, arg, next)
    else if "-" <= arg && '=' in arg then (false, Before(arg, '='), After(arg, '='))
    else if "-" <= arg && |arg| > 2 then (false, arg[..2], arg[2..])
    else if "-" <= arg && |arg| == 2 && (IsNumeric(next) || !("-" <= next)) then (true, arg, next)
    else (false, "", "")
  }

  predicate ArgFlagMid(t: Tables, arg: string) {
    exists k :: 0 <= k < |arg| - 1 && arg[k] != '-' && arg[k] in t.shortArg
  }

  predicate ArgFlagFinal(t: Tables, arg: string) {
    arg != "" && arg[|arg| - 1] != '-' && arg[|arg| - 1] in t.shortArg
  }

  /** A group that ends in a value flag hands that flag over to the next argument. */
  predicate Splits(t: Tables, arg: string) { !ArgFlagMid(t, arg) && ArgFlagFinal(t, arg) }

  function GroupHead(t: Tables, arg: string): string {
    if Splits(t, arg) then arg[..|arg| - 1] else arg
  }

  function GroupNext(t: Tables, arg: string, next: string): string {
    if Splits(t, arg) then "-" + arg[|arg| - 1..] + next else next
  }

  predicate ShortIn(arg: string, flags: set<char>) { |arg| > 1 && arg[0] == '-' && arg[1] in flags }

  /** True iff the `--mount` handler is called at this token, wherever it stands. */
  predicate Fires(c: Config, tok: string) { c.handlesMount && Before(tok, '=') == "--mount" }

  function NewMountValue(c: Config, n: nat, v: string): string
    requires ValidOrder(c.order)
  {
    assert Mounts.IsOrder(c.order(n, Mounts.Kept(Mounts.Parse(v)).fields), Mounts.Kept(Mounts.Parse(v)).fields);
    Mounts.Rewritten(v, c.order(n, Mounts.Kept(Mounts.Parse(v)).fields))
  }

  /** The arguments from here on, after the argument handler has run at the first of them. */
  function Handled(c: Config, ts: seq<string>): Result<seq<string>>
    requires ts != [] && ValidOrder(c.order)
  {
    if !Fires(c, ts[0]) then Ok(ts)
    else if '=' in ts[0] then Ok(ts[0 := Before(ts[0], '=') + "=" + NewMountValue(c, |ts|, After(ts[0], '='))])
    else if |ts| == 1 then Err(HandlerError)
    else Ok(ts[1 := NewMountValue(c, |ts|, ts[1])])
  }

  function ModeAfter(skip: bool): Mode { if skip then Skipping else InOptions }

  function FlagStep(arg: string, rest: seq<string>): Step {
    if rest == [] then Step(Args([arg]), InOptions, rest)
    else
      var (skip, key, val) := HandleFlagArg(arg, rest[0]);
      Step(if key == "" then NOTHING else Args([key, val]), ModeAfter(skip), rest)
  }

  /** The scanning loop's switch on one argument, before the last option has been seen. */
  function OptionStep(c: Config, ts: seq<string>): Result<Step>
    requires ts != []
  {
    var arg, rest := ts[0], ts[1..];
    if arg == "--debug" then Ok(Step(NOTHING, InOptions, rest))
    else if arg == "--help" then Ok(Step(Args([arg]), InOptions, rest))
    else if arg == "--add-host" then
      if rest == [] then Ok(Step(Args([arg]), InOptions, rest))
      else match ResolveIP(rest[0])
        case Err(e) => Err(e)
        case Ok(ip) => Ok(Step(Args([arg]), InOptions, rest[0 := ip]))
    else if "--add-host" <= arg then
      match ResolveIP(arg[11..])
      case Err(e) => Err(e)
      case Ok(ip) => Ok(Step(Args([arg[..11] + ip]), InOptions, rest))
    else if "--env-file" <= arg then
      if rest == [] then Ok(Step(Args([arg]), InOptions, rest))
      else match HandleEnvFile(c.host, arg, rest[0])
        case Err(e) => Err(e)
        case Ok((skip, es)) => Ok(Step(NOTHING.(fileEnvs := es), ModeAfter(skip), rest))
    else if ArgIsEnv(arg) then
      if rest == [] then Ok(Step(Args([arg]), InOptions, rest))
      else
        var (skip, e) := HandleEnv(c.host, arg, rest[0]);
        Ok(Step(NOTHING.(envs := if e == "" then [] else [e]), ModeAfter(skip), rest))
    else if (|arg| == 2 && ShortIn(arg, c.tables.shortBool)) || arg in c.tables.longBool then
      Ok(Step(Args([arg]), InOptions, rest))
    else if Before(arg, '=') in c.tables.longBool then
      Ok(Step(Args([arg]), InOptions, rest))
    else if ShortIn(arg, c.tables.shortBool) then
      if rest == [] then Err(Panic)
      else Ok(Step(Args([GroupHead(c.tables, arg)]), InOptions, rest[0 := GroupNext(c.tables, arg, rest[0])]))
    else if ShortIn(arg, c.tables.shortArg) then Ok(FlagStep(arg, rest))
    else if "--" <= arg then Ok(FlagStep(arg, rest))
    else Ok(Step(NOTHING.(cmd := [arg]), InCommand, rest))
  }

  /** One turn of the scanning loop. */
  function Turn(c: Config, mode: Mode, toks: seq<string>): (r: Result<Step>)
    requires toks != [] && ValidOrder(c.order)
    ensures r.Ok? ==> |r.value.rest| == |toks| - 1
  {
    match Handled(c, toks)
    case Err(e) => Err(e)
    case Ok(ts) =>
      match mode
      case Skipping => Ok(Step(NOTHING, InOptions, ts[1..]))
      case InCommand => Ok(Step(NOTHING.(cmd := [ts[0]]), InCommand, ts[1..]))
      case InOptions => OptionStep(c, ts)
  }

  function Add(out: Output, r: Result<Output>): Result<Output> {
    match r
    case Err(e) => Err(e)
    case Ok(o) => Ok(out.Plus(o))
  }

  /** The whole scan from `toks` on. */
  function Scan(c: Config, mode: Mode, toks: seq<string>): Result<Output>
    requires ValidOrder(c.order)
    decreases |toks|
  {
    if toks == [] then Ok(NOTHING)
    else match Turn(c, mode, toks)
      case Err(e) => Err(e)
      case Ok(s) => Add(s.out, Scan(c, s.mode, s.rest))
  }

  /** Position of the first option: after a leading `run`, at the start, or -1 for none. */
  function FirstOptPos(args: seq<string>): int {
    if |args| > 1 && args[0] == "run" && "-" <= args[1] then 1
    else if |args| > 0 && "-" <= args[0] then 0
    else if args == [] then 0
    else -1
  }

  /** Number of arguments passed on before the scan for options begins. */
  function Prefix(args: seq<string>): (n: nat)
    ensures n <= |args|
  {
    if FirstOptPos(args) == 1 then 1 else 0
  }

  function Assemble(o: Output): seq<string> {
    o.nerdctl + EnvOrder.Args(EnvOrder.Merge(o.fileEnvs + o.envs)) + o.cmd
  }

  /** The arguments nerdctl receives. */
  function Rewrite(c: Config, args: seq<string>): Result<seq<string>>
    requires ValidOrder(c.order)
  {
    var line := if args == [] then ["--help"] else args;
    match Scan(c, InOptions, line[Prefix(line)..])
    case Err(e) => Err(e)
    case Ok(o) => Ok(line[..Prefix(line)] + Assemble(o))
  }
}
