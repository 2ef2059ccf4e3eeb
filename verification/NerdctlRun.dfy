/** The rewriting loop as Finch runs it: over a slice of arguments that it changes in place. */
module NerdctlRun {
  import opened Wrappers
  import opened Strings
  import opened CommandLine
  import opened Nerdctl
  import opened NerdctlForms
  import opened NerdctlMeaning
  import EnvOrder
  import Mounts

  /** Whether an argument is a number, such as 5, -5, 5s and -5s. */
  method IsNumericArg(arg: string) returns (numeric: bool)
    ensures numeric <==> IsNumeric(arg)
  {
    if arg == "" {
      return false;
    }
    if arg[0] == '-' && |arg| > 1 {
      var i := 1;
      while i < |arg|
        invariant 1 <= i <= |arg|
        invariant forall k :: 1 <= k < i ==> IsDigit(arg[k])
      {
        if !IsDigit(arg[i]) {
          return i > 1;
        }
        i := i + 1;
      }
      assert IsDigit(arg[1]);
      return true;
    }
    var i := 0;
    while i < |arg|
      invariant 0 <= i <= |arg|
      invariant forall k :: 0 <= k < i ==> IsDigit(arg[k])
    {
      if !IsDigit(arg[i]) {
        return i > 0;
      }
      i := i + 1;
    }
    return true;
  }

  /** The loop over the lines of an environment file. */
  method ReadEnvLines(h: Host, lines: seq<string>) returns (envs: seq<string>)
    ensures envs == LineEntries(h, lines)
  {
    envs := [];
    for i := 0 to |lines|
      invariant envs == LineEntries(h, lines[..i])
    {
      var line := Trim(lines[i]);
      assert lines[..i + 1][..i] == lines[..i];
      if line == "" {
        continue;
      }
      if line[0] == '#' {
        continue;
      } else if '=' !in line {
        if line in h.env {
          envs := envs + [line + "=" + h.env[line]];
        }
      } else {
        envs := envs + [line];
      }
    }
    assert lines[..|lines|] == lines;
  }

  /** Gives a group's trailing value flag to the next argument; the next argument must be there. */
  method HandleMultipleShortFlags(t: Tables, args: array<string>, index: nat) returns (r: Result<string>)
    requires index < args.Length
    modifies args
    ensures index + 1 == args.Length ==> r == Err(Panic) && args[..] == old(args[..])
    ensures index + 1 < args.Length ==>
              && r == Ok(GroupHead(t, old(args[index])))
              && args[..] == old(args[..])[index := GroupHead(t, old(args[index]))]
                                          [index + 1 := GroupNext(t, old(args[index]), old(args[index + 1]))]
  {
    if index + 1 >= args.Length {
      return Err(Panic);
    }
    var arg, nextArg := args[index], args[index + 1];
    var argFlagFinal, argFlagMid := false, false;
    var lastPos := |arg| - 1;
    for i := 0 to |arg|
      invariant args[..] == old(args[..])
      invariant argFlagMid <==> exists k :: 0 <= k < i && k < lastPos && arg[k] != '-' && arg[k] in t.shortArg
      invariant argFlagFinal <==> i == |arg| && ArgFlagFinal(t, arg)
    {
      var ch := arg[i];
      if ch == '-' {
        continue;
      }
      if i != lastPos && ch in t.shortArg {
        argFlagMid := true;
      } else if i == lastPos && ch in t.shortArg {
        argFlagFinal := true;
      }
    }
    assert argFlagMid <==> ArgFlagMid(t, arg);
    if !argFlagMid && argFlagFinal {
      args[index + 1] := "-" + arg[lastPos..] + nextArg;
      args[index] := arg[..lastPos];
      arg := args[index];
    }
    r := Ok(arg);
  }

  /** Parses a mount value and prints it again without `consistency`, if it is a bind mount. */
  method RewriteMountValue(c: Config, n: nat, v: string) returns (bind: bool, s: string)
    requires ValidOrder(c.order)
    ensures s == NewMountValue(c, n, v) && (!bind ==> s == v)
  {
    var m, ro := Mounts.ParseMountValue(v);
    bind, s := "type" in m && m["type"] == "bind", v;
    if bind {
      m := m - {"consistency"};
      s := Mounts.MapToString(m, c.order(n, m));
      if |ro| > 0 {
        s := s + "," + Join(ro, ',');
      }
    }
  }

  /** The `--mount` handler: changes the token it is called at, or the one after it. */
  method HandleBindMounts(c: Config, args: array<string>, index: nat) returns (r: Result<()>)
    requires index < args.Length && ValidOrder(c.order) && Fires(c, args[index])
    modifies args
    ensures match Handled(c, old(args[index..]))
            case Err(e) => r == Err(e) && args[..] == old(args[..])
            case Ok(ts) => r == Ok(()) && args[..] == old(args[..index]) + ts
  {
    var prefix := args[index];
    var v, found := "", '=' in prefix;
    if found {
      v := After(prefix, '=');
    } else if index + 1 < args.Length {
      v := args[index + 1];
    } else {
      return Err(HandlerError);
    }
    ghost var before := args[..];
    var bind, s := RewriteMountValue(c, args.Length - index, v);
    if !bind {
      KeepsSlice(before, index, Before(prefix, '='), v);
      assert before == before[..index] + before[index..];
      return Ok(());
    }
    if found {
      args[index] := Before(prefix, '=') + "=" + s;
    } else {
      args[index + 1] := s;
    }
    r := Ok(());
  }

  /** Writing back what a token or its neighbour already holds changes nothing. */
  lemma KeepsSlice(args: seq<string>, index: nat, k: string, v: string)
    requires index < |args| && k == Before(args[index], '=')
    requires v == if '=' in args[index] then After(args[index], '=') else if index + 1 < |args| then args[index + 1] else ""
    ensures '=' in args[index] ==> args[index..][0 := k + "=" + v] == args[index..]
    ensures '=' !in args[index] && index + 1 < |args| ==> args[index..][1 := v] == args[index..]
  {
    if '=' in args[index] {
      CutRejoins(args[index], '=');
    }
  }

  /** The switch on one argument, for a scan that has not yet seen the last option. */
  method ScanOption(c: Config, args: array<string>, i: nat, firstOptPos: int)
      returns (r: Result<Output>, skip: bool, lastOpt: bool)
    requires i < args.Length
    modifies args
    ensures args[..i] == old(args[..i])
    ensures match OptionStep(c, old(args[i..]))
            case Err(e) => r == Err(e)
            case Ok(s) =>
              && args[i + 1..] == s.rest
              && if s.mode == InCommand && i < firstOptPos then r == Ok(Args([old(args[i])])) && !skip && !lastOpt
                 else r == Ok(s.out) && skip == (s.mode == Skipping) && lastOpt == (s.mode == InCommand)
  {
    var arg := args[i];
    ghost var rest := args[i..][1..];
    assert rest == args[i + 1..];
    skip, lastOpt := false, false;
    var last := i + 1 == args.Length;
    if arg == "--debug" {
      r := Ok(NOTHING);
    } else if arg == "--help" {
      r := Ok(Args([arg]));
    } else if arg == "--add-host" {
      if !last {
        var ip := ResolveIP(args[i + 1]);
        if ip.Err? {
          return Err(ip.error), false, false;
        }
        args[i + 1] := ip.value;
      }
      r := Ok(Args([arg]));
    } else if "--add-host" <= arg {
      var ip := ResolveIP(arg[11..]);
      if ip.Err? {
        return Err(ip.error), false, false;
      }
      r := Ok(Args([arg[..11] + ip.value]));
    } else if "--env-file" <= arg {
      if !last {
        var read := HandleEnvFile(c.host, arg, args[i + 1]);
        if read.Err? {
          return Err(read.error), false, false;
        }
        skip := read.value.0;
        r := Ok(NOTHING.(fileEnvs := read.value.1));
      } else {
        r := Ok(Args([arg]));
      }
    } else if ArgIsEnv(arg) {
      if !last {
        var (shouldSkip, addEnv) := HandleEnv(c.host, arg, args[i + 1]);
        skip := shouldSkip;
        r := Ok(NOTHING.(envs := if addEnv == "" then [] else [addEnv]));
      } else {
        r := Ok(Args([arg]));
      }
    } else if (|arg| == 2 && ShortIn(arg, c.tables.shortBool)) || arg in c.tables.longBool {
      r := Ok(Args([arg]));
    } else if Before(arg, '=') in c.tables.longBool {
      r := Ok(Args([arg]));
    } else if ShortIn(arg, c.tables.shortBool) {
      var head := HandleMultipleShortFlags(c.tables, args, i);
      if head.Err? {
        return Err(head.error), false, false;
      }
      r := Ok(Args([head.value]));
    } else if ShortIn(arg, c.tables.shortArg) || "--" <= arg {
      if !last {
        var (shouldSkip, key, val) := HandleFlagArg(arg, args[i + 1]);
        skip := shouldSkip;
        r := Ok(if key == "" then NOTHING else Args([key, val]));
      } else {
        r := Ok(Args([arg]));
      }
    } else if i < firstOptPos {
      r := Ok(Args([arg]));
    } else {
      lastOpt := true;
      r := Ok(NOTHING.(cmd := [arg]));
    }
  }

  function ModeOf(skip: bool, lastOpt: bool): Mode {
    if skip then Skipping else if lastOpt then InCommand else InOptions
  }

  /** What the loop has still to add, from token `i` on, when the first `p` tokens go to nerdctl as they are. */
  function Remaining(c: Config, p: nat, i: nat, mode: Mode, toks: seq<string>): Result<Output>
    requires ValidOrder(c.order)
  {
    if i < p && toks != [] then Add(Args([toks[0]]), Scan(c, mode, toks[1..])) else Scan(c, mode, toks)
  }

  lemma RunIsNoOption(c: Config, toks: seq<string>)
    requires ValidConfig(c) && toks != [] && toks[0] == "run"
    ensures !Fires(c, toks[0]) && OptionStep(c, toks) == Ok(Step(NOTHING.(cmd := ["run"]), InCommand, toks[1..]))
  {
    assert toks == ["run"] + toks[1..];
    TurnStop(c, "run", toks[1..]);
    assert '=' !in "run";
    assert Before("run", '=') == "run" && |"--mount"| == 7;
  }

  /** One turn of the loop at token `i`. */
  method ScanTurn(c: Config, args: array<string>, i: nat, firstOptPos: int, skip: bool, lastOpt: bool)
      returns (r: Result<Output>, skip': bool, lastOpt': bool)
    requires i < args.Length && ValidConfig(c) && !(skip && lastOpt)
    requires i < firstOptPos ==> !skip && !lastOpt && args[i] == "run"
    modifies args
    ensures args[..i] == old(args[..i]) && !(r.Ok? && skip' && lastOpt')
    ensures var toks := old(args[i..]);
            if i < firstOptPos then r == Ok(Args([toks[0]])) && !skip' && !lastOpt' && args[i + 1..] == toks[1..]
            else match Turn(c, ModeOf(skip, lastOpt), toks)
              case Err(e) => r == Err(e)
              case Ok(s) => r == Ok(s.out) && ModeOf(skip', lastOpt') == s.mode && args[i + 1..] == s.rest
  {
    skip', lastOpt' := skip, lastOpt;
    ghost var toks := args[i..];
    if i < firstOptPos {
      RunIsNoOption(c, toks);
    }
    if Fires(c, args[i]) {
      var handled := HandleBindMounts(c, args, i);
      if handled.Err? {
        return Err(handled.error), skip, lastOpt;
      }
    }
    assert Handled(c, toks) == Ok(args[i..]);
    if skip {
      skip', r := false, Ok(NOTHING);
    } else if lastOpt {
      r := Ok(NOTHING.(cmd := [args[i]]));
    } else {
      r, skip', lastOpt' := ScanOption(c, args, i, firstOptPos);
    }
  }

  lemma TurnThenRest(c: Config, acc: Output, p: nat, i: nat, mode: Mode, toks: seq<string>, s: Step)
    requires ValidConfig(c) && toks != []
    requires if i < p then i + 1 == p && s == Step(Args([toks[0]]), mode, toks[1..]) else Turn(c, mode, toks) == Ok(s)
    ensures Add(acc.Plus(s.out), Remaining(c, p, i + 1, s.mode, s.rest)) == Add(acc, Remaining(c, p, i, mode, toks))
  {
    AddTwice(acc, s.out, Scan(c, s.mode, s.rest));
  }

  lemma TurnFails(c: Config, acc: Output, p: nat, i: nat, mode: Mode, toks: seq<string>)
    requires ValidConfig(c) && toks != [] && p <= i && Turn(c, mode, toks).Err?
    ensures Add(acc, Remaining(c, p, i, mode, toks)) == Err(Turn(c, mode, toks).error)
  {
  }

  lemma AddNothingLast(out: Output)
    ensures out.Plus(NOTHING) == out
  {
  }

  /** The scanning loop. */
  method ScanLoop(c: Config, line: array<string>, firstOptPos: int) returns (r: Result<Output>)
    requires ValidConfig(c) && line.Length > 0 && firstOptPos == FirstOptPos(line[..])
    modifies line
    ensures r == Remaining(c, Prefix(old(line[..])), 0, InOptions, old(line[..]))
  {
    ghost var p := Prefix(line[..]);
    ghost var whole := Remaining(c, p, 0, InOptions, line[..]);
    var out := NOTHING;
    var skip, lastOpt := false, false;
    var i := 0;
    assert line[0..] == line[..];
    AddNothing(whole);
    while i < line.Length
      invariant 0 <= i <= line.Length && !(skip && lastOpt)
      invariant i < p ==> !skip && !lastOpt && line[i] == "run"
      invariant Add(out, Remaining(c, p, i, ModeOf(skip, lastOpt), line[i..])) == whole
    {
      ghost var toks, mode := line[i..], ModeOf(skip, lastOpt);
      var added: Result<Output>;
      added, skip, lastOpt := ScanTurn(c, line, i, firstOptPos, skip, lastOpt);
      if added.Err? {
        TurnFails(c, out, p, i, mode, toks);
        return Err(added.error);
      }
      TurnThenRest(c, out, p, i, mode, toks, Step(added.value, ModeOf(skip, lastOpt), line[i + 1..]));
      out := out.Plus(added.value);
      i := i + 1;
    }
    AddNothingLast(out);
    r := Ok(out);
  }

  lemma WholeLine(c: Config, input: seq<string>)
    requires ValidConfig(c) && input != []
    ensures Rewrite(c, input) == match Remaining(c, Prefix(input), 0, InOptions, input)
                                 case Err(e) => Err(e)
                                 case Ok(o) => Ok(Assemble(o))
  {
    var p := Prefix(input);
    assert input[0..] == input;
    var rest := Scan(c, InOptions, input[p..]);
    if rest.Ok? {
      if p == 1 {
        PrefixAssembles(input[0], rest.value);
        assert input[..1] == [input[0]];
      } else {
        assert input[..0] + Assemble(rest.value) == Assemble(rest.value);
      }
    }
  }

  lemma PrefixAssembles(a: string, o: Output)
    ensures Assemble(Args([a]).Plus(o)) == [a] + Assemble(o)
  {
    var none: seq<string> := [];
    assert none + o.envs == o.envs && none + o.fileEnvs == o.fileEnvs && none + o.cmd == o.cmd;
  }

  /** The rewriting of a command's arguments. It yields exactly what the specification function gives. */
  method Run(c: Config, args: array<string>) returns (r: Result<seq<string>>)
    requires ValidConfig(c)
    modifies args
    ensures r == Rewrite(c, old(args[..]))
  {
    var line := args;
    if args.Length == 0 {
      line := new string[1];
      line[0] := "--help";
    }
    assert line[..] == if args[..] == [] then ["--help"] else args[..];
    WholeLine(c, line[..]);
    var firstOptPos := -1;
    if line.Length > 1 && line[0] == "run" && "-" <= line[1] {
      firstOptPos := 1;
    } else if "-" <= line[0] {
      firstOptPos := 0;
    }
    var scanned := ScanLoop(c, line, firstOptPos);
    if scanned.Err? {
      return Err(scanned.error);
    }
    var envArgs := EnvOrder.MergeEnv(scanned.value.fileEnvs, scanned.value.envs);
    r := Ok(scanned.value.nerdctl + envArgs + scanned.value.cmd);
  }
}
