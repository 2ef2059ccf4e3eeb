/** The option forms Finch supports, and what one turn of its scan makes of each. */
module NerdctlForms {
  import opened Wrappers
  import opened Strings
  import opened CommandLine
  import opened Nerdctl
  import Mounts

  /** Tables that keep Finch's special names out of the flags without values. */
  ghost predicate ValidTables(t: Tables) { ValidShorts(t) && ValidLongs(t) }

  ghost predicate ValidShorts(t: Tables) {
    && t.shortBool !! t.shortArg && 'e' in t.shortArg
    && '-' !in t.shortBool + t.shortArg && '=' !in t.shortBool + t.shortArg
    && (forall f :: f in t.shortBool + t.shortArg ==> !IsDigit(f))
  }

  ghost predicate ValidLongs(t: Tables) { forall n :: n in t.longBool ==> PlainLong(n) }

  predicate PlainLong(n: string) { OrdinaryLong(n) && n != "--mount" }

  /** A long flag name that Finch does not treat specially. */
  predicate OrdinaryLong(n: string) {
    && |n| > 2 && "--" <= n && '=' !in n
    && !("--env" <= n) && !("--add-host" <= n) && n != "--help" && n != "--debug"
  }

  ghost predicate ValidConfig(c: Config) { ValidTables(c.tables) && ValidOrder(c.order) }

  lemma OrdinaryByThirdLetter(n: string)
    requires |n| > 2 && "--" <= n && '=' !in n && n[2] !in {'a', 'e', 'h', 'm'} && n != "--debug"
    ensures PlainLong(n)
  {
  }

  lemma LongNamesAreOrdinary(cmd: Command)
    ensures ValidLongs(TablesOf(cmd))
  {
    OrdinaryByThirdLetter("--detach");
    OrdinaryByThirdLetter("--init");
    OrdinaryByThirdLetter("--interactive");
    OrdinaryByThirdLetter("--oom-kill-disable");
    OrdinaryByThirdLetter("--privileged");
    OrdinaryByThirdLetter("--read-only");
    OrdinaryByThirdLetter("--rm");
    OrdinaryByThirdLetter("--rootfs");
    OrdinaryByThirdLetter("--tty");
    OrdinaryByThirdLetter("--sig-proxy");
  }

  lemma ShortsAreValid(cmd: Command)
    ensures ValidShorts(TablesOf(cmd))
  {
  }

  lemma TablesAreValid(cmd: Command)
    ensures ValidTables(TablesOf(cmd))
  {
    ShortsAreValid(cmd);
    LongNamesAreOrdinary(cmd);
  }

  /** Whatever the host and the order of map visits, each command's configuration is one the results are about. */
  lemma ConfigIsValid(cmd: Command, host: Host, order: MapOrder)
    requires ValidOrder(order)
    ensures ValidConfig(ConfigOf(cmd, host, order))
  {
    TablesAreValid(cmd);
  }

  /** A separate value that Finch recognises as one. */
  predicate OkValue(v: string) { !("-" <= v) || IsNumeric(v) }

  lemma PrefixOfName(p: string, a: string)
    requires '=' !in p
    ensures p <= a <==> p <= Before(a, '=')
  {
    assert p <= a ==> forall i :: 0 <= i < |p| ==> a[i] == p[i] && a[i] != '=';
  }

  lemma NamesOf(a: string)
    requires |a| > 1 && a[0] == '-' && a[1] == '-'
    ensures "--" <= a && "--" <= Before(a, '=')
    ensures !("-e" <= a)
    ensures "--env" <= a <==> "--env" <= Before(a, '=')
    ensures "--env-file" <= a <==> "--env-file" <= Before(a, '=')
    ensures "--add-host" <= a <==> "--add-host" <= Before(a, '=')
  {
    PrefixOfName("--", a);
    PrefixOfName("--env", a);
    PrefixOfName("--env-file", a);
    PrefixOfName("--add-host", a);
  }

  lemma ShortIsNotSpecial(a: string)
    requires |a| > 1 && a[0] == '-' && a[1] != '-'
    ensures !("--" <= a) && !("--env-file" <= a) && !("--env" <= a) && !("--add-host" <= a)
    ensures a != "--debug" && a != "--help" && a != "--add-host"
    ensures Before(a, '=') != "--mount"
    ensures "-e" <= a <==> a[1] == 'e'
  {
    assert Before(a, '=') != "--mount" by {
      if |Before(a, '=')| > 1 { assert Before(a, '=')[1] == a[1]; }
    }
  }

  // ---- one turn, form by form ----

  lemma TurnLongBool(c: Config, a: string, rest: seq<string>)
    requires ValidTables(c.tables) && Before(a, '=') in c.tables.longBool
    ensures OptionStep(c, [a] + rest) == Ok(Step(Args([a]), InOptions, rest))
    ensures !Fires(c, a)
  {
    var n := Before(a, '=');
    assert PlainLong(n);
    assert a[0] == n[0] == '-' && a[1] == n[1] == '-';
    NamesOf(a);
    assert n <= a;
    assert '=' !in a ==> n == a;
    assert ([a] + rest)[1..] == rest;
  }

  lemma TurnOrdinaryLong(c: Config, a: string, rest: seq<string>)
    requires ValidTables(c.tables) && Before(a, '=') !in c.tables.longBool
    requires OrdinaryLong(Before(a, '='))
    ensures OptionStep(c, [a] + rest) == Ok(FlagStep(a, rest))
  {
    var n := Before(a, '=');
    assert a[0] == n[0] == '-' && a[1] == n[1] == '-';
    NamesOf(a);
    assert '=' !in a ==> n == a;
    assert a !in c.tables.longBool;
    assert ([a] + rest)[1..] == rest;
  }

  lemma TurnHelp(c: Config, rest: seq<string>)
    ensures OptionStep(c, ["--help"] + rest) == Ok(Step(Args(["--help"]), InOptions, rest))
    ensures !Fires(c, "--help")
  {
    assert (["--help"] + rest)[1..] == rest;
    assert '=' !in "--help";
    assert Before("--help", '=') == "--help";
  }

  lemma TurnDebug(c: Config, rest: seq<string>)
    ensures OptionStep(c, ["--debug"] + rest) == Ok(Step(NOTHING, InOptions, rest))
    ensures !Fires(c, "--debug")
  {
    assert (["--debug"] + rest)[1..] == rest;
    assert '=' !in "--debug";
    assert Before("--debug", '=') == "--debug";
  }

  lemma TurnAddHost(c: Config, v: string, rest: seq<string>)
    requires ':' in v
    ensures OptionStep(c, ["--add-host=" + v] + rest)
            == Ok(Step(Args(["--add-host=" + ResolveIP(v).value]), InOptions, rest))
    ensures !Fires(c, "--add-host=" + v)
  {
    var a := "--add-host=" + v;
    assert a[..11] == "--add-host=" && a[11..] == v;
    assert a[10] == '=';
    assert a != "--debug" && a != "--help" && a != "--add-host";
    assert "--add-host" <= a;
    assert ([a] + rest)[1..] == rest;
    CutGlued("--add-host", '=', v);
    assert a == "--add-host" + ['='] + v;
  }

  /** The two supported ways to name an environment file. */
  predicate EnvFileForm(a: string, next: string, name: string) {
    (a == "--env-file" && next == name) || a == "--env-file=" + name
  }

  lemma EnvFileNames(a: string, next: string, name: string)
    requires EnvFileForm(a, next, name)
    ensures "--env-file" <= a && EnvFileName(a, next) == name && Before(a, '=') == "--env-file"
  {
    if a == "--env-file" {
      assert '=' !in a;
    } else {
      assert a == "--env-file" + ['='] + name;
      CutGlued("--env-file", '=', name);
      assert a[11..] == name;
    }
  }

  /** Nothing that begins with `--env` is another special flag. */
  lemma EnvIsNoOther(a: string)
    requires "--env" <= a
    ensures !("--add-host" <= a) && a != "--debug" && a != "--help" && a != "--add-host" && Before(a, '=') != "--mount"
  {
    assert a[2] == 'e' && a[3] == 'n';
    if |Before(a, '=')| > 2 {
      assert Before(a, '=')[2] == 'e';
    }
  }

  lemma EnvFileToken(c: Config, a: string, next: string, name: string)
    requires EnvFileForm(a, next, name)
    ensures "--env-file" <= a && !("--add-host" <= a) && EnvFileName(a, next) == name && !Fires(c, a)
    ensures a != "--debug" && a != "--help" && a != "--add-host"
  {
    EnvFileNames(a, next, name);
    assert "--env" <= a;
    EnvIsNoOther(a);
  }

  lemma TurnEnvFile(c: Config, a: string, next: string, rest: seq<string>, name: string)
    requires EnvFileForm(a, next, name)
    ensures OptionStep(c, [a, next] + rest)
            == if name !in c.host.files then Err(OpenError)
               else if c.host.files[name].Broken? then Err(ReadError)
               else Ok(Step(NOTHING.(fileEnvs := LineEntries(c.host, c.host.files[name].lines)),
                            ModeAfter(a == "--env-file"), [next] + rest))
    ensures !Fires(c, a)
  {
    EnvFileToken(c, a, next, name);
    assert ([a, next] + rest)[1..] == [next] + rest;
  }

  /** The four supported ways to set a variable. */
  predicate EnvForm(a: string, next: string, v: string) {
    || ((a == "-e" || a == "--env") && next == v)
    || a == "--env=" + v
    || (a == "-e" + v && v != "" && v[0] != '=')
  }

  /** The token is seen as setting a variable, and nothing else. */
  lemma EnvTokenIs(a: string, next: string, v: string)
    requires EnvForm(a, next, v)
    ensures ArgIsEnv(a) && !("--env-file" <= a) && !("--add-host" <= a)
    ensures a != "--debug" && a != "--help" && a != "--add-host" && Before(a, '=') != "--mount"
  {
    if a[1] == 'e' {
      ShortIsNotSpecial(a);
    } else {
      assert "--env" <= a && (|a| > 5 ==> a[5] == '=');
      EnvIsNoOther(a);
    }
  }

  /** The value it gives. */
  lemma EnvValueIs(h: Host, a: string, next: string, v: string)
    requires EnvForm(a, next, v)
    ensures HandleEnv(h, a, next)
            == (a == "-e" || a == "--env", if '=' in v then v else if v in h.env then v + "=" + h.env[v] else "")
  {
    if a[1] == 'e' {
      assert a != "-e" ==> a[2..] == v;
    } else if a != "--env" {
      assert a == "--env" + ['='] + v && a[5] == '=';
      CutGlued("--env", '=', v);
    }
  }

  lemma TurnEnv(c: Config, a: string, next: string, rest: seq<string>, v: string)
    requires EnvForm(a, next, v)
    ensures OptionStep(c, [a, next] + rest)
            == Ok(Step(NOTHING.(envs := EnvEntry(c.host, v)), ModeAfter(a == "-e" || a == "--env"), [next] + rest))
    ensures !Fires(c, a)
  {
    assert ([a, next] + rest)[1..] == [next] + rest;
    EnvTokenIs(a, next, v);
    EnvValueIs(c.host, a, next, v);
    var e := HandleEnv(c.host, a, next).1;
    assert (if e == "" then [] else [e]) == EnvEntry(c.host, v);
  }

  lemma TurnShortBool(c: Config, a: string, rest: seq<string>)
    requires ValidTables(c.tables) && |a| == 2 && ShortIn(a, c.tables.shortBool)
    ensures OptionStep(c, [a] + rest) == Ok(Step(Args([a]), InOptions, rest))
    ensures !Fires(c, a)
  {
    ShortIsNotSpecial(a);
    assert ([a] + rest)[1..] == rest;
  }

  lemma LongNamesAreLong(c: Config, a: string)
    requires ValidTables(c.tables) && |a| > 1 && a[0] == '-' && a[1] != '-'
    ensures a !in c.tables.longBool && Before(a, '=') !in c.tables.longBool
  {
    assert Before(a, '=') in c.tables.longBool ==> PlainLong(Before(a, '='));
    assert a in c.tables.longBool ==> PlainLong(a);
  }

  lemma TurnGroup(c: Config, a: string, next: string, rest: seq<string>)
    requires ValidTables(c.tables) && |a| > 2 && ShortIn(a, c.tables.shortBool)
    ensures OptionStep(c, [a, next] + rest)
            == Ok(Step(Args([GroupHead(c.tables, a)]), InOptions, [GroupNext(c.tables, a, next)] + rest))
    ensures OptionStep(c, [a]) == Err(Panic)
    ensures !Fires(c, a)
  {
    ShortIsNotSpecial(a);
    LongNamesAreLong(c, a);
    assert ([a, next] + rest)[1..][0 := GroupNext(c.tables, a, next)] == [GroupNext(c.tables, a, next)] + rest;
  }

  lemma TurnShortArg(c: Config, a: string, rest: seq<string>)
    requires ValidTables(c.tables) && ShortIn(a, c.tables.shortArg) && a[1] != 'e'
    ensures OptionStep(c, [a] + rest) == Ok(FlagStep(a, rest))
    ensures !Fires(c, a)
  {
    ShortIsNotSpecial(a);
    LongNamesAreLong(c, a);
    assert ([a] + rest)[1..] == rest;
  }

  lemma TurnStop(c: Config, a: string, rest: seq<string>)
    requires ValidTables(c.tables) && Lex(c.tables, a) == Stop
    ensures OptionStep(c, [a] + rest) == Ok(Step(NOTHING.(cmd := [a]), InCommand, rest))
  {
    assert ([a] + rest)[1..] == rest;
    if |a| > 1 && a[0] == '-' {
      ShortIsNotSpecial(a);
      LongNamesAreLong(c, a);
    } else {
      assert !("--" <= a) && !("--env-file" <= a) && !("--env" <= a) && !("--add-host" <= a) && !("-e" <= a);
      assert a in c.tables.longBool ==> PlainLong(a);
      assert Before(a, '=') in c.tables.longBool ==> PlainLong(Before(a, '='));
    }
  }
}
