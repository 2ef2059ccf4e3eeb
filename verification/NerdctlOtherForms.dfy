/** The forms of options that are not well formed, and what the scan makes of each. */
module NerdctlOtherForms {
  import opened Wrappers
  import opened Strings
  import opened CommandLine
  import opened Nerdctl
  import opened NerdctlForms
  import opened NerdctlMeaning
  import opened NerdctlTheorems
  import opened NerdctlCanonical
  import opened NerdctlEndings
  import opened NerdctlGroups

  // ---- a value glued to a short flag ----

  /** Flag and value as `handleFlagArg` cuts them. */
  function CutShort(f: char, x: string): (string, string)
    requires x != ""
  {
    if x[0] == '=' then (['-', f], x[1..])
    else if '=' in x then (['-', f] + Before(x, '='), After(x, '='))
    else (['-', f], x)
  }

  /** Where the value is cut, so is the token. */
  lemma CutBehind(lead: string, x: string)
    requires '=' in x && '=' !in lead
    ensures '=' in lead + x && Before(lead + x, '=') == lead + Before(x, '=') && After(lead + x, '=') == After(x, '=')
  {
    CutRejoins(x, '=');
    assert lead + x == (lead + Before(x, '=')) + ['='] + After(x, '=');
    CutGlued(lead + Before(x, '='), '=', After(x, '='));
  }

  lemma ShortCutAt(f: char, x: string)
    requires x != "" && f != '='
    ensures var a := ['-', f] + x;
            && a[..2] == ['-', f] && a[2..] == x
            && ('=' in x ==> '=' in a && (Before(a, '='), After(a, '=')) == CutShort(f, x))
            && ('=' !in x ==> '=' !in a)
  {
    var lead := ['-', f];
    if '=' in x {
      CutBehind(lead, x);
      if x[0] == '=' {
        assert Before(x, '=') == "" && After(x, '=') == x[1..];
        assert lead + "" == lead;
      }
    }
  }

  /** At the end of the line the token is left as it is. */
  lemma LastGluedShort(c: Config, f: char, x: string)
    requires ValidConfig(c) && f in c.tables.shortArg && f != 'e' && x != ""
    ensures Scan(c, InOptions, [['-', f] + x] + []) == Ok(Args([['-', f] + x]))
  {
    var a := ['-', f] + x;
    ShortIsNotSpecial(a);
    TurnShortArg(c, a, []);
    TurnScans(c, [a] + [], Step(Args([a]), InOptions, []));
    AddNothingAfter(a);
  }

  lemma AddNothingAfter(a: string)
    ensures Add(Args([a]), Ok(NOTHING)) == Ok(Args([a]))
  {
    var none: seq<string> := [];
    assert [a] + none == [a] && none + none == none;
  }

  /** The token becomes flag and value, and the value is whole exactly if it holds no '='. */
  lemma GluedShortScan(c: Config, f: char, x: string, rest: seq<string>)
    requires ValidConfig(c) && f in c.tables.shortArg && f != 'e' && x != "" && rest != []
    ensures Scan(c, InOptions, [['-', f] + x] + rest)
            == Add(Args([CutShort(f, x).0, CutShort(f, x).1]), Scan(c, InOptions, rest))
    ensures CutShort(f, x) == (['-', f], x) <==> '=' !in x
  {
    var a := ['-', f] + x;
    ShortCutAt(f, x);
    ShortIsNotSpecial(a);
    TurnShortArg(c, a, rest);
    var (k, v) := CutShort(f, x);
    assert HandleFlagArg(a, rest[0]) == (false, k, v);
    TurnScans(c, [a] + rest, Step(Args([k, v]), InOptions, rest));
    if x[0] != '=' && '=' in x {
      assert |After(x, '=')| < |x|;
    }
  }

  // ---- groups that hand their last flag over ----

  /** The next token, whatever it is, is glued to the last flag of the group. */
  lemma GroupHandsOver(c: Config, a: string, next: string, rest: seq<string>)
    requires ValidConfig(c) && |a| > 2 && ShortIn(a, c.tables.shortBool) && Splits(c.tables, a)
    ensures Scan(c, InOptions, [a, next] + rest)
            == Add(Args([a[..|a| - 1]]), Scan(c, InOptions, [['-', a[|a| - 1]] + next] + rest))
  {
    GroupIsPassedIff(c, a, next, rest);
    assert "-" + a[|a| - 1..] == ['-', a[|a| - 1]];
  }

  /** The value after a group reaches nerdctl with its flag exactly if it holds no '=' or ends the line; `-itl env=prod
      img` makes `prod` the image. */
  lemma GroupValueIff(c: Config, a: string, next: string, rest: seq<string>)
    requires ValidConfig(c) && |a| > 2 && ShortIn(a, c.tables.shortBool) && Splits(c.tables, a)
    requires a[|a| - 1] != 'e' && next != ""
    ensures var f := a[|a| - 1];
            && Scan(c, InOptions, [a, next] + rest)
               == (if rest == [] then Ok(Args([a[..|a| - 1], ['-', f] + next]))
                   else Add(Args([a[..|a| - 1], CutShort(f, next).0, CutShort(f, next).1]), Scan(c, InOptions, rest)))
            && (CutShort(f, next) == (['-', f], next) <==> '=' !in next)
  {
    var f := a[|a| - 1];
    GroupHandsOver(c, a, next, rest);
    if rest == [] {
      LastGroupValue(c, a[..|a| - 1], f, next);
      ShortCutAt(f, next);
    } else {
      CutGroupValue(c, a[..|a| - 1], f, next, rest);
    }
  }

  lemma LastGroupValue(c: Config, lead: string, f: char, next: string)
    requires ValidConfig(c) && f in c.tables.shortArg && f != 'e' && next != ""
    ensures Add(Args([lead]), Scan(c, InOptions, [['-', f] + next] + [])) == Ok(Args([lead, ['-', f] + next]))
  {
    LastGluedShort(c, f, next);
    PassedAtEnd(lead, ['-', f] + next);
    AddNothingAfter(['-', f] + next);
    AddTwice(Args([lead]), Args([['-', f] + next]), Ok(NOTHING));
  }

  lemma CutGroupValue(c: Config, lead: string, f: char, next: string, rest: seq<string>)
    requires ValidConfig(c) && f in c.tables.shortArg && f != 'e' && next != "" && rest != []
    ensures Add(Args([lead]), Scan(c, InOptions, [['-', f] + next] + rest))
            == Add(Args([lead, CutShort(f, next).0, CutShort(f, next).1]), Scan(c, InOptions, rest))
    ensures CutShort(f, next) == (['-', f], next) <==> '=' !in next
  {
    GluedShortScan(c, f, next, rest);
    AddTwice(Args([lead]), Args([CutShort(f, next).0, CutShort(f, next).1]), Scan(c, InOptions, rest));
    ArgsJoined(lead, CutShort(f, next).0, CutShort(f, next).1);
  }

  lemma ArgsJoined(a: string, k: string, v: string)
    ensures Args([a]).Plus(Args([k, v])) == Args([a, k, v])
  {
  }

  /** An empty value after a group is passed over: the flag takes the token after it. */
  lemma EmptyGroupValue(c: Config, a: string, rest: seq<string>)
    requires ValidConfig(c) && |a| > 2 && ShortIn(a, c.tables.shortBool) && Splits(c.tables, a)
    ensures Scan(c, InOptions, [a, ""] + rest)
            == Add(Args([a[..|a| - 1]]), Scan(c, InOptions, [['-', a[|a| - 1]]] + rest))
  {
    GroupHandsOver(c, a, "", rest);
    assert ['-', a[|a| - 1]] + "" == ['-', a[|a| - 1]];
  }

  lemma GluedVariableScan(c: Config, a: string, x: string, rest: seq<string>)
    requires ValidConfig(c) && a == "-e" + x && x != "" && rest != []
    ensures Scan(c, InOptions, [a] + rest) == Add(NOTHING.(envs := EnvEntry(c.host, x)), Scan(c, InOptions, rest))
  {
    assert a[1] == 'e' && a[2..] == x && |a| > 2;
    ShortIsNotSpecial(a);
    GluedVariableStep(c, a, x, rest);
    TurnScans(c, [a] + rest, Step(NOTHING.(envs := EnvEntry(c.host, x)), InOptions, rest));
  }

  lemma VariableEntryIs(h: Host, a: string, next: string, x: string)
    requires |a| > 2 && a[0] == '-' && a[1] == 'e' && a[2..] == x
    ensures var e := HandleEnv(h, a, next); !e.0 && (if e.1 == "" then [] else [e.1]) == EnvEntry(h, x)
  {
    assert a != "-e" && a != "--env" && "-e" <= a;
  }

  lemma GluedVariableStep(c: Config, a: string, x: string, rest: seq<string>)
    requires ValidConfig(c) && |a| > 2 && "-e" <= a && a[2..] == x && rest != []
    requires !("--env-file" <= a) && !("--add-host" <= a) && a != "--debug" && a != "--help"
    requires Before(a, '=') != "--mount"
    ensures Turn(c, InOptions, [a] + rest) == Ok(Step(NOTHING.(envs := EnvEntry(c.host, x)), InOptions, rest))
  {
    assert ([a] + rest)[1..] == rest && a[1] == 'e' && x != "";
    VariableEntryIs(c.host, a, rest[0], x);
  }

  /** A variable after a group is collected as it was meant, unless it is empty: then the token after it is taken for
      the variable; or ends the line: then it is passed on. */
  lemma GroupVariableIff(c: Config, a: string, next: string, rest: seq<string>)
    requires ValidConfig(c) && |a| > 2 && ShortIn(a, c.tables.shortBool) && Splits(c.tables, a) && a[|a| - 1] == 'e'
    ensures Scan(c, InOptions, [a, next] + rest)
            == if rest == [] then Ok(Args([a[..|a| - 1], "-e" + next]))
               else if next == "" then Add(Args([a[..|a| - 1]]), Scan(c, InOptions, ["-e"] + rest))
               else Add(Output([a[..|a| - 1]], EnvEntry(c.host, next), [], []), Scan(c, InOptions, rest))
  {
    var lead := a[..|a| - 1];
    GroupHandsOver(c, a, next, rest);
    assert ['-', a[|a| - 1]] + next == "-e" + next;
    if rest == [] {
      assert ["-e" + next] + [] == ["-e" + next];
      LastVariableScan(c, ["-e" + next], "-e" + next);
      AddTwice(Args([lead]), Args(["-e" + next]), Ok(NOTHING));
      PassedAtEnd(lead, "-e" + next);
    } else if next == "" {
      EmptyGroupValue(c, a, rest);
    } else {
      GluedVariableScan(c, "-e" + next, next, rest);
      AddTwice(Args([lead]), NOTHING.(envs := EnvEntry(c.host, next)), Scan(c, InOptions, rest));
      LeadAndVariable(lead, EnvEntry(c.host, next));
    }
  }

  lemma PassedAtEnd(a: string, b: string)
    ensures Add(Args([a]).Plus(Args([b])), Ok(NOTHING)) == Ok(Args([a, b]))
  {
    var none: seq<string> := [];
    assert none + none == none && [a] + [b] == [a, b] && [a, b] + none == [a, b];
  }

  lemma LeadAndVariable(a: string, es: seq<string>)
    ensures Args([a]).Plus(NOTHING.(envs := es)) == Output([a], es, [], [])
  {
    var none: seq<string> := [];
    assert none + none == none && [a] + none == [a] && none + es == es;
  }

  // ---- long flags without value, given one ----

  lemma GluedFixedTurn(c: Config, n: string, v: string, rest: seq<string>)
    requires ValidConfig(c) && n in {"--debug", "--help", "--"}
    ensures Turn(c, InOptions, [n + "=" + v] + rest) == Ok(FlagStep(n + "=" + v, rest))
    ensures Before(n + "=" + v, '=') == n && After(n + "=" + v, '=') == v && '=' in n + "=" + v && "--" <= n + "=" + v
  {
    var a := n + "=" + v;
    assert a == n + ['='] + v && '=' !in n;
    CutGlued(n, '=', v);
    assert a[0] == '-' && a[1] == '-';
    FixedIsNotSpecial(c, n, a);
    QuietTurn(c, a, rest);
    assert ([a] + rest)[1..] == rest;
  }

  lemma FixedIsNotSpecial(c: Config, n: string, a: string)
    requires ValidConfig(c) && n in {"--debug", "--help", "--"} && Before(a, '=') == n && '=' in a && "--" <= a
    ensures !("--add-host" <= a) && !ArgIsEnv(a) && !("--env-file" <= a) && !Fires(c, a)
    ensures n !in c.tables.longBool && a !in c.tables.longBool && a != "--debug" && a != "--help"
  {
    NamesOf(a);
    assert '=' !in "--debug" && '=' !in "--help";
    assert !("--env" <= n) && !("--add-host" <= n) && !("--env-file" <= n) by {
      assert "--env"[2] == 'e' && "--add-host"[2] == 'a' && "--env-file"[2] == 'e' && |"--"| == 2;
    }
    assert n in c.tables.longBool ==> PlainLong(n);
    assert a in c.tables.longBool ==> PlainLong(a);
    assert |"--debug"| == 7 && |"--help"| == 6 && |"--mount"| == 7 && "--debug"[2] == 'd' && "--mount"[2] == 'm';
  }

  /** `--debug=v`, `--help=v` and `--=v` become two tokens, unless they end the line. */
  lemma GluedFixedScan(c: Config, n: string, v: string, rest: seq<string>)
    requires ValidConfig(c) && n in {"--debug", "--help", "--"}
    ensures Scan(c, InOptions, [n + "=" + v] + rest)
            == Add(if rest == [] then Args([n + "=" + v]) else Args([n, v]), Scan(c, InOptions, rest))
  {
    GluedFixedTurn(c, n, v, rest);
    TurnScans(c, [n + "=" + v] + rest, FlagStep(n + "=" + v, rest));
  }

  /** So `--debug=true img` makes `true` the image: what is read as the command begins with the value. */
  lemma GluedFixedIsRead(t: Tables, n: string, v: string, cmd: seq<string>)
    requires ValidTables(t) && (n == "--debug" || n == "--help") && Lex(t, v) == Stop
    requires cmd == [] || Lex(t, cmd[0]) == Stop
    ensures Read(t, [n + "=" + v] + cmd) == Some(Reading([Item(n, Some(v))], cmd))
    ensures Read(t, [n, v] + cmd) == Some(Reading([Item(n, None)], [v] + cmd))
  {
    var a := n + "=" + v;
    assert a == n + ['='] + v && '=' !in n;
    CutGlued(n, '=', v);
    assert Lex(t, a) == Whole(n, Some(v)) && Lex(t, n) == Whole(n, None);
    assert ([a] + cmd)[1..] == cmd && ([n, v] + cmd)[1..] == [v] + cmd;
    assert Read(t, cmd) == Some(Reading([], cmd)) && Read(t, [v] + cmd) == Some(Reading([], [v] + cmd));
    var none: seq<Item> := [];
    assert [Item(n, Some(v))] + none == [Item(n, Some(v))] && [Item(n, None)] + none == [Item(n, None)];
  }

  // ---- other flags that begin with `--add-host` or `--env` ----

  /** Ten letters and one more are passed over, whatever they are, before the address. */
  lemma AddHostPrefixScan(c: Config, a: string, rest: seq<string>)
    requires ValidConfig(c) && "--add-host" <= a && |a| > 10
    ensures Scan(c, InOptions, [a] + rest)
            == if ':' in a[11..] then Add(Args([a[..11] + Resolved(a[11..])]), Scan(c, InOptions, rest)) else Err(Panic)
  {
    AddHostPrefixTurn(c, a, rest);
    if ':' in a[11..] {
      ResolveKeepsColon(a[11..]);
      TurnScans(c, [a] + rest, Step(Args([a[..11] + Resolved(a[11..])]), InOptions, rest));
    }
  }

  lemma AddHostPrefixTurn(c: Config, a: string, rest: seq<string>)
    requires ValidConfig(c) && "--add-host" <= a && |a| > 10
    ensures Turn(c, InOptions, [a] + rest)
            == match ResolveIP(a[11..])
               case Err(e) => Err(e)
               case Ok(ip) => Ok(Step(Args([a[..11] + ip]), InOptions, rest))
  {
    assert |"--add-host"| == 10 && a[1] == '-' && a[2] == 'a';
    assert a != "--debug" && a != "--help" && a != "--add-host";
    PrefixOfName("--add-host", a);
    assert Before(a, '=') != "--mount" by { assert |"--mount"| == 7; }
    QuietTurn(c, a, rest);
    assert ([a] + rest)[1..] == rest;
  }

  /** What follows the first '=' is set, or the whole token if there is none. */
  lemma EnvPrefixScan(c: Config, a: string, rest: seq<string>)
    requires ValidConfig(c) && "--env" <= a && !("--env-file" <= a) && a != "--env" && rest != []
    ensures Scan(c, InOptions, [a] + rest)
            == Add(NOTHING.(envs := EnvEntry(c.host, if '=' in a then After(a, '=') else a)), Scan(c, InOptions, rest))
  {
    var v := if '=' in a then After(a, '=') else a;
    EnvPrefixTurn(c, a, v, rest);
    TurnScans(c, [a] + rest, Step(NOTHING.(envs := EnvEntry(c.host, v)), InOptions, rest));
  }

  lemma EnvPrefixTurn(c: Config, a: string, v: string, rest: seq<string>)
    requires ValidConfig(c) && "--env" <= a && !("--env-file" <= a) && a != "--env" && rest != []
    requires v == if '=' in a then After(a, '=') else a
    ensures Turn(c, InOptions, [a] + rest) == Ok(Step(NOTHING.(envs := EnvEntry(c.host, v)), InOptions, rest))
  {
    EnvIsNoOther(a);
    assert a[1] == '-';
    QuietTurn(c, a, rest);
    assert ([a] + rest)[1..] == rest;
    EnvPrefixEntry(c.host, a, v, rest[0]);
  }

  lemma EnvPrefixEntry(h: Host, a: string, v: string, next: string)
    requires "--env" <= a && a != "--env" && v == if '=' in a then After(a, '=') else a
    ensures var e := HandleEnv(h, a, next); !e.0 && (if e.1 == "" then [] else [e.1]) == EnvEntry(h, v)
  {
    assert a[1] == '-' && a != "-e";
  }

  /** Ten letters and one more are passed over, whatever they are, before the name of the file. */
  lemma EnvFilePrefixScan(c: Config, a: string, rest: seq<string>)
    requires ValidConfig(c) && "--env-file" <= a && |a| > 10 && rest != []
    ensures Scan(c, InOptions, [a] + rest)
            == if a[11..] !in c.host.files then Err(OpenError)
               else if c.host.files[a[11..]].Broken? then Err(ReadError)
               else Add(NOTHING.(fileEnvs := LineEntries(c.host, c.host.files[a[11..]].lines)), Scan(c, InOptions, rest))
  {
    EnvFilePrefixTurn(c, a, rest);
    if a[11..] in c.host.files && c.host.files[a[11..]].Lines? {
      TurnScans(c, [a] + rest, Step(NOTHING.(fileEnvs := LineEntries(c.host, c.host.files[a[11..]].lines)), InOptions, rest));
    }
  }

  lemma EnvFilePrefixTurn(c: Config, a: string, rest: seq<string>)
    requires ValidConfig(c) && "--env-file" <= a && |a| > 10 && rest != []
    ensures Turn(c, InOptions, [a] + rest)
            == if a[11..] !in c.host.files then Err(OpenError)
               else if c.host.files[a[11..]].Broken? then Err(ReadError)
               else Ok(Step(NOTHING.(fileEnvs := LineEntries(c.host, c.host.files[a[11..]].lines)), InOptions, rest))
  {
    EnvIsNoOther(a);
    assert |"--env-file"| == 10 && a != "--env-file";
    QuietTurn(c, a, rest);
    assert ([a] + rest)[1..] == rest;
  }

  // ---- a variable or a file named `--mount` ----

  /** Passing over a value, the scan still calls the handler on it: after `-e --mount`, the next token is rewritten as if
      it were a mount, or the command is refused if there is none. */
  lemma VariableNamedMount(c: Config, a: string, rest: seq<string>)
    requires ValidConfig(c) && c.handlesMount && (a == "-e" || a == "--env")
    ensures Scan(c, InOptions, [a, "--mount"] + rest)
            == if rest == [] then Err(HandlerError)
               else Add(NOTHING.(envs := EnvEntry(c.host, "--mount")),
                        Scan(c, InOptions, rest[0 := NewMountValue(c, |rest| + 1, rest[0])]))
  {
    TurnEnv(c, a, "--mount", rest, "--mount");
    var out := NOTHING.(envs := EnvEntry(c.host, "--mount"));
    TurnScans(c, [a, "--mount"] + rest, Step(out, Skipping, ["--mount"] + rest));
    SkippedMount(c, "--mount", rest);
  }

  lemma SkippedMount(c: Config, m: string, rest: seq<string>)
    requires ValidConfig(c) && c.handlesMount && m == "--mount"
    ensures Scan(c, Skipping, [m] + rest)
            == if rest == [] then Err(HandlerError)
               else Scan(c, InOptions, rest[0 := NewMountValue(c, |rest| + 1, rest[0])])
  {
    MountTokensFire(c, m);
    assert '=' !in m;
    if rest != [] {
      SkippedMountTurn(c, m, rest, NewMountValue(c, |rest| + 1, rest[0]));
      AddNothing(Scan(c, InOptions, rest[0 := NewMountValue(c, |rest| + 1, rest[0])]));
    } else {
      assert Handled(c, [m]) == Err(HandlerError) && [m] + rest == [m];
    }
  }

  lemma SkippedMountTurn(c: Config, m: string, rest: seq<string>, w: string)
    requires ValidConfig(c) && Fires(c, m) && '=' !in m && rest != [] && w == NewMountValue(c, |rest| + 1, rest[0])
    ensures Turn(c, Skipping, [m] + rest) == Ok(Step(NOTHING, InOptions, rest[0 := w]))
  {
    assert ([m] + rest)[1] == rest[0];
    assert ([m] + rest)[1 := w][1..] == rest[0 := w];
  }

  lemma FileNamedMount(c: Config, rest: seq<string>)
    requires ValidConfig(c) && c.handlesMount && Readable(c.host, Item("--env-file", Some("--mount")))
    ensures Scan(c, InOptions, ["--env-file", "--mount"] + rest)
            == if rest == [] then Err(HandlerError)
               else Add(NOTHING.(fileEnvs := LineEntries(c.host, c.host.files["--mount"].lines)),
                        Scan(c, InOptions, rest[0 := NewMountValue(c, |rest| + 1, rest[0])]))
  {
    TurnEnvFile(c, "--env-file", "--mount", rest, "--mount");
    var out := NOTHING.(fileEnvs := LineEntries(c.host, c.host.files["--mount"].lines));
    TurnScans(c, ["--env-file", "--mount"] + rest, Step(out, Skipping, ["--mount"] + rest));
    SkippedMount(c, "--mount", rest);
  }
}
