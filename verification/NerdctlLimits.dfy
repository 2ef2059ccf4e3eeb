/** Where rewriting does not preserve meaning or does not settle, and exactly when it does. */
module NerdctlLimits {
  import opened Wrappers
  import opened Strings
  import opened CommandLine
  import opened Nerdctl
  import opened NerdctlForms
  import opened NerdctlMeaning
  import opened NerdctlTheorems
  import opened NerdctlCanonical
  import opened NerdctlCommand
  import opened NerdctlIdempotence
  import EnvOrder
  import Mounts

  /** What becomes of a value flag whose next token does not look like a value: a short flag is dropped,
      a long one is torn into `--` and its bare name. */
  function Mangled(k: string): Output {
    if "--" <= k then Args(["--", k[2..]]) else NOTHING
  }

  /** A separate value reaches nerdctl with its flag exactly when it looks like a value. */
  lemma SeparateValueIff(c: Config, k: string, v: string, rest: seq<string>)
    requires ValidConfig(c) && ValueFlag(c, k) && !(c.handlesMount && k == "--mount")
    ensures Scan(c, InOptions, [k, v] + rest)
            == if OkValue(v) then Add(Args([k, v]), Scan(c, InOptions, rest))
               else Add(Mangled(k), Scan(c, InOptions, [v] + rest))
  {
    assert [k] + ([v] + rest) == [k, v] + rest;
    ValueFlagTurn(c, k, v, rest);
    if OkValue(v) {
      ScanOne(c, k, [v] + rest, Step(Args([k, v]), Skipping, [v] + rest));
      NumericIsNoFlag(c, v);
      ScanSkipped(c, v, rest);
    } else {
      ScanOne(c, k, [v] + rest, Step(Mangled(k), InOptions, [v] + rest));
    }
  }

  lemma ValueFlagTurn(c: Config, k: string, v: string, rest: seq<string>)
    requires ValidConfig(c) && ValueFlag(c, k) && !(c.handlesMount && k == "--mount")
    ensures Turn(c, InOptions, [k] + ([v] + rest))
            == Ok(if OkValue(v) then Step(Args([k, v]), Skipping, [v] + rest)
                  else Step(Mangled(k), InOptions, [v] + rest))
  {
    assert ([v] + rest)[0] == v;
    if OrdinaryLong(k) && k !in c.tables.longBool {
      LongLexes(c.tables, k, "");
      TurnOrdinaryLong(c, k, [v] + rest);
      assert k[..2] == "--";
    } else {
      assert '=' !in k by { assert k[1] != '='; }
      TurnShortArg(c, k, [v] + rest);
      ShortIsNotSpecial(k);
    }
  }

  /** A value glued to a short flag is kept whole exactly when it holds no '=' or begins with one. */
  lemma GluedValueIff(c: Config, f: char, x: string, next: string)
    requires ValidConfig(c) && f in c.tables.shortArg && f != 'e' && x != ""
    ensures Lex(c.tables, ['-', f] + x) == Whole(['-', f], Some(if x[0] == '=' then x[1..] else x))
    ensures HandleFlagArg(['-', f] + x, next) == (false, ['-', f], if x[0] == '=' then x[1..] else x)
            <==> '=' !in x || x[0] == '='
  {
    var a := ['-', f] + x;
    assert a[..2] == ['-', f] && a[2..] == x && a[2] == x[0];
    ShortIsNotSpecial(a);
    assert f != '=';
    if x[0] == '=' {
      assert a == ['-', f] + ['='] + x[1..] && a[3..] == x[1..];
      CutGlued(['-', f], '=', x[1..]);
    } else if '=' in x {
      assert '=' in a;
      assert Before(a, '=') != ['-', f] by { IndexBeyond(a); }
    }
  }

  lemma IndexBeyond(a: string)
    requires |a| > 2 && a[0] != '=' && a[1] != '=' && a[2] != '='
    ensures Index(a, '=') > 2
  {
  }

  /** `-eX` sets what it says exactly when X does not begin with `=`; `-e=K=V` sets a variable without name. No
      variable of the host has an empty name. */
  lemma GluedVariableIff(c: Config, x: string, next: string)
    requires ValidConfig(c) && x != "" && "" !in c.host.env
    ensures Lex(c.tables, "-e" + x) == Whole("-e", Some(if x[0] == '=' then x[1..] else x))
    ensures HandleEnv(c.host, "-e" + x, next).1
            == (if '=' in x then x else if x in c.host.env then x + "=" + c.host.env[x] else "")
    ensures (if HandleEnv(c.host, "-e" + x, next).1 == "" then [] else [HandleEnv(c.host, "-e" + x, next).1])
            == EnvEntry(c.host, if x[0] == '=' then x[1..] else x)
            <==> x[0] != '='
  {
    var a := "-e" + x;
    assert a[..2] == "-e" && a[2..] == x && a[2] == x[0];
    if x[0] == '=' {
      assert a[3..] == x[1..];
      var v := x[1..];
      if '=' !in v && v in c.host.env {
        assert v != "" && v[0] == x[1];
        assert (v + "=" + c.host.env[v])[0] == v[0];
      } else {
        assert v == x ==> |v| == |x|;
      }
    }
  }

  // ---- mounts with keys that look like flags ----

  /** A separate mount reaches nerdctl with its flag exactly when its printed value looks like a value. */
  lemma SeparateMountIff(c: Config, v: string, rest: seq<string>)
    requires ValidConfig(c) && c.handlesMount
    ensures var w := NewMountValue(c, |rest| + 2, v);
            Scan(c, InOptions, ["--mount", v] + rest)
            == if OkValue(w) then Add(Args(["--mount", w]), Scan(c, InOptions, rest))
               else Add(Args(["--", "mount"]), Scan(c, InOptions, [w] + rest))
  {
    var w := NewMountValue(c, |rest| + 2, v);
    if OkValue(w) {
      MountSeparateTurn(c, v, w, rest);
      NumericIsNoFlag(c, w);
      PairScans(c, "--mount", v, w, rest, Args(["--mount", w]));
    } else {
      TornMountTurn(c, v, w, rest, "--mount");
      TornScan(c, "--mount", v, w, rest, Args(["--", "mount"]));
    }
  }

  lemma TornScan(c: Config, k: string, v: string, w: string, rest: seq<string>, out: Output)
    requires ValidConfig(c) && Turn(c, InOptions, [k, v] + rest) == Ok(Step(out, InOptions, [w] + rest))
    ensures Scan(c, InOptions, [k, v] + rest) == Add(out, Scan(c, InOptions, [w] + rest))
  {
    assert [k, v] + rest == [k] + ([v] + rest);
    ScanOne(c, k, [v] + rest, Step(out, InOptions, [w] + rest));
  }

  lemma TornMountTurn(c: Config, v: string, w: string, rest: seq<string>, n: string)
    requires ValidConfig(c) && c.handlesMount && w == NewMountValue(c, |rest| + 2, v) && !OkValue(w) && n == "--mount"
    ensures Turn(c, InOptions, [n, v] + rest) == Ok(Step(Args(["--", "mount"]), InOptions, [w] + rest))
  {
    MountHandled(c, n, v, w, rest);
    MountIsOrdinary(c.tables);
    TurnOrdinaryLong(c, n, [w] + rest);
    assert [n, w] + rest == [n] + ([w] + rest);
    TornStep(n, w, rest);
    assert n[..2] == "--" && n[2..] == "mount";
  }

  lemma TornStep(n: string, w: string, rest: seq<string>)
    requires |n| > 2 && "--" <= n && '=' !in n && !OkValue(w)
    ensures FlagStep(n, [w] + rest) == Step(Args([n[..2], n[2..]]), InOptions, [w] + rest)
  {
    assert ([w] + rest)[0] == w;
  }

  // ---- mounts that are cut ----

  /** The entry of a bind mount with a second '=': Finch stores what stands before it. */
  lemma CutEntryParses(k: string, x: string, y: string, k': string, v': string)
    requires Mounts.Plain(k) && Mounts.Plain(x) && Mounts.Plain(k') && Mounts.Plain(v')
    requires Mounts.Plain("type") && Mounts.Plain("bind") && k != k' && "type" != k && "type" != k'
    ensures Mounts.ParseEntries([] + ["type" + "=" + "bind"] + [k + "=" + x + "=" + y] + [k' + "=" + v'])
            == Mounts.Mount(map["type" := "bind", k := x, k' := v'], [])
  {
    var none: seq<string> := [];
    Mounts.ParsePrinted(none, "type", "bind");
    var one := none + ["type" + "=" + "bind"];
    Mounts.ParseAppended(one, k + "=" + x + "=" + y);
    Mounts.RestOfValueIsLost(Mounts.ParseEntries(one), k, x, y);
    Mounts.AddPrinted(Mounts.ParseEntries(one), k, x);
    Mounts.ParsePrinted(one + [k + "=" + x + "=" + y], k', v');
  }

  lemma ReadsAppendedEntry(es: seq<string>, e: string)
    ensures ReadEntries(es + [e]) == ReadEntry(ReadEntries(es), e)
  {
    assert (es + [e])[..|es|] == es;
  }

  /** A reader who cuts at the first '=' only finds the second one in the value. */
  lemma CutEntryReads(es: seq<string>, k: string, x: string, y: string, k': string, v': string)
    requires Mounts.Plain(k) && Mounts.Plain(k') && k != k'
    ensures var r := ReadEntries(es + [k + "=" + x + "=" + y] + [k' + "=" + v']);
            k in r.fields && '=' in r.fields[k]
  {
    var after := x + "=" + y;
    assert k + "=" + x + "=" + y == k + ['='] + after && after[|x|] == '=';
    CutGlued(k, '=', after);
    TrimKeeps(after, '=');
    ReadsAppendedEntry(es, k + "=" + x + "=" + y);
    assert k' + "=" + v' == k' + ['='] + v';
    CutGlued(k', '=', v');
    ReadsAppendedEntry(es + [k + "=" + x + "=" + y], k' + "=" + v');
  }

  function CutEntries(k: string, x: string, y: string, k': string, v': string): seq<string> {
    [] + ["type" + "=" + "bind"] + [k + "=" + x + "=" + y] + [k' + "=" + v']
  }

  lemma CutEntriesSplit(k: string, x: string, y: string, k': string, v': string)
    requires Mounts.Plain(k) && Mounts.Plain(x) && Mounts.Plain(k') && Mounts.Plain(v') && ',' !in y
    ensures Split(Join(CutEntries(k, x, y, k', v'), ','), ',') == CutEntries(k, x, y, k', v')
  {
    var es := CutEntries(k, x, y, k', v');
    assert |es| == 3 && es[0] == "type" + "=" + "bind" && es[1] == k + "=" + x + "=" + y && es[2] == k' + "=" + v';
    assert ',' !in es[0] && ',' !in es[1] && ',' !in es[2];
    SplitJoined(es, ',');
  }

  /** A field with a '=' in its value is cut there: the mount that the line asks for has more of the value than the
      mount that nerdctl gets. So it is with a source `/a=b`. */
  lemma SourceIsCut(k: string, x: string, y: string, k': string, v': string)
    requires Mounts.Plain(k) && Mounts.Plain(x) && Mounts.Plain(k') && Mounts.Plain(v') && ',' !in y
    requires k != k' && "type" != k && "type" != k' && k != "consistency"
    ensures var v := Join(CutEntries(k, x, y, k', v'), ',');
            Mounts.IsCut(v) && Mounts.Parse(v) == Mounts.Mount(map["type" := "bind", k := x, k' := v'], [])
  {
    WordIsPlain("type");
    WordIsPlain("bind");
    CutEntriesSplit(k, x, y, k', v');
    CutEntryParses(k, x, y, k', v');
    CutEntryReads([] + ["type" + "=" + "bind"], k, x, y, k', v');
    CutIfHeld(Join(CutEntries(k, x, y, k', v'), ','), k);
  }

  lemma CutIfHeld(v: string, k: string)
    requires Mounts.IsBind(Mounts.Parse(v)) && k != "consistency"
    requires k in ReadMount(v).fields && '=' in ReadMount(v).fields[k]
    ensures Mounts.IsCut(v)
  {
  }

  /** `--mount` with such a source: the line is well formed, and its rewriting asks for another mount. */
  lemma CutMountIsAnother(c: Config, v: string, cmd: seq<string>)
    requires ValidConfig(c) && c.handlesMount && Mounts.IsCut(v) && Quiescent(c, cmd)
    ensures WellFormed(c, ["--mount=" + v] + cmd) && AllReadable(c.host, ReadItems(c.tables, ["--mount=" + v] + cmd))
    ensures Options(ReadItems(c.tables, ["--mount=" + v] + cmd)) == [Item("--mount", Some(v))]
    ensures !MountsWhole(c, [Item("--mount", Some(v))])
  {
    MountIsOrdinary(c.tables);
    MountToken("--mount", v);
    GlueIsHead(c, "--mount", v, cmd);
    MountLexes(c.tables, v);
    assert (["--mount=" + v] + cmd)[1..] == cmd;
    ClosedReads(c.tables, "--mount=" + v, cmd);
    var i := Item("--mount", Some(v));
    assert Items(c.tables, "--mount=" + v) == [i] && [i] + [] == [i];
    assert i in [i] && |i.name| == 7;
  }

  /** A separate mount looks like a value in whatever order Go visits its fields exactly if no key begins with a `-`
      that no digit follows: for any other there is an order that tears it from its flag. */
  lemma SomeOrderTearsMount(c: Config, v: string, n: nat) returns (order: MapOrder)
    requires ValidConfig(c) && c.handlesMount
    ensures ValidOrder(order)
    ensures SeparateOK(c, "--mount", v) <==> OkValue(NewMountValue(c.(order := order), n, v))
    ensures SeparateOK(c, "--mount", v) ==> OkValue(NewMountValue(c, n, v))
  {
    order := c.order;
    NewValueIsSameMount(c, n, v);
    if Mounts.IsBind(Mounts.Parse(v)) && !MountOK(v) {
      var m := Mounts.Kept(Mounts.Parse(v));
      var k :| k in m.fields && !OkValue(k + "=");
      assert Mounts.IsOrder(c.order(n, m.fields), m.fields);
      var ks := [k] + Without(c.order(n, m.fields), k);
      KeyFirst(c.order(n, m.fields), m.fields, k);
      order := Instead(c.order, m.fields, ks);
      InsteadIsValid(c.order, m.fields, ks);
      PrintStartsWithKey(ks, m);
      assert NewMountValue(c.(order := order), n, v) == Mounts.Print(ks, m);
    }
  }

  // ---- lines whose rewriting does not settle ----

  /** `--name=-x`: the rewriting tears the value off, and is not even well formed. */
  lemma SplitOffValue(c: Config, n: string, v: string, cmd: seq<string>)
    requires ValidConfig(c) && OrdinaryLong(n) && n !in c.tables.longBool && !Handles(c, n) && !OkValue(v)
    requires Quiescent(c, cmd)
    ensures WellFormed(c, [n + "=" + v] + cmd) && Rewrite(c, [n + "=" + v] + cmd) == Ok([n, v] + cmd)
    ensures !WellFormed(c, [n, v] + cmd) && !Repeatable(c, [n + "=" + v] + cmd)
  {
    var a := n + "=" + v;
    var line := [a] + cmd;
    LongLexes(c.tables, n, v);
    GlueIsHead(c, n, v, cmd);
    LongAttachedHead(c, n, v, cmd, []);
    assert ([a] + cmd)[1..] == cmd;
    CommandScans(c, cmd);
    OptionsThenCommand([n, v], cmd);
    UnprefixedRewrites(c, line, Output([n, v], [], [], cmd));
    PairBefore(c, false, n, v, cmd);
    assert line[0..] == line;
    assert !HeadSteady(c, line);
  }

  lemma GlueIsHead(c: Config, n: string, v: string, cmd: seq<string>)
    requires ValidConfig(c) && OrdinaryLong(n) && n !in c.tables.longBool && Quiescent(c, cmd)
    ensures var line := [n + "=" + v] + cmd;
            && WellFormed(c, line) && line[0] != "run" && HasHead(c.tables, line)
            && ValueItem(c, line) == Some(Item(n, Some(v))) && Width(c.tables, line[0]) == 1 < |line|
  {
    var a := n + "=" + v;
    LongLexes(c.tables, n, v);
    GluedHeadOK(c, a, cmd);
    assert ([a] + cmd)[1..] == cmd && WellFormed(c, cmd);
    assert a[0] == '-' && a[1] == '-';
  }

  lemma OptionsThenCommand(args: seq<string>, cmd: seq<string>)
    ensures Add(Args(args), Ok(NOTHING.(cmd := cmd))) == Ok(Output(args, [], [], cmd))
    ensures Assemble(Output(args, [], [], cmd)) == args + cmd
  {
    var none: seq<string> := [];
    assert none + none == none && args + none == args && none + cmd == cmd;
    assert EnvOrder.Args(EnvOrder.Merge(none)) == [];
  }

  /** `--debug run -e HOME img`: without `--debug`, the command reads as `run` with options, which the second rewriting
      rewrites in their turn. */
  lemma DebugBeforeRun(c: Config, cmd: seq<string>)
    requires ValidConfig(c) && Quiescent(c, cmd) && Prefix(cmd) == 1
    ensures WellFormed(c, ["--debug"] + cmd) && Rewrite(c, ["--debug"] + cmd) == Ok(cmd)
    ensures Repeatable(c, ["--debug"] + cmd) <==> Settled(c, false, cmd[1..])
  {
    var line := ["--debug"] + cmd;
    DebugLine(c, cmd);
    assert line[0..] == line && line[0] != "run";
    var again := RewritingIsIdempotentIff(c, c, line);
    RunAppears(c, c, cmd);
  }

  lemma DebugLine(c: Config, cmd: seq<string>)
    requires ValidConfig(c) && Quiescent(c, cmd)
    ensures WellFormed(c, ["--debug"] + cmd) && Rewrite(c, ["--debug"] + cmd) == Ok(cmd)
    ensures AllReadable(c.host, ReadItems(c.tables, ["--debug"] + cmd))
  {
    DebugScans(c, "--debug", cmd);
    DebugReads(c, "--debug", cmd);
    UnprefixedRewrites(c, ["--debug"] + cmd, NOTHING.(cmd := cmd));
    CommandAlone(cmd);
  }

  lemma DebugScans(c: Config, a: string, cmd: seq<string>)
    requires ValidConfig(c) && Quiescent(c, cmd) && a == "--debug"
    ensures Scan(c, InOptions, [a] + cmd) == Ok(NOTHING.(cmd := cmd))
  {
    TurnDebug(c, cmd);
    ScanOne(c, a, cmd, Step(NOTHING, InOptions, cmd));
    AddNothing(Scan(c, InOptions, cmd));
    TrailingCommandUnchanged(c, cmd);
  }

  lemma DebugReads(c: Config, a: string, cmd: seq<string>)
    requires ValidConfig(c) && Quiescent(c, cmd) && a == "--debug"
    ensures WellFormed(c, [a] + cmd) && AllReadable(c.host, ReadItems(c.tables, [a] + cmd))
  {
    assert '=' !in a;
    assert Before(a, '=') == a && ([a] + cmd)[1..] == cmd && WellFormed(c, cmd);
    assert Lex(c.tables, a) == Whole(a, None);
    assert HeadOK(c, a, cmd);
    ClosedReads(c.tables, a, cmd);
  }

  lemma VariableComesWithValue(c: Config, toks: seq<string>, om: EnvOrder.Ordered, cmd: seq<string>)
    requires ValidConfig(c) && IsEnvTail(c, toks, om, cmd) && |toks| > 1 && toks[0] == "-e"
    ensures '=' in toks[1]
  {
    assert Lex(c.tables, "-e") == WithNext("-e");
    if om != [] {
      assert toks[1] == om[0].0 + "=" + om[0].1;
    }
  }

  /** The options of `-e HOME img` are not settled: the variable gets its value. */
  lemma UnresolvedIsNotSettled(c: Config, v: string, cmd: seq<string>)
    requires ValidConfig(c) && '=' !in v
    ensures !Settled(c, false, ["-e", v] + cmd)
  {
    var toks := ["-e", v] + cmd;
    forall om, rest
      ensures !IsEnvTail(c, toks, om, rest)
    {
      if IsEnvTail(c, toks, om, rest) {
        VariableComesWithValue(c, toks, om, rest);
      }
    }
    assert Lex(c.tables, "-e") == WithNext("-e");
    assert !OneToken(c, "-e") && !ValueFlag(c, "-e") && !GluedFlag(c, "-e") by {
      assert '=' !in "-e";
    }
  }

  /** `compose --debug run -e HOME img`: the first rewriting only drops `--debug`, and is not repeated. */
  lemma DebugRunHome(c: Config)
    requires ValidConfig(c)
    ensures var line := ["--debug", "run", "-e", "HOME", "img"];
            WellFormed(c, line) && Rewrite(c, line) == Ok(["run", "-e", "HOME", "img"]) && !Repeatable(c, line)
  {
    WordsAreQuiet(c);
    DebugRunSpelled();
    DebugRunUnresolved(c, "HOME", "img");
  }

  lemma DebugRunSpelled()
    ensures ["--debug", "run", "-e", "HOME", "img"] == ["--debug"] + (["run"] + (["-e", "HOME"] + ["img"]))
    ensures ["run", "-e", "HOME", "img"] == ["run"] + (["-e", "HOME"] + ["img"])
    ensures '=' !in "HOME"
  {
  }

  lemma DebugRunUnresolved(c: Config, v: string, w: string)
    requires ValidConfig(c) && '=' !in v && !Fires(c, "-e") && !Fires(c, v) && !Fires(c, w) && !Fires(c, "run")
    ensures var line := ["--debug"] + (["run"] + (["-e", v] + [w]));
            && WellFormed(c, line) && Rewrite(c, line) == Ok(["run"] + (["-e", v] + [w]))
            && !Repeatable(c, line)
  {
    var tail := ["-e", v] + [w];
    var cmd := ["run"] + tail;
    assert cmd[0] == "run" && cmd[1] == "-e" && cmd[2] == v && cmd[3] == w && |cmd| == 4;
    assert Quiescent(c, cmd);
    assert cmd[1..] == tail;
    DebugBeforeRun(c, cmd);
    UnresolvedIsNotSettled(c, v, [w]);
  }

  lemma WordsAreQuiet(c: Config)
    ensures !Fires(c, "-e") && !Fires(c, "HOME") && !Fires(c, "img") && !Fires(c, "run")
  {
    ShortWordIsQuiet(c, "-e");
    ShortWordIsQuiet(c, "HOME");
    ShortWordIsQuiet(c, "img");
    ShortWordIsQuiet(c, "run");
  }

  lemma ShortWordIsQuiet(c: Config, w: string)
    requires |w| < 7
    ensures !Fires(c, w)
  {
    assert Before(w, '=') <= w && |"--mount"| == 7;
  }

  /** `--name=-x img`. */
  lemma NameThatLooksLikeAFlag(c: Config)
    requires ValidConfig(c) && "--name" !in c.tables.longBool
    ensures var line, body := ["--name=-x", "img"], ["--name", "-x", "img"];
            WellFormed(c, line) && Rewrite(c, line) == Ok(body) && !WellFormed(c, body) && !Repeatable(c, line)
  {
    OrdinaryByThirdLetter("--name");
    NameSpelled();
    CommandWord(c, "img");
    SplitOffValue(c, "--name", "-x", ["img"]);
  }

  lemma NameSpelled()
    ensures ["--name=-x", "img"] == ["--name" + "=" + "-x"] + ["img"]
    ensures ["--name", "-x", "img"] == ["--name", "-x"] + ["img"] && !OkValue("-x")
  {
    assert "--name=-x" == "--name" + "=" + "-x";
  }

  // ---- an image or a container named `run` ----

  /** Under `run` and `exec`, a first argument `run` is the image or the container and what follows is its command. But
      if that begins with `-`, it is rewritten like options: it is passed on unchanged, but for the spelling of mounts,
      exactly if it is settled; and exactly as it is where mounts are not handled. */
  lemma ImageNamedRun(c: Config, args: seq<string>)
    requires ValidConfig(c) && Prefix(args) == 1 && WellFormed(c, args[1..])
    ensures Read(c.tables, args) == Some(Reading([], args))
    ensures Rewrite(c, args).Ok? && Repeats(c, c, false, args, Rewrite(c, args).value) <==> Settled(c, false, args[1..])
    ensures Rewrite(c, args) == Ok(args) ==> Settled(c, false, args[1..])
    ensures !c.handlesMount && Settled(c, false, args[1..]) ==> Rewrite(c, args) == Ok(args)
  {
    assert args == ["run"] + args[1..];
    SamePrefixRepeats(c, c, false, ["run"], args[1..]);
    SettledIff(c, c, args[1..]);
    RepeatsOneself(c, c, false, args);
    if !c.handlesMount && Settled(c, false, args[1..]) {
      RepeatsWithoutMounts(c, args, Rewrite(c, args).value);
    }
  }

  lemma RepeatsWithoutMounts(c: Config, a: seq<string>, b: seq<string>)
    requires !c.handlesMount && Repeats(c, c, false, a, b)
    ensures a == b
  {
    forall i | 0 <= i < |a|
      ensures a[i] == b[i]
    {
      assert TokenAgain(c, c, false, a, b, i);
    }
  }

  /** `exec run -e HOME ls`: the command in the container named `run` gets other arguments. */
  lemma ContainerNamedRun(c: Config, v: string, cmd: seq<string>)
    requires ValidConfig(c) && '=' !in v && Quiet(c, v) && Quiescent(c, cmd)
    ensures var args := ["run"] + (["-e", v] + cmd);
            Read(c.tables, args) == Some(Reading([], args)) && Rewrite(c, args) != Ok(args)
  {
    var tail := ["-e", v] + cmd;
    var args := ["run"] + tail;
    assert args[1..] == tail && args[1] == "-e" && tail[1..] == [v] + cmd && tail[2..] == cmd;
    assert Lex(c.tables, "-e") == WithNext("-e") && ShortArgOK(c, "-e", [v] + cmd) && WellFormed(c, cmd);
    UnresolvedIsNotSettled(c, v, cmd);
    ImageNamedRun(c, args);
  }

  /** A glued value at the end of a line stays glued; once the environment follows it, it is split off. So without a
      command, the rewriting of `-e K=W --name=V` is not repeated, for any long flag and any value. */
  lemma NoCommandNotIdempotent(c: Config, n: string, v: string, k: string, w: string)
    requires ValidConfig(c) && OrdinaryLong(n) && n !in c.tables.longBool && n != "--mount" && '=' !in k
    ensures Rewrite(c, ["-e", k + "=" + w] + [n + "=" + v]) == Ok([n + "=" + v] + ["-e", k + "=" + w])
    ensures Rewrite(c, [n + "=" + v] + ["-e", k + "=" + w]) == Ok([n, v] + ["-e", k + "=" + w])
  {
    var e := k + "=" + w;
    EnvThenGlued(c, n, v, e);
    GluedThenEnv(c, n, v, e);
    RewritesTo(c, ["-e", e] + [n + "=" + v], [n + "=" + v], k, w);
    RewritesTo(c, [n + "=" + v] + ["-e", e], [n, v], k, w);
  }

  lemma EnvThenGlued(c: Config, n: string, v: string, e: string)
    requires ValidConfig(c) && OrdinaryLong(n) && n !in c.tables.longBool && n != "--mount" && '=' in e
    ensures Scan(c, InOptions, ["-e", e] + [n + "=" + v]) == Ok(Output([n + "=" + v], [e], [], []))
  {
    GluedValueScan(c, n, v, []);
    EnvPairRescans(c, e, [n + "=" + v]);
    JoinParts([n + "=" + v], [e]);
  }

  lemma GluedThenEnv(c: Config, n: string, v: string, e: string)
    requires ValidConfig(c) && OrdinaryLong(n) && n !in c.tables.longBool && n != "--mount" && '=' in e
    ensures Scan(c, InOptions, [n + "=" + v] + ["-e", e]) == Ok(Output([n, v], [e], [], []))
    ensures "-" <= n + "=" + v
  {
    GluedValueScan(c, n, v, ["-e", e]);
    EnvPairRescans(c, e, []);
    assert ["-e", e] + [] == ["-e", e] && Scan(c, InOptions, []) == Ok(NOTHING);
    JoinParts([n, v], [e]);
  }

  lemma RewritesTo(c: Config, args: seq<string>, nerdctl: seq<string>, k: string, w: string)
    requires ValidConfig(c) && args != [] && "-" <= args[0] && '=' !in k
    requires Scan(c, InOptions, args) == Ok(Output(nerdctl, [k + "=" + w], [], []))
    ensures Rewrite(c, args) == Ok(nerdctl + ["-e", k + "=" + w])
  {
    assert "run"[0] == 'r';
    UnprefixedRewrites(c, args, Output(nerdctl, [k + "=" + w], [], []));
    OneVariableArgs(k, w, nerdctl, []);
    assert ["-e", k + "=" + w] + [] == ["-e", k + "=" + w];
  }

  lemma JoinParts(a: seq<string>, es: seq<string>)
    ensures Add(Args(a), Add(NOTHING.(envs := es), Ok(NOTHING))) == Ok(Output(a, es, [], []))
    ensures Add(NOTHING.(envs := es), Add(Args(a), Ok(NOTHING))) == Ok(Output(a, es, [], []))
  {
    var none: seq<string> := [];
    assert none + none == none && a + none == a && none + a == a && es + none == es && none + es == es;
  }

  lemma GluedValueScan(c: Config, n: string, v: string, rest: seq<string>)
    requires ValidConfig(c) && OrdinaryLong(n) && n !in c.tables.longBool && n != "--mount"
    ensures Scan(c, InOptions, [n + "=" + v] + rest)
            == Add(if rest == [] then Args([n + "=" + v]) else Args([n, v]), Scan(c, InOptions, rest))
    ensures rest == [] ==> [n + "=" + v] + rest == [n + "=" + v] && Scan(c, InOptions, rest) == Ok(NOTHING)
    ensures "-" <= n + "=" + v
  {
    LongLexes(c.tables, n, v);
    LongAttachedHead(c, n, v, rest, []);
    assert ([n + "=" + v] + rest)[1..] == rest;
  }
}
