/** Supported options, and then something else: a last token, a separate `--add-host`, or `--`. */
module NerdctlEndings {
  import opened Wrappers
  import opened Strings
  import opened CommandLine
  import opened Nerdctl
  import opened NerdctlForms
  import opened NerdctlMeaning
  import opened NerdctlTheorems
  import opened NerdctlCanonical
  import EnvOrder

  /** The first `n` tokens are supported options. */
  predicate OptionsUpTo(c: Config, toks: seq<string>, n: nat)
    requires n <= |toks|
    decreases n
  {
    n > 0 ==>
      && Lex(c.tables, toks[0]) != Stop && HeadOK(c, toks[0], toks[1..]) && Width(c.tables, toks[0]) <= n
      && OptionsUpTo(c, toks[Width(c.tables, toks[0])..], n - Width(c.tables, toks[0]))
  }

  /** The options among the first `n` tokens: all, those passed on, and those collected. */
  function ItemsUpTo(t: Tables, toks: seq<string>, n: nat): seq<Item>
    requires n <= |toks|
    decreases n
  {
    if n > 0 && HasHead(t, toks) && Width(t, toks[0]) <= n
    then HeadItems(t, toks) + ItemsUpTo(t, toks[Width(t, toks[0])..], n - Width(t, toks[0])) else []
  }

  function PassedUpTo(t: Tables, toks: seq<string>, n: nat): seq<Item>
    requires n <= |toks|
    decreases n
  {
    if n > 0 && HasHead(t, toks) && Width(t, toks[0]) <= n
    then HeadPassed(t, toks) + PassedUpTo(t, toks[Width(t, toks[0])..], n - Width(t, toks[0])) else []
  }

  function CollectedUpTo(t: Tables, toks: seq<string>, n: nat): seq<Item>
    requires n <= |toks|
    decreases n
  {
    if n > 0 && HasHead(t, toks) && Width(t, toks[0]) <= n
    then HeadCollected(t, toks) + CollectedUpTo(t, toks[Width(t, toks[0])..], n - Width(t, toks[0])) else []
  }

  lemma UpToStep(t: Tables, toks: seq<string>, n: nat, w: nat, rest: seq<string>)
    requires 0 < n <= |toks| && HasHead(t, toks) && w == Width(t, toks[0]) <= n && rest == toks[w..]
    ensures ItemsUpTo(t, toks, n) == HeadItems(t, toks) + ItemsUpTo(t, rest, n - w)
    ensures PassedUpTo(t, toks, n) == HeadPassed(t, toks) + PassedUpTo(t, rest, n - w)
    ensures CollectedUpTo(t, toks, n) == HeadCollected(t, toks) + CollectedUpTo(t, rest, n - w)
    ensures rest[n - w..] == toks[n..]
  {
  }

  /** What the first `n` tokens contribute to the scan and to the reading of the line. */
  ghost predicate Contributes(c: Config, toks: seq<string>, n: nat, x: seq<string>, out: Output, kept: seq<Item>)
    requires ValidConfig(c) && n <= |toks|
  {
    && Scan(c, InOptions, toks) == Add(out, Scan(c, InOptions, toks[n..]))
    && Read(c.tables, toks) == Cons(ItemsUpTo(c.tables, toks, n), Read(c.tables, toks[n..]))
    && Read(c.tables, out.nerdctl + x) == Cons(kept, Read(c.tables, x))
    && Matches(c, PassedUpTo(c.tables, toks, n), CollectedUpTo(c.tables, toks, n), [], out, kept)
  }

  lemma NothingContributes(c: Config, toks: seq<string>, x: seq<string>)
    requires ValidConfig(c)
    ensures Contributes(c, toks, 0, x, NOTHING, [])
  {
    assert toks[0..] == toks;
    AddNothing(Scan(c, InOptions, toks));
    ConsNothing(Read(c.tables, toks));
    NoItems(c, x);
  }

  lemma {:induction false} OptionsContribute(c: Config, toks: seq<string>, n: nat, x: seq<string>)
      returns (out: Output, kept: seq<Item>)
    requires ValidConfig(c) && n <= |toks| && OptionsUpTo(c, toks, n) && AllReadable(c.host, ItemsUpTo(c.tables, toks, n))
    ensures Contributes(c, toks, n, x, out, kept)
    decreases n, 1
  {
    if n == 0 {
      NothingContributes(c, toks, x);
      out, kept := NOTHING, [];
    } else {
      out, kept := FirstThenOptions(c, toks, n, x);
    }
  }

  lemma {:induction false} FirstThenOptions(c: Config, toks: seq<string>, n: nat, x: seq<string>)
      returns (out: Output, kept: seq<Item>)
    requires ValidConfig(c) && 0 < n <= |toks| && OptionsUpTo(c, toks, n) && AllReadable(c.host, ItemsUpTo(c.tables, toks, n))
    ensures Contributes(c, toks, n, x, out, kept)
    decreases n, 0
  {
    var w, rest := Width(c.tables, toks[0]), toks[Width(c.tables, toks[0])..];
    FirstOption(c, toks, n, w, rest);
    var out1, kept1 := OptionsContribute(c, rest, n - w, x);
    out, kept := HeadThenOptions(c, toks, n, w, rest, x, out1, kept1);
  }

  lemma FirstOption(c: Config, toks: seq<string>, n: nat, w: nat, rest: seq<string>)
    requires ValidConfig(c) && 0 < n <= |toks| && OptionsUpTo(c, toks, n) && AllReadable(c.host, ItemsUpTo(c.tables, toks, n))
    requires w == Width(c.tables, toks[0]) && rest == toks[w..]
    ensures HasHead(c.tables, toks) && AllReadable(c.host, HeadItems(c.tables, toks))
    ensures Lex(c.tables, toks[0]) != Stop && HeadOK(c, toks[0], toks[1..]) && w <= n
    ensures OptionsUpTo(c, rest, n - w) && AllReadable(c.host, ItemsUpTo(c.tables, rest, n - w))
  {
    HeadReads(c, toks);
    UpToStep(c.tables, toks, n, w, rest);
    ReadableParts(c.host, HeadItems(c.tables, toks), ItemsUpTo(c.tables, rest, n - w));
  }

  lemma ReadableParts(h: Host, a: seq<Item>, b: seq<Item>)
    requires AllReadable(h, a + b)
    ensures AllReadable(h, a) && AllReadable(h, b)
  {
    assert forall i :: i in a || i in b ==> i in a + b;
  }

  lemma HeadThenOptions(c: Config, toks: seq<string>, n: nat, w: nat, rest: seq<string>, x: seq<string>,
                        out1: Output, kept1: seq<Item>)
      returns (out: Output, kept: seq<Item>)
    requires ValidConfig(c) && HasHead(c.tables, toks) && Lex(c.tables, toks[0]) != Stop && HeadOK(c, toks[0], toks[1..])
    requires 0 < n <= |toks| && w == Width(c.tables, toks[0]) <= n && rest == toks[w..]
    requires AllReadable(c.host, HeadItems(c.tables, toks)) && Contributes(c, rest, n - w, x, out1, kept1)
    ensures Contributes(c, toks, n, x, out, kept)
  {
    UpToStep(c.tables, toks, n, w, rest);
    HeadReads(c, toks);
    var keptHead := HeadIsFaithful(c, toks, out1.nerdctl + x);
    var head := HeadOut(c, toks);
    out, kept := head.Plus(out1), keptHead + kept1;
    AddTwice(head, out1, Scan(c, InOptions, toks[n..]));
    ConsTwice(HeadItems(c.tables, toks), ItemsUpTo(c.tables, rest, n - w), Read(c.tables, toks[n..]));
    ReadsAppended(c.tables, head.nerdctl, out1.nerdctl, x, keptHead, kept1);
    HeadThenMatches(c, toks, keptHead, PassedUpTo(c.tables, rest, n - w), CollectedUpTo(c.tables, rest, n - w), out1, kept1);
  }

  lemma HeadThenMatches(c: Config, toks: seq<string>, keptHead: seq<Item>, passed: seq<Item>, collected: seq<Item>,
                        out1: Output, kept1: seq<Item>)
    requires ValidConfig(c) && HasHead(c.tables, toks) && |toks[0]| > 1
    requires Forwarded(c, HeadPassed(c.tables, toks), keptHead) && Matches(c, passed, collected, [], out1, kept1)
    ensures Matches(c, HeadPassed(c.tables, toks) + passed, HeadCollected(c.tables, toks) + collected, [],
                    HeadOut(c, toks).Plus(out1), keptHead + kept1)
  {
    MatchesAppended(c, HeadPassed(c.tables, toks), HeadCollected(c.tables, toks), HeadOut(c, toks), keptHead,
                    passed, collected, [], out1, kept1);
  }

  /** Nothing but the variables is divided between what is passed on and what is collected. */
  lemma {:induction false} OptionParts(c: Config, toks: seq<string>, n: nat)
    requires ValidConfig(c) && n <= |toks| && OptionsUpTo(c, toks, n)
    ensures PartsMatch(c.host, ItemsUpTo(c.tables, toks, n), PassedUpTo(c.tables, toks, n), CollectedUpTo(c.tables, toks, n))
    decreases n
  {
    if n > 0 {
      var t, w, rest := c.tables, Width(c.tables, toks[0]), toks[Width(c.tables, toks[0])..];
      HeadReads(c, toks);
      OptionParts(c, rest, n - w);
      HeadPartsMatch(c, toks);
      UpToStep(t, toks, n, w, rest);
      PartsAppended(c.host, HeadItems(t, toks), HeadPassed(t, toks), HeadCollected(t, toks),
                    ItemsUpTo(t, rest, n - w), PassedUpTo(t, rest, n - w), CollectedUpTo(t, rest, n - w));
    }
  }

  lemma HeadPartsMatch(c: Config, toks: seq<string>)
    requires ValidConfig(c) && HasHead(c.tables, toks) && Lex(c.tables, toks[0]) != Stop && HeadOK(c, toks[0], toks[1..])
    ensures PartsMatch(c.host, HeadItems(c.tables, toks), HeadPassed(c.tables, toks), HeadCollected(c.tables, toks))
  {
    HeadParts(c, toks);
  }

  ghost predicate PartsMatch(h: Host, items: seq<Item>, passed: seq<Item>, collected: seq<Item>) {
    && Options(passed) == Options(items)
    && FileEntries(h, passed) == [] && FileEntries(h, collected) == FileEntries(h, items)
    && (FlagEntries(h, collected) == [] ==> FlagEntries(h, passed) == FlagEntries(h, items))
  }

  lemma PartsAppended(h: Host, items: seq<Item>, passed: seq<Item>, collected: seq<Item>,
                      items': seq<Item>, passed': seq<Item>, collected': seq<Item>)
    requires PartsMatch(h, items, passed, collected) && PartsMatch(h, items', passed', collected')
    ensures PartsMatch(h, items + items', passed + passed', collected + collected')
  {
    OptionsAppended(passed, passed');
    OptionsAppended(items, items');
    FileEntriesAppended(h, passed, passed');
    FileEntriesAppended(h, collected, collected');
    FileEntriesAppended(h, items, items');
    FlagEntriesAppended(h, passed, passed');
    FlagEntriesAppended(h, collected, collected');
    FlagEntriesAppended(h, items, items');
  }

  // ---- one last token ----

  /** A group of several short flags, which looks for the next argument; or `--add-host` glued to no address. */
  predicate LastTokenPanics(t: Tables, a: string) {
    || (|a| > 2 && ShortIn(a, t.shortBool))
    || (|a| > 10 && "--add-host" <= a && ':' !in a[11..])
  }

  lemma LastTokenScan(c: Config, a: string)
    requires ValidConfig(c)
    ensures Scan(c, InOptions, [a]) == Err(Panic) <==> LastTokenPanics(c.tables, a)
  {
    if Fires(c, a) {
      LastMountScan(c, a);
    } else if |a| > 2 && ShortIn(a, c.tables.shortBool) {
      TurnGroup(c, a, "", []);
    } else if "--add-host" <= a {
      LastAddHostScan(c, a);
    } else {
      OtherLastToken(c, a);
    }
  }

  lemma LastMountScan(c: Config, a: string)
    requires ValidConfig(c) && Fires(c, a)
    ensures Scan(c, InOptions, [a]) != Err(Panic) && !LastTokenPanics(c.tables, a)
  {
    assert Before(a, '=') == "--mount" <= a;
    assert a[1] == '-' && a[2] == 'm';
    if '=' in a {
      TokenForm(a);
      MountToken("--mount", After(a, '='));
      LastGluedMountScan(c, After(a, '='));
    }
  }

  lemma LastGluedMountScan(c: Config, v: string)
    requires ValidConfig(c) && c.handlesMount
    ensures Scan(c, InOptions, ["--mount=" + v]).Ok?
  {
    var out, kept := MountAttachedHead(c, v, [], []);
    var line := ["--mount=" + v] + [];
    assert line == ["--mount=" + v] && Width(c.tables, "--mount=" + v) == 1;
    assert line[1..] == [];
    assert Scan(c, InOptions, []) == Ok(NOTHING);
  }

  lemma LastAddHostScan(c: Config, a: string)
    requires ValidConfig(c) && "--add-host" <= a && !Fires(c, a)
    ensures Scan(c, InOptions, [a]) == Err(Panic) <==> LastTokenPanics(c.tables, a)
  {
    assert |"--add-host"| == 10 && a[1] == '-' && a[2] == 'a';
    assert a != "--debug" && a != "--help";
    assert |a| == 10 ==> a == "--add-host";
    var r := OptionStep(c, [a]);
    assert Turn(c, InOptions, [a]) == r;
    if r.Ok? {
      assert Scan(c, r.value.mode, r.value.rest) == Ok(NOTHING);
    }
  }

  lemma OtherLastToken(c: Config, a: string)
    requires ValidConfig(c) && !("--add-host" <= a) && !Fires(c, a) && !(|a| > 2 && ShortIn(a, c.tables.shortBool))
    ensures Scan(c, InOptions, [a]).Ok?
  {
    var r := OptionStep(c, [a]);
    assert Turn(c, InOptions, [a]) == r;
    assert r.Ok? && r.value.rest == [];
    assert Scan(c, r.value.mode, r.value.rest) == Ok(NOTHING);
  }

  /** For any supported options before it, one last token makes the code panic exactly when it is a group of several
      short flags, which has no next argument, or `--add-host` glued to something without `:`. */
  lemma LastTokenPanicsIff(c: Config, args: seq<string>)
    requires ValidConfig(c) && args != []
    requires var toks := args[Prefix(args)..];
             && OptionsUpTo(c, toks, |toks| - 1) && AllReadable(c.host, ItemsUpTo(c.tables, toks, |toks| - 1))
    ensures Rewrite(c, args) == Err(Panic) <==> LastTokenPanics(c.tables, args[|args| - 1])
  {
    var toks := args[Prefix(args)..];
    LastTokenOf(args);
    LineEndPanicsIff(c, toks, |toks| - 1);
  }

  lemma LastTokenOf(args: seq<string>)
    requires args != []
    ensures var toks := args[Prefix(args)..]; toks != [] && toks[|toks| - 1] == args[|args| - 1]
  {
  }

  lemma LineEndPanicsIff(c: Config, toks: seq<string>, n: nat)
    requires ValidConfig(c) && |toks| == n + 1 && OptionsUpTo(c, toks, n) && AllReadable(c.host, ItemsUpTo(c.tables, toks, n))
    ensures Scan(c, InOptions, toks) == Err(Panic) <==> LastTokenPanics(c.tables, toks[n])
  {
    var out := OptionsScan(c, toks, n);
    EndPanics(c, Scan(c, InOptions, toks), out, toks[n..], toks[n]);
  }

  lemma EndPanics(c: Config, whole: Result<Output>, out: Output, end: seq<string>, a: string)
    requires ValidConfig(c) && |end| == 1 && end[0] == a && whole == Add(out, Scan(c, InOptions, end))
    ensures whole == Err(Panic) <==> LastTokenPanics(c.tables, a)
  {
    LineEndScan(c, end, a);
  }

  lemma LineEndScan(c: Config, end: seq<string>, a: string)
    requires ValidConfig(c) && |end| == 1 && end[0] == a
    ensures Scan(c, InOptions, end) == Err(Panic) <==> LastTokenPanics(c.tables, a)
  {
    LastTokenScan(c, a);
    assert end == [a];
  }

  lemma OptionsScan(c: Config, toks: seq<string>, n: nat) returns (out: Output)
    requires ValidConfig(c) && n <= |toks| && OptionsUpTo(c, toks, n) && AllReadable(c.host, ItemsUpTo(c.tables, toks, n))
    ensures Scan(c, InOptions, toks) == Add(out, Scan(c, InOptions, toks[n..]))
  {
    var kept;
    out, kept := OptionsContribute(c, toks, n, []);
  }

  // ---- no variable is moved ----

  lemma EntriesMerge(es: seq<string>)
    ensures es != [] ==> EnvOrder.Merge(es) != []
  {
    if es != [] {
      EnvOrder.MergedEnvironment(es);
      assert EnvOrder.HasKey(EnvOrder.Merge(es), EnvOrder.Key(es[0]));
    }
  }

  /** If nothing is collected, what is passed on sets what the line set. */
  lemma NothingCollected(c: Config, toks: seq<string>, n: nat, kept: seq<Item>)
    requires ValidConfig(c) && n <= |toks| && OptionsUpTo(c, toks, n)
    requires Forwarded(c, PassedUpTo(c.tables, toks, n), kept)
    requires Environment(c.host, CollectedUpTo(c.tables, toks, n)) == map[]
    ensures FlagEntries(c.host, kept) == FlagEntries(c.host, ItemsUpTo(c.tables, toks, n))
    ensures FileEntries(c.host, kept) == FileEntries(c.host, ItemsUpTo(c.tables, toks, n))
  {
    var collected := CollectedUpTo(c.tables, toks, n);
    CollectedIsEnvironment(c, collected);
    EntriesMerge(FileEntries(c.host, collected) + FlagEntries(c.host, collected));
    OptionParts(c, toks, n);
    ForwardedItems(c, PassedUpTo(c.tables, toks, n), kept);
  }

  /** The line `body` is read, and read with the meaning `before`. */
  ghost predicate ReadsAs(c: Config, before: Reading, body: seq<string>) {
    Read(c.tables, body).Some? && SameMeaning(c, before, Read(c.tables, body).value)
  }

  // ---- `--add-host name:ip`, given as two tokens ----

  lemma AddHostTakesNext(t: Tables)
    requires ValidTables(t)
    ensures Lex(t, "--add-host") == WithNext("--add-host")
  {
    assert '=' !in "--add-host";
    assert "--add-host" in t.longBool ==> PlainLong("--add-host");
    assert "--add-host" <= "--add-host";
  }

  /** The address is resolved, and then scanned as if it were no value; without a `:` the code panics. */
  lemma SeparateAddHostScan(c: Config, v: string, post: seq<string>)
    requires ValidConfig(c)
    ensures Scan(c, InOptions, ["--add-host", v] + post)
            == if ':' in v then Add(Args(["--add-host"]), Scan(c, InOptions, [Resolved(v)] + post)) else Err(Panic)
  {
    AddHostTurn(c, v, post);
    assert ["--add-host", v] + post == ["--add-host"] + ([v] + post);
    if ':' in v {
      ResolveKeepsColon(v);
      ScanOne(c, "--add-host", [v] + post, Step(Args(["--add-host"]), InOptions, [Resolved(v)] + post));
    }
  }

  lemma AddHostTurn(c: Config, v: string, post: seq<string>)
    requires ValidConfig(c)
    ensures Turn(c, InOptions, ["--add-host"] + ([v] + post))
            == match ResolveIP(v)
               case Err(e) => Err(e)
               case Ok(ip) => Ok(Step(Args(["--add-host"]), InOptions, [ip] + post))
  {
    AddHostIsQuiet(c, "--add-host");
    AddHostStep(c, "--add-host", v, post);
    QuietTurn(c, "--add-host", [v] + post);
  }

  lemma QuietTurn(c: Config, a: string, rest: seq<string>)
    requires ValidConfig(c) && !Fires(c, a)
    ensures Turn(c, InOptions, [a] + rest) == OptionStep(c, [a] + rest)
  {
  }

  lemma AddHostIsQuiet(c: Config, a: string)
    requires a == "--add-host"
    ensures !Fires(c, a)
  {
    assert '=' !in a;
    assert Before(a, '=') == a && |"--mount"| == 7;
  }

  lemma AddHostStep(c: Config, a: string, v: string, post: seq<string>)
    requires a == "--add-host"
    ensures OptionStep(c, [a] + ([v] + post))
            == match ResolveIP(v)
               case Err(e) => Err(e)
               case Ok(ip) => Ok(Step(Args([a]), InOptions, [ip] + post))
  {
    var rest := [v] + post;
    assert |a| == 10 && |"--debug"| == 7 && |"--help"| == 6;
    assert ([a] + rest)[1..] == rest && ([a] + rest)[0] == a && rest[0] == v;
    if ResolveIP(v).Ok? {
      assert rest[0 := ResolveIP(v).value] == [ResolveIP(v).value] + post;
    }
  }

  /** For any supported options before it, a separate `--add-host v` before a command panics exactly when `v` has no `:`. */
  lemma SeparateAddHostPanicsIff(c: Config, toks: seq<string>, n: nat)
    requires ValidConfig(c) && n + 1 < |toks| && OptionsUpTo(c, toks, n) && AllReadable(c.host, ItemsUpTo(c.tables, toks, n))
    requires toks[n] == "--add-host" && Quiescent(c, [Resolved(toks[n + 1])] + toks[n + 2..])
    ensures Scan(c, InOptions, toks) == Err(Panic) <==> ':' !in toks[n + 1]
    ensures Scan(c, InOptions, toks).Ok? <==> ':' in toks[n + 1]
  {
    var out, kept := OptionsContribute(c, toks, n, []);
    TwoThenRest(toks, n);
    SeparateAddHostScan(c, toks[n + 1], toks[n + 2..]);
    CommandScans(c, [Resolved(toks[n + 1])] + toks[n + 2..]);
  }

  lemma TwoThenRest(toks: seq<string>, n: nat)
    requires n + 1 < |toks|
    ensures toks[n..] == [toks[n], toks[n + 1]] + toks[n + 2..]
  {
  }

  /** The scan stops taking options at the address: it becomes the first word of the command. */
  lemma AddHostAssembled(c: Config, toks: seq<string>, n: nat, out: Output, om: EnvOrder.Ordered)
    requires ValidConfig(c) && n + 1 < |toks| && toks[n] == "--add-host" && ':' in toks[n + 1]
    requires Scan(c, InOptions, toks) == Add(out, Scan(c, InOptions, toks[n..])) && out.cmd == []
    requires Quiescent(c, [Resolved(toks[n + 1])] + toks[n + 2..]) && om == EnvOrder.Merge(out.fileEnvs + out.envs)
    ensures Scan(c, InOptions, toks).Ok?
    ensures Assemble(Scan(c, InOptions, toks).value)
            == out.nerdctl + (["--add-host"] + (EnvOrder.Args(om) + ([Resolved(toks[n + 1])] + toks[n + 2..])))
  {
    var cmd := [Resolved(toks[n + 1])] + toks[n + 2..];
    TwoThenRest(toks, n);
    SeparateAddHostScan(c, toks[n + 1], toks[n + 2..]);
    CommandScans(c, cmd);
    AddTwice(out, Args(["--add-host"]), Ok(NOTHING.(cmd := cmd)));
    FlagBeforeTail(out, ["--add-host"], cmd);
  }

  lemma FlagBeforeTail(out: Output, args: seq<string>, cmd: seq<string>)
    requires out.cmd == []
    ensures Add(out.Plus(Args(args)), Ok(NOTHING.(cmd := cmd))) == Ok(Output(out.nerdctl + args, out.envs, out.fileEnvs, cmd))
    ensures Assemble(Output(out.nerdctl + args, out.envs, out.fileEnvs, cmd))
            == out.nerdctl + (args + (EnvOrder.Args(EnvOrder.Merge(out.fileEnvs + out.envs)) + cmd))
  {
    var none: seq<string> := [];
    assert none + none == none && none + cmd == cmd;
    assert out.nerdctl + args + none == out.nerdctl + args;
    assert out.envs + none == out.envs && out.fileEnvs + none == out.fileEnvs;
    AssembledParts(Output(out.nerdctl + args, out.envs, out.fileEnvs, cmd));
    Regrouped(out.nerdctl, args, EnvOrder.Args(EnvOrder.Merge(out.fileEnvs + out.envs)) + cmd);
  }

  function AddHostItem(v: string): Item { Item("--add-host", Some(v)) }

  lemma AddHostItemAlone(h: Host, v: string)
    ensures Options([AddHostItem(v)]) == [AddHostItem(v)]
    ensures FlagEntries(h, [AddHostItem(v)]) == [] && FileEntries(h, [AddHostItem(v)]) == []
  {
    var i := AddHostItem(v);
    assert |i.name| == 10 && i.name[2] == 'a';
    OneFlagEntry(h, i);
  }

  lemma AroundAddHost(h: Host, a: seq<Item>, v: string, b: seq<Item>)
    ensures Options(a + ([AddHostItem(v)] + b)) == Options(a) + ([AddHostItem(v)] + Options(b))
    ensures FlagEntries(h, a + ([AddHostItem(v)] + b)) == FlagEntries(h, a) + FlagEntries(h, b)
    ensures FileEntries(h, a + ([AddHostItem(v)] + b)) == FileEntries(h, a) + FileEntries(h, b)
  {
    var i := AddHostItem(v);
    AddHostItemAlone(h, v);
    OptionsAppended(a, [i] + b);
    OptionsAppended([i], b);
    FlagEntriesAppended(h, a, [i] + b);
    FlagEntriesAppended(h, [i], b);
    FileEntriesAppended(h, a, [i] + b);
    FileEntriesAppended(h, [i], b);
    assert [] + FlagEntries(h, b) == FlagEntries(h, b) && [] + FileEntries(h, b) == FileEntries(h, b);
  }

  /** A separate `--add-host`, anywhere on a line without mounts, keeps the line's meaning exactly when no variable was
      set before it (else the variables are put between the flag and its address, and the flag takes `-e` as its
      value), no mount before it is cut, and every later option means the same without being rewritten. */
  lemma SeparateAddHostIff(c: Config, toks: seq<string>, n: nat) returns (body: seq<string>)
    requires ValidConfig(c) && n + 1 < |toks| && OptionsUpTo(c, toks, n) && AllReadable(c.host, ItemsUpTo(c.tables, toks, n))
    requires toks[n] == "--add-host" && ':' in toks[n + 1]
    requires Quiescent(c, [Resolved(toks[n + 1])] + toks[n + 2..]) && Read(c.tables, toks[n + 2..]).Some?
    ensures Scan(c, InOptions, toks).Ok? && body == Assemble(Scan(c, InOptions, toks).value)
    ensures Read(c.tables, toks).Some?
    ensures ReadsAs(c, Read(c.tables, toks).value, body)
            <==> Environment(c.host, CollectedUpTo(c.tables, toks, n)) == map[]
                 && MountsWhole(c, Options(ItemsUpTo(c.tables, toks, n)))
                 && forall i :: i in Options(ReadItems(c.tables, toks[n + 2..])) ==> Carries(c, i, i)
  {
    var v, post, t := toks[n + 1], toks[n + 2..], c.tables;
    var o0, _ := OptionsContribute(c, toks, n, []);
    var om := EnvOrder.Merge(o0.fileEnvs + o0.envs);
    var x := ["--add-host"] + (EnvOrder.Args(om) + ([Resolved(v)] + post));
    var out, kept := OptionsContribute(c, toks, n, x);
    AddHostAssembled(c, toks, n, out, om);
    body := Assemble(Scan(c, InOptions, toks).value);
    AddHostLineReads(c, toks, n);
    CollectedIsEnvironment(c, CollectedUpTo(t, toks, n));
    OptionParts(c, toks, n);
    ForwardedItems(c, PassedUpTo(t, toks, n), kept);
    if om == [] {
      NothingCollected(c, toks, n, kept);
      AddHostAlone(c, ItemsUpTo(t, toks, n), kept, v, post, x);
    } else {
      AddHostLost(c, ItemsUpTo(t, toks, n), kept, v, om, post, x);
    }
  }

  lemma AddHostLineReads(c: Config, toks: seq<string>, n: nat)
    requires ValidConfig(c) && n + 1 < |toks| && toks[n] == "--add-host" && Read(c.tables, toks[n + 2..]).Some?
    requires Read(c.tables, toks) == Cons(ItemsUpTo(c.tables, toks, n), Read(c.tables, toks[n..]))
    ensures Read(c.tables, toks)
            == Some(Reading(ItemsUpTo(c.tables, toks, n) + ([AddHostItem(toks[n + 1])] + ReadItems(c.tables, toks[n + 2..])),
                            Read(c.tables, toks[n + 2..]).value.rest))
  {
    AddHostTakesNext(c.tables);
    TwoThenRest(toks, n);
    PairReads(c.tables, "--add-host", toks[n + 1], toks[n + 2..]);
  }

  /** Without variables, the flag keeps its address. */
  lemma AddHostAlone(c: Config, items: seq<Item>, kept: seq<Item>, v: string, post: seq<string>, x: seq<string>)
    requires ValidConfig(c) && ':' in v && Read(c.tables, post).Some?
    requires Forwarded(c, Options(items), Options(kept))
    requires FlagEntries(c.host, kept) == FlagEntries(c.host, items) && FileEntries(c.host, kept) == FileEntries(c.host, items)
    requires x == ["--add-host"] + ([] + ([Resolved(v)] + post))
    ensures var r := Read(c.tables, post).value;
            && Cons(kept, Read(c.tables, x)).Some?
            && (SameMeaning(c, Reading(items + ([AddHostItem(v)] + r.items), r.rest), Cons(kept, Read(c.tables, x)).value)
                <==> MountsWhole(c, Options(items)) && forall i :: i in Options(r.items) ==> Carries(c, i, i))
  {
    AddHostReads(c, kept, Resolved(v), post, x);
    SameAroundAddHost(c, items, kept, v, Read(c.tables, post).value);
  }

  lemma AddHostReads(c: Config, kept: seq<Item>, v: string, post: seq<string>, x: seq<string>)
    requires ValidConfig(c) && Read(c.tables, post).Some? && x == ["--add-host"] + ([] + ([v] + post))
    ensures var r := Read(c.tables, post).value;
            Cons(kept, Read(c.tables, x)) == Some(Reading(kept + ([AddHostItem(v)] + r.items), r.rest))
  {
    AddHostTakesNext(c.tables);
    assert x == ["--add-host", v] + post;
    PairReads(c.tables, "--add-host", v, post);
  }

  lemma SameAroundAddHost(c: Config, items: seq<Item>, kept: seq<Item>, v: string, r: Reading)
    requires Forwarded(c, Options(items), Options(kept))
    requires FlagEntries(c.host, kept) == FlagEntries(c.host, items) && FileEntries(c.host, kept) == FileEntries(c.host, items)
    ensures SameMeaning(c, Reading(items + ([AddHostItem(v)] + r.items), r.rest),
                        Reading(kept + ([AddHostItem(Resolved(v))] + r.items), r.rest))
            <==> MountsWhole(c, Options(items)) && forall i :: i in Options(r.items) ==> Carries(c, i, i)
  {
    AroundAddHost(c.host, items, v, r.items);
    AroundAddHost(c.host, kept, Resolved(v), r.items);
    CarriedAround(c, Options(items), Options(kept), AddHostItem(v), AddHostItem(Resolved(v)), Options(r.items));
    ForwardedCarriedIff(c, Options(items), Options(kept));
  }

  lemma CarriedAround(c: Config, a: seq<Item>, b: seq<Item>, i: Item, j: Item, more: seq<Item>)
    requires |a| == |b| && Carries(c, i, j)
    ensures CarriedOver(c, a + ([i] + more), b + ([j] + more))
            <==> CarriedOver(c, a, b) && forall k :: k in more ==> Carries(c, k, k)
  {
    CarriedAppended(c, [i], [j], more, more);
    CarriedAppended(c, a, b, [i] + more, [j] + more);
    assert CarriedOver(c, [i], [j]);
    assert CarriedOver(c, more, more) <==> forall k :: k in more ==> Carries(c, k, k) by {
      assert forall k :: 0 <= k < |more| ==> more[k] in more;
    }
  }

  lemma CarriedAppended(c: Config, a: seq<Item>, b: seq<Item>, x: seq<Item>, y: seq<Item>)
    requires |a| == |b|
    ensures CarriedOver(c, a + x, b + y) <==> CarriedOver(c, a, b) && CarriedOver(c, x, y)
  {
    if CarriedOver(c, a + x, b + y) {
      forall k | 0 <= k < |a|
        ensures Carries(c, a[k], b[k])
      {
        assert (a + x)[k] == a[k] && (b + y)[k] == b[k];
      }
      forall k | 0 <= k < |x|
        ensures Carries(c, x[k], y[k])
      {
        assert (a + x)[|a| + k] == x[k] && (b + y)[|a| + k] == y[k];
      }
    }
  }

  lemma AddHostLost(c: Config, items: seq<Item>, kept: seq<Item>, v: string, om: EnvOrder.Ordered,
                    post: seq<string>, x: seq<string>)
    requires ValidConfig(c) && ':' in v && om != [] && Read(c.tables, post).Some?
    requires Forwarded(c, Options(items), Options(kept))
    requires x == ["--add-host"] + (EnvOrder.Args(om) + ([Resolved(v)] + post))
    ensures var r := Read(c.tables, post).value;
            Cons(kept, Read(c.tables, x)).Some? ==>
              !SameMeaning(c, Reading(items + ([AddHostItem(v)] + r.items), r.rest), Cons(kept, Read(c.tables, x)).value)
  {
    var r := Read(c.tables, post).value;
    AddHostTakesNext(c.tables);
    var more := x[2..];
    assert x[0] == "--add-host" && x[1] == "-e";
    assert Read(c.tables, x) == Cons([AddHostItem("-e")], Read(c.tables, more));
    if Read(c.tables, more).Some? {
      AroundAddHost(c.host, items, v, r.items);
      AroundAddHost(c.host, kept, "-e", Read(c.tables, more).value.items);
      FlagInPlaceOfAddress(c, Options(items), Options(kept), v, Options(r.items), Options(Read(c.tables, more).value.items));
    }
  }

  lemma FlagInPlaceOfAddress(c: Config, before: seq<Item>, kept: seq<Item>, v: string, a: seq<Item>, b: seq<Item>)
    requires ValidConfig(c) && ':' in v && |before| == |kept|
    ensures !CarriedOver(c, before + ([AddHostItem(v)] + a), kept + ([AddHostItem("-e")] + b))
  {
    ResolveKeepsColon(v);
    assert !Carries(c, AddHostItem(v), AddHostItem("-e")) by { assert ':' !in "-e"; }
    assert (before + ([AddHostItem(v)] + a))[|kept|] == AddHostItem(v);
    assert (kept + ([AddHostItem("-e")] + b))[|kept|] == AddHostItem("-e");
  }

  // ---- a variable or a file in the last token ----

  /** A token that looks for the next one and does not mind that there is none. */
  predicate StaysLast(c: Config, a: string) {
    "-e" <= a || "--env" <= a || a == "--add-host" || (ValueFlag(c, a) && !Handles(c, a))
  }

  lemma LastFlagTurn(c: Config, a: string)
    requires ValidConfig(c) && ValueFlag(c, a) && !Handles(c, a)
    ensures Turn(c, InOptions, [a]) == Ok(Step(Args([a]), InOptions, []))
  {
    if OrdinaryLong(a) && a !in c.tables.longBool {
      LongLexes(c.tables, a, "");
      TurnOrdinaryLong(c, a, []);
    } else {
      TurnShortArg(c, a, []);
    }
    QuietTurn(c, a, []);
    assert [a] + [] == [a];
  }

  lemma LastVariableTurn(c: Config, a: string)
    requires ValidConfig(c) && StaysLast(c, a)
    ensures Turn(c, InOptions, [a]) == Ok(Step(Args([a]), InOptions, []))
  {
    if ValueFlag(c, a) && !Handles(c, a) {
      LastFlagTurn(c, a);
    } else if "--env" <= a {
      EnvIsNoOther(a);
    } else if a == "--add-host" {
      AddHostIsQuiet(c, a);
    } else {
      ShortIsNotSpecial(a);
    }
    if !ValueFlag(c, a) || Handles(c, a) {
      QuietTurn(c, a, []);
      assert [a] + [] == [a] && [a][1..] == [];
    }
  }

  /** A variable or a file in the last token is not collected: it is passed on as it is, before the variables that were
      set before it, so that these win. So is a flag that lacks its value, which then takes what follows. */
  lemma LastFlagIsPassedOn(c: Config, toks: seq<string>) returns (options: seq<string>)
    requires ValidConfig(c) && toks != [] && OptionsUpTo(c, toks, |toks| - 1)
    requires AllReadable(c.host, ItemsUpTo(c.tables, toks, |toks| - 1))
    requires StaysLast(c, toks[|toks| - 1])
    ensures var collected := CollectedUpTo(c.tables, toks, |toks| - 1);
            var om := EnvOrder.Merge(FileEntries(c.host, collected) + FlagEntries(c.host, collected));
            && Scan(c, InOptions, toks).Ok?
            && Assemble(Scan(c, InOptions, toks).value) == options + ([toks[|toks| - 1]] + EnvOrder.Args(om))
  {
    var a := toks[|toks| - 1];
    var out, kept := OptionsContribute(c, toks, |toks| - 1, []);
    options := out.nerdctl;
    LastVariableScan(c, toks[|toks| - 1..], a);
    AddTwice(out, Args([a]), Ok(NOTHING));
    FlagBeforeTail(out, [a], []);
    var env := EnvOrder.Args(EnvOrder.Merge(out.fileEnvs + out.envs));
    assert env + [] == env;
  }

  /** A mount that Finch is to handle, and that lacks its value, is refused. */
  lemma LastMountIsRefused(c: Config, toks: seq<string>)
    requires ValidConfig(c) && c.handlesMount && toks != [] && OptionsUpTo(c, toks, |toks| - 1)
    requires AllReadable(c.host, ItemsUpTo(c.tables, toks, |toks| - 1))
    ensures toks[|toks| - 1] == "--mount" ==> Scan(c, InOptions, toks) == Err(HandlerError)
  {
    var out := OptionsScan(c, toks, |toks| - 1);
    LoneMountIsRefused(c, toks[|toks| - 1..], toks[|toks| - 1]);
  }

  lemma LoneMountIsRefused(c: Config, end: seq<string>, a: string)
    requires ValidConfig(c) && c.handlesMount && |end| == 1 && end[0] == a
    ensures a == "--mount" ==> Scan(c, InOptions, end) == Err(HandlerError)
  {
    if a == "--mount" {
      MountTokensFire(c, a);
      assert '=' !in a;
      assert Handled(c, end) == Err(HandlerError);
    }
  }

  lemma LastVariableScan(c: Config, end: seq<string>, a: string)
    requires ValidConfig(c) && |end| == 1 && end[0] == a && StaysLast(c, a)
    ensures Scan(c, InOptions, end) == Add(Args([a]), Ok(NOTHING))
  {
    LastVariableTurn(c, a);
    assert end == [a];
    TurnScans(c, end, Step(Args([a]), InOptions, []));
    assert Scan(c, InOptions, []) == Ok(NOTHING);
  }

  // ---- `--` ----

  /** `--` takes the next token as if it were its value, whatever follows; before something that does not look like a
      value it is dropped; at the end of the line it stays. */
  lemma DoubleDashScan(c: Config, v: string, post: seq<string>)
    requires ValidConfig(c)
    ensures Scan(c, InOptions, ["--", v] + post)
            == if OkValue(v) then Add(Args(["--", v]), Scan(c, InOptions, post)) else Scan(c, InOptions, [v] + post)
    ensures Scan(c, InOptions, ["--"]) == Ok(Args(["--"]))
  {
    DoubleDashTurn(c, v, post);
    assert ["--", v] + post == ["--"] + ([v] + post);
    if OkValue(v) {
      ScanOne(c, "--", [v] + post, Step(Args(["--", v]), Skipping, [v] + post));
      NumericIsNoFlag(c, v);
      ScanSkipped(c, v, post);
    } else {
      ScanOne(c, "--", [v] + post, Step(NOTHING, InOptions, [v] + post));
      AddNothing(Scan(c, InOptions, [v] + post));
    }
    LastDoubleDash(c);
  }

  lemma LastDoubleDash(c: Config)
    requires ValidConfig(c)
    ensures Scan(c, InOptions, ["--"]) == Ok(Args(["--"]))
  {
    DoubleDashStep(c, []);
    var none: seq<string> := [];
    assert ["--"] + none == ["--"] && none + none == none;
    ScanOne(c, "--", none, Step(Args(["--"]), InOptions, none));
    assert Scan(c, InOptions, none) == Ok(NOTHING);
  }

  lemma DoubleDashStep(c: Config, rest: seq<string>)
    requires ValidConfig(c)
    ensures Turn(c, InOptions, ["--"] + rest) == Ok(FlagStep("--", rest))
  {
    var a := "--";
    assert '=' !in a;
    assert Before(a, '=') == a && |"--mount"| == 7;
    assert ([a] + rest)[1..] == rest;
    assert a in c.tables.longBool ==> PlainLong(a);
    assert !("--add-host" <= a) && !("--env" <= a) && !("--env-file" <= a) && !("-e" <= a) by {
      assert |"--add-host"| == 10 && |"--env"| == 5 && |"--env-file"| == 10;
    }
  }

  lemma DoubleDashTurn(c: Config, v: string, post: seq<string>)
    requires ValidConfig(c)
    ensures Turn(c, InOptions, ["--"] + ([v] + post))
            == Ok(if OkValue(v) then Step(Args(["--", v]), Skipping, [v] + post) else Step(NOTHING, InOptions, [v] + post))
  {
    DoubleDashStep(c, [v] + post);
    assert ([v] + post)[0] == v && '=' !in "--";
  }

  /** `--` before a value and a command keeps the line's meaning exactly when no mount is cut and no variable was set
      before it: otherwise the variables are put behind it, where they are arguments of the container. */
  lemma DoubleDashIff(c: Config, toks: seq<string>, n: nat) returns (body: seq<string>)
    requires ValidConfig(c) && n + 1 < |toks| && OptionsUpTo(c, toks, n) && AllReadable(c.host, ItemsUpTo(c.tables, toks, n))
    requires toks[n] == "--" && OkValue(toks[n + 1]) && (toks[n + 2..] == [] || Quiescent(c, toks[n + 2..]))
    ensures Scan(c, InOptions, toks).Ok? && body == Assemble(Scan(c, InOptions, toks).value)
    ensures Read(c.tables, toks).Some?
    ensures ReadsAs(c, Read(c.tables, toks).value, body)
            <==> Environment(c.host, CollectedUpTo(c.tables, toks, n)) == map[]
                 && MountsWhole(c, Options(ItemsUpTo(c.tables, toks, n)))
  {
    var v, post, t := toks[n + 1], toks[n + 2..], c.tables;
    var o0, _ := OptionsContribute(c, toks, n, []);
    var om := EnvOrder.Merge(o0.fileEnvs + o0.envs);
    var x := ["--", v] + (EnvOrder.Args(om) + post);
    var out, kept := OptionsContribute(c, toks, n, x);
    DoubleDashAssembled(c, toks, n, out);
    body := Assemble(Scan(c, InOptions, toks).value);
    CollectedIsEnvironment(c, CollectedUpTo(t, toks, n));
    OptionParts(c, toks, n);
    ForwardedItems(c, PassedUpTo(t, toks, n), kept);
    TwoThenRest(toks, n);
    if om == [] {
      NothingCollected(c, toks, n, kept);
    }
    DoubleDashMeaning(c, ItemsUpTo(t, toks, n), kept, v, om, post);
  }

  lemma DoubleDashMeaning(c: Config, items: seq<Item>, kept: seq<Item>, v: string, om: EnvOrder.Ordered, post: seq<string>)
    requires Forwarded(c, Options(items), Options(kept))
    requires om == [] ==> FlagEntries(c.host, kept) == FlagEntries(c.host, items)
    requires om == [] ==> FileEntries(c.host, kept) == FileEntries(c.host, items)
    ensures Cons(items, Read(c.tables, ["--", v] + post)).Some?
    ensures Cons(kept, Read(c.tables, ["--", v] + (EnvOrder.Args(om) + post))).Some?
    ensures SameMeaning(c, Cons(items, Read(c.tables, ["--", v] + post)).value,
                        Cons(kept, Read(c.tables, ["--", v] + (EnvOrder.Args(om) + post))).value)
            <==> om == [] && MountsWhole(c, Options(items))
  {
    ForwardedCarriedIff(c, Options(items), Options(kept));
    DoubleDashReads(c.tables, v, post, items);
    DoubleDashReads(c.tables, v, EnvOrder.Args(om) + post, kept);
    if om == [] {
      assert EnvOrder.Args(om) + post == post;
    } else {
      assert |["--", v] + (EnvOrder.Args(om) + post)| != |["--", v] + post|;
    }
  }

  lemma DoubleDashReads(t: Tables, v: string, post: seq<string>, items: seq<Item>)
    ensures Cons(items, Read(t, ["--", v] + post)) == Some(Reading(items, ["--", v] + post))
  {
    assert items + [] == items;
  }

  lemma DoubleDashAssembled(c: Config, toks: seq<string>, n: nat, out: Output)
    requires ValidConfig(c) && n + 1 < |toks| && toks[n] == "--" && OkValue(toks[n + 1])
    requires Scan(c, InOptions, toks) == Add(out, Scan(c, InOptions, toks[n..])) && out.cmd == []
    requires toks[n + 2..] == [] || Quiescent(c, toks[n + 2..])
    ensures Scan(c, InOptions, toks).Ok?
    ensures Assemble(Scan(c, InOptions, toks).value)
            == out.nerdctl + (["--", toks[n + 1]] + (EnvOrder.Args(EnvOrder.Merge(out.fileEnvs + out.envs)) + toks[n + 2..]))
  {
    var v, cmd := toks[n + 1], toks[n + 2..];
    TwoThenRest(toks, n);
    DoubleDashScan(c, v, cmd);
    CommandScans(c, cmd);
    AddTwice(out, Args(["--", v]), Ok(NOTHING.(cmd := cmd)));
    FlagBeforeTail(out, ["--", v], cmd);
  }
}
