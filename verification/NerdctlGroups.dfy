/** Groups of short flags: which are passed on as they are, and what becomes of a variable set in one. */
module NerdctlGroups {
  import opened Wrappers
  import opened Strings
  import opened CommandLine
  import opened Nerdctl
  import opened NerdctlForms
  import opened NerdctlMeaning
  import opened NerdctlTheorems
  import opened NerdctlCanonical
  import EnvOrder

  /** `-fev`: a flag without value, and a variable. */
  function VariableGroup(f: char, v: string): string { ['-', f, 'e'] + v }

  lemma VariableGroupReads(t: Tables, f: char, v: string)
    requires ValidTables(t) && f in t.shortBool && v != "" && v[0] != '='
    ensures var a := VariableGroup(f, v);
            && IsGroup(t, a) && ClosedGroupOK(t, a)
            && Items(t, a) == [Item(['-', f], None), Item("-e", Some(v))]
  {
    var a, b := VariableGroup(f, v), "-e" + v;
    assert a[..2] == ['-', f] && "-" + a[2..] == b && a[2] == 'e';
    assert Lex(t, a) == Grouped(['-', f], b);
    assert b[2..] == v && b[..2] == "-e" && b[2] == v[0];
    assert Lex(t, b) == Whole("-e", Some(v));
    assert ArgFlagMid(t, a);
  }

  lemma VariableGroupScans(c: Config, f: char, v: string, cmd: seq<string>)
    requires ValidConfig(c) && f in c.tables.shortBool && v != "" && v[0] != '=' && Quiescent(c, cmd)
    ensures var line := [VariableGroup(f, v)] + cmd;
            && WellFormed(c, line)
            && Scan(c, InOptions, line) == Ok(Output([VariableGroup(f, v)], [], [], cmd))
            && Read(c.tables, line) == Some(Reading([Item(['-', f], None), Item("-e", Some(v))], cmd))
  {
    var a := VariableGroup(f, v);
    VariableGroupReads(c.tables, f, v);
    GroupLine(c, a, cmd);
    ClosedGroupHead(c, a, cmd, []);
    TrailingCommandUnchanged(c, cmd);
    GroupOutput(a, cmd);
  }

  lemma GroupOutput(a: string, cmd: seq<string>)
    ensures Add(Args([a]), Ok(NOTHING.(cmd := cmd))) == Ok(Output([a], [], [], cmd))
  {
    var none: seq<string> := [];
    assert [a] + none == [a] && none + none == none && none + cmd == cmd;
  }

  lemma GroupLine(c: Config, a: string, cmd: seq<string>)
    requires ValidConfig(c) && IsGroup(c.tables, a) && ClosedGroupOK(c.tables, a) && Quiescent(c, cmd)
    ensures GroupOK(c.tables, a, cmd) && WellFormed(c, [a] + cmd)
    ensures Read(c.tables, [a] + cmd) == Some(Reading(Items(c.tables, a), cmd))
  {
    assert ([a] + cmd)[1..] == cmd && WellFormed(c, cmd);
    ClosedReads(c.tables, a, cmd);
    assert Items(c.tables, a) + [] == Items(c.tables, a);
  }

  lemma VariableGroupRewrites(c: Config, f: char, v: string, cmd: seq<string>)
    requires ValidConfig(c) && f in c.tables.shortBool && v != "" && v[0] != '=' && Quiescent(c, cmd)
    ensures var line := [VariableGroup(f, v)] + cmd; WellFormed(c, line) && Rewrite(c, line) == Ok(line)
  {
    var a := VariableGroup(f, v);
    VariableGroupScans(c, f, v, cmd);
    assert ([a] + cmd)[0] != "run";
    UnprefixedRewrites(c, [a] + cmd, Output([a], [], [], cmd));
    NoVariables([a], cmd);
  }

  lemma NoVariables(nerdctl: seq<string>, cmd: seq<string>)
    ensures Assemble(Output(nerdctl, [], [], cmd)) == nerdctl + cmd
  {
    var none: seq<string> := [];
    assert none + none == none;
    assert EnvOrder.Args(EnvOrder.Merge(none)) == [];
  }

  /** A variable in a group is passed on as it was typed, whether or not the host has it: the line is explicit exactly
      when the variable comes with its value. */
  lemma GroupedVariableIsUnresolved(c: Config, f: char, v: string, cmd: seq<string>)
    requires ValidConfig(c) && f in c.tables.shortBool && v != "" && v[0] != '=' && Quiescent(c, cmd)
    ensures var line := [VariableGroup(f, v)] + cmd;
            && WellFormed(c, line) && Rewrite(c, line) == Ok(line)
            && (Explicit(ReadItems(c.tables, line)) <==> '=' in v)
  {
    var line := [VariableGroup(f, v)] + cmd;
    VariableGroupRewrites(c, f, v, cmd);
    VariableGroupScans(c, f, v, cmd);
    PairExplicit(Item(['-', f], None), Item("-e", Some(v)));
  }

  lemma PairExplicit(i: Item, j: Item)
    requires |i.name| == 2 && i.value.None? && j.name == "-e" && j.value.Some?
    ensures Explicit([i, j]) <==> '=' in j.value.value
  {
    assert |"--debug"| == 7 && |"--env-file"| == 10 && SetsEnv(j) && j in [i, j];
  }

  /** `-e K=V -feK=W`: the later setting was typed last, but the earlier one is moved behind it and wins. */
  lemma EarlierVariableWins(c: Config, f: char, k: string, v: string, w: string, cmd: seq<string>)
    requires ValidConfig(c) && f in c.tables.shortBool && k != "" && '=' !in k && Quiescent(c, cmd)
    ensures var line := ["-e", k + "=" + v] + ([VariableGroup(f, k + "=" + w)] + cmd);
            && WellFormed(c, line)
            && Rewrite(c, line) == Ok([VariableGroup(f, k + "=" + w)] + (["-e", k + "=" + v] + cmd))
            && Environment(c.host, ReadItems(c.tables, line)) == map[k := w]
    ensures Environment(c.host, ReadItems(c.tables, [VariableGroup(f, k + "=" + w)] + (["-e", k + "=" + v] + cmd)))
            == map[k := v]
  {
    var a, e, e' := VariableGroup(f, k + "=" + w), k + "=" + v, k + "=" + w;
    VariableGroupScans(c, f, e', cmd);
    EnvPairIsWellFormed(c, e, [a] + cmd);
    VariableBeforeGroup(c, a, e, cmd);
    OneVariableArgs(k, v, [a], cmd);
    BothReadings(c, f, e, e', cmd);
    TwoVariables(c.host, f, k, v, w);
    TwoVariables(c.host, f, k, w, v);
  }

  lemma VariableBeforeGroup(c: Config, a: string, e: string, cmd: seq<string>)
    requires ValidConfig(c) && '=' in e && Scan(c, InOptions, [a] + cmd) == Ok(Output([a], [], [], cmd))
    ensures Rewrite(c, ["-e", e] + ([a] + cmd)) == Ok(Assemble(Output([a], [e], [], cmd)))
  {
    EnvPairRescans(c, e, [a] + cmd);
    var none: seq<string> := [];
    assert none + none == none && [e] + none == [e] && none + [a] == [a] && none + cmd == cmd;
    assert (["-e", e] + ([a] + cmd))[0] == "-e";
    UnprefixedRewrites(c, ["-e", e] + ([a] + cmd), Output([a], [e], [], cmd));
  }

  lemma BothReadings(c: Config, f: char, e: string, e': string, cmd: seq<string>)
    requires ValidConfig(c) && f in c.tables.shortBool && e != "" && e[0] != '=' && e' != "" && e'[0] != '='
    requires Quiescent(c, cmd)
    ensures var a := VariableGroup(f, e');
            && ReadItems(c.tables, ["-e", e] + ([a] + cmd)) == VariableItems(e, f, e')
            && ReadItems(c.tables, [a] + (["-e", e] + cmd)) == GroupItems(f, e') + [Item("-e", Some(e))]
  {
    var a := VariableGroup(f, e');
    VariableGroupReads(c.tables, f, e');
    VariableGroupScans(c, f, e', cmd);
    PairReads(c.tables, "-e", e, [a] + cmd);
    PairReads(c.tables, "-e", e, cmd);
    ClosedReads(c.tables, a, ["-e", e] + cmd);
    var i := Item("-e", Some(e));
    assert [i] + [] == [i];
  }

  function GroupItems(f: char, v: string): seq<Item> { [Item(['-', f], None), Item("-e", Some(v))] }

  function VariableItems(e: string, f: char, v: string): seq<Item> { [Item("-e", Some(e))] + GroupItems(f, v) }

  lemma TwoVariables(h: Host, f: char, k: string, v: string, w: string)
    requires '=' !in k && f != 'e'
    ensures Environment(h, VariableItems(k + "=" + v, f, k + "=" + w)) == map[k := w]
    ensures Environment(h, GroupItems(f, k + "=" + v) + [Item("-e", Some(k + "=" + w))]) == map[k := w]
  {
    var i, j := Item("-e", Some(k + "=" + v)), Item("-e", Some(k + "=" + w));
    EntriesOf(h, f, i, j);
    EntriesOf(h, f, i, i);
    TwoEntries(k, v, w);
    NothingBelow(map[k := w]);
  }

  lemma EntriesOf(h: Host, f: char, i: Item, j: Item)
    requires f != 'e' && i.name == "-e" == j.name && i.value.Some? && j.value.Some?
    requires '=' in i.value.value && '=' in j.value.value
    ensures FlagEntries(h, VariableItems(i.value.value, f, j.value.value)) == [i.value.value, j.value.value]
    ensures FlagEntries(h, GroupItems(f, i.value.value) + [j]) == [i.value.value, j.value.value]
    ensures FileEntries(h, VariableItems(i.value.value, f, j.value.value)) == []
    ensures FileEntries(h, GroupItems(f, i.value.value) + [j]) == []
  {
    GroupEntries(h, f, i);
    GroupEntries(h, f, j);
    OneFlagEntry(h, i);
    OneFlagEntry(h, j);
    assert |"-e"| == 2 && |"--env-file"| == 10;
    FlagEntriesAppended(h, [i], GroupItems(f, j.value.value));
    FileEntriesAppended(h, [i], GroupItems(f, j.value.value));
    FlagEntriesAppended(h, GroupItems(f, i.value.value), [j]);
    FileEntriesAppended(h, GroupItems(f, i.value.value), [j]);
  }

  lemma GroupEntries(h: Host, f: char, i: Item)
    requires f != 'e' && i.name == "-e" && i.value.Some? && '=' in i.value.value
    ensures FlagEntries(h, GroupItems(f, i.value.value)) == [i.value.value]
    ensures FileEntries(h, GroupItems(f, i.value.value)) == []
  {
    var flag := Item(['-', f], None);
    OneFlagEntry(h, flag);
    OneFlagEntry(h, i);
    assert |"-e"| == 2 && |"--env-file"| == 10;
    assert GroupItems(f, i.value.value) == [flag] + [i];
    FlagEntriesAppended(h, [flag], [i]);
    FileEntriesAppended(h, [flag], [i]);
  }

  lemma TwoEntries(k: string, v: string, w: string)
    requires '=' !in k
    ensures EnvOrder.EnvOf([k + "=" + v, k + "=" + w]) == map[k := w] && EnvOrder.EnvOf([]) == map[]
  {
    var es := [k + "=" + v, k + "=" + w];
    assert k + "=" + v == k + ['='] + v && k + "=" + w == k + ['='] + w;
    CutGlued(k, '=', v);
    CutGlued(k, '=', w);
    assert es[..1] == [es[0]] && [es[0]][..0] == [];
    assert EnvOrder.EnvOf([es[0]]) == map[k := v];
  }

  // ---- the two lines that show it ----

  /** `-ieHOME img`: the host's HOME does not reach the container. */
  lemma HomeIsUnresolved(cmd: Command, host: Host, order: MapOrder)
    requires ValidOrder(order)
    ensures var c, line := ConfigOf(cmd, host, order), ["-ieHOME", "img"];
            WellFormed(c, line) && Rewrite(c, line) == Ok(line) && !Explicit(ReadItems(c.tables, line))
  {
    ConfigIsValid(cmd, host, order);
    CommandWord(ConfigOf(cmd, host, order), "img");
    HomeSpelled();
    GroupedVariableIsUnresolved(ConfigOf(cmd, host, order), 'i', "HOME", ["img"]);
  }

  lemma HomeSpelled()
    ensures ["-ieHOME", "img"] == [VariableGroup('i', "HOME")] + ["img"]
  {
    assert "-ieHOME" == VariableGroup('i', "HOME");
  }

  /** `-e A=2 -ieA=1 img`: the container sees 2. */
  lemma FirstSettingOfTwoWins(cmd: Command, host: Host, order: MapOrder)
    requires ValidOrder(order)
    ensures var c, line, body := ConfigOf(cmd, host, order), ["-e", "A=2", "-ieA=1", "img"], ["-ieA=1", "-e", "A=2", "img"];
            && WellFormed(c, line) && Rewrite(c, line) == Ok(body)
            && Environment(host, ReadItems(c.tables, line)) == map["A" := "1"]
            && Environment(host, ReadItems(c.tables, body)) == map["A" := "2"]
  {
    ConfigIsValid(cmd, host, order);
    CommandWord(ConfigOf(cmd, host, order), "img");
    TwoSettingsSpelled();
    EarlierVariableWins(ConfigOf(cmd, host, order), 'i', "A", "2", "1", ["img"]);
  }

  lemma TwoSettingsSpelled()
    ensures ["-e", "A=2", "-ieA=1", "img"] == ["-e", "A" + "=" + "2"] + ([VariableGroup('i', "A" + "=" + "1")] + ["img"])
    ensures ["-ieA=1", "-e", "A=2", "img"] == [VariableGroup('i', "A" + "=" + "1")] + (["-e", "A" + "=" + "2"] + ["img"])
  {
    assert "-ieA=1" == VariableGroup('i', "A" + "=" + "1") && "A=2" == "A" + "=" + "2";
  }

  // ---- which groups are passed on ----

  /** A group, whatever its characters, is passed on as it is exactly unless its last character is a value flag and no
      earlier one is: that character is then cut off and put before the next argument. */
  lemma GroupIsPassedIff(c: Config, a: string, next: string, rest: seq<string>)
    requires ValidConfig(c) && |a| > 2 && ShortIn(a, c.tables.shortBool)
    ensures Scan(c, InOptions, [a, next] + rest)
            == if Splits(c.tables, a) then Add(Args([a[..|a| - 1]]), Scan(c, InOptions, ["-" + a[|a| - 1..] + next] + rest))
               else Add(Args([a]), Scan(c, InOptions, [next] + rest))
    ensures Splits(c.tables, a)
            <==> a[|a| - 1] in c.tables.shortArg && forall k :: 0 < k < |a| - 1 ==> a[k] !in c.tables.shortArg
  {
    TurnGroup(c, a, next, rest);
    assert [a] + ([next] + rest) == [a, next] + rest;
    ScanOne(c, a, [next] + rest, Step(Args([GroupHead(c.tables, a)]), InOptions, [GroupNext(c.tables, a, next)] + rest));
    assert '-' !in c.tables.shortArg;
  }
}
