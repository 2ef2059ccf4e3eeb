/** What Finch's argument rewriting promises, over every well-formed line. */
module NerdctlTheorems {
  import opened Wrappers
  import opened Strings
  import opened CommandLine
  import opened Nerdctl
  import opened NerdctlForms
  import opened NerdctlMeaning
  import EnvOrder
  import Mounts

  function EnvItems(es: seq<string>): (items: seq<Item>)
    ensures |items| == |es|
  {
    if es == [] then [] else [Item("-e", Some(es[0]))] + EnvItems(es[1..])
  }

  lemma {:induction false} EnvArgsRead(t: Tables, om: EnvOrder.Ordered, x: seq<string>)
    requires ValidTables(t)
    ensures Read(t, EnvOrder.Args(om) + x) == Cons(EnvItems(EnvOrder.Entries(om)), Read(t, x))
  {
    if om == [] {
      assert EnvOrder.Args(om) + x == x;
      if Read(t, x).Some? {
        assert [] + Read(t, x).value.items == Read(t, x).value.items;
      }
    } else {
      var e := om[0].0 + "=" + om[0].1;
      EnvArgsRead(t, om[1..], x);
      assert EnvOrder.Args(om) + x == ["-e", e] + (EnvOrder.Args(om[1..]) + x);
      assert Lex(t, "-e") == WithNext("-e");
      PairReads(t, "-e", e, EnvOrder.Args(om[1..]) + x);
      ConsTwice([Item("-e", Some(e))], EnvItems(EnvOrder.Entries(om[1..])), Read(t, x));
      assert EnvOrder.Entries(om)[1..] == EnvOrder.Entries(om[1..]);
    }
  }

  lemma {:induction false} EnvItemsSet(h: Host, es: seq<string>)
    requires forall e :: e in es ==> '=' in e
    ensures FlagEntries(h, EnvItems(es)) == es && FileEntries(h, EnvItems(es)) == [] && Options(EnvItems(es)) == []
  {
    if es != [] {
      EnvItemsSet(h, es[1..]);
    }
  }

  /** What is left after the options starts with no option. */
  lemma {:induction false} RestStops(t: Tables, toks: seq<string>)
    requires Read(t, toks).Some?
    ensures var rest := Read(t, toks).value.rest; Read(t, rest) == Some(Reading([], rest))
    decreases |toks|, if toks == [] then 0 else |toks[0]|
  {
    if toks != [] {
      match Lex(t, toks[0])
      case Stop =>
      case Ends =>
      case Whole(_, _) => RestStops(t, toks[1..]);
      case WithNext(_) => RestStops(t, toks[2..]);
      case Grouped(_, others) => RestStops(t, [others] + toks[1..]);
    }
  }

  /** Option `j` says what option `i` says: `host-gateway` is resolved, and a mount that Finch handles is less its
      consistency. */
  predicate Carries(c: Config, i: Item, j: Item) {
    && j.name == i.name
    && if i.value.None? then j.value.None?
       else if i.name == "--add-host" then j.value == Some(Resolved(i.value.value))
       else if c.handlesMount && i.name == "--mount" then j.value.Some? && SaysMount(i.value.value, j.value.value)
       else j.value == i.value
  }

  predicate CarriedOver(c: Config, before: seq<Item>, after: seq<Item>) {
    |before| == |after| && forall k :: 0 <= k < |before| ==> Carries(c, before[k], after[k])
  }

  /** The option is no bind mount of which Finch cuts off something. */
  predicate IsWhole(c: Config, i: Item) {
    c.handlesMount && i.name == "--mount" && i.value.Some? ==> !Mounts.IsCut(i.value.value)
  }

  predicate MountsWhole(c: Config, items: seq<Item>) { forall i :: i in items ==> IsWhole(c, i) }

  lemma ForwardsCarriesIff(c: Config, i: Item, j: Item)
    requires Forwards(c, i, j)
    ensures Carries(c, i, j) <==> IsWhole(c, i)
  {
    assert |"--mount"| == 7 && |"--add-host"| == 10;
    if c.handlesMount && i.name == "--mount" && i.value.Some? {
      Mounts.MountIsSaidIff(i.value.value, j.value.value);
    }
  }

  /** What the rewriter forwards says the same exactly if no mount is cut. */
  lemma ForwardedCarriedIff(c: Config, a: seq<Item>, b: seq<Item>)
    requires Forwarded(c, a, b)
    ensures CarriedOver(c, a, b) <==> MountsWhole(c, a)
  {
    forall k | 0 <= k < |a|
      ensures Carries(c, a[k], b[k]) <==> IsWhole(c, a[k])
    {
      assert Forwards(c, a[k], b[k]);
      ForwardsCarriesIff(c, a[k], b[k]);
    }
    assert forall k :: 0 <= k < |a| ==> a[k] in a;
  }

  /** Two readings that ask for the same container: options carried over, same environment, same command. */
  predicate SameMeaning(c: Config, before: Reading, after: Reading) {
    && CarriedOver(c, Options(before.items), Options(after.items))
    && Environment(c.host, after.items) == Environment(c.host, before.items)
    && after.rest == before.rest
  }

  /** A line that is explicit: no `--debug`, no file, and every variable comes with its value. */
  predicate Explicit(items: seq<Item>) {
    forall i :: i in items ==> i.name != "--debug" && !NamesEnvFile(i) && (SetsEnv(i) ==> '=' in i.value.value)
  }

  // ---- what the scan passes on and collects, against what the line says ----

  lemma {:induction false} OptionsAreOptions(items: seq<Item>)
    ensures forall i :: i in Options(items) ==> IsOption(i)
  {
    if items != [] {
      OptionsAreOptions(items[1..]);
    }
  }

  lemma OptionsOfOptions(c: Config, items: seq<Item>)
    ensures Options(Options(items)) == Options(items)
    ensures FlagEntries(c.host, Options(items)) == [] && FileEntries(c.host, Options(items)) == []
  {
    OptionsAreOptions(items);
    PlainItems(c, Options(items));
  }

  lemma {:induction false} NoFilesNamed(h: Host, items: seq<Item>)
    requires forall i :: i in items ==> |i.name| == 2
    ensures FileEntries(h, items) == []
  {
    if items != [] {
      NoFilesNamed(h, items[1..]);
      assert |"--env-file"| == 10;
    }
  }

  lemma HeadParts(c: Config, toks: seq<string>)
    requires ValidConfig(c) && HasHead(c.tables, toks) && Lex(c.tables, toks[0]) != Stop && HeadOK(c, toks[0], toks[1..])
    ensures Options(HeadPassed(c.tables, toks)) == Options(HeadItems(c.tables, toks))
    ensures FileEntries(c.host, HeadPassed(c.tables, toks)) == []
    ensures FileEntries(c.host, HeadCollected(c.tables, toks)) == FileEntries(c.host, HeadItems(c.tables, toks))
    ensures IsGroup(c.tables, toks[0]) ==> FlagEntries(c.host, HeadCollected(c.tables, toks)) == []
    ensures !IsGroup(c.tables, toks[0]) ==> FlagEntries(c.host, HeadPassed(c.tables, toks)) == []
  {
    var items := HeadItems(c.tables, toks);
    if IsGroup(c.tables, toks[0]) {
      assert ClosedGroupOK(c.tables, toks[0]);
      NoFilesNamed(c.host, items);
    } else {
      OptionsOfOptions(c, items);
    }
  }

  /** Nothing but the variables is divided between what is passed on and what is collected. */
  lemma {:induction false} LineParts(c: Config, toks: seq<string>)
    requires ValidConfig(c) && WellFormed(c, toks)
    ensures Options(Passed(c.tables, toks)) == Options(ReadItems(c.tables, toks))
    ensures FileEntries(c.host, Passed(c.tables, toks)) == []
    ensures FileEntries(c.host, Collected(c.tables, toks)) == FileEntries(c.host, ReadItems(c.tables, toks))
    decreases |toks|
  {
    if toks == [] || Lex(c.tables, toks[0]) == Stop {
      assert !HasHead(c.tables, toks);
    } else {
      var t, rest := c.tables, toks[Width(c.tables, toks[0])..];
      HeadReads(c, toks);
      WellFormedLinesRead(c, rest);
      LineParts(c, rest);
      HeadParts(c, toks);
      OptionsAppended(HeadPassed(t, toks), Passed(t, rest));
      OptionsAppended(HeadItems(t, toks), ReadItems(t, rest));
      FileEntriesAppended(c.host, HeadPassed(t, toks), Passed(t, rest));
      FileEntriesAppended(c.host, HeadCollected(t, toks), Collected(t, rest));
      FileEntriesAppended(c.host, HeadItems(t, toks), ReadItems(t, rest));
    }
  }

  lemma ForwardedItem(c: Config, i: Item, j: Item)
    requires Forwards(c, i, j)
    ensures IsOption(i) <==> IsOption(j)
    ensures SetsEnv(i) <==> SetsEnv(j)
    ensures SetsEnv(i) ==> i == j
    ensures NamesEnvFile(i) ==> i == j
    ensures FlagEntry(c.host, i) == FlagEntry(c.host, j) && FileEntry(c.host, i) == FileEntry(c.host, j)
  {
    assert |"--mount"| == 7 && |"--add-host"| == 10 && |"-e"| == 2 && |"--env"| == 5;
    assert "--add-host"[2] == 'a' && "--env-file"[2] == 'e';
  }

  lemma {:induction false} ForwardedItems(c: Config, a: seq<Item>, b: seq<Item>)
    requires Forwarded(c, a, b)
    ensures Forwarded(c, Options(a), Options(b))
    ensures FlagEntries(c.host, a) == FlagEntries(c.host, b) && FileEntries(c.host, a) == FileEntries(c.host, b)
  {
    if a != [] {
      ForwardedItems(c, a[1..], b[1..]);
      ForwardedItem(c, a[0], b[0]);
      ForwardedAppended(c, if IsOption(a[0]) then [a[0]] else [], Options(a[1..]),
                          if IsOption(b[0]) then [b[0]] else [], Options(b[1..]));
    }
  }

  // ---- variables set in a group of short flags ----

  /** Where on a line a variable got its value last: nowhere, in a group such as `-ieK=V`, or by a flag of its own. */
  datatype Setting = Unset | InGroup(value: string) | Apart(value: string)

  function LastSetting(h: Host, t: Tables, toks: seq<string>, k: string): Setting
    decreases |toks|
  {
    if !HasHead(t, toks) then Unset
    else
      var later := LastSetting(h, t, toks[Width(t, toks[0])..], k);
      var here := EnvOrder.EnvOf(FlagEntries(h, HeadItems(t, toks)));
      if later != Unset || k !in here then later
      else if IsGroup(t, toks[0]) then InGroup(here[k])
      else Apart(here[k])
  }

  /** What the last setting says about the flags of the line, the groups passed on and the flags collected. */
  ghost predicate SettingIs(s: Setting, k: string, all: map<string, string>, groups: map<string, string>,
                            apart: map<string, string>)
  {
    match s
    case Unset => k !in all && k !in groups && k !in apart
    case InGroup(v) => k in all && all[k] == v && k in groups && groups[k] == v
    case Apart(v) => k in all && all[k] == v && k in apart && apart[k] == v
  }

  lemma {:induction false} LastSettingIs(c: Config, toks: seq<string>, k: string)
    requires ValidConfig(c) && WellFormed(c, toks)
    ensures SettingIs(LastSetting(c.host, c.tables, toks, k), k,
                      EnvOrder.EnvOf(FlagEntries(c.host, ReadItems(c.tables, toks))),
                      EnvOrder.EnvOf(FlagEntries(c.host, Passed(c.tables, toks))),
                      EnvOrder.EnvOf(FlagEntries(c.host, Collected(c.tables, toks))))
    decreases |toks|
  {
    if toks == [] || Lex(c.tables, toks[0]) == Stop {
      assert !HasHead(c.tables, toks);
    } else {
      var t, rest := c.tables, toks[Width(c.tables, toks[0])..];
      HeadReads(c, toks);
      WellFormedLinesRead(c, rest);
      LastSettingIs(c, rest, k);
      HeadParts(c, toks);
      FlagsJoined(c.host, HeadItems(t, toks), ReadItems(t, rest));
      FlagsJoined(c.host, HeadPassed(t, toks), Passed(t, rest));
      FlagsJoined(c.host, HeadCollected(t, toks), Collected(t, rest));
      SettingExtended(LastSetting(c.host, t, rest, k), k, IsGroup(t, toks[0]),
                      EnvOrder.EnvOf(FlagEntries(c.host, HeadItems(t, toks))),
                      EnvOrder.EnvOf(FlagEntries(c.host, ReadItems(t, rest))),
                      EnvOrder.EnvOf(FlagEntries(c.host, Passed(t, rest))),
                      EnvOrder.EnvOf(FlagEntries(c.host, Collected(t, rest))));
    }
  }

  /** One option more at the front of the line. */
  lemma SettingExtended(s: Setting, k: string, group: bool, here: map<string, string>, all: map<string, string>,
                        groups: map<string, string>, apart: map<string, string>)
    requires SettingIs(s, k, all, groups, apart)
    ensures SettingIs(if s != Unset || k !in here then s else if group then InGroup(here[k]) else Apart(here[k]), k,
                      here + all, (if group then here else map[]) + groups, (if group then map[] else here) + apart)
  {
  }

  lemma FlagsJoined(h: Host, a: seq<Item>, b: seq<Item>)
    ensures EnvOrder.EnvOf(FlagEntries(h, a + b))
            == EnvOrder.EnvOf(FlagEntries(h, a)) + EnvOrder.EnvOf(FlagEntries(h, b))
  {
    FlagEntriesAppended(h, a, b);
    EnvOrder.FlagsOverrideFiles(FlagEntries(h, a), FlagEntries(h, b));
  }

  /** No variable that a group sets last is set to something else by a file or by a flag of its own. */
  ghost predicate GroupedVariablesWin(c: Config, toks: seq<string>) {
    var e := Environment(c.host, Collected(c.tables, toks));
    forall k :: k in e && LastSetting(c.host, c.tables, toks, k).InGroup? ==>
      LastSetting(c.host, c.tables, toks, k).value == e[k]
  }

  /** Every variable set in a group comes with its value. */
  predicate GroupedAreExplicit(t: Tables, toks: seq<string>) {
    forall i :: i in Passed(t, toks) && SetsEnv(i) ==> '=' in i.value.value
  }

  /** Moving every flag of its own behind the groups keeps the environment exactly when the grouped variables win. */
  lemma GroupedVariablesIff(c: Config, toks: seq<string>)
    requires ValidConfig(c) && WellFormed(c, toks)
    ensures EnvOrder.EnvOf(FlagEntries(c.host, Passed(c.tables, toks))) + Environment(c.host, Collected(c.tables, toks))
            == Environment(c.host, ReadItems(c.tables, toks))
            <==> GroupedVariablesWin(c, toks)
  {
    LineParts(c, toks);
    var h, t := c.host, c.tables;
    var files := EnvOrder.EnvOf(FileEntries(h, ReadItems(t, toks)));
    var all := EnvOrder.EnvOf(FlagEntries(h, ReadItems(t, toks)));
    var groups := EnvOrder.EnvOf(FlagEntries(h, Passed(t, toks)));
    var apart := EnvOrder.EnvOf(FlagEntries(h, Collected(t, toks)));
    var e := Environment(h, Collected(t, toks));
    assert e == files + apart && Environment(h, ReadItems(t, toks)) == files + all;
    forall k
      ensures var s := LastSetting(h, t, toks, k);
              SameAt(groups + e, files + all, k) <==> (k in e && s.InGroup? ==> s.value == e[k])
    {
      LastSettingIs(c, toks, k);
      SettingDecides(LastSetting(h, t, toks, k), k, files, all, groups, apart);
    }
    SameEverywhere(groups + e, files + all);
  }

  ghost predicate SameAt(m: map<string, string>, n: map<string, string>, k: string) {
    (k in m <==> k in n) && (k in m && k in n ==> m[k] == n[k])
  }

  lemma SameEverywhere(m: map<string, string>, n: map<string, string>)
    ensures m == n <==> forall k :: SameAt(m, n, k)
  {
    if forall k :: SameAt(m, n, k) {
      assert forall k :: k in m <==> k in n by {
        forall k
          ensures k in m <==> k in n
        {
          assert SameAt(m, n, k);
        }
      }
      forall k | k in m
        ensures m[k] == n[k]
      {
        assert SameAt(m, n, k);
      }
      assert m == n;
    }
  }

  lemma SettingDecides(s: Setting, k: string, files: map<string, string>, all: map<string, string>,
                       groups: map<string, string>, apart: map<string, string>)
    requires SettingIs(s, k, all, groups, apart)
    ensures SameAt(groups + (files + apart), files + all, k)
            <==> (k in files + apart && s.InGroup? ==> s.value == (files + apart)[k])
  {
  }

  // ---- the assembled line ----

  /** The reading of an assembled line, from the parts the scan collected. */
  lemma AssembledReads(c: Config, rest: seq<string>, o: Output, kept: seq<Item>)
    requires ValidConfig(c) && o.cmd == rest && Read(c.tables, rest) == Some(Reading([], rest))
    requires var x := EnvOrder.Args(EnvOrder.Merge(o.fileEnvs + o.envs)) + o.cmd;
             Read(c.tables, o.nerdctl + x) == Cons(kept, Read(c.tables, x))
    ensures var es := EnvOrder.Entries(EnvOrder.Merge(o.fileEnvs + o.envs));
            Read(c.tables, Assemble(o)) == Some(Reading(kept + EnvItems(es), rest))
  {
    var om := EnvOrder.Merge(o.fileEnvs + o.envs);
    EnvArgsRead(c.tables, om, o.cmd);
    Regrouped(o.nerdctl, EnvOrder.Args(om), o.cmd);
    ConsOntoRest(kept, EnvItems(EnvOrder.Entries(om)), rest);
  }

  lemma ConsOntoRest(a: seq<Item>, b: seq<Item>, rest: seq<string>)
    ensures Cons(a, Cons(b, Some(Reading([], rest)))) == Some(Reading(a + b, rest))
  {
    assert b + [] == b;
  }

  lemma MergedEntriesSet(es: seq<string>)
    ensures forall e :: e in EnvOrder.Entries(EnvOrder.Merge(es)) ==> '=' in e
  {
  }

  lemma {:induction false} EnvItemsExplicit(es: seq<string>)
    requires forall e :: e in es ==> '=' in e
    ensures Explicit(EnvItems(es))
  {
    if es != [] {
      EnvItemsExplicit(es[1..]);
      assert |"--debug"| == 7 && |"--env-file"| == 10;
    }
  }

  lemma AssembledItems(h: Host, kept: seq<Item>, es: seq<string>)
    requires forall e :: e in es ==> '=' in e
    requires FileEntries(h, kept) == []
    ensures var items := kept + EnvItems(es);
            && Options(items) == Options(kept)
            && Environment(h, items) == EnvOrder.EnvOf(FlagEntries(h, kept)) + EnvOrder.EnvOf(es)
            && (Explicit(items) <==> Explicit(kept))
  {
    EnvItemsSet(h, es);
    EnvItemsExplicit(es);
    OptionsAppended(kept, EnvItems(es));
    FlagsJoined(h, kept, EnvItems(es));
    FileEntriesAppended(h, kept, EnvItems(es));
    assert Options(kept) + [] == Options(kept);
    NothingBelow(EnvOrder.EnvOf(FlagEntries(h, kept + EnvItems(es))));
    ExplicitParts(kept, EnvItems(es));
  }

  lemma NothingBelow(m: map<string, string>)
    ensures map[] + m == m
  {
  }

  lemma ExplicitParts(a: seq<Item>, b: seq<Item>)
    ensures Explicit(a + b) <==> Explicit(a) && Explicit(b)
  {
    assert forall i :: i in a ==> i in a + b;
    assert forall i :: i in b ==> i in a + b;
  }

  /** Neither `--debug` nor a file is passed on. */
  lemma {:induction false} PassedAreNoFiles(c: Config, toks: seq<string>)
    requires ValidConfig(c) && WellFormed(c, toks)
    ensures forall i :: i in Passed(c.tables, toks) ==> i.name != "--debug" && !NamesEnvFile(i)
    decreases |toks|
  {
    if toks == [] || Lex(c.tables, toks[0]) == Stop {
      assert !HasHead(c.tables, toks);
    } else {
      HeadReads(c, toks);
      PassedAreNoFiles(c, toks[Width(c.tables, toks[0])..]);
      HeadPassedAreNoFiles(c, toks);
    }
  }

  lemma HeadPassedAreNoFiles(c: Config, toks: seq<string>)
    requires ValidConfig(c) && HasHead(c.tables, toks) && Lex(c.tables, toks[0]) != Stop && HeadOK(c, toks[0], toks[1..])
    ensures forall i :: i in HeadPassed(c.tables, toks) ==> i.name != "--debug" && !NamesEnvFile(i)
  {
    OptionsAreOptions(HeadItems(c.tables, toks));
    if IsGroup(c.tables, toks[0]) {
      assert ClosedGroupOK(c.tables, toks[0]);
      assert |"--debug"| == 7 && |"--env-file"| == 10;
    }
  }

  lemma KeptExplicitIff(c: Config, toks: seq<string>, kept: seq<Item>)
    requires ValidConfig(c) && WellFormed(c, toks) && Forwarded(c, Passed(c.tables, toks), kept)
    ensures Explicit(kept) <==> GroupedAreExplicit(c.tables, toks)
  {
    var passed := Passed(c.tables, toks);
    PassedAreNoFiles(c, toks);
    forall n | 0 <= n < |kept|
      ensures passed[n] in passed && kept[n].name == passed[n].name && (SetsEnv(passed[n]) <==> SetsEnv(kept[n]))
      ensures (SetsEnv(passed[n]) ==> passed[n] == kept[n]) && !NamesEnvFile(kept[n])
    {
      assert Forwards(c, passed[n], kept[n]) && passed[n] in passed;
      ForwardedItem(c, passed[n], kept[n]);
    }
  }

  lemma CollectedEnvironment(h: Host, collected: seq<Item>, fileEnvs: seq<string>, envs: seq<string>)
    requires fileEnvs == FileEntries(h, collected) && envs == FlagEntries(h, collected)
    ensures EnvOrder.EnvOf(EnvOrder.Entries(EnvOrder.Merge(fileEnvs + envs))) == Environment(h, collected)
  {
    EnvOrder.PrintedEnvironment(fileEnvs + envs);
    EnvOrder.FlagsOverrideFiles(fileEnvs, envs);
  }

  lemma AssembledMeaning(c: Config, toks: seq<string>, o: Output, kept: seq<Item>, after: Reading)
    requires ValidConfig(c) && WellFormed(c, toks) && LineMatches(c, toks, o, kept)
    requires var es := EnvOrder.Entries(EnvOrder.Merge(o.fileEnvs + o.envs));
             after == Reading(kept + EnvItems(es), Read(c.tables, toks).value.rest)
    ensures var before := Read(c.tables, toks).value;
            && Forwarded(c, Options(before.items), Options(after.items)) && after.rest == before.rest
            && (Environment(c.host, after.items) == Environment(c.host, before.items) <==> GroupedVariablesWin(c, toks))
            && (Explicit(after.items) <==> GroupedAreExplicit(c.tables, toks))
  {
    var es := EnvOrder.Entries(EnvOrder.Merge(o.fileEnvs + o.envs));
    MergedEntriesSet(o.fileEnvs + o.envs);
    LineParts(c, toks);
    ForwardedItems(c, Passed(c.tables, toks), kept);
    AssembledItems(c.host, kept, es);
    CollectedEnvironment(c.host, Collected(c.tables, toks), o.fileEnvs, o.envs);
    GroupedVariablesIff(c, toks);
    KeptExplicitIff(c, toks, kept);
  }

  /** THE MAIN RESULT. For every well-formed line whose environment files can be read, the line nerdctl receives is
      read as the same options in the same order (less `--debug`) and the same command as the line that was typed. The
      options say the same (`host-gateway` resolved, consistency of mounts left out) exactly when no entry in force of
      a bind mount holds a second '='. The environment is the same exactly when no file and no flag of its own
      contradicts a variable set in a group of short flags; and the line needs nothing of the host exactly when every
      such variable has its value. */
  lemma RewritingPreservesMeaning(c: Config, args: seq<string>) returns (body: seq<string>)
    requires ValidConfig(c) && args != [] && WellFormed(c, args[Prefix(args)..])
    requires AllReadable(c.host, ReadItems(c.tables, args[Prefix(args)..]))
    ensures Rewrite(c, args) == Ok(args[..Prefix(args)] + body)
    ensures Read(c.tables, args[Prefix(args)..]).Some? && Read(c.tables, body).Some?
    ensures var before, after := Read(c.tables, args[Prefix(args)..]).value, Read(c.tables, body).value;
            && Forwarded(c, Options(before.items), Options(after.items)) && after.rest == before.rest
            && (CarriedOver(c, Options(before.items), Options(after.items)) <==> MountsWhole(c, Options(before.items)))
            && (SameMeaning(c, before, after)
                <==> MountsWhole(c, Options(before.items)) && GroupedVariablesWin(c, args[Prefix(args)..]))
            && (Explicit(after.items) <==> GroupedAreExplicit(c.tables, args[Prefix(args)..]))
  {
    var toks := args[Prefix(args)..];
    var o0, _ := ScanPreserves(c, toks, []);
    var o, kept := ScanPreserves(c, toks, EnvOrder.Args(EnvOrder.Merge(o0.fileEnvs + o0.envs)) + o0.cmd);
    var r := Read(c.tables, toks).value;
    RestStops(c.tables, toks);
    AssembledReads(c, r.rest, o, kept);
    body := Assemble(o);
    AssembledMeaning(c, toks, o, kept, Read(c.tables, body).value);
    ForwardedCarriedIff(c, Options(r.items), Options(Read(c.tables, body).value.items));
  }

  lemma {:induction false} NoGroupSets(c: Config, toks: seq<string>)
    requires ValidConfig(c) && WellFormed(c, toks)
    requires forall i :: i in Passed(c.tables, toks) ==> !SetsEnv(i)
    ensures GroupedAreExplicit(c.tables, toks) && GroupedVariablesWin(c, toks)
  {
    forall k
      ensures !LastSetting(c.host, c.tables, toks, k).InGroup?
    {
      LastSettingIs(c, toks, k);
      NoFlagEntries(c.host, Passed(c.tables, toks));
    }
  }

  lemma {:induction false} NoFlagEntries(h: Host, items: seq<Item>)
    requires forall i :: i in items ==> !SetsEnv(i)
    ensures FlagEntries(h, items) == []
  {
    if items != [] {
      NoFlagEntries(h, items[1..]);
    }
  }

  /** Without a variable in a group, a well-formed readable line becomes explicit, and keeps its whole meaning exactly
      when no bind mount is cut. */
  lemma PlainLinesKeepTheirMeaning(c: Config, args: seq<string>) returns (body: seq<string>)
    requires ValidConfig(c) && args != [] && WellFormed(c, args[Prefix(args)..])
    requires AllReadable(c.host, ReadItems(c.tables, args[Prefix(args)..]))
    requires forall i :: i in Passed(c.tables, args[Prefix(args)..]) ==> !SetsEnv(i)
    ensures Rewrite(c, args) == Ok(args[..Prefix(args)] + body)
    ensures Read(c.tables, args[Prefix(args)..]).Some? && Read(c.tables, body).Some?
    ensures SameMeaning(c, Read(c.tables, args[Prefix(args)..]).value, Read(c.tables, body).value)
            <==> MountsWhole(c, Options(ReadItems(c.tables, args[Prefix(args)..])))
    ensures Explicit(Read(c.tables, body).value.items)
  {
    body := RewritingPreservesMeaning(c, args);
    NoGroupSets(c, args[Prefix(args)..]);
  }

  /** The rewritten line is the prefix, the options, the environment and the command. The environment lists each
      variable once, in the order in which first the files and then the flags mention them, wherever they stand on
      the line, each with its last value; the command is a suffix, unchanged. */
  lemma RewrittenLine(c: Config, args: seq<string>) returns (options: seq<string>)
    requires ValidConfig(c) && args != [] && WellFormed(c, args[Prefix(args)..])
    requires AllReadable(c.host, ReadItems(c.tables, args[Prefix(args)..]))
    ensures Read(c.tables, args[Prefix(args)..]).Some?
    ensures var rest := Read(c.tables, args[Prefix(args)..]).value.rest;
            var collected := Collected(c.tables, args[Prefix(args)..]);
            var es := FileEntries(c.host, collected) + FlagEntries(c.host, collected);
            && Rewrite(c, args) == Ok(args[..Prefix(args)] + (options + EnvOrder.Args(EnvOrder.Merge(es)) + rest))
            && EnvOrder.Summarises(EnvOrder.Merge(es), es)
  {
    var o, _ := ScanPreserves(c, args[Prefix(args)..], []);
    options := o.nerdctl;
    EnvOrder.MergedEnvironment(o.fileEnvs + o.envs);
  }

  lemma {:induction false} LastValueDenotes(es: seq<string>, k: string)
    ensures k in EnvOrder.EnvOf(es) <==> exists e :: e in es && EnvOrder.Key(e) == k
    ensures k in EnvOrder.EnvOf(es) ==> EnvOrder.LastValue(es, k, EnvOrder.EnvOf(es)[k])
  {
    if es != [] {
      var init, e := es[..|es| - 1], es[|es| - 1];
      LastValueDenotes(init, k);
      InitAndLast(es);
      if k in EnvOrder.EnvOf(init) {
        EnvOrder.LastValueAppended(init, e, k, EnvOrder.EnvOf(init)[k]);
      }
      EnvOrder.LastValueAppended(init, e, k, EnvOrder.Val(e));
    }
  }

  /** A variable has the value of the last flag that resolves it, wherever it stands; if no flag does, that of the last
      line of a file that does; and it is set only if one of them does. */
  lemma EnvironmentValues(h: Host, items: seq<Item>, k: string)
    ensures var e, flags, files := Environment(h, items), FlagEntries(h, items), FileEntries(h, items);
            && (k in e <==> exists x :: x in files + flags && EnvOrder.Key(x) == k)
            && (k in e && (exists x :: x in flags && EnvOrder.Key(x) == k) ==> EnvOrder.LastValue(flags, k, e[k]))
            && (k in e && !(exists x :: x in flags && EnvOrder.Key(x) == k) ==> EnvOrder.LastValue(files, k, e[k]))
  {
    LastValueDenotes(FlagEntries(h, items), k);
    LastValueDenotes(FileEntries(h, items), k);
    var flags, files := FlagEntries(h, items), FileEntries(h, items);
    if x :| x in files + flags && EnvOrder.Key(x) == k {
      assert x in files || x in flags;
    }
    assert forall x :: x in files ==> x in files + flags;
    assert forall x :: x in flags ==> x in files + flags;
  }

  /** Naming a variable that the host does not have changes nothing, wherever on the line it is named. */
  lemma UnsetVariableIsNoSetting(h: Host, a: seq<Item>, b: seq<Item>, k: string)
    requires '=' !in k && k !in h.env
    ensures Environment(h, a + [Item("-e", Some(k))] + b) == Environment(h, a + b)
  {
    var i := Item("-e", Some(k));
    OneFlagEntry(h, i);
    assert |"-e"| == 2;
    FlagEntriesAppended(h, a, [i]);
    FileEntriesAppended(h, a, [i]);
    assert FlagEntries(h, a) + [] == FlagEntries(h, a) && FileEntries(h, a) + [] == FileEntries(h, a);
    FlagEntriesAppended(h, a + [i], b);
    FileEntriesAppended(h, a + [i], b);
    FlagEntriesAppended(h, a, b);
    FileEntriesAppended(h, a, b);
  }

  /** A well-formed line is refused exactly when one of its environment files cannot be read. */
  lemma RefusedIffUnreadable(c: Config, args: seq<string>)
    requires ValidConfig(c) && args != [] && WellFormed(c, args[Prefix(args)..])
    ensures Rewrite(c, args).Ok? <==> AllReadable(c.host, ReadItems(c.tables, args[Prefix(args)..]))
  {
    var toks := args[Prefix(args)..];
    if AllReadable(c.host, ReadItems(c.tables, toks)) {
      var _ := RewritingPreservesMeaning(c, args);
    } else {
      UnreadableFileFails(c, toks);
    }
  }

  lemma {:induction false} UnreadableFileFails(c: Config, toks: seq<string>)
    requires ValidConfig(c) && WellFormed(c, toks) && !AllReadable(c.host, ReadItems(c.tables, toks))
    ensures Scan(c, InOptions, toks).Err?
    decreases |toks|
  {
    if toks != [] && Lex(c.tables, toks[0]) != Stop {
      var a, w := toks[0], Width(c.tables, toks[0]);
      var head, rest := HeadItems(c.tables, toks), ReadItems(c.tables, toks[w..]);
      assert [a] + toks[1..] == toks;
      HeadReads(c, toks);
      WellFormedLinesRead(c, toks[w..]);
      if AllReadable(c.host, head) {
        assert !AllReadable(c.host, rest);
        UnreadableFileFails(c, toks[w..]);
        var _ := HeadIsFaithful(c, toks, []);
      } else {
        UnreadableHeadFails(c, toks);
      }
    }
  }

  lemma UnreadableHeadFails(c: Config, toks: seq<string>)
    requires ValidConfig(c) && toks != [] && Lex(c.tables, toks[0]) != Stop
    requires HeadOK(c, toks[0], toks[1..]) && Width(c.tables, toks[0]) <= |toks|
    requires Closed(c.tables, toks[0]) || OpenEnded(c.tables, toks[0]) || Lex(c.tables, toks[0]).WithNext?
    requires !AllReadable(c.host, HeadItems(c.tables, toks))
    ensures Scan(c, InOptions, toks).Err?
  {
    var a, rest := toks[0], toks[1..];
    assert [a] + rest == toks;
    FileItemsAreLong(c, toks);
    EnvFileIsHeadItem(c, a, rest);
    EnvFileFormOf(a, rest);
    HeadAndNext(toks);
    UnreadableFormFails(c, a, rest[0], rest[1..], ValueAt(a, rest));
  }

  lemma HeadAndNext(toks: seq<string>)
    requires |toks| > 1
    ensures toks == [toks[0], toks[1]] + toks[2..] && toks[1..][0] == toks[1] && toks[1..][1..] == toks[2..]
  {
  }

  lemma UnreadableFormFails(c: Config, a: string, next: string, rest: seq<string>, name: string)
    requires ValidConfig(c) && EnvFileForm(a, next, name) && !Readable(c.host, Item("--env-file", Some(name)))
    ensures Scan(c, InOptions, [a, next] + rest).Err?
  {
    TurnEnvFile(c, a, next, rest, name);
    StepFails(c, [a, next] + rest);
  }

  lemma StepFails(c: Config, ts: seq<string>)
    requires ValidConfig(c) && ts != [] && !Fires(c, ts[0]) && OptionStep(c, ts).Err?
    ensures Scan(c, InOptions, ts).Err?
  {
  }

  lemma EnvFileFormOf(a: string, rest: seq<string>)
    requires Before(a, '=') == "--env-file" && rest != []
    ensures EnvFileForm(a, rest[0], ValueAt(a, rest))
  {
    TokenForm(a);
    assert '=' in a ==> a == "--env-file=" + ValueAt(a, rest);
  }

  /** Only `--env-file` names a file. */
  lemma FileItemsAreLong(c: Config, toks: seq<string>)
    requires ValidConfig(c) && toks != [] && Lex(c.tables, toks[0]) != Stop
    requires HeadOK(c, toks[0], toks[1..]) && Width(c.tables, toks[0]) <= |toks|
    requires Closed(c.tables, toks[0]) || OpenEnded(c.tables, toks[0]) || Lex(c.tables, toks[0]).WithNext?
    requires !AllReadable(c.host, HeadItems(c.tables, toks))
    ensures toks[0][1] == '-' && Before(toks[0], '=') == "--env-file" && |toks| > 1
  {
    var a := toks[0];
    var i :| i in HeadItems(c.tables, toks) && !Readable(c.host, i);
    assert i.name == "--env-file" && |i.name| == 10;
    if a[1] == '-' {
      TokenForm(a);
      assert HeadItems(c.tables, toks) == [i];
    } else {
      ShortItemsHaveShortNames(c, toks);
    }
  }

  lemma ShortItemsHaveShortNames(c: Config, toks: seq<string>)
    requires ValidConfig(c) && toks != [] && Lex(c.tables, toks[0]) != Stop && toks[0][1] != '-'
    requires HeadOK(c, toks[0], toks[1..]) && Width(c.tables, toks[0]) <= |toks|
    requires Closed(c.tables, toks[0]) || OpenEnded(c.tables, toks[0]) || Lex(c.tables, toks[0]).WithNext?
    ensures forall i :: i in HeadItems(c.tables, toks) ==> |i.name| == 2
  {
    var a := toks[0];
    if Lex(c.tables, a).Grouped? && !Closed(c.tables, a) {
      OpenEndedSplits(c.tables, a, toks[1]);
    }
  }
}
