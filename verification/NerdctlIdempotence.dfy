/** Rewriting a rewritten line changes nothing: for which lines, exactly. */
module NerdctlIdempotence {
  import opened Wrappers
  import opened Strings
  import opened CommandLine
  import opened Nerdctl
  import opened NerdctlForms
  import opened NerdctlMeaning
  import opened NerdctlTheorems
  import opened NerdctlCanonical
  import EnvOrder
  import Mounts

  // ---- the condition, option by option ----

  /** The option of the head that is passed on with a value: a value flag that is not inside a closed group. */
  function ValueItem(c: Config, toks: seq<string>): Option<Item>
    requires HasHead(c.tables, toks)
  {
    var items := HeadItems(c.tables, toks);
    if IsGroup(c.tables, toks[0]) || items == [] then None
    else
      var i := items[|items| - 1];
      if i.value.Some? && ValueFlag(c, i.name) then Some(i) else None
  }

  /** The value is written apart from its flag by the rewriting, and looks like a value there; or it stays glued,
      since the option ends the line. */
  predicate HeadSteady(c: Config, toks: seq<string>)
    requires HasHead(c.tables, toks)
  {
    var i := ValueItem(c, toks);
    i.Some? && Width(c.tables, toks[0]) < |toks| ==> SeparateOK(c, i.value.name, i.value.value.value)
  }

  predicate HeadEndsGlued(c: Config, toks: seq<string>)
    requires HasHead(c.tables, toks)
  {
    ValueItem(c, toks).Some? && Width(c.tables, toks[0]) == |toks| && !Lex(c.tables, toks[0]).WithNext?
  }

  /** The head leaves a group of several short flags behind: a closed one, or one that hands over a variable. */
  predicate HeadEndsInGroup(t: Tables, a: string) {
    IsGroup(t, a) || (|a| > 3 && OpenEnded(t, a) && a[|a| - 1] == 'e')
  }

  /** Every value that is written apart looks like a value. */
  predicate Steady(c: Config, toks: seq<string>)
    decreases |toks|
  {
    HasHead(c.tables, toks) ==> HeadSteady(c, toks) && Steady(c, toks[Width(c.tables, toks[0])..])
  }

  /** The line ends in an option with its value in the same token. */
  predicate EndsGlued(c: Config, toks: seq<string>)
    decreases |toks|
  {
    HasHead(c.tables, toks) && (HeadEndsGlued(c, toks) || EndsGlued(c, toks[Width(c.tables, toks[0])..]))
  }

  /** The last option that is passed on is a group of several short flags. */
  predicate EndsInGroup(c: Config, toks: seq<string>)
    decreases |toks|
  {
    && HasHead(c.tables, toks)
    && (|| EndsInGroup(c, toks[Width(c.tables, toks[0])..])
        || (Passed(c.tables, toks[Width(c.tables, toks[0])..]) == [] && HeadEndsInGroup(c.tables, toks[0])))
  }

  // ---- what the head adds, by the kind of option ----

  /** What the head adds: nothing or one token; or, after at most one token, a flag with its value. */
  ghost predicate Adds(c: Config, toks: seq<string>, lead: seq<string>)
    requires ValidConfig(c) && HasHead(c.tables, toks) && |toks[0]| > 1
  {
    var i, args := ValueItem(c, toks), HeadArgs(c, toks[0], toks[1..]);
    && (lead == [] || (|lead| == 1 && OneToken(c, lead[0])))
    && if i.None? then
         && args == lead
         && (HeadEndsInGroup(c.tables, toks[0]) <==> lead != [] && IsGroup(c.tables, lead[0]))
       else
         && ValueFlag(c, i.value.name) && i.value.value.Some? && !HeadEndsInGroup(c.tables, toks[0])
         && if HeadEndsGlued(c, toks) then |args| == |lead| + 1 && args[..|lead|] == lead && GluedToken(c, args[|lead|])
            else exists n :: args == lead + PairOf(c, i.value, n)
  }

  function PairOf(c: Config, i: Item, n: nat): seq<string>
    requires ValidConfig(c) && i.value.Some?
  {
    [i.name, PassedValue(c, i.name, n, i.value.value)]
  }

  lemma OneTokenAdds(c: Config, toks: seq<string>)
    requires ValidConfig(c) && HasHead(c.tables, toks) && |toks[0]| > 1 && OneToken(c, toks[0])
    ensures Adds(c, toks, [toks[0]])
  {
    OneTokenArgs(c, toks[0], toks[1..]);
    if !IsGroup(c.tables, toks[0]) {
      OneTokenItems(c, toks[0]);
    }
  }

  lemma PairAdds(c: Config, toks: seq<string>)
    requires ValidConfig(c) && HasHead(c.tables, toks) && |toks[0]| > 1 && ValueFlag(c, toks[0])
    ensures Adds(c, toks, [])
  {
    var k, v, rest := toks[0], toks[1], toks[2..];
    PairArgs(c, k, v, rest);
    assert [v] + rest == toks[1..];
    var i := Item(k, Some(v));
    assert HeadItems(c.tables, toks) == [i] && ValueItem(c, toks) == Some(i);
    assert HeadArgs(c, k, toks[1..]) == [] + PairOf(c, i, |rest| + 2);
  }

  lemma GluedAdds(c: Config, toks: seq<string>)
    requires ValidConfig(c) && HasHead(c.tables, toks) && |toks[0]| > 1 && GluedFlag(c, toks[0])
    ensures Adds(c, toks, [])
  {
    var a, rest := toks[0], toks[1..];
    GluedItem(c, a);
    GluedArgs(c, a, rest);
    var i := Item(Lex(c.tables, a).name, Lex(c.tables, a).value);
    assert HeadItems(c.tables, toks) == [i];
    if rest == [] {
      GluedStaysGlued(c, a);
    } else {
      GluedIsSplit(c, a, rest);
      assert HeadArgs(c, a, rest) == [] + PairOf(c, i, |rest| + 1);
    }
  }

  lemma GluedStaysGlued(c: Config, a: string)
    requires ValidConfig(c) && GluedFlag(c, a)
    ensures |a| > 1 && |HeadArgs(c, a, [])| == 1 && GluedToken(c, HeadArgs(c, a, [])[0])
  {
    GluedArgs(c, a, []);
    if Handles(c, Before(a, '=')) {
      GluedMountStarts(c, "--mount=" + NewMountValue(c, 1, After(a, '=')));
    }
  }

  lemma GluedIsSplit(c: Config, a: string, rest: seq<string>)
    requires ValidConfig(c) && GluedFlag(c, a) && rest != []
    ensures |a| > 1 && Lex(c.tables, a).Whole? && Lex(c.tables, a).value.Some?
    ensures HeadArgs(c, a, rest) == PairOf(c, Item(Lex(c.tables, a).name, Lex(c.tables, a).value), |rest| + 1)
  {
    GluedItem(c, a);
    if OrdinaryLong(Before(a, '=')) && Before(a, '=') !in c.tables.longBool && '=' in a {
      TokenForm(a);
      LongLexes(c.tables, Before(a, '='), After(a, '='));
      LongArgsOfValue(c, a, rest);
      assert a[1] == '-';
    } else {
      assert a[..2] != "--mount";
    }
  }

  lemma AddHostAdds(c: Config, toks: seq<string>)
    requires ValidConfig(c) && HasHead(c.tables, toks) && |toks[0]| > 1 && toks[0][0] == '-' && toks[0][1] == '-'
    requires Before(toks[0], '=') == "--add-host" && ':' in After(toks[0], '=') && ValueItem(c, toks).None?
    ensures Adds(c, toks, HeadArgs(c, toks[0], toks[1..]))
  {
    var v := After(toks[0], '=');
    SpecialLongArgs(c, toks[0], toks[1..]);
    ResolvedIsOneToken(c, v);
    LongIsNoGroup(c.tables, toks[0]);
  }

  lemma ResolvedIsOneToken(c: Config, v: string)
    requires ValidConfig(c) && ':' in v
    ensures OneToken(c, "--add-host=" + Resolved(v)) && !IsGroup(c.tables, "--add-host=" + Resolved(v))
  {
    ResolvedShape(c, v);
    LongIsNoGroup(c.tables, "--add-host=" + Resolved(v));
  }

  lemma LongIsNoGroup(t: Tables, a: string)
    requires ValidTables(t) && "--" <= a
    ensures !IsGroup(t, a) && !HeadEndsInGroup(t, a)
  {
  }

  lemma NothingAdds(c: Config, toks: seq<string>)
    requires ValidConfig(c) && HasHead(c.tables, toks) && |toks[0]| > 1
    requires HeadArgs(c, toks[0], toks[1..]) == [] && ValueItem(c, toks).None? && !HeadEndsInGroup(c.tables, toks[0])
    ensures Adds(c, toks, [])
  {
  }

  /** `--add-host` and the options that pass nothing on. */
  lemma OtherLongAdds(c: Config, toks: seq<string>) returns (lead: seq<string>)
    requires ValidConfig(c) && HasHead(c.tables, toks) && |toks[0]| > 1 && toks[0][0] == '-' && toks[0][1] == '-'
    requires LongOK(c, toks[0], toks[1..]) && !StartsOption(c, toks[0]) && !IsGroup(c.tables, toks[0])
    ensures Adds(c, toks, lead)
  {
    var n := Before(toks[0], '=');
    LongNameOf(c, toks);
    if n == "--add-host" {
      lead := HeadArgs(c, toks[0], toks[1..]);
      AddHostAdds(c, toks);
    } else {
      lead := [];
      if n == "--debug" {
        FixedLongArgs(c, toks[0], toks[1..]);
      } else {
        SpecialLongArgs(c, toks[0], toks[1..]);
      }
      NothingAdds(c, toks);
    }
  }

  /** Which flag the head is, if it is none that is passed on as it is. */
  lemma LongNameOf(c: Config, toks: seq<string>)
    requires ValidConfig(c) && HasHead(c.tables, toks) && |toks[0]| > 1 && toks[0][0] == '-' && toks[0][1] == '-'
    requires LongOK(c, toks[0], toks[1..]) && !StartsOption(c, toks[0]) && !IsGroup(c.tables, toks[0])
    ensures var n := Before(toks[0], '=');
            && n in {"--debug", "--add-host", "--env", "--env-file"} && n !in c.tables.longBool
            && (n == "--debug" ==> toks[0] == n) && ValueItem(c, toks).None?
            && (n == "--add-host" ==> ':' in After(toks[0], '='))
  {
    NotPassedOn(c, toks[0], Before(toks[0], '='), toks[1..]);
    LongItemName(c, toks);
  }

  lemma LongItemName(c: Config, toks: seq<string>)
    requires ValidConfig(c) && HasHead(c.tables, toks) && |toks[0]| > 1 && toks[0][0] == '-' && toks[0][1] == '-'
    ensures |HeadItems(c.tables, toks)| == 1 && HeadItems(c.tables, toks)[0].name == Before(toks[0], '=')
  {
    TokenForm(toks[0]);
  }

  lemma NotPassedOn(c: Config, a: string, n: string, rest: seq<string>)
    requires ValidConfig(c) && |a| > 1 && a[0] == '-' && a[1] == '-' && n == Before(a, '=')
    requires LongOK(c, a, rest) && !StartsOption(c, a)
    ensures n !in c.tables.longBool && n in {"--debug", "--add-host", "--env", "--env-file"} && !ValueFlag(c, n)
    ensures n == "--debug" || n == "--help" ==> a == n
    ensures n == "--add-host" ==> ':' in After(a, '=')
  {
    TokenForm(a);
    NoFixedFlag(c, a, n);
    if n != "--debug" && !("--add-host" <= n) && !("--env" <= n) {
      OrdinaryName(c, a, n);
    }
    assert "--env" <= "--env" && "--env" <= "--env-file" && "--add-host" <= "--add-host";
  }

  lemma NoFixedFlag(c: Config, a: string, n: string)
    requires ValidConfig(c) && |a| > 1 && a[0] == '-' && a[1] == '-' && n == Before(a, '=')
    requires (n == "--help" ==> '=' !in a) && !OneToken(c, a)
    ensures n !in c.tables.longBool && n != "--help"
  {
    if n in c.tables.longBool {
      LongBoolLexes(c.tables, a);
    } else if n == "--help" {
      HelpIsOneToken(c, a);
    }
  }

  lemma HelpIsOneToken(c: Config, a: string)
    requires Before(a, '=') == "--help" && '=' !in a
    ensures OneToken(c, a)
  {
    assert a == "--help";
    assert Lex(c.tables, a) == Whole(a, None);
  }

  lemma VariableAdds(c: Config, toks: seq<string>)
    requires ValidConfig(c) && HasHead(c.tables, toks) && |toks[0]| > 1 && toks[0][0] == '-' && toks[0][1] == 'e'
    requires ShortArgOK(c, toks[0], toks[1..])
    ensures Adds(c, toks, [])
  {
    var a := toks[0];
    assert 'e' !in c.tables.shortBool;
    assert a[..2] == "-e";
    assert HeadItems(c.tables, toks)[0].name == "-e" && |HeadItems(c.tables, toks)| == 1;
    NothingAdds(c, toks);
  }

  lemma OpenGroupAdds(c: Config, toks: seq<string>)
    requires ValidConfig(c) && HasHead(c.tables, toks) && |toks[0]| > 2 && ShortIn(toks[0], c.tables.shortBool)
    requires GroupOK(c.tables, toks[0], toks[1..]) && !Closed(c.tables, toks[0])
    ensures Adds(c, toks, [toks[0][..|toks[0]| - 1]])
  {
    var a, next, rest := toks[0], toks[1], toks[2..];
    HeadAndNext(toks);
    assert [next] + rest == toks[1..];
    OpenGroupArgs(c, a, next, rest);
    OpenGroupItem(c, toks, Item(['-', a[|a| - 1]], Some(next)));
    GroupLead(c, a, next);
    assert a[|a| - 1] != 'e' && rest != [] ==>
      HeadArgs(c, a, toks[1..]) == [a[..|a| - 1]] + PairOf(c, Item(['-', a[|a| - 1]], Some(next)), 0);
  }

  lemma OpenGroupItem(c: Config, toks: seq<string>, i: Item)
    requires ValidConfig(c) && HasHead(c.tables, toks) && |toks[0]| > 2 && ShortIn(toks[0], c.tables.shortBool)
    requires !Closed(c.tables, toks[0]) && i == Item(['-', toks[0][|toks[0]| - 1]], Some(toks[1]))
    ensures OpenEnded(c.tables, toks[0]) && toks[0][|toks[0]| - 1] in c.tables.shortArg
    ensures ValueItem(c, toks) == if toks[0][|toks[0]| - 1] == 'e' then None else Some(i)
  {
    OpenEndedSplits(c.tables, toks[0], toks[1]);
    assert HeadItems(c.tables, toks)[|HeadItems(c.tables, toks)| - 1] == i;
  }

  /** What an open group adds, by its last flag. */
  lemma OpenGroupArgs(c: Config, a: string, next: string, rest: seq<string>)
    requires ValidConfig(c) && |a| > 2 && ShortIn(a, c.tables.shortBool) && !Closed(c.tables, a)
    requires GroupOK(c.tables, a, [next] + rest)
    ensures var lead, f, args := a[..|a| - 1], ['-', a[|a| - 1]], HeadArgs(c, a, [next] + rest);
            && f[1] in c.tables.shortArg
            && (f[1] == 'e' ==> args == [lead])
            && (f[1] != 'e' && rest == [] ==> args == [lead] + [f + next] && GluedToken(c, f + next))
            && (f[1] != 'e' && rest != [] ==> args == [lead] + [f, next])
  {
    OpenEndedSplits(c.tables, a, next);
    var flag := ['-', a[|a| - 1]] + next;
    assert ([next] + rest)[0] == next && ([next] + rest)[1..] == rest;
    assert flag[..2] == ['-', a[|a| - 1]] && flag[2..] == next && flag[2] == next[0];
    if a[|a| - 1] != 'e' && rest == [] {
      ShortGlueIsToken(c, flag);
    }
  }

  lemma ShortGlueIsToken(c: Config, a: string)
    requires ValidConfig(c) && |a| > 2 && ShortIn(a, c.tables.shortArg) && a[1] != 'e' && (a[2] == '=' || '=' !in a)
    ensures GluedToken(c, a)
  {
    ShortIsNotSpecial(a);
  }

  lemma GroupLead(c: Config, a: string, next: string)
    requires ValidConfig(c) && |a| > 2 && OpenEnded(c.tables, a)
    ensures OneToken(c, a[..|a| - 1]) && (IsGroup(c.tables, a[..|a| - 1]) <==> |a| > 3)
  {
    OpenEndedSplits(c.tables, a, next);
    var head := a[..|a| - 1];
    assert head[0] == '-' && head[1] in c.tables.shortBool && head[|head| - 1] == a[|a| - 2];
  }

  /** Every supported option adds what its kind says. */
  lemma HeadAdds(c: Config, toks: seq<string>) returns (lead: seq<string>)
    requires ValidConfig(c) && HasHead(c.tables, toks) && Lex(c.tables, toks[0]) != Stop && HeadOK(c, toks[0], toks[1..])
    ensures |toks[0]| > 1 && Adds(c, toks, lead)
  {
    var a := toks[0];
    if OneToken(c, a) {
      OneTokenAdds(c, toks);
      lead := [a];
    } else if ValueFlag(c, a) {
      PairAdds(c, toks);
      lead := [];
    } else if GluedFlag(c, a) {
      GluedAdds(c, toks);
      lead := [];
    } else {
      lead := SpecialHeadAdds(c, toks);
    }
  }

  lemma SpecialHeadAdds(c: Config, toks: seq<string>) returns (lead: seq<string>)
    requires ValidConfig(c) && HasHead(c.tables, toks) && Lex(c.tables, toks[0]) != Stop && HeadOK(c, toks[0], toks[1..])
    requires !StartsOption(c, toks[0])
    ensures |toks[0]| > 1 && Adds(c, toks, lead)
  {
    var a := toks[0];
    if a[1] == '-' {
      lead := OtherLongAdds(c, toks);
    } else if a[1] == 'e' {
      VariableAdds(c, toks);
      lead := [];
    } else {
      assert |a| > 2 && ShortIn(a, c.tables.shortBool) && !Closed(c.tables, a);
      OpenGroupAdds(c, toks);
      lead := [a[..|a| - 1]];
    }
  }

  // ---- well-formedness and canonicity, argument by argument ----

  /** The first token is an option, and not a variable. */
  lemma NoEnvTail(c: Config, toks: seq<string>)
    requires toks != [] && toks[0] != "-e" && Lex(c.tables, toks[0]) != Stop
    ensures !EnvTail(c, toks)
  {
    forall om, cmd
      ensures !IsEnvTail(c, toks, om, cmd)
    {
      if toks == EnvOrder.Args(om) + cmd {
        assert toks[0] == if om == [] then cmd[0] else "-e";
      }
    }
  }

  /** Whether a token may be the last one of a line. */
  predicate StandsBefore(c: Config, a: string, y: seq<string>)
  {
    Lex(c.tables, a) != Stop && (HeadOK(c, a, y) <==> (IsGroup(c.tables, a) ==> y != []))
  }

  lemma ClosedWidth(t: Tables, a: string)
    requires Closed(t, a)
    ensures Lex(t, a) != Stop && Width(t, a) == 1
  {
  }

  lemma OneTokenHeadOK(c: Config, a: string, y: seq<string>)
    requires ValidConfig(c) && OneToken(c, a)
    ensures Width(c.tables, a) == 1 && StandsBefore(c, a, y)
  {
    ClosedWidth(c.tables, a);
    if ShortIn(a, c.tables.shortBool) {
      ShortTokenKind(c, a);
      ShortTokenHeadOK(c, a, y);
    } else if "--add-host=" <= a {
      AddHostTokenKind(c, a);
      AddHostTokenHeadOK(c, a, y);
    } else {
      LongTokenHeadOK(c, a, y);
    }
  }

  lemma ShortTokenKind(c: Config, a: string)
    requires ValidConfig(c) && OneToken(c, a) && ShortIn(a, c.tables.shortBool)
    ensures |a| == 2 || ClosedGroupOK(c.tables, a)
  {
    ShortIsNotSpecial(a);
    LongNamesAreLong(c, a);
    assert a[1] != '-';
  }

  lemma AddHostTokenKind(c: Config, a: string)
    requires ValidConfig(c) && OneToken(c, a) && "--add-host=" <= a
    ensures ':' in a[11..]
  {
    assert a == "--add-host" + ['='] + a[11..];
    CutGlued("--add-host", '=', a[11..]);
    assert "--add-host" in c.tables.longBool ==> PlainLong("--add-host");
    assert "--add-host" <= "--add-host" && a[1] == '-' && a[2] != 'h';
  }

  lemma ShortTokenHeadOK(c: Config, a: string, y: seq<string>)
    requires ValidConfig(c) && Closed(c.tables, a) && ShortIn(a, c.tables.shortBool)
    requires |a| == 2 || ClosedGroupOK(c.tables, a)
    ensures StandsBefore(c, a, y)
  {
  }

  lemma LongTokenHeadOK(c: Config, a: string, y: seq<string>)
    requires ValidConfig(c) && Closed(c.tables, a) && (Before(a, '=') in c.tables.longBool || a == "--help")
    ensures StandsBefore(c, a, y)
  {
    var n := Before(a, '=');
    if n in c.tables.longBool {
      assert PlainLong(n);
      assert a[1] == n[1];
    } else {
      assert '=' !in a;
      assert n == a;
    }
  }

  lemma AddHostTokenHeadOK(c: Config, a: string, y: seq<string>)
    requires ValidConfig(c) && "--add-host=" <= a && ':' in a[11..] && Closed(c.tables, a)
    ensures StandsBefore(c, a, y)
  {
    assert a == "--add-host" + ['='] + a[11..];
    CutGlued("--add-host", '=', a[11..]);
    assert "--add-host" in c.tables.longBool ==> PlainLong("--add-host");
    assert "--add-host" <= "--add-host" && |"--add-host"| == 10 && |"--help"| == 6 && |"--debug"| == 7;
  }

  lemma TokenBefore(c: Config, strict: bool, a: string, y: seq<string>)
    requires ValidConfig(c) && OneToken(c, a)
    ensures WellFormed(c, [a] + y) <==> WellFormed(c, y) && (IsGroup(c.tables, a) ==> y != [])
    ensures Canonical(c, strict, [a] + y) <==> Canonical(c, strict, y)
  {
    var toks := [a] + y;
    assert toks[1..] == y && toks[0] == a;
    OneTokenHeadOK(c, a, y);
    OneTokenArgs(c, a, y);
    NoEnvTail(c, toks);
  }

  lemma PairBefore(c: Config, strict: bool, k: string, v: string, y: seq<string>)
    requires ValidConfig(c) && ValueFlag(c, k) && (Handles(c, k) ==> FixedMount(c, strict, v))
    ensures WellFormed(c, [k, v] + y) <==> WellFormed(c, y) && SeparateOK(c, k, v)
    ensures Canonical(c, strict, [k, v] + y) <==> Canonical(c, strict, y)
  {
    var toks := [k, v] + y;
    assert toks[1..] == [v] + y && toks[2..] == y && toks[0] == k && toks[1] == v;
    PairArgs(c, k, v, y);
    PairHeadOK(c, k, v, y);
    NoEnvTail(c, toks);
  }

  lemma PairHeadOK(c: Config, k: string, v: string, y: seq<string>)
    requires ValidConfig(c) && ValueFlag(c, k)
    ensures Lex(c.tables, k) != Stop
    ensures HeadOK(c, k, [v] + y) <==> SeparateOK(c, k, v)
  {
    FlagTakesNext(c, k);
    assert '=' !in k by { assert k[1] != '='; }
    assert Before(k, '=') == k;
    assert ([v] + y)[0] == v;
    if k[1] == '-' {
      assert OrdinaryLong(k) && !("--add-host" <= k) && !("--env" <= k);
    }
  }

  lemma FlagTakesNext(c: Config, k: string)
    requires ValidConfig(c) && ValueFlag(c, k)
    ensures TakesNext(c.tables, k)
  {
    if OrdinaryLong(k) && k !in c.tables.longBool {
      LongLexes(c.tables, k, "");
    }
  }

  /** A glued value is well formed wherever it stands, and canonical only at the end. */
  lemma GluedBefore(c: Config, strict: bool, a: string, y: seq<string>)
    requires ValidConfig(c) && GluedToken(c, a)
    ensures WellFormed(c, [a] + y) <==> WellFormed(c, y)
    ensures Canonical(c, strict, [a] + y) <==> y == []
  {
    var toks := [a] + y;
    assert toks[1..] == y && toks[0] == a;
    GluedHeadOK(c, a, y);
    NoEnvTail(c, toks);
    EmptyIsCanonical(c, strict);
    if Handles(c, Before(a, '=')) {
      PrintedMountIsFixed(c, After(a, '='));
    }
  }

  lemma EmptyIsCanonical(c: Config, strict: bool)
    requires ValidConfig(c)
    ensures Canonical(c, strict, [])
  {
    assert IsEnvTail(c, [], [], []);
  }

  lemma GluedHeadOK(c: Config, a: string, y: seq<string>)
    requires ValidConfig(c) && GluedFlag(c, a)
    ensures |a| > 1 && a != "-e" && Lex(c.tables, a) != Stop && Width(c.tables, a) == 1 && HeadOK(c, a, y)
    ensures !OneToken(c, a) && !ValueFlag(c, a)
  {
    GluedArgs(c, a, y);
    if OrdinaryLong(Before(a, '=')) && Before(a, '=') !in c.tables.longBool && '=' in a {
      TokenForm(a);
      assert a[1] == '-';
      LongGlueHeadOK(c, a, y);
    } else {
      ShortGlueIsNoOther(c, a);
    }
  }

  lemma LongGlueHeadOK(c: Config, a: string, y: seq<string>)
    requires ValidConfig(c) && OrdinaryLong(Before(a, '=')) && Before(a, '=') !in c.tables.longBool && '=' in a
    ensures LongOK(c, a, y) && !OneToken(c, a) && !ValueFlag(c, a)
  {
    PrefixOfName("--add-host", a);
    assert "--add-host" <= "--add-host=";
  }

  lemma ShortGlueIsNoOther(c: Config, a: string)
    requires ValidConfig(c) && |a| > 2 && ShortIn(a, c.tables.shortArg) && a[1] != 'e'
    ensures !OneToken(c, a) && !ValueFlag(c, a)
  {
    ShortIsNotSpecial(a);
    LongNamesAreLong(c, a);
  }

  /** Printing a mount does not change whether it can stand apart from its flag. */
  lemma PassedValueIs(c: Config, strict: bool, k: string, n: nat, v: string)
    requires ValidConfig(c)
    ensures SeparateOK(c, k, PassedValue(c, k, n, v)) <==> SeparateOK(c, k, v)
    ensures Handles(c, k) ==> FixedMount(c, strict, PassedValue(c, k, n, v))
  {
    if Handles(c, k) {
      var w := NewMountValue(c, n, v);
      assert PrintedMount(c, w);
      PrintedMountIsFixed(c, w);
      NewValueIsSameMount(c, n, v);
      SameMountStandsApart(v, w);
    }
  }

  lemma SameMountStandsApart(v: string, w: string)
    requires Mounts.SameMount(v, w)
    ensures Mounts.IsBind(Mounts.Parse(w)) <==> Mounts.IsBind(Mounts.Parse(v))
    ensures Mounts.IsBind(Mounts.Parse(v)) ==> (MountOK(w) <==> MountOK(v))
    ensures !Mounts.IsBind(Mounts.Parse(v)) ==> w == v
  {
    if Mounts.IsBind(Mounts.Parse(v)) {
      KeptTwice(Mounts.Parse(v));
    }
  }

  lemma KeptTwice(m: Mounts.Mount)
    ensures Mounts.Kept(Mounts.Kept(m)) == Mounts.Kept(m)
  {
    assert m.fields - {"consistency"} - {"consistency"} == m.fields - {"consistency"};
  }

  lemma LeadBefore(c: Config, strict: bool, lead: seq<string>, y: seq<string>)
    requires ValidConfig(c) && (lead == [] || (|lead| == 1 && OneToken(c, lead[0]))) && y != []
    ensures WellFormed(c, lead + y) <==> WellFormed(c, y)
    ensures Canonical(c, strict, lead + y) <==> Canonical(c, strict, y)
  {
    if lead == [] {
      assert lead + y == y;
    } else {
      assert lead == [lead[0]];
      TokenBefore(c, strict, lead[0], y);
    }
  }

  lemma PairAfterLead(c: Config, strict: bool, lead: seq<string>, k: string, v: string, y: seq<string>)
    requires ValidConfig(c) && (lead == [] || (|lead| == 1 && OneToken(c, lead[0])))
    requires ValueFlag(c, k) && (Handles(c, k) ==> FixedMount(c, strict, v))
    ensures var all := lead + [k, v] + y;
            && (WellFormed(c, all) <==> WellFormed(c, y) && SeparateOK(c, k, v))
            && (Canonical(c, strict, all) <==> Canonical(c, strict, y))
  {
    PairBefore(c, strict, k, v, y);
    LeadBefore(c, strict, lead, [k, v] + y);
    Regrouped(lead, [k, v], y);
  }

  lemma GlueAfterLead(c: Config, strict: bool, lead: seq<string>, a: string, y: seq<string>)
    requires ValidConfig(c) && (lead == [] || (|lead| == 1 && OneToken(c, lead[0]))) && GluedToken(c, a)
    ensures var all := lead + [a] + y;
            && (WellFormed(c, all) <==> WellFormed(c, y))
            && (Canonical(c, strict, all) <==> y == [])
  {
    GluedBefore(c, strict, a, y);
    LeadBefore(c, strict, lead, [a] + y);
    Regrouped(lead, [a], y);
  }

  /** What the head asks for, given what comes after it in the rewritten line. */
  predicate HeadRepeatable(c: Config, toks: seq<string>, y: seq<string>)
    requires HasHead(c.tables, toks)
  {
    HeadSteady(c, toks) && if y == [] then !HeadEndsInGroup(c.tables, toks[0]) else !HeadEndsGlued(c, toks)
  }

  lemma SeparateValueIsOK(c: Config, toks: seq<string>)
    requires ValidConfig(c) && HasHead(c.tables, toks) && Lex(c.tables, toks[0]).WithNext? && HeadOK(c, toks[0], toks[1..])
    requires ValueItem(c, toks).Some?
    ensures SeparateOK(c, ValueItem(c, toks).value.name, ValueItem(c, toks).value.value.value)
  {
    assert ValueItem(c, toks) == Some(Item(toks[0], Some(toks[1])));
    HeadAndNext(toks);
    PairHeadOK(c, toks[0], toks[1], toks[2..]);
    assert [toks[1]] + toks[2..] == toks[1..];
  }

  lemma HeadSettledIff(c: Config, strict: bool, toks: seq<string>, y: seq<string>)
    requires ValidConfig(c) && HasHead(c.tables, toks) && Lex(c.tables, toks[0]) != Stop && HeadOK(c, toks[0], toks[1..])
    ensures |toks[0]| > 1
    ensures Settled(c, strict, HeadArgs(c, toks[0], toks[1..]) + y)
            <==> Settled(c, strict, y) && HeadRepeatable(c, toks, y)
  {
    var lead := HeadAdds(c, toks);
    var i, args := ValueItem(c, toks), HeadArgs(c, toks[0], toks[1..]);
    if i.None? {
      NoValueSettledIff(c, strict, toks, lead, y);
    } else if HeadEndsGlued(c, toks) {
      assert args == lead + [args[|lead|]];
      GlueAfterLead(c, strict, lead, args[|lead|], y);
      EmptyIsCanonical(c, strict);
    } else {
      var n :| args == lead + PairOf(c, i.value, n);
      PassedValueIs(c, strict, i.value.name, n, i.value.value.value);
      PairAfterLead(c, strict, lead, i.value.name, PassedValue(c, i.value.name, n, i.value.value.value), y);
      if Lex(c.tables, toks[0]).WithNext? {
        SeparateValueIsOK(c, toks);
      }
    }
  }

  lemma NoValueSettledIff(c: Config, strict: bool, toks: seq<string>, lead: seq<string>, y: seq<string>)
    requires ValidConfig(c) && HasHead(c.tables, toks) && |toks[0]| > 1 && Adds(c, toks, lead) && ValueItem(c, toks).None?
    ensures Settled(c, strict, HeadArgs(c, toks[0], toks[1..]) + y)
            <==> Settled(c, strict, y) && HeadRepeatable(c, toks, y)
  {
    if lead == [] {
      assert lead + y == y;
    } else {
      assert lead == [lead[0]];
      TokenBefore(c, strict, lead[0], y);
    }
  }

  // ---- the whole line ----

  lemma HeadAddsNothingIff(c: Config, toks: seq<string>)
    requires ValidConfig(c) && HasHead(c.tables, toks) && Lex(c.tables, toks[0]) != Stop && HeadOK(c, toks[0], toks[1..])
    requires AllReadable(c.host, HeadItems(c.tables, toks)) && |toks[0]| > 1
    ensures HeadArgs(c, toks[0], toks[1..]) == [] <==> HeadPassed(c.tables, toks) == []
  {
    var kept := HeadIsFaithful(c, toks, []);
    var args := HeadArgs(c, toks[0], toks[1..]);
    assert args + [] == args;
    if args != [] && kept == [] {
      ArgsReadAsItems(c.tables, args);
      assert false;
    }
  }

  /** Arguments are read as items, or as a command. */
  lemma ArgsReadAsItems(t: Tables, args: seq<string>)
    requires args != []
    ensures Read(t, args) != Some(Reading([], []))
  {
  }

  lemma {:induction false} NothingPassedIff(c: Config, toks: seq<string>)
    requires ValidConfig(c) && WellFormed(c, toks) && AllReadable(c.host, ReadItems(c.tables, toks))
    ensures LineArgs(c, toks) == [] <==> Passed(c.tables, toks) == []
    decreases |toks|
  {
    if toks == [] || Lex(c.tables, toks[0]) == Stop {
      assert !HasHead(c.tables, toks);
    } else {
      WellFormedLinesRead(c, toks);
      HeadReadable(c, toks);
      NothingPassedIff(c, toks[Width(c.tables, toks[0])..]);
      HeadAddsNothingIff(c, toks);
    }
  }

  /** The options of a line are settled in front of a settled end exactly if their values look like values and the
      last of them can stand where it comes to stand. */
  lemma {:induction false} LineSettledIff(c: Config, strict: bool, toks: seq<string>, x: seq<string>)
    requires ValidConfig(c) && WellFormed(c, toks) && AllReadable(c.host, ReadItems(c.tables, toks))
    requires Settled(c, strict, x)
    ensures Settled(c, strict, LineArgs(c, toks) + x)
            <==> Steady(c, toks) && if x == [] then !EndsInGroup(c, toks) else !EndsGlued(c, toks)
    decreases |toks|
  {
    if toks == [] || Lex(c.tables, toks[0]) == Stop {
      assert !HasHead(c.tables, toks);
      assert LineArgs(c, toks) + x == x;
    } else {
      WellFormedLinesRead(c, toks);
      HeadReadable(c, toks);
      var rest := toks[Width(c.tables, toks[0])..];
      LineSettledIff(c, strict, rest, x);
      NothingPassedIff(c, rest);
      HeadThenLine(c, strict, toks, x);
    }
  }

  lemma HeadThenLine(c: Config, strict: bool, toks: seq<string>, x: seq<string>)
    requires ValidConfig(c) && HasHead(c.tables, toks) && Lex(c.tables, toks[0]) != Stop && HeadOK(c, toks[0], toks[1..])
    requires LineArgs(c, toks[Width(c.tables, toks[0])..]) == [] <==> Passed(c.tables, toks[Width(c.tables, toks[0])..]) == []
    requires var rest := toks[Width(c.tables, toks[0])..];
             Settled(c, strict, LineArgs(c, rest) + x)
             <==> Steady(c, rest) && if x == [] then !EndsInGroup(c, rest) else !EndsGlued(c, rest)
    ensures Settled(c, strict, LineArgs(c, toks) + x)
            <==> Steady(c, toks) && if x == [] then !EndsInGroup(c, toks) else !EndsGlued(c, toks)
  {
    var rest := toks[Width(c.tables, toks[0])..];
    var y := LineArgs(c, rest) + x;
    HeadSettledIff(c, strict, toks, y);
    Regrouped(HeadArgs(c, toks[0], toks[1..]), LineArgs(c, rest), x);
    if HeadEndsGlued(c, toks) {
      assert rest == [] && LineArgs(c, rest) == [] && !EndsGlued(c, rest);
    }
  }

  function RestOf(t: Tables, toks: seq<string>): seq<string> {
    if Read(t, toks).Some? then Read(t, toks).value.rest else []
  }

  /** The variables that are moved to the end of the options. */
  function Moved(c: Config, toks: seq<string>): map<string, string> { Environment(c.host, Collected(c.tables, toks)) }

  /** What comes last can stand there: a group needs something behind it, a glued value must have nothing behind it. */
  predicate EndsWell(c: Config, toks: seq<string>) {
    if RestOf(c.tables, toks) == [] && Moved(c, toks) == map[] then !EndsInGroup(c, toks) else !EndsGlued(c, toks)
  }

  /** No option is passed on and no variable moved: the command is all that is left. */
  predicate OnlyCommandLeft(c: Config, toks: seq<string>) { Passed(c.tables, toks) == [] && Moved(c, toks) == map[] }

  /** A command that is left alone is there, and if it reads as `run` with options, these are settled. */
  ghost predicate CommandStandsAlone(c: Config, cmd: seq<string>)
    requires ValidConfig(c)
  {
    cmd != [] && (Prefix(cmd) == 1 ==> Settled(c, false, cmd[1..]))
  }

  /** The lines whose rewriting is settled: values that are written apart look like values, the options end well, and
      what is left without any option can stand alone. */
  ghost predicate Repeatable(c: Config, args: seq<string>)
    requires ValidConfig(c)
  {
    var toks := args[Prefix(args)..];
    && Steady(c, toks) && EndsWell(c, toks)
    && (Prefix(args) == 0 && OnlyCommandLeft(c, toks) ==> CommandStandsAlone(c, RestOf(c.tables, toks)))
  }

  /** `line` is well formed, and rewriting it under `d` repeats it. */
  ghost predicate RepeatsItself(c: Config, d: Config, strict: bool, line: seq<string>)
    requires ValidConfig(d)
  {
    && WellFormed(d, line[Prefix(line)..]) && Rewrite(d, line).Ok?
    && Repeats(c, d, strict, line, Rewrite(d, line).value)
  }

  /** The rewritten line, without the prefix, and what comes after its options. */
  lemma BodyParts(c: Config, toks: seq<string>) returns (body: seq<string>, x: seq<string>)
    requires ValidConfig(c) && WellFormed(c, toks) && AllReadable(c.host, ReadItems(c.tables, toks))
    ensures Scan(c, InOptions, toks).Ok? && body == Assemble(Scan(c, InOptions, toks).value)
    ensures body == LineArgs(c, toks) + x && Settled(c, false, x) && Settled(c, true, x)
    ensures x == [] <==> RestOf(c.tables, toks) == [] && Moved(c, toks) == map[]
    ensures RestOf(c.tables, toks) == [] || Quiescent(c, RestOf(c.tables, toks))
    ensures Moved(c, toks) == map[] ==> x == RestOf(c.tables, toks)
    ensures Moved(c, toks) != map[] ==> x != [] && x[0] == "-e"
  {
    LineScans(c, toks);
    RestIsQuiescent(c, toks);
    var o := Scan(c, InOptions, toks).value;
    var es := o.fileEnvs + o.envs;
    var om := EnvOrder.Merge(es);
    body, x := Assemble(o), EnvOrder.Args(om) + o.cmd;
    AssembledParts(o);
    CollectedIsEnvironment(c, Collected(c.tables, toks));
    EnvTailSettles(c, es, o.cmd);
    assert om == [] ==> x == o.cmd;
  }

  lemma EnvTailSettles(c: Config, es: seq<string>, cmd: seq<string>)
    requires ValidConfig(c) && (cmd == [] || Quiescent(c, cmd))
    ensures var x := EnvOrder.Args(EnvOrder.Merge(es)) + cmd; Settled(c, false, x) && Settled(c, true, x)
  {
    var om := EnvOrder.Merge(es);
    EnvOrder.MergedEnvironment(es);
    EnvOrder.MergedKeysArePlain(es);
    assert WellFormed(c, cmd);
    EnvArgsAreWellFormed(c, om, cmd);
    assert IsEnvTail(c, EnvOrder.Args(om) + cmd, om, cmd);
  }

  lemma StartsWithDash(c: Config, a: string)
    requires ValidConfig(c) && StartsOption(c, a)
    ensures "-" <= a
  {
    if OneToken(c, a) {
      OneTokenArgs(c, a, []);
    } else if GluedFlag(c, a) {
      GluedArgs(c, a, []);
    }
  }

  /** A rewritten line that does not begin with an option is the command, and so is one without options. */
  lemma BodyIsCommand(c: Config, toks: seq<string>, body: seq<string>, x: seq<string>)
    requires ValidConfig(c) && WellFormed(c, toks) && AllReadable(c.host, ReadItems(c.tables, toks))
    requires body == LineArgs(c, toks) + x
    requires Moved(c, toks) == map[] ==> x == RestOf(c.tables, toks)
    requires Moved(c, toks) != map[] ==> x != [] && x[0] == "-e"
    ensures body == [] || !("-" <= body[0]) ==> OnlyCommandLeft(c, toks)
    ensures OnlyCommandLeft(c, toks) ==> body == RestOf(c.tables, toks)
  {
    LineStarts(c, toks);
    NothingPassedIff(c, toks);
    if LineArgs(c, toks) != [] {
      assert body[0] == LineArgs(c, toks)[0];
      StartsWithDash(c, LineArgs(c, toks)[0]);
    } else {
      assert body == x && "-" <= "-e";
    }
  }

  lemma BodySettledIff(c: Config, toks: seq<string>, body: seq<string>, x: seq<string>)
    requires ValidConfig(c) && WellFormed(c, toks) && AllReadable(c.host, ReadItems(c.tables, toks))
    requires body == LineArgs(c, toks) + x && Settled(c, false, x) && Settled(c, true, x)
    requires x == [] <==> RestOf(c.tables, toks) == [] && Moved(c, toks) == map[]
    ensures Settled(c, false, body) <==> Steady(c, toks) && EndsWell(c, toks)
    ensures Settled(c, true, body) <==> Steady(c, toks) && EndsWell(c, toks)
  {
    LineSettledIff(c, false, toks, x);
    LineSettledIff(c, true, toks, x);
  }

  /** Scanning `body`, the second rewriting keeps the prefix that the first one saw. */
  lemma SamePrefixRepeats(c: Config, d: Config, strict: bool, prefix: seq<string>, body: seq<string>)
    requires ValidConfig(c) && ValidConfig(d) && Alike(c, d) && (prefix == [] || prefix == ["run"])
    requires Prefix(prefix + body) == |prefix| && prefix + body != []
    ensures RepeatsItself(c, d, strict, prefix + body) <==> ScansToItself(c, d, strict, body)
  {
    var line := prefix + body;
    assert line[|prefix|..] == body && line[..|prefix|] == prefix;
    if Scan(d, InOptions, body).Ok? {
      var b := Assemble(Scan(d, InOptions, body).value);
      if prefix == [] {
        assert line == body && prefix + b == b;
      } else {
        PrefixRepeats(c, d, strict, body, b);
      }
    }
  }

  lemma SettledLineIff(c: Config, d: Config, prefix: seq<string>, body: seq<string>)
    requires ValidConfig(c) && ValidConfig(d) && Alike(c, d) && (prefix == [] || prefix == ["run"])
    requires Prefix(prefix + body) == |prefix| && prefix + body != []
    ensures RepeatsItself(c, d, false, prefix + body) <==> Settled(c, false, body)
    ensures Settled(c, true, body) ==> RepeatsItself(c, d, true, prefix + body)
  {
    SamePrefixRepeats(c, d, false, prefix, body);
    SamePrefixRepeats(c, d, true, prefix, body);
    SettledIff(c, d, body);
    if Settled(c, true, body) {
      SettledScansToItself(c, d, true, body);
    }
  }

  lemma PrefixRepeats(c: Config, d: Config, strict: bool, a: seq<string>, b: seq<string>)
    ensures Repeats(c, d, strict, ["run"] + a, ["run"] + b) <==> Repeats(c, d, strict, a, b)
  {
    if Repeats(c, d, strict, a, b) {
      RepeatsAfter(c, d, strict, ["run"], ["run"], a, b);
    }
    if Repeats(c, d, strict, ["run"] + a, ["run"] + b) {
      RepeatsRest(c, d, strict, ["run"], a, ["run"], b);
    }
  }

  /** A line that is a command is repeated. */
  lemma CommandRepeatsItself(c: Config, d: Config, strict: bool, cmd: seq<string>)
    requires ValidConfig(d) && Quiescent(d, cmd) && Prefix(cmd) == 0
    ensures RepeatsItself(c, d, strict, cmd)
  {
    assert cmd[0..] == cmd;
    TrailingCommandUnchanged(d, cmd);
    UnprefixedRewrites(d, cmd, NOTHING.(cmd := cmd));
    CommandAlone(cmd);
    RepeatsOneself(c, d, strict, cmd);
  }

  lemma RunIsCommand(c: Config, cmd: seq<string>)
    requires ValidConfig(c) && (cmd == [] || Quiescent(c, cmd))
    ensures Quiescent(c, ["run"] + cmd)
  {
    assert '=' !in "run";
    assert Before("run", '=') == "run" && |"--mount"| == 7;
    forall i | 0 <= i < |["run"] + cmd|
      ensures !Fires(c, (["run"] + cmd)[i])
    {
      assert i > 0 ==> (["run"] + cmd)[i] == cmd[i - 1];
    }
  }

  lemma RunAloneRepeatsItself(c: Config, d: Config, cmd: seq<string>)
    requires ValidConfig(c) && ValidConfig(d) && Alike(c, d) && (cmd == [] || Quiescent(c, cmd))
    requires cmd == [] || !("-" <= cmd[0])
    ensures RepeatsItself(c, d, false, ["run"] + cmd) && RepeatsItself(c, d, true, ["run"] + cmd)
  {
    RunIsCommand(c, cmd);
    assert Quiescent(d, ["run"] + cmd);
    assert Prefix(["run"] + cmd) == 0 by { if cmd != [] { assert (["run"] + cmd)[1] == cmd[0]; } }
    CommandRepeatsItself(c, d, false, ["run"] + cmd);
    CommandRepeatsItself(c, d, true, ["run"] + cmd);
  }

  /** Nothing in a command is taken for a mount, so that it is repeated exactly. */
  lemma CommandIsExact(c: Config, d: Config, cmd: seq<string>, b: seq<string>)
    requires Quiescent(c, cmd) && Repeats(c, d, false, cmd, b)
    ensures Repeats(c, d, true, cmd, b)
  {
    forall i | 0 <= i < |cmd|
      ensures TokenAgain(c, d, true, cmd, b, i)
    {
      assert TokenAgain(c, d, false, cmd, b, i);
      if c.handlesMount && MountAfterFlag(cmd, i) {
        MountTokensFire(c, cmd[i - 1]);
      } else if c.handlesMount && MountGlued(cmd, i) {
        MountTokensFire(c, cmd[i]);
      }
    }
  }

  /** The rewriting is a command that reads as `run` with options: the second one rewrites these. */
  lemma RunAppears(c: Config, d: Config, cmd: seq<string>)
    requires ValidConfig(c) && ValidConfig(d) && Alike(c, d) && Quiescent(c, cmd) && Prefix(cmd) == 1
    ensures RepeatsItself(c, d, false, cmd) <==> Settled(c, false, cmd[1..])
    ensures RepeatsItself(c, d, false, cmd) ==> RepeatsItself(c, d, true, cmd)
  {
    assert cmd == ["run"] + cmd[1..];
    SamePrefixRepeats(c, d, false, ["run"], cmd[1..]);
    SettledIff(c, d, cmd[1..]);
    if RepeatsItself(c, d, false, cmd) {
      CommandIsExact(c, d, cmd, Rewrite(d, cmd).value);
    }
  }

  lemma EmptyLineIsNotRepeated(c: Config, d: Config)
    requires ValidConfig(d)
    ensures !RepeatsItself(c, d, false, [])
  {
    var line := ["--help"];
    assert line[0..] == line && line[..0] == [];
    TurnHelp(d, []);
    ScanOne(d, "--help", [], Step(Args(["--help"]), InOptions, []));
    assert ["--help"] + [] == ["--help"];
    assert |Rewrite(d, []).value| >= 1 by {
      assert Scan(d, InOptions, line) == Add(Args(["--help"]), Ok(NOTHING));
    }
  }

  /** What the first rewriting makes of a line, for the second one. */
  lemma FirstRewriting(c: Config, args: seq<string>) returns (body: seq<string>)
    requires ValidConfig(c) && args != [] && WellFormed(c, args[Prefix(args)..])
    requires AllReadable(c.host, ReadItems(c.tables, args[Prefix(args)..]))
    ensures Rewrite(c, args) == Ok(args[..Prefix(args)] + body)
    ensures var toks := args[Prefix(args)..];
            && (Settled(c, false, body) <==> Steady(c, toks) && EndsWell(c, toks))
            && (Settled(c, true, body) <==> Steady(c, toks) && EndsWell(c, toks))
            && (body == [] || !("-" <= body[0]) ==> OnlyCommandLeft(c, toks))
            && (OnlyCommandLeft(c, toks) ==> body == RestOf(c.tables, toks))
            && (RestOf(c.tables, toks) == [] || Quiescent(c, RestOf(c.tables, toks)))
  {
    var toks := args[Prefix(args)..];
    var x;
    body, x := BodyParts(c, toks);
    BodySettledIff(c, toks, body, x);
    BodyIsCommand(c, toks, body, x);
  }

  /** THE MAIN RESULT. The rewriting of a well-formed, readable line is well formed and repeated by another rewriting,
      with any other files, variables and orders of map visits, exactly if the line is repeatable. What is repeated is
      every token, but for the order of the entries of bind mounts; and these too if Go visits maps in one order. */
  lemma RewritingIsIdempotentIff(c: Config, d: Config, args: seq<string>) returns (line: seq<string>)
    requires ValidConfig(c) && ValidConfig(d) && Alike(c, d) && args != [] && WellFormed(c, args[Prefix(args)..])
    requires AllReadable(c.host, ReadItems(c.tables, args[Prefix(args)..]))
    ensures Rewrite(c, args) == Ok(line)
    ensures RepeatsItself(c, d, false, line) <==> Repeatable(c, args)
    ensures Repeatable(c, args) ==> RepeatsItself(c, d, true, line)
    ensures Repeatable(c, args) && SameOrder(c, d) ==> Rewrite(d, line) == Ok(line)
  {
    var body := FirstRewriting(c, args);
    line := args[..Prefix(args)] + body;
    RewrittenIff(c, d, args, body);
    if SameOrder(c, d) {
      ExactInSameOrder(c, d, line);
    }
  }

  lemma ExactInSameOrder(c: Config, d: Config, line: seq<string>)
    requires ValidConfig(d) && SameOrder(c, d)
    ensures RepeatsItself(c, d, true, line) ==> Rewrite(d, line) == Ok(line)
  {
    if RepeatsItself(c, d, true, line) {
      RepeatsExactly(c, d, line, Rewrite(d, line).value);
    }
  }

  lemma WholeLine(args: seq<string>, body: seq<string>)
    ensures args[0..] == args && args[..0] + body == body
  {
  }

  lemma RewrittenIff(c: Config, d: Config, args: seq<string>, body: seq<string>)
    requires ValidConfig(c) && ValidConfig(d) && Alike(c, d) && args != []
    requires var toks := args[Prefix(args)..];
             && (Settled(c, false, body) <==> Steady(c, toks) && EndsWell(c, toks))
             && (Settled(c, true, body) <==> Steady(c, toks) && EndsWell(c, toks))
             && (body == [] || !("-" <= body[0]) ==> OnlyCommandLeft(c, toks))
             && (OnlyCommandLeft(c, toks) ==> body == RestOf(c.tables, toks))
             && (RestOf(c.tables, toks) == [] || Quiescent(c, RestOf(c.tables, toks)))
    ensures var line := args[..Prefix(args)] + body;
            && (RepeatsItself(c, d, false, line) <==> Repeatable(c, args))
            && (Repeatable(c, args) ==> RepeatsItself(c, d, true, line))
  {
    if Prefix(args) == 0 {
      WholeLine(args, body);
      if body == [] {
        EmptyLineIsNotRepeated(c, d);
      } else if Prefix(body) == 1 {
        RunIff(c, d, args, body);
      } else {
        PlainBodyIff(c, d, args, body);
      }
    } else {
      assert args[..1] == ["run"];
      PrefixedIff(c, d, args, body);
    }
  }

  lemma RunIff(c: Config, d: Config, toks: seq<string>, body: seq<string>)
    requires ValidConfig(c) && ValidConfig(d) && Alike(c, d) && Prefix(toks) == 0 && toks[0..] == toks
    requires Prefix(body) == 1 && OnlyCommandLeft(c, toks) && body == RestOf(c.tables, toks) && Quiescent(c, body)
    requires Settled(c, false, body) <==> Steady(c, toks) && EndsWell(c, toks)
    ensures RepeatsItself(c, d, false, body) <==> Repeatable(c, toks)
    ensures Repeatable(c, toks) ==> RepeatsItself(c, d, true, body)
  {
    CommandIsSettled(c, body);
    RunAppears(c, d, body);
  }

  lemma PlainBodyIff(c: Config, d: Config, toks: seq<string>, body: seq<string>)
    requires ValidConfig(c) && ValidConfig(d) && Alike(c, d) && Prefix(toks) == 0 && toks[0..] == toks
    requires Prefix(body) == 0 && body != [] && (OnlyCommandLeft(c, toks) ==> body == RestOf(c.tables, toks))
    requires Settled(c, false, body) <==> Steady(c, toks) && EndsWell(c, toks)
    requires Settled(c, true, body) <==> Steady(c, toks) && EndsWell(c, toks)
    ensures RepeatsItself(c, d, false, body) <==> Repeatable(c, toks)
    ensures Repeatable(c, toks) ==> RepeatsItself(c, d, true, body)
  {
    assert [] + body == body;
    SettledLineIff(c, d, [], body);
  }

  lemma CommandIsSettled(c: Config, cmd: seq<string>)
    requires ValidConfig(c) && (cmd == [] || Quiescent(c, cmd))
    ensures Settled(c, false, cmd)
  {
    assert IsEnvTail(c, cmd, [], cmd) by { assert EnvOrder.Args([]) + cmd == cmd; }
  }

  lemma PrefixedIff(c: Config, d: Config, args: seq<string>, body: seq<string>)
    requires ValidConfig(c) && ValidConfig(d) && Alike(c, d) && args != [] && Prefix(args) == 1
    requires Settled(c, false, body) <==> Steady(c, args[1..]) && EndsWell(c, args[1..])
    requires Settled(c, true, body) <==> Steady(c, args[1..]) && EndsWell(c, args[1..])
    requires body == [] || !("-" <= body[0]) ==> body == [] || Quiescent(c, body)
    ensures RepeatsItself(c, d, false, ["run"] + body) <==> Repeatable(c, args)
    ensures Repeatable(c, args) ==> RepeatsItself(c, d, true, ["run"] + body)
  {
    if body != [] && "-" <= body[0] {
      assert (["run"] + body)[1] == body[0];
      SettledLineIff(c, d, ["run"], body);
    } else {
      CommandIsSettled(c, body);
      RunAloneRepeatsItself(c, d, body);
    }
  }

}
