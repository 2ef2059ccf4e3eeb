/** The lines that rewriting leaves as they are. */
module NerdctlCanonical {
  import opened Wrappers
  import opened Strings
  import opened CommandLine
  import opened Nerdctl
  import opened NerdctlForms
  import opened NerdctlMeaning
  import opened NerdctlTheorems
  import EnvOrder
  import Mounts

  // ---- assembled lines ----

  lemma AssembledParts(o: Output)
    ensures Assemble(o) == o.nerdctl + (EnvOrder.Args(EnvOrder.Merge(o.fileEnvs + o.envs)) + o.cmd)
  {
  }

  lemma UnprefixedRewrites(c: Config, args: seq<string>, o: Output)
    requires ValidConfig(c) && args != [] && Prefix(args) == 0 && Scan(c, InOptions, args) == Ok(o)
    ensures Rewrite(c, args) == Ok(Assemble(o))
    ensures forall b :: args[..0] + b == b
  {
    assert args[0..] == args;
    assert args[..0] + Assemble(o) == Assemble(o);
  }

  lemma CommandAlone(cmd: seq<string>)
    ensures Assemble(NOTHING.(cmd := cmd)) == cmd
  {
    var none: seq<string> := [];
    assert none + none == none;
    assert EnvOrder.Args(EnvOrder.Merge(none)) == [];
  }

  lemma OneVariableArgs(k: string, v: string, nerdctl: seq<string>, cmd: seq<string>)
    requires '=' !in k
    ensures Assemble(Output(nerdctl, [k + "=" + v], [], cmd)) == nerdctl + (["-e", k + "=" + v] + cmd)
  {
    var e := k + "=" + v;
    assert [] + [e] == [e] && [e][..0] == [];
    assert e == k + ['='] + v;
    CutGlued(k, '=', v);
    assert EnvOrder.Merge([e]) == [(k, v)];
    assert EnvOrder.Args([(k, v)]) == ["-e", e] + EnvOrder.Args([]);
    AssembledParts(Output(nerdctl, [e], [], cmd));
  }

  lemma CommandWord(c: Config, w: string)
    requires ValidConfig(c) && |w| > 1 && w[0] != '-'
    ensures Quiescent(c, [w])
  {
    assert Before(w, '=') <= w && |"--mount"| == 7;
  }

  lemma {:induction false} RestIsQuiescent(c: Config, toks: seq<string>)
    requires ValidConfig(c) && WellFormed(c, toks)
    ensures Read(c.tables, toks).Some?
    ensures var rest := Read(c.tables, toks).value.rest; rest == [] || Quiescent(c, rest)
    ensures |Read(c.tables, toks).value.rest| <= |toks|
    ensures toks != [] && Lex(c.tables, toks[0]) != Stop ==> |Read(c.tables, toks).value.rest| < |toks|
    decreases |toks|
  {
    if toks != [] && Lex(c.tables, toks[0]) != Stop {
      HeadReads(c, toks);
      RestIsQuiescent(c, toks[Width(c.tables, toks[0])..]);
    }
  }

  // ---- the environment at the end of a line ----

  lemma FirstEnvArg(om: EnvOrder.Ordered, x: seq<string>)
    requires om != []
    ensures var e := om[0].0 + "=" + om[0].1;
            && EnvOrder.Args(om) + x == ["-e", e] + (EnvOrder.Args(om[1..]) + x)
            && EnvOrder.Entries(om) == [e] + EnvOrder.Entries(om[1..])
  {
    assert EnvOrder.Entries(om)[1..] == EnvOrder.Entries(om[1..]);
  }

  lemma EnvPairRescans(c: Config, e: string, x: seq<string>)
    requires ValidConfig(c) && '=' in e
    ensures Scan(c, InOptions, ["-e", e] + x) == Add(NOTHING.(envs := [e]), Scan(c, InOptions, x))
  {
    TurnEnv(c, "-e", e, x, e);
    assert ["-e"] + ([e] + x) == ["-e", e] + x;
    ScanOne(c, "-e", [e] + x, Step(NOTHING.(envs := [e]), Skipping, [e] + x));
    ScanSkipped(c, e, x);
  }

  lemma AddEnvs(e: string, es: seq<string>, r: Result<Output>)
    ensures Add(NOTHING.(envs := [e]), Add(NOTHING.(envs := es), r)) == Add(NOTHING.(envs := [e] + es), r)
  {
    AddTwice(NOTHING.(envs := [e]), NOTHING.(envs := es), r);
    var none: seq<string> := [];
    assert none + none == none;
  }

  lemma {:induction false} EnvArgsRescan(c: Config, om: EnvOrder.Ordered, x: seq<string>)
    requires ValidConfig(c)
    ensures Scan(c, InOptions, EnvOrder.Args(om) + x)
            == Add(NOTHING.(envs := EnvOrder.Entries(om)), Scan(c, InOptions, x))
  {
    if om == [] {
      assert EnvOrder.Args(om) + x == x;
      AddNothing(Scan(c, InOptions, x));
    } else {
      EnvArgsRescan(c, om[1..], x);
      EnvPairRescans(c, om[0].0 + "=" + om[0].1, EnvOrder.Args(om[1..]) + x);
      FirstEnvArg(om, x);
      AddEnvs(om[0].0 + "=" + om[0].1, EnvOrder.Entries(om[1..]), Scan(c, InOptions, x));
    }
  }

  lemma EnvPairIsWellFormed(c: Config, e: string, x: seq<string>)
    requires ValidConfig(c) && '=' in e
    ensures WellFormed(c, ["-e", e] + x) <==> WellFormed(c, x)
  {
    var toks := ["-e", e] + x;
    assert toks[1..] == [e] + x && toks[2..] == x;
    assert Lex(c.tables, "-e") == WithNext("-e") && ShortArgOK(c, "-e", [e] + x);
  }

  lemma {:induction false} EnvArgsAreWellFormed(c: Config, om: EnvOrder.Ordered, x: seq<string>)
    requires ValidConfig(c) && WellFormed(c, x)
    ensures WellFormed(c, EnvOrder.Args(om) + x)
  {
    if om == [] {
      assert EnvOrder.Args(om) + x == x;
    } else {
      EnvArgsAreWellFormed(c, om[1..], x);
      EnvPairIsWellFormed(c, om[0].0 + "=" + om[0].1, EnvOrder.Args(om[1..]) + x);
      FirstEnvArg(om, x);
    }
  }

  // ---- canonical lines ----

  /** The same command on another occasion: other files, other variables, other orders of map visits. */
  ghost predicate Alike(c: Config, d: Config) { c.tables == d.tables && c.handlesMount == d.handlesMount }

  lemma {:induction false} WellFormedAlike(c: Config, d: Config, toks: seq<string>)
    requires Alike(c, d)
    ensures WellFormed(c, toks) <==> WellFormed(d, toks)
    decreases |toks|
  {
    if toks != [] && Lex(c.tables, toks[0]) != Stop && Width(c.tables, toks[0]) <= |toks| {
      WellFormedAlike(c, d, toks[Width(c.tables, toks[0])..]);
    }
  }

  predicate Handles(c: Config, n: string) { c.handlesMount && n == "--mount" }

  /** A mount that loses nothing by being rewritten; in the strict sense, one that a rewriting has printed. */
  ghost predicate FixedMount(c: Config, strict: bool, v: string)
    requires ValidConfig(c)
  {
    if strict then PrintedMount(c, v)
    else Mounts.IsBind(Mounts.Parse(v)) ==> "consistency" !in Mounts.Parse(v).fields
  }

  /** An option in the form in which it is passed on: one token, or a flag and its value; a value is glued to its
      flag only at the very end of the line. */
  ghost predicate FixedHead(c: Config, strict: bool, toks: seq<string>)
    requires ValidConfig(c)
  {
    && toks != []
    && (|| OneToken(c, toks[0])
        || (ValueFlag(c, toks[0]) && |toks| > 1 && (Handles(c, toks[0]) ==> FixedMount(c, strict, toks[1])))
        || (GluedFlag(c, toks[0]) && |toks| == 1
            && (Handles(c, Before(toks[0], '=')) ==> FixedMount(c, strict, After(toks[0], '=')))))
  }

  /** Variables with their values, each once, then the command. */
  ghost predicate IsEnvTail(c: Config, toks: seq<string>, om: EnvOrder.Ordered, cmd: seq<string>) {
    && toks == EnvOrder.Args(om) + cmd && EnvOrder.DistinctKeys(om) && EnvOrder.PlainKeys(om)
    && (cmd == [] || Quiescent(c, cmd))
  }

  ghost predicate EnvTail(c: Config, toks: seq<string>) { exists om, cmd :: IsEnvTail(c, toks, om, cmd) }

  /** Options as they are passed on, then variables, then the command. */
  ghost predicate Canonical(c: Config, strict: bool, toks: seq<string>)
    requires ValidConfig(c)
    decreases |toks|
  {
    || EnvTail(c, toks)
    || (FixedHead(c, strict, toks) && Width(c.tables, toks[0]) <= |toks|
        && Canonical(c, strict, toks[Width(c.tables, toks[0])..]))
  }

  // ---- lines that differ in the spelling of mounts only ----

  /** Under both configurations, Go visits maps in one order. */
  ghost predicate SameOrder(c: Config, d: Config) { forall n, n', m :: c.order(n, m) == d.order(n', m) }

  /** `w` spells the mount `v`; in the strict sense, by the same entries, and in the same order if Go keeps it. */
  ghost predicate MountAgain(c: Config, d: Config, strict: bool, v: string, w: string) {
    && Mounts.Parse(w) == Mounts.Parse(v)
    && (strict ==> multiset(Split(w, ',')) == multiset(Split(v, ',')) && (SameOrder(c, d) ==> w == v))
  }

  /** The value of a mount: after `--mount`, or glued to it at the end of the line. */
  predicate MountAfterFlag(a: seq<string>, i: nat)
    requires i < |a|
  {
    i > 0 && a[i - 1] == "--mount"
  }

  predicate MountGlued(a: seq<string>, i: nat)
    requires i < |a|
  {
    i == |a| - 1 && "--mount=" <= a[i] && (i > 0 ==> a[i - 1] != "-e" && a[i - 1] != "--mount")
  }

  ghost predicate TokenAgain(c: Config, d: Config, strict: bool, a: seq<string>, b: seq<string>, i: nat)
    requires i < |a| == |b|
  {
    || a[i] == b[i]
    || (c.handlesMount && MountAfterFlag(a, i) && MountAgain(c, d, strict, a[i], b[i]))
    || (c.handlesMount && MountGlued(a, i) && "--mount=" <= b[i] && MountAgain(c, d, strict, a[i][8..], b[i][8..]))
  }

  /** The same tokens, but for the spelling of mounts. */
  ghost predicate Repeats(c: Config, d: Config, strict: bool, a: seq<string>, b: seq<string>) {
    |a| == |b| && forall i :: 0 <= i < |a| ==> TokenAgain(c, d, strict, a, b, i)
  }

  lemma RepeatsOneself(c: Config, d: Config, strict: bool, a: seq<string>)
    ensures Repeats(c, d, strict, a, a)
  {
  }

  lemma RepeatsExactly(c: Config, d: Config, a: seq<string>, b: seq<string>)
    requires Repeats(c, d, true, a, b) && SameOrder(c, d)
    ensures a == b
  {
    forall i | 0 <= i < |a|
      ensures a[i] == b[i]
    {
      assert TokenAgain(c, d, true, a, b, i);
      if "--mount=" <= a[i] && "--mount=" <= b[i] {
        assert a[i] == "--mount=" + a[i][8..] && b[i] == "--mount=" + b[i][8..];
      }
    }
  }

  /** One token, or a flag and its value, before more of a line. */
  lemma RepeatsAfter(c: Config, d: Config, strict: bool, a: seq<string>, a': seq<string>, b: seq<string>, b': seq<string>)
    requires Repeats(c, d, strict, b, b') && |a| == |a'|
    requires forall i :: 0 <= i < |a| ==>
               a[i] == a'[i] || (c.handlesMount && MountAfterFlag(a, i) && MountAgain(c, d, strict, a[i], a'[i]))
    requires a != [] ==> a[|a| - 1] != "-e" && a[|a| - 1] != "--mount"
    ensures Repeats(c, d, strict, a + b, a' + b')
  {
    forall i | 0 <= i < |a + b|
      ensures TokenAgain(c, d, strict, a + b, a' + b', i)
    {
      if i >= |a| {
        assert TokenAgain(c, d, strict, b, b', i - |a|);
        assert i > |a| ==> (a + b)[i - 1] == b[i - |a| - 1];
        assert i == |a| && a != [] ==> (a + b)[i - 1] == a[|a| - 1];
      } else {
        assert i > 0 ==> (a + b)[i - 1] == a[i - 1];
      }
    }
  }

  // ---- what the scan makes of an option that is passed on already ----

  lemma OneTokenArgs(c: Config, a: string, rest: seq<string>)
    requires ValidConfig(c) && OneToken(c, a)
    ensures |a| > 1 && Width(c.tables, a) == 1 && HeadArgs(c, a, rest) == [a]
    ensures a != "-e" && a != "--mount" && Before(a, '=') != "--env-file"
  {
    var n := Before(a, '=');
    assert '=' !in a ==> n == a;
    assert "--env" <= "--env-file" && "--add-host" <= "--add-host";
    if n in c.tables.longBool {
      assert PlainLong(n) && a[0] == n[0] && a[1] == n[1];
      assert LongArgs(c, a, rest) == [a];
    } else if ShortIn(a, c.tables.shortBool) {
      ShortIsNotSpecial(a);
      assert n != "--env-file" by { if |n| > 1 { assert n[1] == a[1]; } }
    } else if a == "--help" {
      assert '=' !in a;
    } else {
      AddHostTokenArgs(c, a, rest);
    }
  }

  lemma AddHostTokenArgs(c: Config, a: string, rest: seq<string>)
    requires ValidConfig(c) && "--add-host=" <= a && ':' in a[11..] && ResolveIP(a[11..]) == Ok(a[11..])
    ensures |a| > 1 && a[1] == '-' && HeadArgs(c, a, rest) == [a] && Before(a, '=') == "--add-host"
  {
    AddHostTokenParts(a);
    SpecialLongArgs(c, a, rest);
  }

  lemma AddHostTokenParts(a: string)
    requires "--add-host=" <= a
    ensures |a| > 1 && a[1] == '-' && Before(a, '=') == "--add-host" && After(a, '=') == a[11..]
    ensures "--add-host=" + a[11..] == a
  {
    assert a == "--add-host" + ['='] + a[11..];
    CutGlued("--add-host", '=', a[11..]);
  }

  lemma PairArgs(c: Config, k: string, v: string, rest: seq<string>)
    requires ValidConfig(c) && ValueFlag(c, k)
    ensures |k| > 1 && Lex(c.tables, k) == WithNext(k) && Width(c.tables, k) == 2
    ensures HeadArgs(c, k, [v] + rest) == [k, PassedValue(c, k, |rest| + 2, v)]
    ensures k != "-e" && Before(k, '=') == k != "--env-file"
  {
    assert ([v] + rest)[0] == v;
    assert "--env" <= "--env-file";
    if OrdinaryLong(k) && k !in c.tables.longBool {
      LongLexes(c.tables, k, v);
      LongArgsOfValue(c, k, [v] + rest);
    } else {
      assert '=' !in k by { assert k[1] != '='; }
      assert k != "--mount" by { assert k[1] != '-'; }
    }
  }

  /** A value glued to its flag: kept at the end of a line, split off anywhere else. */
  lemma GluedArgs(c: Config, a: string, rest: seq<string>)
    requires ValidConfig(c) && GluedFlag(c, a)
    ensures |a| > 1 && Lex(c.tables, a).Whole? && Width(c.tables, a) == 1 && Before(a, '=') != "--env-file"
    ensures rest != [] ==> |HeadArgs(c, a, rest)| == 2 && HeadArgs(c, a, rest)[0] != a
    ensures rest == [] ==>
              HeadArgs(c, a, rest)
              == [if Handles(c, Before(a, '=')) then "--mount=" + NewMountValue(c, 1, After(a, '=')) else a]
  {
    TokenForm(a);
    assert "--env" <= "--env-file";
    if OrdinaryLong(Before(a, '=')) && Before(a, '=') !in c.tables.longBool && '=' in a {
      LongLexes(c.tables, Before(a, '='), After(a, '='));
      LongArgsOfValue(c, a, rest);
      assert a[0] == '-' && a[1] == '-';
      if Handles(c, Before(a, '=')) {
        MountToken(Before(a, '='), NewMountValue(c, 1, After(a, '=')));
      }
    } else {
      ShortIsNotSpecial(a);
      assert a[2] == '=' ==> a[..2] != a;
      assert Before(a, '=') != "--env-file" by { if |Before(a, '=')| > 1 { assert Before(a, '=')[1] == a[1]; } }
    }
  }

  lemma PrintedMountAgain(c: Config, d: Config, v: string, n: nat)
    requires ValidConfig(c) && ValidConfig(d) && PrintedMount(c, v)
    ensures MountAgain(c, d, true, v, NewMountValue(d, n, v))
  {
    var n0, v0 :| v == NewMountValue(c, n0, v0);
    if Mounts.IsBind(Mounts.Parse(v0)) {
      var m := Mounts.Kept(Mounts.Parse(v0));
      var ks, ls := c.order(n0, m.fields), d.order(n, m.fields);
      assert Mounts.IsOrder(ks, m.fields) && Mounts.IsOrder(ls, m.fields);
      Mounts.RewritingKeepsMount(v0, ks);
      Mounts.SecondRewriteOnlyPermutes(v0, ks, ls);
      Mounts.RewritingKeepsMount(v, ls);
      assert NewMountValue(d, n, v) == Mounts.Rewritten(v, ls);
    }
  }

  lemma FixedMountAgain(c: Config, d: Config, strict: bool, v: string, n: nat)
    requires ValidConfig(c) && ValidConfig(d) && FixedMount(c, strict, v)
    ensures MountAgain(c, d, strict, v, NewMountValue(d, n, v))
  {
    if strict {
      PrintedMountAgain(c, d, v, n);
    } else {
      NewValueIsSameMount(d, n, v);
      assert Mounts.IsBind(Mounts.Parse(v)) ==> Mounts.Kept(Mounts.Parse(v)) == Mounts.Parse(v) by {
        if Mounts.IsBind(Mounts.Parse(v)) {
          assert Mounts.Parse(v).fields - {"consistency"} == Mounts.Parse(v).fields;
        }
      }
    }
  }

  lemma PairRepeats(c: Config, d: Config, strict: bool, k: string, v: string, rest: seq<string>, b: seq<string>)
    requires ValidConfig(c) && ValidConfig(d) && Alike(c, d) && ValueFlag(c, k)
    requires (Handles(c, k) ==> FixedMount(c, strict, v)) && v != "-e" && v != "--mount" && Repeats(c, d, strict, rest, b)
    ensures Repeats(c, d, strict, [k, v] + rest, HeadArgs(d, k, [v] + rest) + b)
  {
    var w := PassedValue(d, k, |rest| + 2, v);
    PairArgs(d, k, v, rest);
    if Handles(c, k) {
      FixedMountAgain(c, d, strict, v, |rest| + 2);
    }
    RepeatsAfter(c, d, strict, [k, v], [k, w], rest, b);
  }

  lemma GluedRepeats(c: Config, d: Config, strict: bool, a: string)
    requires ValidConfig(c) && ValidConfig(d) && Alike(c, d) && GluedFlag(c, a)
    requires Handles(c, Before(a, '=')) ==> FixedMount(c, strict, After(a, '='))
    ensures Repeats(c, d, strict, [a], HeadArgs(d, a, []) + [])
  {
    GluedArgs(d, a, []);
    if Handles(c, Before(a, '=')) {
      var v, w := After(a, '='), NewMountValue(d, 1, After(a, '='));
      FixedMountAgain(c, d, strict, v, 1);
      TokenForm(a);
      assert '=' in a by { assert '=' !in a ==> a == Before(a, '='); MountIsNoGluedFlag(c); }
      MountToken("--mount", v);
      assert a[8..] == v && ("--mount=" + w)[8..] == w;
      assert TokenAgain(c, d, strict, [a], ["--mount=" + w], 0);
    }
  }

  lemma MountIsNoGluedFlag(c: Config)
    requires ValidConfig(c)
    ensures !GluedFlag(c, "--mount")
  {
    assert '=' !in "--mount";
  }

  /** A value that is taken for one is not the flag for a variable. */
  lemma ValueIsNoVariableFlag(c: Config, k: string, rest: seq<string>)
    requires ValidConfig(c) && ValueFlag(c, k) && rest != [] && HeadOK(c, k, rest)
    ensures SeparateOK(c, k, rest[0]) && rest[0] != "-e" && rest[0] != "--mount"
  {
    PairArgs(c, k, rest[0], rest[1..]);
    assert '=' !in k by { assert k[1] != '-' ==> k[1] != '='; }
    WordIsNoBind("-e");
    WordIsNoBind("--mount");
  }

  lemma WordIsNoBind(v: string)
    requires ',' !in v && '=' !in v
    ensures !Mounts.IsBind(Mounts.Parse(v))
  {
    assert Split(v, ',') == [v] && Split(v, '=') == [v];
    assert Mounts.ParseEntries([v]) == Mounts.AddEntry(Mounts.ParseEntries([]), v);
  }

  lemma FixedHeadIsHead(c: Config, strict: bool, toks: seq<string>)
    requires ValidConfig(c) && FixedHead(c, strict, toks)
    ensures |toks[0]| > 1 && HasHead(c.tables, toks) && Lex(c.tables, toks[0]) != Stop && Before(toks[0], '=') != "--env-file"
  {
    var a := toks[0];
    if OneToken(c, a) {
      OneTokenArgs(c, a, toks[1..]);
    } else if ValueFlag(c, a) {
      PairArgs(c, a, toks[1], toks[2..]);
    } else {
      GluedArgs(c, a, toks[1..]);
    }
  }

  lemma TokenRepeats(c: Config, d: Config, strict: bool, a: string, rest: seq<string>, b: seq<string>)
    requires ValidConfig(c) && ValidConfig(d) && Alike(c, d) && OneToken(c, a) && Repeats(c, d, strict, rest, b)
    ensures |a| > 1 && Repeats(c, d, strict, [a] + rest, HeadArgs(d, a, rest) + b)
  {
    assert OneToken(d, a);
    OneTokenArgs(d, a, rest);
    RepeatsAfter(c, d, strict, [a], [a], rest, b);
  }

  lemma FixedPairRepeats(c: Config, d: Config, strict: bool, toks: seq<string>, b: seq<string>)
    requires ValidConfig(c) && ValidConfig(d) && Alike(c, d) && |toks| > 1 && ValueFlag(c, toks[0])
    requires Handles(c, toks[0]) ==> FixedMount(c, strict, toks[1])
    requires Lex(d.tables, toks[0]) != Stop && HeadOK(d, toks[0], toks[1..]) && Repeats(c, d, strict, toks[2..], b)
    ensures Repeats(c, d, strict, toks, HeadArgs(d, toks[0], toks[1..]) + b)
  {
    HeadAndNext(toks);
    ValueIsNoVariableFlag(d, toks[0], toks[1..]);
    PairRepeats(c, d, strict, toks[0], toks[1], toks[2..], b);
    assert [toks[1]] + toks[2..] == toks[1..];
  }

  /** What the scan makes of a fixed head: the same tokens, but for the spelling of a mount. */
  lemma FixedHeadRepeats(c: Config, d: Config, strict: bool, toks: seq<string>, b: seq<string>)
    requires ValidConfig(c) && ValidConfig(d) && Alike(c, d) && FixedHead(c, strict, toks)
    requires |toks[0]| > 1 && Lex(d.tables, toks[0]) != Stop && HeadOK(d, toks[0], toks[1..])
    requires Width(c.tables, toks[0]) <= |toks| && Repeats(c, d, strict, toks[Width(c.tables, toks[0])..], b)
    ensures Repeats(c, d, strict, toks, HeadArgs(d, toks[0], toks[1..]) + b)
  {
    var a := toks[0];
    if OneToken(c, a) {
      OneTokenArgs(c, a, []);
      TokenRepeats(c, d, strict, a, toks[1..], b);
      assert toks == [a] + toks[1..];
    } else if ValueFlag(c, a) {
      PairArgs(c, a, "", []);
      FixedPairRepeats(c, d, strict, toks, b);
    } else {
      GluedArgs(c, a, []);
      GluedRepeats(c, d, strict, a);
      assert b == [] && toks[1..] == [] && toks == [a];
    }
  }

  lemma FixedItemsAreOptions(c: Config, strict: bool, toks: seq<string>)
    requires ValidConfig(c) && FixedHead(c, strict, toks) && HasHead(c.tables, toks) && !IsGroup(c.tables, toks[0])
    ensures forall i :: i in HeadItems(c.tables, toks) ==> IsOption(i)
  {
    var a := toks[0];
    if OneToken(c, a) {
      OneTokenItems(c, a);
    } else if ValueFlag(c, a) {
      PairArgs(c, a, "", []);
      ValueFlagIsOption(c, a, Some(toks[1]));
    } else {
      GluedItem(c, a);
    }
  }

  lemma ValueFlagIsOption(c: Config, k: string, v: Option<string>)
    requires ValidConfig(c) && ValueFlag(c, k)
    ensures IsOption(Item(k, v))
  {
    if OrdinaryLong(k) {
      OrdinaryLongIsOption(c, Item(k, v));
    } else {
      assert k[1] != 'e' && |"--debug"| == 7 && |"--env-file"| == 10;
    }
  }

  lemma GluedItem(c: Config, a: string)
    requires ValidConfig(c) && GluedFlag(c, a)
    ensures Lex(c.tables, a).Whole? && Lex(c.tables, a).value.Some? && ValueFlag(c, Lex(c.tables, a).name)
    ensures IsOption(Items(c.tables, a)[0])
  {
    TokenForm(a);
    if OrdinaryLong(Before(a, '=')) && Before(a, '=') !in c.tables.longBool && '=' in a {
      LongLexes(c.tables, Before(a, '='), After(a, '='));
    }
    ValueFlagIsOption(c, Lex(c.tables, a).name, Lex(c.tables, a).value);
  }

  lemma OneTokenItems(c: Config, a: string)
    requires ValidConfig(c) && OneToken(c, a) && !IsGroup(c.tables, a)
    ensures forall i :: i in Items(c.tables, a) ==> IsOption(i) && !ValueFlag(c, i.name)
  {
    if Before(a, '=') in c.tables.longBool {
      LongBoolItem(c, a);
    } else if a == "--help" {
      assert '=' !in a;
      assert Items(c.tables, a) == [Item(a, None)];
    } else if ShortIn(a, c.tables.shortBool) {
      ShortBoolItem(c, a);
    } else {
      AddHostItemIs(c, a);
    }
  }

  lemma LongBoolItem(c: Config, a: string)
    requires ValidConfig(c) && Closed(c.tables, a) && Before(a, '=') in c.tables.longBool
    ensures forall i :: i in Items(c.tables, a) ==> IsOption(i) && !ValueFlag(c, i.name)
  {
    var n := Before(a, '=');
    assert PlainLong(n);
    assert a[0] == '-' && a[1] == n[1];
    LongBoolLexes(c.tables, a);
    OrdinaryLongIsOption(c, Item(n, Lex(c.tables, a).value));
    assert Items(c.tables, a) == [Item(n, Lex(c.tables, a).value)];
  }

  lemma ShortBoolItem(c: Config, a: string)
    requires ValidConfig(c) && Closed(c.tables, a) && ShortIn(a, c.tables.shortBool) && |a| == 2
    ensures forall i :: i in Items(c.tables, a) ==> IsOption(i) && !ValueFlag(c, i.name)
  {
    assert Items(c.tables, a) == [Item(a, None)];
    assert |"--debug"| == 7;
  }

  lemma AddHostItemIs(c: Config, a: string)
    requires ValidConfig(c) && Closed(c.tables, a) && "--add-host=" <= a
    ensures forall i :: i in Items(c.tables, a) ==> IsOption(i) && !ValueFlag(c, i.name)
  {
    AddHostLexes(c.tables, a[11..]);
    assert a == "--add-host=" + a[11..];
    assert Items(c.tables, a) == [Item("--add-host", Some(a[11..]))];
    assert |"--add-host"| == 10 && "--add-host"[2] == 'a' && "--add-host" <= "--add-host";
  }

  // ---- canonical lines are repeated ----

  lemma CommandScans(c: Config, cmd: seq<string>)
    requires ValidConfig(c) && (cmd == [] || Quiescent(c, cmd))
    ensures Scan(c, InOptions, cmd) == Ok(NOTHING.(cmd := cmd))
  {
    if cmd != [] {
      TrailingCommandUnchanged(c, cmd);
    }
  }

  lemma EnvAndCommand(es: seq<string>, cmd: seq<string>)
    ensures Add(NOTHING.(envs := es), Ok(NOTHING.(cmd := cmd))) == Ok(Output([], es, [], cmd))
  {
    var none: seq<string> := [];
    assert none + none == none && es + none == es && none + cmd == cmd;
  }

  lemma EnvTailRepeats(c: Config, toks: seq<string>, om: EnvOrder.Ordered, cmd: seq<string>)
    requires ValidConfig(c) && IsEnvTail(c, toks, om, cmd)
    ensures Scan(c, InOptions, toks) == Ok(Output([], EnvOrder.Entries(om), [], cmd))
    ensures Assemble(Output([], EnvOrder.Entries(om), [], cmd)) == toks
  {
    EnvArgsRescan(c, om, cmd);
    CommandScans(c, cmd);
    EnvAndCommand(EnvOrder.Entries(om), cmd);
    EnvOrder.MergeSettles(om);
    assert [] + EnvOrder.Entries(om) == EnvOrder.Entries(om);
    AssembledParts(Output([], EnvOrder.Entries(om), [], cmd));
  }

  lemma HeadThenAssembled(c: Config, toks: seq<string>, o1: Output)
    requires ValidConfig(c) && HasHead(c.tables, toks) && |toks[0]| > 1
    requires FlagEntries(c.host, HeadCollected(c.tables, toks)) == []
    requires FileEntries(c.host, HeadCollected(c.tables, toks)) == []
    ensures Assemble(HeadOut(c, toks).Plus(o1)) == HeadArgs(c, toks[0], toks[1..]) + Assemble(o1)
  {
    var args := HeadArgs(c, toks[0], toks[1..]);
    assert [] + o1.envs == o1.envs && [] + o1.fileEnvs == o1.fileEnvs && [] + o1.cmd == o1.cmd;
    AssembledParts(o1);
    AssembledParts(HeadOut(c, toks).Plus(o1));
    Regrouped(args, o1.nerdctl, EnvOrder.Args(EnvOrder.Merge(o1.fileEnvs + o1.envs)) + o1.cmd);
  }

  /** Only `--env-file` can be unreadable. */
  lemma HeadIsReadable(c: Config, toks: seq<string>)
    requires ValidConfig(c) && toks != [] && Lex(c.tables, toks[0]) != Stop && HasHead(c.tables, toks)
    requires HeadOK(c, toks[0], toks[1..]) && Before(toks[0], '=') != "--env-file"
    ensures AllReadable(c.host, HeadItems(c.tables, toks))
  {
    if !AllReadable(c.host, HeadItems(c.tables, toks)) {
      FileItemsAreLong(c, toks);
    }
  }

  lemma HeadScans(c: Config, toks: seq<string>, o1: Output)
    requires ValidConfig(c) && HasHead(c.tables, toks) && Lex(c.tables, toks[0]) != Stop && HeadOK(c, toks[0], toks[1..])
    requires AllReadable(c.host, HeadItems(c.tables, toks)) && |toks[0]| > 1
    requires Scan(c, InOptions, toks[Width(c.tables, toks[0])..]) == Ok(o1)
    ensures Scan(c, InOptions, toks) == Ok(HeadOut(c, toks).Plus(o1))
  {
    var _ := HeadIsFaithful(c, toks, []);
  }

  lemma {:induction false} CanonicalRepeats(c: Config, d: Config, strict: bool, toks: seq<string>) returns (o: Output)
    requires ValidConfig(c) && ValidConfig(d) && Alike(c, d) && WellFormed(d, toks) && Canonical(c, strict, toks)
    ensures Scan(d, InOptions, toks) == Ok(o) && Repeats(c, d, strict, toks, Assemble(o))
    decreases |toks|
  {
    if EnvTail(c, toks) {
      var om, cmd :| IsEnvTail(c, toks, om, cmd);
      EnvTailRepeats(d, toks, om, cmd);
      o := Output([], EnvOrder.Entries(om), [], cmd);
      RepeatsOneself(c, d, strict, toks);
    } else {
      var w := Width(c.tables, toks[0]);
      FixedHeadIsHead(c, strict, toks);
      var o1 := CanonicalRepeats(c, d, strict, toks[w..]);
      o := FixedHeadThenRest(c, d, strict, toks, o1);
    }
  }

  lemma FixedHeadThenRest(c: Config, d: Config, strict: bool, toks: seq<string>, o1: Output) returns (o: Output)
    requires ValidConfig(c) && ValidConfig(d) && Alike(c, d) && FixedHead(c, strict, toks)
    requires Lex(d.tables, toks[0]) != Stop && HeadOK(d, toks[0], toks[1..]) && Width(d.tables, toks[0]) <= |toks|
    requires Scan(d, InOptions, toks[Width(d.tables, toks[0])..]) == Ok(o1)
    requires Repeats(c, d, strict, toks[Width(d.tables, toks[0])..], Assemble(o1))
    ensures Scan(d, InOptions, toks) == Ok(o) && Repeats(c, d, strict, toks, Assemble(o))
  {
    FixedHeadIsHead(c, strict, toks);
    HeadIsReadable(d, toks);
    HeadScans(d, toks, o1);
    o := HeadOut(d, toks).Plus(o1);
    FixedHeadRepeats(c, d, strict, toks, Assemble(o1));
    FixedHeadSetsNothing(c, d, strict, toks);
    HeadThenAssembled(d, toks, o1);
  }

  lemma FixedHeadSetsNothing(c: Config, d: Config, strict: bool, toks: seq<string>)
    requires ValidConfig(c) && ValidConfig(d) && Alike(c, d) && FixedHead(c, strict, toks) && HasHead(d.tables, toks)
    ensures FlagEntries(d.host, HeadCollected(d.tables, toks)) == [] && FileEntries(d.host, HeadCollected(d.tables, toks)) == []
  {
    if !IsGroup(c.tables, toks[0]) {
      FixedItemsAreOptions(c, strict, toks);
      PlainItems(d, HeadItems(d.tables, toks));
    }
  }

  // ---- and no other lines are ----

  /** The arguments that all options of the line add. */
  function LineArgs(c: Config, toks: seq<string>): seq<string>
    requires ValidConfig(c)
    decreases |toks|
  {
    if HasHead(c.tables, toks) && |toks[0]| > 1
    then HeadArgs(c, toks[0], toks[1..]) + LineArgs(c, toks[Width(c.tables, toks[0])..])
    else []
  }

  /** The scan of a well-formed line, part by part. */
  lemma {:induction false} LineScans(c: Config, toks: seq<string>)
    requires ValidConfig(c) && WellFormed(c, toks) && AllReadable(c.host, ReadItems(c.tables, toks))
    ensures Read(c.tables, toks).Some?
    ensures var collected := Collected(c.tables, toks);
            Scan(c, InOptions, toks) == Ok(Output(LineArgs(c, toks), FlagEntries(c.host, collected),
                                                  FileEntries(c.host, collected), Read(c.tables, toks).value.rest))
    decreases |toks|
  {
    WellFormedLinesRead(c, toks);
    if toks == [] || Lex(c.tables, toks[0]) == Stop {
      assert !HasHead(c.tables, toks);
      CommandScans(c, toks);
    } else {
      HeadReads(c, toks);
      HeadReadable(c, toks);
      LineScans(c, toks[Width(c.tables, toks[0])..]);
      HeadThenLineScans(c, toks);
    }
  }

  lemma HeadThenLineScans(c: Config, toks: seq<string>)
    requires ValidConfig(c) && HasHead(c.tables, toks) && Lex(c.tables, toks[0]) != Stop && HeadOK(c, toks[0], toks[1..])
    requires AllReadable(c.host, HeadItems(c.tables, toks)) && |toks[0]| > 1
    requires var rest := toks[Width(c.tables, toks[0])..];
             Scan(c, InOptions, rest).Ok? && Scan(c, InOptions, rest).value.nerdctl == LineArgs(c, rest)
    requires var rest := toks[Width(c.tables, toks[0])..];
             && Scan(c, InOptions, rest).value.envs == FlagEntries(c.host, Collected(c.tables, rest))
             && Scan(c, InOptions, rest).value.fileEnvs == FileEntries(c.host, Collected(c.tables, rest))
    ensures var collected, rest := Collected(c.tables, toks), toks[Width(c.tables, toks[0])..];
            Scan(c, InOptions, toks) == Ok(Output(LineArgs(c, toks), FlagEntries(c.host, collected),
                                                  FileEntries(c.host, collected), Scan(c, InOptions, rest).value.cmd))
  {
    var rest := toks[Width(c.tables, toks[0])..];
    var o1 := Scan(c, InOptions, rest).value;
    HeadScans(c, toks, o1);
    FlagEntriesAppended(c.host, HeadCollected(c.tables, toks), Collected(c.tables, rest));
    FileEntriesAppended(c.host, HeadCollected(c.tables, toks), Collected(c.tables, rest));
    assert [] + o1.cmd == o1.cmd;
  }

  predicate StartsOption(c: Config, a: string) { OneToken(c, a) || ValueFlag(c, a) || GluedFlag(c, a) }

  lemma {:induction false} LineStarts(c: Config, toks: seq<string>)
    requires ValidConfig(c) && WellFormed(c, toks) && AllReadable(c.host, ReadItems(c.tables, toks))
    ensures LineArgs(c, toks) != [] ==> StartsOption(c, LineArgs(c, toks)[0])
    decreases |toks|
  {
    if toks == [] || Lex(c.tables, toks[0]) == Stop {
      assert !HasHead(c.tables, toks);
    } else {
      WellFormedLinesRead(c, toks);
      HeadReadable(c, toks);
      LineStarts(c, toks[Width(c.tables, toks[0])..]);
      var _ := HeadIsFaithful(c, toks, []);
    }
  }

  lemma {:induction false} ArgsTokens(om: EnvOrder.Ordered, i: nat)
    requires i < |EnvOrder.Args(om)|
    ensures var args := EnvOrder.Args(om);
            args[i] == "-e" || (i > 0 && args[i - 1] == "-e" && '=' in args[i])
  {
    if i >= 2 {
      ArgsTokens(om[1..], i - 2);
    }
  }

  lemma MountTokensFire(c: Config, a: string)
    requires c.handlesMount && (a == "--mount" || "--mount=" <= a)
    ensures Fires(c, a)
  {
    if a == "--mount" {
      assert '=' !in a;
    } else {
      CutGlued("--mount", '=', a[8..]);
      assert a == "--mount" + ['='] + a[8..];
    }
  }

  /** Nothing in an environment and a command is taken for a mount. */
  lemma {:induction false} TailIsExact(c: Config, d: Config, a: seq<string>, om: EnvOrder.Ordered, cmd: seq<string>, i: nat)
    requires (cmd == [] || Quiescent(c, cmd)) && Repeats(c, d, false, a, EnvOrder.Args(om) + cmd) && i < |a|
    ensures a[i] == (EnvOrder.Args(om) + cmd)[i]
  {
    assert TokenAgain(c, d, false, a, EnvOrder.Args(om) + cmd, i);
    if i > 0 {
      TailIsExact(c, d, a, om, cmd, i - 1);
    }
    if c.handlesMount && i > 0 {
      TailHasNoMount(c, om, cmd, i - 1);
    }
    if c.handlesMount {
      TailHasNoGlue(c, om, cmd, i);
    }
  }

  lemma TailHasNoGlue(c: Config, om: EnvOrder.Ordered, cmd: seq<string>, i: nat)
    requires (cmd == [] || Quiescent(c, cmd)) && c.handlesMount && i < |EnvOrder.Args(om) + cmd|
    ensures var b := EnvOrder.Args(om) + cmd; "--mount=" <= b[i] ==> i > 0 && b[i - 1] == "-e"
  {
    var args := EnvOrder.Args(om);
    if i < |args| {
      ArgsTokens(om, i);
    } else {
      assert (args + cmd)[i] == cmd[i - |args|];
      if "--mount=" <= cmd[i - |args|] {
        MountTokensFire(c, cmd[i - |args|]);
      }
    }
  }

  lemma TailHasNoMount(c: Config, om: EnvOrder.Ordered, cmd: seq<string>, i: nat)
    requires (cmd == [] || Quiescent(c, cmd)) && c.handlesMount && i < |EnvOrder.Args(om) + cmd|
    ensures (EnvOrder.Args(om) + cmd)[i] != "--mount"
  {
    var args := EnvOrder.Args(om);
    if i < |args| {
      ArgsTokens(om, i);
      assert '=' !in "--mount";
    } else {
      assert (args + cmd)[i] == cmd[i - |args|];
      if cmd[i - |args|] == "--mount" {
        MountTokensFire(c, "--mount");
      }
    }
  }

  /** An option that passes nothing on can be repeated only among the variables at the end. */
  lemma VanishingHead(c: Config, toks: seq<string>)
    requires ValidConfig(c) && WellFormed(c, toks) && AllReadable(c.host, ReadItems(c.tables, toks))
    requires HasHead(c.tables, toks) && Lex(c.tables, toks[0]) != Stop && |toks[0]| > 1
    requires HeadArgs(c, toks[0], toks[1..]) == []
    ensures !StartsOption(c, toks[0])
  {
    var a := toks[0];
    if OneToken(c, a) {
      OneTokenArgs(c, a, toks[1..]);
    } else if ValueFlag(c, a) {
      PairArgs(c, a, "", []);
    } else if GluedFlag(c, a) {
      GluedArgs(c, a, toks[1..]);
    }
  }

  lemma GluedMountStarts(c: Config, a: string)
    requires ValidConfig(c) && "--mount=" <= a
    ensures GluedFlag(c, a) && !OneToken(c, a) && !ValueFlag(c, a) && Before(a, '=') == "--mount" && After(a, '=') == a[8..]
  {
    MountIsOrdinary(c.tables);
    assert a == "--mount" + ['='] + a[8..];
    CutGlued("--mount", '=', a[8..]);
    assert a[1] == '-' && a[2] == 'm' && '=' in a;
  }

  lemma RepeatedTailIsCanonical(c: Config, d: Config, toks: seq<string>)
    requires ValidConfig(c) && WellFormed(c, toks) && AllReadable(c.host, ReadItems(c.tables, toks))
    requires HasHead(c.tables, toks) && Lex(c.tables, toks[0]) != Stop && |toks[0]| > 1
    requires HeadArgs(c, toks[0], toks[1..]) == []
    requires Scan(c, InOptions, toks).Ok? && Repeats(c, d, false, toks, Assemble(Scan(c, InOptions, toks).value))
    ensures EnvTail(c, toks)
  {
    var o := Scan(c, InOptions, toks).value;
    var om := EnvOrder.Merge(o.fileEnvs + o.envs);
    LineScans(c, toks);
    LineStarts(c, toks);
    VanishingHead(c, toks);
    AssembledParts(o);
    RestIsQuiescent(c, toks);
    assert o.nerdctl != [] ==> Assemble(o)[0] == o.nerdctl[0];
    StartIsRepeated(c, d, toks, Assemble(o));
    assert Assemble(o) == EnvOrder.Args(om) + o.cmd;
    forall i | 0 <= i < |toks|
      ensures toks[i] == Assemble(o)[i]
    {
      TailIsExact(c, d, toks, om, o.cmd, i);
    }
    assert toks == EnvOrder.Args(om) + o.cmd;
    EnvOrder.MergedEnvironment(o.fileEnvs + o.envs);
    EnvOrder.MergedKeysArePlain(o.fileEnvs + o.envs);
    assert IsEnvTail(c, toks, om, o.cmd);
  }

  lemma StartIsRepeated(c: Config, d: Config, a: seq<string>, b: seq<string>)
    requires ValidConfig(c) && a != [] && Repeats(c, d, false, a, b) && !StartsOption(c, a[0])
    ensures !StartsOption(c, b[0])
  {
    assert TokenAgain(c, d, false, a, b, 0);
    if "--mount=" <= a[0] {
      GluedMountStarts(c, a[0]);
    }
  }

  lemma PrintedMountIsFixed(c: Config, v: string)
    requires ValidConfig(c) && PrintedMount(c, v)
    ensures FixedMount(c, false, v)
  {
    var n, v0 :| v == NewMountValue(c, n, v0);
    NewValueIsSameMount(c, n, v0);
  }

  /** A head that passes something on is fixed if its first tokens are repeated. */
  lemma RepeatedHeadIsFixed(c: Config, d: Config, toks: seq<string>, b: seq<string>)
    requires ValidConfig(c) && HasHead(c.tables, toks) && Lex(c.tables, toks[0]) != Stop && HeadOK(c, toks[0], toks[1..])
    requires |toks[0]| > 1 && AllReadable(c.host, HeadItems(c.tables, toks))
    requires HeadArgs(c, toks[0], toks[1..]) != [] && Repeats(c, d, false, toks, HeadArgs(c, toks[0], toks[1..]) + b)
    ensures FixedHead(c, false, toks) && |HeadArgs(c, toks[0], toks[1..])| == Width(c.tables, toks[0])
  {
    var a, args := toks[0], HeadArgs(c, toks[0], toks[1..]);
    var _ := HeadIsFaithful(c, toks, []);
    assert (args + b)[0] == args[0] && TokenAgain(c, d, false, toks, args + b, 0);
    if OneToken(c, args[0]) {
      RepeatedTokenIsFixed(c, d, toks, args + b);
      OneTokenArgs(c, a, toks[1..]);
    } else if |args| == 1 {
      RepeatedGlueIsFixed(c, d, toks, args + b);
      GluedArgs(c, a, toks[1..]);
    } else {
      assert (args + b)[1] == args[1] && TokenAgain(c, d, false, toks, args + b, 1);
      RepeatedPairIsFixed(c, d, toks, args + b);
      PairArgs(c, a, "", []);
    }
  }

  lemma RepeatedTokenIsFixed(c: Config, d: Config, toks: seq<string>, b: seq<string>)
    requires ValidConfig(c) && toks != [] && |toks| == |b| && TokenAgain(c, d, false, toks, b, 0) && OneToken(c, b[0])
    ensures toks[0] == b[0]
  {
    if "--mount=" <= b[0] {
      GluedMountStarts(c, b[0]);
    }
  }

  lemma RepeatedGlueIsFixed(c: Config, d: Config, toks: seq<string>, b: seq<string>)
    requires ValidConfig(c) && |toks| == 1 == |b| && TokenAgain(c, d, false, toks, b, 0) && GluedToken(c, b[0])
    ensures GluedFlag(c, toks[0]) && FixedHead(c, false, toks)
  {
    var a := toks[0];
    if a == b[0] {
      if Handles(c, Before(a, '=')) {
        PrintedMountIsFixed(c, After(a, '='));
      }
    } else {
      GluedMountStarts(c, a);
      GluedMountStarts(c, b[0]);
      PrintedMountIsFixed(c, After(b[0], '='));
    }
  }

  lemma RepeatedPairIsFixed(c: Config, d: Config, toks: seq<string>, b: seq<string>)
    requires ValidConfig(c) && |toks| == |b| >= 2 && ValuePair(c, b[0], b[1])
    requires TokenAgain(c, d, false, toks, b, 0) && TokenAgain(c, d, false, toks, b, 1)
    ensures toks[0] == b[0] && FixedHead(c, false, toks)
  {
    if Handles(c, b[0]) {
      PrintedMountIsFixed(c, b[1]);
    }
  }

  lemma RepeatsRest(c: Config, d: Config, strict: bool, a: seq<string>, b: seq<string>, a': seq<string>, b': seq<string>)
    requires Repeats(c, d, strict, a + b, a' + b') && |a| == |a'| && a != [] && a[|a| - 1] != "--mount"
    ensures Repeats(c, d, strict, b, b')
  {
    forall i | 0 <= i < |b|
      ensures |b'| == |b| && TokenAgain(c, d, strict, b, b', i)
    {
      assert TokenAgain(c, d, strict, a + b, a' + b', |a| + i);
      assert (a + b)[|a| + i] == b[i] && (a' + b')[|a| + i] == b'[i];
      assert (a + b)[|a| + i - 1] == if i == 0 then a[|a| - 1] else b[i - 1];
    }
  }

  /** A line that its rewriting repeats is canonical. */
  lemma {:induction false} RepeatedIsCanonical(c: Config, d: Config, toks: seq<string>)
    requires ValidConfig(c) && WellFormed(c, toks) && AllReadable(c.host, ReadItems(c.tables, toks))
    requires Scan(c, InOptions, toks).Ok? && Repeats(c, d, false, toks, Assemble(Scan(c, InOptions, toks).value))
    ensures Canonical(c, false, toks)
    decreases |toks|
  {
    if toks == [] || Lex(c.tables, toks[0]) == Stop {
      assert IsEnvTail(c, toks, [], toks) by { assert EnvOrder.Args([]) + toks == toks; }
    } else {
      RepeatedStep(c, d, toks);
      if !EnvTail(c, toks) {
        RepeatedIsCanonical(c, d, toks[Width(c.tables, toks[0])..]);
      }
    }
  }

  lemma RepeatedStep(c: Config, d: Config, toks: seq<string>)
    requires ValidConfig(c) && WellFormed(c, toks) && AllReadable(c.host, ReadItems(c.tables, toks))
    requires Scan(c, InOptions, toks).Ok? && Repeats(c, d, false, toks, Assemble(Scan(c, InOptions, toks).value))
    requires toks != [] && Lex(c.tables, toks[0]) != Stop
    ensures var rest := toks[Width(c.tables, toks[0])..];
            || EnvTail(c, toks)
            || (FixedHead(c, false, toks) && AllReadable(c.host, ReadItems(c.tables, rest)) && Scan(c, InOptions, rest).Ok?
                && Repeats(c, d, false, rest, Assemble(Scan(c, InOptions, rest).value)))
  {
    FirstHead(c, toks);
    if HeadArgs(c, toks[0], toks[1..]) == [] {
      RepeatedTailIsCanonical(c, d, toks);
    } else {
      LineScans(c, toks[Width(c.tables, toks[0])..]);
      RepeatedHeadThenRest(c, d, toks);
    }
  }

  lemma FirstHead(c: Config, toks: seq<string>)
    requires ValidConfig(c) && WellFormed(c, toks) && AllReadable(c.host, ReadItems(c.tables, toks))
    requires toks != [] && Lex(c.tables, toks[0]) != Stop
    ensures |toks[0]| > 1 && HasHead(c.tables, toks) && AllReadable(c.host, HeadItems(c.tables, toks))
    ensures AllReadable(c.host, ReadItems(c.tables, toks[Width(c.tables, toks[0])..]))
  {
    WellFormedLinesRead(c, toks);
    HeadReadable(c, toks);
  }

  lemma RepeatedHeadThenRest(c: Config, d: Config, toks: seq<string>)
    requires ValidConfig(c) && HasHead(c.tables, toks) && Lex(c.tables, toks[0]) != Stop && HeadOK(c, toks[0], toks[1..])
    requires AllReadable(c.host, HeadItems(c.tables, toks)) && |toks[0]| > 1 && HeadArgs(c, toks[0], toks[1..]) != []
    requires Scan(c, InOptions, toks[Width(c.tables, toks[0])..]).Ok?
    requires Scan(c, InOptions, toks).Ok? && Repeats(c, d, false, toks, Assemble(Scan(c, InOptions, toks).value))
    ensures FixedHead(c, false, toks)
    ensures var rest := toks[Width(c.tables, toks[0])..];
            Repeats(c, d, false, rest, Assemble(Scan(c, InOptions, rest).value))
  {
    var rest := toks[Width(c.tables, toks[0])..];
    RepeatedHeadStays(c, d, toks, Scan(c, InOptions, rest).value);
    RepeatedRestStays(c, d, toks, rest, Scan(c, InOptions, rest).value);
  }

  lemma RepeatedHeadStays(c: Config, d: Config, toks: seq<string>, o1: Output)
    requires ValidConfig(c) && HasHead(c.tables, toks) && Lex(c.tables, toks[0]) != Stop && HeadOK(c, toks[0], toks[1..])
    requires AllReadable(c.host, HeadItems(c.tables, toks)) && |toks[0]| > 1 && HeadArgs(c, toks[0], toks[1..]) != []
    requires Scan(c, InOptions, toks[Width(c.tables, toks[0])..]) == Ok(o1)
    requires Scan(c, InOptions, toks).Ok? && Repeats(c, d, false, toks, Assemble(Scan(c, InOptions, toks).value))
    ensures FixedHead(c, false, toks) && |HeadArgs(c, toks[0], toks[1..])| == Width(c.tables, toks[0])
  {
    HeadScans(c, toks, o1);
    var o := HeadOut(c, toks).Plus(o1);
    AssembledParts(o);
    var tail := EnvOrder.Args(EnvOrder.Merge(o.fileEnvs + o.envs)) + o.cmd;
    Regrouped(HeadArgs(c, toks[0], toks[1..]), o1.nerdctl, tail);
    RepeatedHeadIsFixed(c, d, toks, o1.nerdctl + tail);
  }

  lemma RepeatedRestStays(c: Config, d: Config, toks: seq<string>, rest: seq<string>, o1: Output)
    requires ValidConfig(c) && HasHead(c.tables, toks) && Lex(c.tables, toks[0]) != Stop && HeadOK(c, toks[0], toks[1..])
    requires AllReadable(c.host, HeadItems(c.tables, toks)) && |toks[0]| > 1 && FixedHead(c, false, toks)
    requires rest == toks[Width(c.tables, toks[0])..] && Scan(c, InOptions, rest) == Ok(o1)
    requires |HeadArgs(c, toks[0], toks[1..])| == Width(c.tables, toks[0])
    requires Scan(c, InOptions, toks).Ok? && Repeats(c, d, false, toks, Assemble(Scan(c, InOptions, toks).value))
    ensures Repeats(c, d, false, rest, Assemble(o1))
  {
    HeadScans(c, toks, o1);
    FixedHeadSetsNothing(c, c, false, toks);
    HeadThenAssembled(c, toks, o1);
    FixedHeadEnd(c, toks);
    RepeatsBehind(c, d, toks, Width(c.tables, toks[0]), HeadArgs(c, toks[0], toks[1..]), Assemble(o1));
  }

  lemma RepeatsBehind(c: Config, d: Config, toks: seq<string>, w: nat, args: seq<string>, body: seq<string>)
    requires 0 < w <= |toks| && |args| == w && toks[w - 1] != "--mount" && Repeats(c, d, false, toks, args + body)
    ensures Repeats(c, d, false, toks[w..], body)
  {
    assert toks == toks[..w] + toks[w..];
    RepeatsRest(c, d, false, toks[..w], toks[w..], args, body);
  }

  lemma FixedHeadEnd(c: Config, toks: seq<string>)
    requires ValidConfig(c) && FixedHead(c, false, toks) && Lex(c.tables, toks[0]) != Stop
    requires HeadOK(c, toks[0], toks[1..]) && Width(c.tables, toks[0]) <= |toks|
    ensures toks[Width(c.tables, toks[0]) - 1] != "--mount"
  {
    if OneToken(c, toks[0]) {
      OneTokenArgs(c, toks[0], []);
    } else if ValueFlag(c, toks[0]) {
      PairArgs(c, toks[0], "", []);
      ValueIsNoVariableFlag(c, toks[0], toks[1..]);
    } else {
      GluedArgs(c, toks[0], []);
      MountIsNoGluedFlag(c);
    }
  }

  // ---- on another occasion ----

  lemma {:induction false} CanonicalAlike(c: Config, d: Config, toks: seq<string>)
    requires ValidConfig(c) && ValidConfig(d) && Alike(c, d) && Canonical(d, false, toks)
    ensures Canonical(c, false, toks)
    decreases |toks|
  {
    if EnvTail(d, toks) {
      EnvTailAlike(c, d, toks);
    } else {
      FixedHeadAlike(c, d, toks);
      CanonicalAlike(c, d, toks[Width(d.tables, toks[0])..]);
    }
  }

  lemma EnvTailAlike(c: Config, d: Config, toks: seq<string>)
    requires Alike(c, d) && EnvTail(d, toks)
    ensures EnvTail(c, toks)
  {
    var om, cmd :| IsEnvTail(d, toks, om, cmd);
    assert IsEnvTail(c, toks, om, cmd);
  }

  lemma FixedHeadAlike(c: Config, d: Config, toks: seq<string>)
    requires ValidConfig(c) && ValidConfig(d) && Alike(c, d) && FixedHead(d, false, toks)
    ensures FixedHead(c, false, toks)
  {
  }

  lemma RepeatsAlike(c: Config, d: Config, a: seq<string>, b: seq<string>)
    requires Alike(c, d) && Repeats(c, d, false, a, b)
    ensures Repeats(d, d, false, a, b)
  {
    forall i | 0 <= i < |a|
      ensures TokenAgain(d, d, false, a, b, i)
    {
      assert TokenAgain(c, d, false, a, b, i);
    }
  }

  ghost predicate Settled(c: Config, strict: bool, toks: seq<string>)
    requires ValidConfig(c)
  {
    WellFormed(c, toks) && Canonical(c, strict, toks)
  }

  /** `toks` is well formed and its scan under `d` yields it again. */
  ghost predicate ScansToItself(c: Config, d: Config, strict: bool, toks: seq<string>)
    requires ValidConfig(d)
  {
    && WellFormed(d, toks) && Scan(d, InOptions, toks).Ok?
    && Repeats(c, d, strict, toks, Assemble(Scan(d, InOptions, toks).value))
  }

  lemma SettledScansToItself(c: Config, d: Config, strict: bool, toks: seq<string>)
    requires ValidConfig(c) && ValidConfig(d) && Alike(c, d) && Settled(c, strict, toks)
    ensures ScansToItself(c, d, strict, toks)
  {
    WellFormedAlike(c, d, toks);
    var _ := CanonicalRepeats(c, d, strict, toks);
  }

  /** The settled lines are those that repeat themselves on every other occasion, and on any. */
  lemma SettledIff(c: Config, d: Config, toks: seq<string>)
    requires ValidConfig(c) && ValidConfig(d) && Alike(c, d)
    ensures ScansToItself(c, d, false, toks) <==> Settled(c, false, toks)
  {
    if Settled(c, false, toks) {
      SettledScansToItself(c, d, false, toks);
    }
    if ScansToItself(c, d, false, toks) {
      if !AllReadable(d.host, ReadItems(d.tables, toks)) {
        UnreadableFileFails(d, toks);
      } else {
        RepeatsAlike(c, d, toks, Assemble(Scan(d, InOptions, toks).value));
        RepeatedIsCanonical(d, d, toks);
        CanonicalAlike(c, d, toks);
        WellFormedAlike(c, d, toks);
      }
    }
  }

  lemma CollectedIsEnvironment(c: Config, items: seq<Item>)
    ensures EnvOrder.Merge(FileEntries(c.host, items) + FlagEntries(c.host, items)) == []
            <==> Environment(c.host, items) == map[]
  {
    var es := FileEntries(c.host, items) + FlagEntries(c.host, items);
    EnvOrder.FlagsOverrideFiles(FileEntries(c.host, items), FlagEntries(c.host, items));
    EnvOrder.MergeDenotes(es);
    if EnvOrder.Merge(es) != [] {
      NonemptyMerge(es);
    }
  }

  lemma NonemptyMerge(es: seq<string>)
    requires EnvOrder.Merge(es) != []
    ensures EnvOrder.AsMap(EnvOrder.Merge(es)) != map[]
  {
    EnvOrder.MergedEnvironment(es);
    EnvOrder.Lookup(EnvOrder.Merge(es), EnvOrder.Merge(es)[0].0);
  }
}
