/** Rewriting preserves meaning: a well-formed line and its rewriting are read alike. */
module NerdctlMeaning {
  import opened Wrappers
  import opened Strings
  import opened CommandLine
  import opened Nerdctl
  import opened NerdctlForms
  import EnvOrder
  import Mounts

  // ---- reading a group of short flags ----

  /** The token carries all its options: no value is taken from the next token. */
  predicate Closed(t: Tables, a: string)
    decreases |a|
  {
    match Lex(t, a)
    case Whole(_, _) => true
    case Grouped(_, others) => Closed(t, others)
    case _ => false
  }

  function Items(t: Tables, a: string): seq<Item>
    requires Closed(t, a)
    decreases |a|
  {
    match Lex(t, a)
    case Whole(n, v) => [Item(n, v)]
    case Grouped(n, others) => [Item(n, None)] + Items(t, others)
  }

  /** Short flags without values, and a last one that takes the next token. */
  predicate OpenEnded(t: Tables, a: string)
    decreases |a|
  {
    |a| > 1 && a[1] != '-' &&
    match Lex(t, a)
    case WithNext(_) => true
    case Grouped(_, others) => OpenEnded(t, others)
    case _ => false
  }

  function OpenItems(t: Tables, a: string, next: string): seq<Item>
    requires OpenEnded(t, a)
    decreases |a|
  {
    match Lex(t, a)
    case WithNext(n) => [Item(n, Some(next))]
    case Grouped(n, others) => [Item(n, None)] + OpenItems(t, others, next)
  }

  lemma {:induction false} ClosedReads(t: Tables, a: string, x: seq<string>)
    requires Closed(t, a)
    ensures Read(t, [a] + x) == Cons(Items(t, a), Read(t, x))
    decreases |a|
  {
    assert ([a] + x)[1..] == x;
    match Lex(t, a)
    case Whole(_, _) =>
    case Grouped(n, others) =>
      ClosedReads(t, others, x);
      ConsTwice([Item(n, None)], Items(t, others), Read(t, x));
  }

  lemma {:induction false} OpenEndedReads(t: Tables, a: string, next: string, x: seq<string>)
    requires OpenEnded(t, a)
    ensures Read(t, [a, next] + x) == Cons(OpenItems(t, a, next), Read(t, x))
    decreases |a|
  {
    assert ([a, next] + x)[1..] == [next] + x && ([a, next] + x)[2..] == x;
    match Lex(t, a)
    case WithNext(_) =>
    case Grouped(n, others) =>
      OpenEndedReads(t, others, next, x);
      assert [others] + ([next] + x) == [others, next] + x;
      ConsTwice([Item(n, None)], OpenItems(t, others, next), Read(t, x));
  }

  /** An open-ended group is its flags without values, then its last flag with the next token. */
  lemma {:induction false} OpenEndedSplits(t: Tables, a: string, next: string)
    requires ValidTables(t) && OpenEnded(t, a) && |a| > 2
    ensures var last := |a| - 1;
            && a[last] in t.shortArg && (forall k :: 1 <= k < last ==> a[k] in t.shortBool)
            && a[0] == '-' && Closed(t, a[..last])
            && OpenItems(t, a, next) == Items(t, a[..last]) + [Item(['-', a[last]], Some(next))]
            && forall i :: i in Items(t, a[..last]) ==> i.value.None? && |i.name| == 2 && i.name[1] in t.shortBool
    decreases |a|
  {
    var last := |a| - 1;
    var others := "-" + a[2..];
    var head := a[..last];
    assert Lex(t, a) == Grouped(a[..2], others);
    if |a| == 3 {
      assert others == ['-', a[2]];
      assert head == a[..2];
      assert Lex(t, head) == Whole(head, None);
    } else {
      OpenEndedSplits(t, others, next);
      assert others[..|others| - 1] == "-" + head[2..];
      assert others[1] == a[2] && a[2] in t.shortBool;
      assert head[..2] == a[..2];
      assert Lex(t, head) == Grouped(head[..2], "-" + head[2..]);
      assert forall k :: 2 <= k < last ==> a[k] == others[k - 1];
      assert Items(t, head) == [Item(a[..2], None)] + Items(t, "-" + head[2..]);
    }
  }

  // ---- well-formed lines ----

  predicate LongOK(c: Config, a: string, rest: seq<string>)
  {
    var n := Before(a, '=');
    && |n| > 2
    && if n in c.tables.longBool then true
       else if n == "--help" || n == "--debug" then '=' !in a
       else if "--add-host" <= n then n == "--add-host" && '=' in a && ':' in After(a, '=')
       else if "--env" <= n then (n == "--env" || n == "--env-file") && rest != [] && ('=' in a || Quiet(c, rest[0]))
       else '=' in a || (rest != [] && SeparateOK(c, a, rest[0]))
  }

  /** A separate value that the rewriter takes for one. */
  predicate SeparateOK(c: Config, k: string, v: string) {
    if c.handlesMount && k == "--mount" && Mounts.IsBind(Mounts.Parse(v)) then MountOK(v) else OkValue(v)
  }

  /** No argument handler runs at this token that would reach the next one. */
  predicate Quiet(c: Config, v: string) { Fires(c, v) ==> '=' in v }

  /** No entry of a bind mount looks like a flag, whichever is printed first. */
  predicate MountOK(v: string) {
    Mounts.IsBind(Mounts.Parse(v)) ==> forall k :: k in Mounts.Kept(Mounts.Parse(v)).fields ==> OkValue(k + "=")
  }

  /** A group of short flags that is passed on as it is, with the value of its last flag, if that has one. */
  predicate ClosedGroupOK(t: Tables, a: string) {
    Closed(t, a) && !Splits(t, a) && forall i :: i in Items(t, a) ==> |i.name| == 2
  }

  predicate IsGroup(t: Tables, a: string) { |a| > 2 && ShortIn(a, t.shortBool) && Closed(t, a) }

  predicate GroupOK(t: Tables, a: string, rest: seq<string>) {
    && rest != []
    && if Closed(t, a) then ClosedGroupOK(t, a)
       else OpenEnded(t, a) && rest[0] != "" && if a[|a| - 1] == 'e' then |rest| > 1 && rest[0][0] != '=' else '=' !in rest[0]
  }

  predicate ShortArgOK(c: Config, a: string, rest: seq<string>)
    requires |a| > 1
  {
    if a[1] == 'e' then rest != [] && if |a| == 2 then Quiet(c, rest[0]) else a[2] != '='
    else if |a| == 2 then rest != [] && OkValue(rest[0])
    else a[2] == '=' || '=' !in a
  }

  /** The option at the head of the line is in a form that Finch supports. */
  predicate HeadOK(c: Config, a: string, rest: seq<string>)
    requires Lex(c.tables, a) != Stop
  {
    if a[1] == '-' then LongOK(c, a, rest)
    else if a[1] in c.tables.shortBool then |a| == 2 || GroupOK(c.tables, a, rest)
    else ShortArgOK(c, a, rest)
  }

  /** Number of tokens the option at the head spans. */
  function Width(t: Tables, a: string): nat {
    if Lex(t, a).WithNext? || (Lex(t, a).Grouped? && !Closed(t, a)) then 2 else 1
  }

  /** Every option is in a supported form, and no argument handler runs on the trailing command. */
  predicate WellFormed(c: Config, toks: seq<string>)
    decreases |toks|
  {
    if toks == [] then true
    else if Lex(c.tables, toks[0]) == Stop then forall i :: 0 <= i < |toks| ==> !Fires(c, toks[i])
    else
      && HeadOK(c, toks[0], toks[1..])
      && Width(c.tables, toks[0]) <= |toks|
      && WellFormed(c, toks[Width(c.tables, toks[0])..])
  }

  function HeadItems(t: Tables, toks: seq<string>): seq<Item>
    requires toks != [] && Width(t, toks[0]) <= |toks|
    requires Closed(t, toks[0]) || OpenEnded(t, toks[0]) || Lex(t, toks[0]).WithNext?
  {
    if Closed(t, toks[0]) then Items(t, toks[0])
    else if OpenEnded(t, toks[0]) then OpenItems(t, toks[0], toks[1])
    else [Item(Lex(t, toks[0]).name, Some(toks[1]))]
  }

  /** The options of the head that are passed on: all of a closed group, else all but those for the environment. */
  function HeadPassed(t: Tables, toks: seq<string>): seq<Item>
    requires toks != [] && Width(t, toks[0]) <= |toks|
    requires Closed(t, toks[0]) || OpenEnded(t, toks[0]) || Lex(t, toks[0]).WithNext?
  {
    if IsGroup(t, toks[0]) then HeadItems(t, toks) else Options(HeadItems(t, toks))
  }

  /** The options of the head whose variables and files the rewriter collects: none of a closed group. */
  function HeadCollected(t: Tables, toks: seq<string>): seq<Item>
    requires toks != [] && Width(t, toks[0]) <= |toks|
    requires Closed(t, toks[0]) || OpenEnded(t, toks[0]) || Lex(t, toks[0]).WithNext?
  {
    if IsGroup(t, toks[0]) then [] else HeadItems(t, toks)
  }

  predicate HasHead(t: Tables, toks: seq<string>) {
    && toks != [] && Width(t, toks[0]) <= |toks|
    && (Closed(t, toks[0]) || OpenEnded(t, toks[0]) || Lex(t, toks[0]).WithNext?)
  }

  /** The options of the whole line that are passed on, and those that are collected. */
  function Passed(t: Tables, toks: seq<string>): seq<Item>
    decreases |toks|
  {
    if HasHead(t, toks) then HeadPassed(t, toks) + Passed(t, toks[Width(t, toks[0])..]) else []
  }

  function Collected(t: Tables, toks: seq<string>): seq<Item>
    decreases |toks|
  {
    if HasHead(t, toks) then HeadCollected(t, toks) + Collected(t, toks[Width(t, toks[0])..]) else []
  }

  // ---- what the head adds to nerdctl's arguments ----

  /** A mount that Finch handles is rewritten; any other value is passed on as it is. */
  function PassedValue(c: Config, k: string, n: nat, v: string): string
    requires ValidConfig(c)
  {
    if c.handlesMount && k == "--mount" then NewMountValue(c, n, v) else v
  }

  function LongArgs(c: Config, a: string, rest: seq<string>): seq<string>
    requires ValidConfig(c)
  {
    var n := Before(a, '=');
    if n in c.tables.longBool || n == "--help" then [a]
    else if n == "--debug" || "--env" <= n then []
    else if "--add-host" <= n then ["--add-host=" + Resolved(After(a, '='))]
    else
      var v := PassedValue(c, n, |rest| + 1, if '=' in a then After(a, '=') else if rest == [] then "" else rest[0]);
      if '=' in a && rest == [] then [n + "=" + v] else [n, v]
  }

  function ShortArgs(a: string, rest: seq<string>): seq<string>
    requires |a| > 1
  {
    if a[1] == 'e' then []
    else if |a| == 2 then [a, if rest == [] then "" else rest[0]]
    else if rest == [] then [a]
    else [a[..2], if a[2] == '=' then a[3..] else a[2..]]
  }

  /** The arguments that the option at the head of a line adds. */
  function HeadArgs(c: Config, a: string, rest: seq<string>): seq<string>
    requires ValidConfig(c) && |a| > 1
  {
    if a[1] == '-' then LongArgs(c, a, rest)
    else if a[1] !in c.tables.shortBool then ShortArgs(a, rest)
    else if |a| == 2 || Closed(c.tables, a) || rest == [] then [a]
    else [a[..|a| - 1]] + ShortArgs(['-', a[|a| - 1]] + rest[0], rest[1..])
  }

  // ---- what is preserved ----

  function Resolved(v: string): string { if ResolveIP(v).Ok? then ResolveIP(v).value else v }

  /** Option `j` of the rewritten line is what the rewriter makes of option `i`: `host-gateway` resolved, a mount as
      Finch understands it, anything else as it is. */
  ghost predicate Forwards(c: Config, i: Item, j: Item) {
    && j.name == i.name
    && if i.value.None? then j.value.None?
       else if i.name == "--add-host" then j.value == Some(Resolved(i.value.value))
       else if c.handlesMount && i.name == "--mount" then
         j.value.Some? && Mounts.SameMount(i.value.value, j.value.value)
       else j.value == i.value
  }

  ghost predicate Forwarded(c: Config, before: seq<Item>, after: seq<Item>) {
    |before| == |after| && forall k :: 0 <= k < |before| ==> Forwards(c, before[k], after[k])
  }

  predicate Readable(h: Host, i: Item) {
    NamesEnvFile(i) ==> i.value.value in h.files && h.files[i.value.value].Lines?
  }

  /** Scanning the head adds `out`, which is read as `kept`: the head's options, forwarded. */
  ghost predicate Faithful(c: Config, toks: seq<string>, out: Output, kept: seq<Item>, x: seq<string>)
    requires ValidConfig(c) && toks != [] && Lex(c.tables, toks[0]) != Stop && Width(c.tables, toks[0]) <= |toks|
    requires Closed(c.tables, toks[0]) || OpenEnded(c.tables, toks[0]) || Lex(c.tables, toks[0]).WithNext?
  {
    var t, w, items := c.tables, Width(c.tables, toks[0]), HeadItems(c.tables, toks);
    && Scan(c, InOptions, toks) == Add(out, Scan(c, InOptions, toks[w..]))
    && Read(t, toks) == Cons(items, Read(t, toks[w..]))
    && Read(t, out.nerdctl + x) == Cons(kept, Read(t, x))
    && Forwarded(c, Options(items), kept)
    && out.envs == FlagEntries(c.host, items)
    && out.fileEnvs == FileEntries(c.host, items)
    && out.cmd == []
  }

  // ---- what one option adds to nerdctl's arguments ----

  /** One token that is passed on as it is. */
  predicate OneToken(c: Config, a: string) {
    && Closed(c.tables, a)
    && (|| Before(a, '=') in c.tables.longBool
        || a == "--help"
        || (ShortIn(a, c.tables.shortBool) && (|a| == 2 || ClosedGroupOK(c.tables, a)))
        || ("--add-host=" <= a && ':' in a[11..] && ResolveIP(a[11..]) == Ok(a[11..])))
  }

  /** A flag that is always followed by its value. */
  predicate ValueFlag(c: Config, k: string) {
    || (OrdinaryLong(k) && k !in c.tables.longBool)
    || (|k| == 2 && ShortIn(k, c.tables.shortArg) && k[1] != 'e')
  }

  /** A flag with its value in one token. */
  predicate GluedFlag(c: Config, a: string) {
    || (OrdinaryLong(Before(a, '=')) && Before(a, '=') !in c.tables.longBool && '=' in a)
    || (|a| > 2 && ShortIn(a, c.tables.shortArg) && a[1] != 'e' && (a[2] == '=' || '=' !in a))
  }

  /** A mount that Finch handles has been rewritten. */
  ghost predicate GluedToken(c: Config, a: string)
    requires ValidConfig(c)
  {
    GluedFlag(c, a) && (c.handlesMount && Before(a, '=') == "--mount" ==> PrintedMount(c, After(a, '=')))
  }

  /** Nothing, a token, a flag with its value, or both; a value is glued only at the very end of a line. */
  ghost predicate Shape(c: Config, args: seq<string>, atEnd: bool)
    requires ValidConfig(c)
  {
    || args == []
    || (|args| == 1 && OneToken(c, args[0]))
    || (|args| == 1 && atEnd && GluedToken(c, args[0]))
    || (|args| == 2 && ValuePair(c, args[0], args[1]))
    || (|args| == 2 && atEnd && OneToken(c, args[0]) && GluedToken(c, args[1]))
    || (|args| == 3 && OneToken(c, args[0]) && ValuePair(c, args[1], args[2]))
  }

  /** The value of a mount as a rewriting prints it. */
  ghost predicate PrintedMount(c: Config, v: string)
    requires ValidConfig(c)
  {
    exists n, v0 :: v == NewMountValue(c, n, v0)
  }

  /** A flag with its value; a mount that Finch handles has been rewritten. */
  ghost predicate ValuePair(c: Config, k: string, v: string)
    requires ValidConfig(c)
  {
    ValueFlag(c, k) && (c.handlesMount && k == "--mount" ==> PrintedMount(c, v))
  }

  lemma PairShape(c: Config, k: string, v: string)
    requires ValidConfig(c) && ValuePair(c, k, v)
    ensures Shape(c, [k, v], false)
  {
  }

  lemma GluedShape(c: Config, n: string, v: string)
    requires ValidConfig(c) && OrdinaryLong(n) && n !in c.tables.longBool
    requires c.handlesMount && n == "--mount" ==> PrintedMount(c, v)
    ensures Shape(c, [n + "=" + v], true)
  {
    assert n + "=" + v == n + ['='] + v;
    CutGlued(n, '=', v);
  }

  lemma ResolvedShape(c: Config, v: string)
    requires ValidConfig(c) && ':' in v
    ensures Shape(c, ["--add-host=" + Resolved(v)], false)
  {
    ResolveKeepsColon(v);
    AddHostIsToken(c, "--add-host=" + Resolved(v), Resolved(v));
  }

  lemma AddHostIsToken(c: Config, a: string, v: string)
    requires a == "--add-host=" + v && ':' in v && ResolveIP(v) == Ok(v)
    ensures OneToken(c, a)
  {
    AddHostLexes(c.tables, v);
    assert a[..11] == "--add-host=" && a[11..] == v;
  }

  // ---- one head, form by form ----

  lemma AddNothing(r: Result<Output>)
    ensures Add(NOTHING, r) == r
  {
    if r.Ok? {
      assert [] + r.value.nerdctl == r.value.nerdctl && [] + r.value.cmd == r.value.cmd;
      assert [] + r.value.envs == r.value.envs && [] + r.value.fileEnvs == r.value.fileEnvs;
    }
  }

  lemma ScanOne(c: Config, a: string, rest: seq<string>, s: Step)
    requires ValidConfig(c) && Turn(c, InOptions, [a] + rest) == Ok(s)
    ensures Scan(c, InOptions, [a] + rest) == Add(s.out, Scan(c, s.mode, s.rest))
  {
  }

  lemma ScanSkipped(c: Config, v: string, rest: seq<string>)
    requires ValidConfig(c) && Quiet(c, v)
    ensures Scan(c, Skipping, [v] + rest) == Scan(c, InOptions, rest)
  {
    assert ([v] + rest)[1..] == rest;
    AddNothing(Scan(c, InOptions, rest));
  }

  lemma {:induction false} PlainItems(c: Config, items: seq<Item>)
    requires forall i :: i in items ==> IsOption(i)
    ensures Options(items) == items
    ensures FlagEntries(c.host, items) == [] && FileEntries(c.host, items) == []
  {
    if items != [] {
      PlainItem(c.host, items[0]);
      PlainItems(c, items[1..]);
      assert items == [items[0]] + items[1..];
    }
  }

  lemma PlainItem(h: Host, i: Item)
    requires IsOption(i)
    ensures FlagEntry(h, i) == [] && FileEntry(h, i) == []
  {
  }

  lemma PassedThrough(c: Config, a: string, rest: seq<string>, x: seq<string>)
    requires ValidConfig(c) && !Fires(c, a) && Lex(c.tables, a) != Stop && Closed(c.tables, a)
    requires OptionStep(c, [a] + rest) == Ok(Step(Args([a]), InOptions, rest))
    requires forall i :: i in Items(c.tables, a) ==> IsOption(i) && Forwards(c, i, i)
    ensures Faithful(c, [a] + rest, Args([a]), Items(c.tables, a), x)
  {
    ScanOne(c, a, rest, Step(Args([a]), InOptions, rest));
    assert ([a] + rest)[1..] == rest;
    ClosedReads(c.tables, a, rest);
    ClosedReads(c.tables, a, x);
    PlainItems(c, Items(c.tables, a));
  }

  lemma OrdinaryLongIsOption(c: Config, i: Item)
    requires OrdinaryLong(i.name)
    ensures IsOption(i) && i.name != "--add-host" && (i.name != "--mount" ==> Forwards(c, i, i))
  {
    assert "--env" <= "--env" && "--env" <= "--env-file" && "--add-host" <= "--add-host";
  }

  lemma LongBoolLexes(t: Tables, a: string)
    requires ValidTables(t) && |a| > 1 && a[0] == '-' && a[1] == '-' && Before(a, '=') in t.longBool
    ensures Lex(t, a) == Whole(Before(a, '='), if '=' in a then Some(After(a, '=')) else None)
    ensures PlainLong(Before(a, '='))
  {
    assert '=' !in a ==> Before(a, '=') == a;
  }

  lemma LongBoolHead(c: Config, a: string, rest: seq<string>, x: seq<string>)
    requires ValidConfig(c) && |a| > 1 && a[0] == '-' && a[1] == '-' && Before(a, '=') in c.tables.longBool
    ensures Lex(c.tables, a).Whole? && Faithful(c, [a] + rest, Args([a]), Items(c.tables, a), x)
  {
    LongBoolLexes(c.tables, a);
    var i := Item(Before(a, '='), Lex(c.tables, a).value);
    OrdinaryLongIsOption(c, i);
    TurnLongBool(c, a, rest);
    assert Items(c.tables, a) == [i];
    PassedThrough(c, a, rest, x);
  }

  lemma HelpHead(c: Config, rest: seq<string>, x: seq<string>)
    requires ValidConfig(c)
    ensures Lex(c.tables, "--help").Whole?
    ensures Faithful(c, ["--help"] + rest, Args(["--help"]), Items(c.tables, "--help"), x)
  {
    TurnHelp(c, rest);
    assert '=' !in "--help";
    PassedThrough(c, "--help", rest, x);
  }

  lemma DebugHead(c: Config, rest: seq<string>, x: seq<string>)
    requires ValidConfig(c)
    ensures Lex(c.tables, "--debug").Whole?
    ensures Faithful(c, ["--debug"] + rest, NOTHING, [], x)
  {
    TurnDebug(c, rest);
    assert '=' !in "--debug";
    ScanOne(c, "--debug", rest, Step(NOTHING, InOptions, rest));
    assert (["--debug"] + rest)[1..] == rest;
    ClosedReads(c.tables, "--debug", rest);
    assert [] + x == x;
    assert Cons([], Read(c.tables, x)) == Read(c.tables, x) by {
      if Read(c.tables, x).Some? {
        assert [] + Read(c.tables, x).value.items == Read(c.tables, x).value.items;
      }
    }
  }

  lemma ShortBoolHead(c: Config, a: string, rest: seq<string>, x: seq<string>)
    requires ValidConfig(c) && |a| == 2 && ShortIn(a, c.tables.shortBool)
    ensures Lex(c.tables, a).Whole? && Faithful(c, [a] + rest, Args([a]), Items(c.tables, a), x)
  {
    TurnShortBool(c, a, rest);
    assert a != "-e" by { assert a[1] != 'e'; }
    PassedThrough(c, a, rest, x);
  }

  lemma ResolveKeepsColon(v: string)
    requires ':' in v
    ensures ResolveIP(v).Ok? && ':' in ResolveIP(v).value
    ensures ResolveIP(ResolveIP(v).value) == ResolveIP(v)
  {
    if After(v, ':') == "host-gateway" {
      var ip := "192.168.5.2";
      CutGlued(Before(v, ':'), ':', ip);
      assert ResolveIP(v).value == Before(v, ':') + [':'] + ip;
    }
  }

  lemma AddHostHead(c: Config, v: string, rest: seq<string>, x: seq<string>)
    requires ValidConfig(c) && ':' in v
    ensures Lex(c.tables, "--add-host=" + v) == Whole("--add-host", Some(v))
    ensures Faithful(c, ["--add-host=" + v] + rest, Args(["--add-host=" + Resolved(v)]),
                     [Item("--add-host", Some(Resolved(v)))], x)
  {
    ResolveKeepsColon(v);
    TurnAddHost(c, v, rest);
    AddHostLexes(c.tables, v);
    AddHostLexes(c.tables, Resolved(v));
    var a := "--add-host=" + v;
    ScanOne(c, a, rest, Step(Args(["--add-host=" + Resolved(v)]), InOptions, rest));
    assert ([a] + rest)[1..] == rest;
    ClosedReads(c.tables, a, rest);
    ClosedReads(c.tables, "--add-host=" + Resolved(v), x);
    assert IsOption(Item("--add-host", Some(v)));
    PlainItems(c, Items(c.tables, a));
  }

  lemma AddHostLexes(t: Tables, v: string)
    ensures Lex(t, "--add-host=" + v) == Whole("--add-host", Some(v))
  {
    var a := "--add-host=" + v;
    assert a == "--add-host" + ['='] + v;
    CutGlued("--add-host", '=', v);
    assert a[10] == '=' && a[1] == '-';
  }

  /** A step that took one whole token, with the effect `out` on the output. */
  lemma TookToken(c: Config, a: string, rest: seq<string>, out: Output, kept: seq<Item>, x: seq<string>)
    requires ValidConfig(c) && Lex(c.tables, a).Whole?
    requires Turn(c, InOptions, [a] + rest) == Ok(Step(out, InOptions, rest))
    requires Read(c.tables, out.nerdctl + x) == Cons(kept, Read(c.tables, x))
    requires Forwarded(c, Options(Items(c.tables, a)), kept) && out.cmd == []
    requires out.envs == FlagEntries(c.host, Items(c.tables, a))
    requires out.fileEnvs == FileEntries(c.host, Items(c.tables, a))
    ensures Faithful(c, [a] + rest, out, kept, x)
  {
    ScanOne(c, a, rest, Step(out, InOptions, rest));
    assert ([a] + rest)[1..] == rest;
    ClosedReads(c.tables, a, rest);
  }

  /** A step that took a token and its value, which the handler may have turned into `w`, with the effect `out` on the
      output. */
  lemma TookPair(c: Config, a: string, v: string, w: string, rest: seq<string>, out: Output, kept: seq<Item>, x: seq<string>)
    requires ValidConfig(c) && Quiet(c, w) && Lex(c.tables, a).WithNext?
    requires Turn(c, InOptions, [a, v] + rest) == Ok(Step(out, Skipping, [w] + rest))
    requires Read(c.tables, out.nerdctl + x) == Cons(kept, Read(c.tables, x))
    requires Forwarded(c, Options([Item(Lex(c.tables, a).name, Some(v))]), kept) && out.cmd == []
    requires out.envs == FlagEntries(c.host, [Item(Lex(c.tables, a).name, Some(v))])
    requires out.fileEnvs == FileEntries(c.host, [Item(Lex(c.tables, a).name, Some(v))])
    ensures Faithful(c, [a, v] + rest, out, kept, x)
  {
    PairScans(c, a, v, w, rest, out);
    PairHead(c.tables, a, v, rest);
  }

  lemma PairScans(c: Config, a: string, v: string, w: string, rest: seq<string>, out: Output)
    requires ValidConfig(c) && Quiet(c, w)
    requires Turn(c, InOptions, [a, v] + rest) == Ok(Step(out, Skipping, [w] + rest))
    ensures Scan(c, InOptions, [a, v] + rest) == Add(out, Scan(c, InOptions, rest))
  {
    TurnScans(c, [a, v] + rest, Step(out, Skipping, [w] + rest));
    ScanSkipped(c, w, rest);
  }

  lemma TurnScans(c: Config, toks: seq<string>, s: Step)
    requires ValidConfig(c) && toks != [] && Turn(c, InOptions, toks) == Ok(s)
    ensures Scan(c, InOptions, toks) == Add(s.out, Scan(c, s.mode, s.rest))
  {
  }

  lemma PairHead(t: Tables, a: string, v: string, rest: seq<string>)
    requires Lex(t, a).WithNext?
    ensures var toks := [a, v] + rest;
            && toks[2..] == rest && Width(t, a) == 2
            && HeadItems(t, toks) == [Item(Lex(t, a).name, Some(v))]
            && Read(t, toks) == Cons(HeadItems(t, toks), Read(t, rest))
  {
  }

  lemma NoItems(c: Config, x: seq<string>)
    ensures Read(c.tables, NOTHING.nerdctl + x) == Cons([], Read(c.tables, x))
  {
    assert NOTHING.nerdctl + x == x;
    ConsNothing(Read(c.tables, x));
  }

  lemma ConsNothing(r: Option<Reading>)
    ensures Cons([], r) == r
  {
    if r.Some? {
      assert [] + r.value.items == r.value.items;
    }
  }

  lemma OneFlagEntry(h: Host, i: Item)
    ensures FlagEntries(h, [i]) == FlagEntry(h, i) && FileEntries(h, [i]) == FileEntry(h, i)
    ensures Options([i]) == if IsOption(i) then [i] else []
  {
    assert FlagEntry(h, i) + [] == FlagEntry(h, i) && FileEntry(h, i) + [] == FileEntry(h, i);
  }

  lemma EnvFileLexes(t: Tables, a: string, name: string)
    requires ValidTables(t) && (a == "--env-file" || a == "--env-file=" + name)
    ensures Lex(t, a) == if a == "--env-file" then WithNext(a) else Whole("--env-file", Some(name))
  {
    if a == "--env-file" {
      assert '=' !in a && "--env" <= a;
      assert a in t.longBool ==> PlainLong(a);
    } else {
      assert a == "--env-file" + ['='] + name;
      CutGlued("--env-file", '=', name);
      assert a[10] == '=';
    }
  }

  /** `--env-file` and the file in the next token. */
  lemma EnvFilePairHead(c: Config, a: string, name: string, rest: seq<string>, x: seq<string>)
    requires ValidConfig(c) && a == "--env-file" && Quiet(c, name) && Readable(c.host, Item(a, Some(name)))
    ensures Lex(c.tables, a) == WithNext(a)
    ensures Faithful(c, [a, name] + rest, NOTHING.(fileEnvs := FileEntry(c.host, Item(a, Some(name)))), [], x)
  {
    var item := Item(a, Some(name));
    EnvFileLexes(c.tables, a, name);
    EnvFileTurn(c, a, name, rest, name, item);
    EnvFileItemAlone(c.host, item);
    NoItems(c, x);
    TookPair(c, a, name, name, rest, NOTHING.(fileEnvs := FileEntry(c.host, item)), [], x);
  }

  /** `--env-file=` and the file in one token. */
  lemma EnvFileTokenHead(c: Config, a: string, name: string, rest: seq<string>, x: seq<string>)
    requires ValidConfig(c) && a == "--env-file=" + name && rest != [] && Readable(c.host, Item("--env-file", Some(name)))
    ensures Lex(c.tables, a) == Whole("--env-file", Some(name))
    ensures Faithful(c, [a] + rest, NOTHING.(fileEnvs := FileEntry(c.host, Item("--env-file", Some(name)))), [], x)
  {
    var item := Item("--env-file", Some(name));
    assert a[10] == '=' && a != "--env-file";
    EnvFileLexes(c.tables, a, name);
    EnvFileTokenTurn(c, a, name, rest, item);
    EnvFileItemAlone(c.host, item);
    NoItems(c, x);
    TookToken(c, a, rest, NOTHING.(fileEnvs := FileEntry(c.host, item)), [], x);
  }

  lemma EnvFileTokenTurn(c: Config, a: string, name: string, rest: seq<string>, item: Item)
    requires ValidConfig(c) && a == "--env-file=" + name && rest != [] && item == Item("--env-file", Some(name))
    requires Readable(c.host, item) && a != "--env-file"
    ensures Turn(c, InOptions, [a] + rest) == Ok(Step(NOTHING.(fileEnvs := FileEntry(c.host, item)), InOptions, rest))
  {
    EnvFileTurn(c, a, rest[0], rest[1..], name, item);
    HeadAndRest(a, rest);
    assert [rest[0]] + rest[1..] == rest;
  }

  lemma EnvFileTurn(c: Config, a: string, next: string, rest: seq<string>, name: string, item: Item)
    requires ValidConfig(c) && EnvFileForm(a, next, name) && item == Item("--env-file", Some(name))
    requires Readable(c.host, item)
    ensures Turn(c, InOptions, [a, next] + rest)
            == Ok(Step(NOTHING.(fileEnvs := FileEntry(c.host, item)), ModeAfter(a == "--env-file"), [next] + rest))
  {
    TurnEnvFile(c, a, next, rest, name);
  }

  lemma EnvFileItemAlone(h: Host, i: Item)
    requires NamesEnvFile(i)
    ensures Options([i]) == [] && FlagEntries(h, [i]) == [] && FileEntries(h, [i]) == FileEntry(h, i)
  {
    OneFlagEntry(h, i);
    assert |i.name| == 10;
  }

  lemma EnvLexes(t: Tables, a: string, next: string, v: string)
    requires ValidTables(t) && EnvForm(a, next, v)
    ensures Lex(t, a) == if a == "-e" || a == "--env" then WithNext(a)
                         else Whole(if a[1] == 'e' then "-e" else "--env", Some(v))
  {
    if a[1] == 'e' {
      assert a != "-e" ==> a[2..] == v && a[..2] == "-e";
    } else if a == "--env" {
      assert '=' !in a;
      assert a in t.longBool ==> PlainLong(a);
    } else {
      assert a == "--env" + ['='] + v && a[5] == '=';
      CutGlued("--env", '=', v);
    }
  }

  lemma EnvPairHead(c: Config, a: string, v: string, rest: seq<string>, x: seq<string>)
    requires ValidConfig(c) && (a == "-e" || a == "--env") && Quiet(c, v)
    ensures Lex(c.tables, a) == WithNext(a)
    ensures Faithful(c, [a, v] + rest, NOTHING.(envs := EnvEntry(c.host, v)), [], x)
  {
    EnvLexes(c.tables, a, v, v);
    TurnEnv(c, a, v, rest, v);
    OneFlagEntry(c.host, Item(a, Some(v)));
    NoItems(c, x);
    TookPair(c, a, v, v, rest, NOTHING.(envs := EnvEntry(c.host, v)), [], x);
  }

  lemma EnvTokenHead(c: Config, a: string, rest: seq<string>, v: string, x: seq<string>)
    requires ValidConfig(c) && rest != [] && a != "-e" && a != "--env" && EnvForm(a, rest[0], v)
    ensures Lex(c.tables, a).Whole?
    ensures Faithful(c, [a] + rest, NOTHING.(envs := EnvEntry(c.host, v)), [], x)
  {
    EnvTurnDone(c, a, rest, v);
    EnvTokenItems(c, a, rest[0], v);
    NoItems(c, x);
    TookToken(c, a, rest, NOTHING.(envs := EnvEntry(c.host, v)), [], x);
  }

  lemma EnvTokenItems(c: Config, a: string, next: string, v: string)
    requires ValidConfig(c) && a != "-e" && a != "--env" && EnvForm(a, next, v)
    ensures Lex(c.tables, a).Whole?
    ensures Options(Items(c.tables, a)) == []
    ensures FlagEntries(c.host, Items(c.tables, a)) == EnvEntry(c.host, v) && FileEntries(c.host, Items(c.tables, a)) == []
  {
    EnvLexes(c.tables, a, next, v);
    EnvItemAlone(c, if a[1] == 'e' then "-e" else "--env", v);
  }

  lemma EnvTurnDone(c: Config, a: string, rest: seq<string>, v: string)
    requires ValidConfig(c) && rest != [] && a != "-e" && a != "--env" && EnvForm(a, rest[0], v)
    ensures Turn(c, InOptions, [a] + rest) == Ok(Step(NOTHING.(envs := EnvEntry(c.host, v)), InOptions, rest))
  {
    TurnEnv(c, a, rest[0], rest[1..], v);
    HeadAndRest(a, rest);
    assert [rest[0]] + rest[1..] == rest;
  }

  lemma EnvItemAlone(c: Config, n: string, v: string)
    requires n == "-e" || n == "--env"
    ensures var i := Item(n, Some(v));
            && Options([i]) == [] && FlagEntries(c.host, [i]) == EnvEntry(c.host, v) && FileEntries(c.host, [i]) == []
  {
    OneFlagEntry(c.host, Item(n, Some(v)));
  }

  // ---- options with a value ----

  /** A flag that takes the next token as its value. */
  predicate TakesNext(t: Tables, k: string) { Lex(t, k) == WithNext(k) }

  lemma PairReads(t: Tables, k: string, v: string, x: seq<string>)
    requires TakesNext(t, k)
    ensures Read(t, [k, v] + x) == Cons([Item(k, Some(v))], Read(t, x))
  {
    assert ([k, v] + x)[2..] == x;
  }

  /** A supported value option, separate from its value. */
  lemma SeparateHead(c: Config, k: string, v: string, rest: seq<string>, x: seq<string>)
    requires ValidConfig(c) && TakesNext(c.tables, k) && !Fires(c, k) && OkValue(v) && !Fires(c, v)
    requires '=' !in k && |k| > 1 && k[0] == '-' && (k[1] == '-' || |k| == 2)
    requires OptionStep(c, [k, v] + rest) == Ok(FlagStep(k, [v] + rest))
    requires IsOption(Item(k, Some(v))) && Forwards(c, Item(k, Some(v)), Item(k, Some(v)))
    ensures Faithful(c, [k, v] + rest, Args([k, v]), [Item(k, Some(v))], x)
  {
    assert HandleFlagArg(k, v) == (true, k, v);
    assert ([v] + rest)[0] == v;
    PairReads(c.tables, k, v, x);
    OneFlagEntry(c.host, Item(k, Some(v)));
    TookPair(c, k, v, v, rest, Args([k, v]), [Item(k, Some(v))], x);
  }

  /** A value option in one token: split in two unless it ends the line. */
  lemma AttachedHead(c: Config, a: string, k: string, v: string, rest: seq<string>, x: seq<string>)
    requires ValidConfig(c) && !Fires(c, a) && Lex(c.tables, a) == Whole(k, Some(v)) && TakesNext(c.tables, k)
    requires k != "" && OptionStep(c, [a] + rest) == Ok(FlagStep(a, rest))
    requires rest != [] ==> HandleFlagArg(a, rest[0]) == (false, k, v)
    requires IsOption(Item(k, Some(v))) && Forwards(c, Item(k, Some(v)), Item(k, Some(v)))
    ensures Faithful(c, [a] + rest, if rest == [] then Args([a]) else Args([k, v]), [Item(k, Some(v))], x)
  {
    var item := Item(k, Some(v));
    if rest == [] {
      PassedThrough(c, a, rest, x);
    } else {
      PairReads(c.tables, k, v, x);
      OneFlagEntry(c.host, item);
      TookToken(c, a, rest, Args([k, v]), [item], x);
    }
  }

  lemma ShortArgHead(c: Config, a: string, rest: seq<string>, x: seq<string>)
      returns (out: Output, kept: seq<Item>)
    requires ValidConfig(c) && ShortIn(a, c.tables.shortArg) && a[1] != 'e' && ShortArgOK(c, a, rest)
    ensures Lex(c.tables, a).Whole? || (Lex(c.tables, a).WithNext? && rest != [])
    ensures Faithful(c, [a] + rest, out, kept, x)
    ensures Shape(c, out.nerdctl, rest == [])
    ensures out.nerdctl == ShortArgs(a, rest) && (|out.nerdctl| == 1 ==> rest == [] && GluedToken(c, a))
    ensures |out.nerdctl| == 2 ==> ValueFlag(c, out.nerdctl[0]) && |out.nerdctl[0]| == 2
  {
    var k := a[..2];
    TurnShortArg(c, a, rest);
    ShortIsNotSpecial(a);
    ShortIsNotSpecial(k);
    assert Lex(c.tables, k) == WithNext(k);
    assert k != "-e" by { assert k[1] != 'e'; }
    if |a| == 2 {
      var v := rest[0];
      assert k == a && '=' !in a by { assert a[1] in c.tables.shortArg; }
      NumericIsNoFlag(c, v);
      assert [a] + rest == [k, v] + rest[1..];
      assert [v] + rest[1..] == rest;
      SeparateHead(c, k, v, rest[1..], x);
      out, kept := Args([k, v]), [Item(k, Some(v))];
    } else {
      var v := if a[2] == '=' then a[3..] else a[2..];
      assert a[1] != '=' && a[0] != '=';
      if a[2] == '=' {
        assert a == k + ['='] + v;
        CutGlued(k, '=', v);
      }
      AttachedHead(c, a, k, v, rest, x);
      out, kept := if rest == [] then Args([a]) else Args([k, v]), [Item(k, Some(v))];
    }
  }

  /** A token that can be a separate value never calls the mount handler. */
  lemma NumericIsNoFlag(c: Config, v: string)
    requires OkValue(v)
    ensures !Fires(c, v)
  {
    if "-" <= v && |v| > 1 {
      assert v[1] != '-';
      ShortIsNotSpecial(v);
    } else {
      assert Before(v, '=') <= v && |"--mount"| == 7;
    }
  }

  // ---- groups of short flags ----

  lemma ClosedGroupHead(c: Config, a: string, rest: seq<string>, x: seq<string>)
    requires ValidConfig(c) && |a| > 2 && ShortIn(a, c.tables.shortBool)
    requires GroupOK(c.tables, a, rest) && Closed(c.tables, a)
    ensures Scan(c, InOptions, [a] + rest) == Add(Args([a]), Scan(c, InOptions, rest))
    ensures Read(c.tables, [a] + x) == Cons(Items(c.tables, a), Read(c.tables, x))
    ensures Forwarded(c, Items(c.tables, a), Items(c.tables, a))
  {
    ShortNamesForward(c, Items(c.tables, a));
    GroupIsPassed(c, a, rest);
    ScanOne(c, a, rest, Step(Args([a]), InOptions, rest));
    ClosedReads(c.tables, a, x);
  }

  lemma GroupIsPassed(c: Config, a: string, rest: seq<string>)
    requires ValidConfig(c) && |a| > 2 && ShortIn(a, c.tables.shortBool) && !Splits(c.tables, a) && rest != []
    ensures OptionStep(c, [a] + rest) == Ok(Step(Args([a]), InOptions, rest)) && !Fires(c, a)
  {
    TurnGroup(c, a, rest[0], rest[1..]);
    assert [rest[0]] + rest[1..] == rest;
    assert [a, rest[0]] + rest[1..] == [a] + rest;
  }

  lemma ShortNamesForward(c: Config, items: seq<Item>)
    requires forall i :: i in items ==> |i.name| == 2
    ensures forall i :: i in items ==> Forwards(c, i, i)
  {
    assert |"--mount"| == 7 && |"--add-host"| == 10;
  }

  lemma OpenGroupShape(t: Tables, a: string, next: string)
    requires ValidTables(t) && |a| > 2 && ShortIn(a, t.shortBool) && OpenEnded(t, a)
    ensures Splits(t, a) && GroupHead(t, a) == a[..|a| - 1] && GroupNext(t, a, next) == ['-', a[|a| - 1]] + next
  {
    OpenEndedSplits(t, a, next);
    assert "-" + a[|a| - 1..] == ['-', a[|a| - 1]];
  }

  /** The flag that a group hands over to the next token, with that token. */
  lemma HandedOverVariable(c: Config, next: string, rest: seq<string>, x: seq<string>)
      returns (out: Output, kept: seq<Item>)
    requires ValidConfig(c) && next != "" && rest != [] && next[0] != '='
    ensures Lex(c.tables, "-e" + next) == Whole("-e", Some(next))
    ensures Faithful(c, ["-e" + next] + rest, out, kept, x) && out.nerdctl == []
  {
    var a := "-e" + next;
    GluedVariableForm(c.tables, a, rest[0], next);
    EnvTokenHead(c, a, rest, next, x);
    out, kept := NOTHING.(envs := EnvEntry(c.host, next)), [];
  }

  lemma GluedVariableForm(t: Tables, a: string, next: string, v: string)
    requires ValidTables(t) && a == "-e" + v && v != "" && v[0] != '='
    ensures EnvForm(a, next, v) && a != "-e" && a != "--env" && Lex(t, a) == Whole("-e", Some(v))
  {
    assert a[1] == 'e' && |a| > 2;
    EnvLexes(t, a, next, v);
  }

  lemma HandedOverHead(c: Config, f: char, next: string, rest: seq<string>, x: seq<string>)
      returns (out: Output, kept: seq<Item>)
    requires ValidConfig(c) && f in c.tables.shortArg && next != ""
    requires if f == 'e' then rest != [] && next[0] != '=' else '=' !in next
    ensures var a := ['-', f] + next;
            && Lex(c.tables, a) == Whole(['-', f], Some(next))
            && Faithful(c, [a] + rest, out, kept, x)
    ensures out.nerdctl == ShortArgs(['-', f] + next, rest)
    ensures |out.nerdctl| == 1 ==> rest == [] && GluedToken(c, ['-', f] + next)
    ensures |out.nerdctl| == 2 ==> ValueFlag(c, out.nerdctl[0]) && |out.nerdctl[0]| == 2
  {
    var a := ['-', f] + next;
    assert a[..2] == ['-', f] && a[2..] == next && a[2] == next[0];
    if f == 'e' {
      out, kept := HandedOverVariable(c, next, rest, x);
    } else {
      assert '=' !in a;
      out, kept := ShortArgHead(c, a, rest, x);
    }
  }

  lemma AddTwice(a: Output, b: Output, r: Result<Output>)
    ensures Add(a, Add(b, r)) == Add(a.Plus(b), r)
  {
    if r.Ok? {
      var o := r.value;
      assert a.nerdctl + (b.nerdctl + o.nerdctl) == a.nerdctl + b.nerdctl + o.nerdctl;
      assert a.envs + (b.envs + o.envs) == a.envs + b.envs + o.envs;
      assert a.fileEnvs + (b.fileEnvs + o.fileEnvs) == a.fileEnvs + b.fileEnvs + o.fileEnvs;
      assert a.cmd + (b.cmd + o.cmd) == a.cmd + b.cmd + o.cmd;
    }
  }

  /** Options, entries and forwarding, for items that are plain flags followed by others. */
  lemma PlainThenOthers(c: Config, flags: seq<Item>, items: seq<Item>, kept: seq<Item>)
    requires forall i :: i in flags ==> IsOption(i) && Forwards(c, i, i)
    requires Forwarded(c, Options(items), kept)
    ensures Forwarded(c, Options(flags + items), flags + kept)
    ensures FlagEntries(c.host, flags + items) == FlagEntries(c.host, items)
    ensures FileEntries(c.host, flags + items) == FileEntries(c.host, items)
  {
    PlainItems(c, flags);
    OptionsAppended(flags, items);
    FlagEntriesAppended(c.host, flags, items);
    FileEntriesAppended(c.host, flags, items);
    assert [] + FlagEntries(c.host, items) == FlagEntries(c.host, items);
    assert [] + FileEntries(c.host, items) == FileEntries(c.host, items);
  }

  lemma OpenGroupScan(c: Config, a: string, next: string, rest: seq<string>, out: Output)
    requires ValidConfig(c) && |a| > 2 && ShortIn(a, c.tables.shortBool) && OpenEnded(c.tables, a)
    requires Scan(c, InOptions, [['-', a[|a| - 1]] + next] + rest) == Add(out, Scan(c, InOptions, rest))
    ensures Scan(c, InOptions, [a, next] + rest) == Add(Args([a[..|a| - 1]]).Plus(out), Scan(c, InOptions, rest))
  {
    var head, given := a[..|a| - 1], ['-', a[|a| - 1]] + next;
    OpenGroupTurn(c, a, next, rest);
    TurnScans(c, [a, next] + rest, Step(Args([head]), InOptions, [given] + rest));
    AddTwice(Args([head]), out, Scan(c, InOptions, rest));
  }

  lemma OpenGroupTurn(c: Config, a: string, next: string, rest: seq<string>)
    requires ValidConfig(c) && |a| > 2 && ShortIn(a, c.tables.shortBool) && OpenEnded(c.tables, a)
    ensures Turn(c, InOptions, [a, next] + rest)
            == Ok(Step(Args([a[..|a| - 1]]), InOptions, [['-', a[|a| - 1]] + next] + rest))
  {
    OpenGroupShape(c.tables, a, next);
    TurnGroup(c, a, next, rest);
  }

  lemma OpenGroupReads(t: Tables, head: string, out: Output, kept: seq<Item>, x: seq<string>)
    requires Closed(t, head) && Read(t, out.nerdctl + x) == Cons(kept, Read(t, x))
    ensures Read(t, Args([head]).Plus(out).nerdctl + x) == Cons(Items(t, head) + kept, Read(t, x))
  {
    ClosedReads(t, head, out.nerdctl + x);
    Regrouped([head], out.nerdctl, x);
    ConsTwice(Items(t, head), kept, Read(t, x));
  }

  lemma GroupFlagsArePlain(c: Config, a: string, next: string)
    requires ValidConfig(c) && |a| > 2 && OpenEnded(c.tables, a)
    ensures Closed(c.tables, a[..|a| - 1])
    ensures forall i :: i in Items(c.tables, a[..|a| - 1]) ==> IsOption(i) && Forwards(c, i, i)
  {
    OpenEndedSplits(c.tables, a, next);
    forall i | i in Items(c.tables, a[..|a| - 1])
      ensures IsOption(i) && Forwards(c, i, i)
    {
      assert |"--debug"| == 7;
    }
  }

  lemma GroupHeadShape(c: Config, a: string, next: string, out: Output, atEnd: bool)
    requires ValidConfig(c) && |a| > 2 && OpenEnded(c.tables, a)
    requires |out.nerdctl| <= 2 && (|out.nerdctl| == 1 ==> atEnd && GluedToken(c, out.nerdctl[0]))
    requires |out.nerdctl| == 2 ==> ValueFlag(c, out.nerdctl[0]) && |out.nerdctl[0]| == 2
    ensures Shape(c, Args([a[..|a| - 1]]).Plus(out).nerdctl, atEnd)
  {
    OpenEndedSplits(c.tables, a, next);
    var head := a[..|a| - 1];
    assert head[0] == '-' && head[1] in c.tables.shortBool;
    assert head[|head| - 1] == a[|a| - 2];
    assert OneToken(c, head);
    assert [head] + [] == [head];
  }

  lemma OpenGroupFaithful(c: Config, a: string, next: string, rest: seq<string>, x: seq<string>,
                          head: string, item: Item, out: Output, kept: seq<Item>)
    requires ValidConfig(c) && |a| > 2 && ShortIn(a, c.tables.shortBool) && head == a[..|a| - 1]
    requires OpenEnded(c.tables, a) && !Closed(c.tables, a) && Closed(c.tables, head)
    requires item == Item(['-', a[|a| - 1]], Some(next)) && Forwarded(c, Options([item]), kept)
    requires Scan(c, InOptions, [['-', a[|a| - 1]] + next] + rest) == Add(out, Scan(c, InOptions, rest))
    requires Read(c.tables, out.nerdctl + x) == Cons(kept, Read(c.tables, x)) && out.cmd == []
    requires out.envs == FlagEntries(c.host, [item]) && out.fileEnvs == FileEntries(c.host, [item])
    ensures Faithful(c, [a, next] + rest, Args([head]).Plus(out), Items(c.tables, head) + kept, x)
  {
    assert ([a, next] + rest)[2..] == rest;
    OpenGroupScan(c, a, next, rest, out);
    OpenEndedReads(c.tables, a, next, rest);
    OpenGroupReads(c.tables, head, out, kept, x);
    OpenGroupForwards(c, a, next, head, item, kept);
  }

  lemma OpenGroupForwards(c: Config, a: string, next: string, head: string, item: Item, kept: seq<Item>)
    requires ValidConfig(c) && |a| > 2 && OpenEnded(c.tables, a) && head == a[..|a| - 1] && Closed(c.tables, head)
    requires item == Item(['-', a[|a| - 1]], Some(next)) && Forwarded(c, Options([item]), kept)
    ensures var items := OpenItems(c.tables, a, next);
            && Forwarded(c, Options(items), Items(c.tables, head) + kept)
            && FlagEntries(c.host, items) == FlagEntries(c.host, [item])
            && FileEntries(c.host, items) == FileEntries(c.host, [item])
  {
    OpenEndedSplits(c.tables, a, next);
    GroupFlagsArePlain(c, a, next);
    PlainThenOthers(c, Items(c.tables, head), [item], kept);
  }

  lemma OpenGroupHead(c: Config, a: string, next: string, rest: seq<string>, x: seq<string>)
      returns (out: Output, kept: seq<Item>)
    requires ValidConfig(c) && |a| > 2 && ShortIn(a, c.tables.shortBool)
    requires GroupOK(c.tables, a, [next] + rest) && !Closed(c.tables, a)
    ensures Lex(c.tables, a).Grouped?
    ensures Faithful(c, [a, next] + rest, out, kept, x)
    ensures Shape(c, out.nerdctl, rest == [])
    ensures out.nerdctl == [a[..|a| - 1]] + ShortArgs(['-', a[|a| - 1]] + next, rest)
  {
    OpenEndedSplits(c.tables, a, next);
    var out1, kept1 := HandedOverHead(c, a[|a| - 1], next, rest, x);
    var item := Item(['-', a[|a| - 1]], Some(next));
    var given := [['-', a[|a| - 1]] + next] + rest;
    assert given[1..] == rest && HeadItems(c.tables, given) == [item];
    OpenGroupFaithful(c, a, next, rest, x, a[..|a| - 1], item, out1, kept1);
    GroupHeadShape(c, a, next, out1, rest == []);
    out, kept := Args([a[..|a| - 1]]).Plus(out1), Items(c.tables, a[..|a| - 1]) + kept1;
  }

  // ---- long flags with a value ----

  lemma LongLexes(t: Tables, n: string, v: string)
    requires OrdinaryLong(n) && n !in t.longBool
    ensures TakesNext(t, n) && Lex(t, n + "=" + v) == Whole(n, Some(v))
    ensures Before(n, '=') == n && Before(n + "=" + v, '=') == n && '=' in n + "=" + v
  {
    assert n + "=" + v == n + ['='] + v;
    CutGlued(n, '=', v);
    assert (n + "=" + v)[0] == '-' && (n + "=" + v)[1] == '-';
  }

  lemma LongSeparateHead(c: Config, n: string, v: string, rest: seq<string>, x: seq<string>)
    requires ValidConfig(c) && OrdinaryLong(n) && n !in c.tables.longBool && !Fires(c, n) && OkValue(v)
    ensures Lex(c.tables, n).WithNext? && Faithful(c, [n, v] + rest, Args([n, v]), [Item(n, Some(v))], x)
  {
    LongLexes(c.tables, n, v);
    TurnOrdinaryLong(c, n, [v] + rest);
    assert [n] + ([v] + rest) == [n, v] + rest;
    OrdinaryLongIsOption(c, Item(n, Some(v)));
    NumericIsNoFlag(c, v);
    SeparateHead(c, n, v, rest, x);
  }

  lemma LongAttachedHead(c: Config, n: string, v: string, rest: seq<string>, x: seq<string>)
    requires ValidConfig(c) && OrdinaryLong(n) && n !in c.tables.longBool && !Fires(c, n + "=" + v)
    ensures Lex(c.tables, n + "=" + v).Whole?
    ensures Faithful(c, [n + "=" + v] + rest, if rest == [] then Args([n + "=" + v]) else Args([n, v]),
                     [Item(n, Some(v))], x)
  {
    var a := n + "=" + v;
    LongLexes(c.tables, n, v);
    TurnOrdinaryLong(c, a, rest);
    OrdinaryLongIsOption(c, Item(n, Some(v)));
    assert a == n + ['='] + v;
    CutGlued(n, '=', v);
    assert a[0] == '-' && a[1] == '-' && "--" <= a;
    AttachedHead(c, a, n, v, rest, x);
  }

  lemma MountIsOrdinary(t: Tables)
    requires ValidTables(t)
    ensures OrdinaryLong("--mount") && "--mount" !in t.longBool
  {
    assert "--mount"[2] == 'm' && |"--mount"| == 7;
    assert "--mount" in t.longBool ==> PlainLong("--mount");
  }

  lemma NewValueIsSameMount(c: Config, n: nat, v: string)
    requires ValidConfig(c)
    ensures Mounts.SameMount(v, NewMountValue(c, n, v))
    ensures (if Mounts.IsBind(Mounts.Parse(v)) then MountOK(v) else OkValue(v)) ==> OkValue(NewMountValue(c, n, v))
  {
    var m := Mounts.Kept(Mounts.Parse(v));
    var ks := c.order(n, m.fields);
    assert Mounts.IsOrder(ks, m.fields);
    Mounts.RewritingKeepsMount(v, ks);
    if Mounts.IsBind(Mounts.Parse(v)) {
      assert "type" in m.fields && "type" in ks;
      PrintStartsWithKey(ks, m);
      assert ks[0] in m.fields;
    }
  }

  lemma PrintStartsWithKey(ks: seq<string>, m: Mounts.Mount)
    requires Mounts.IsOrder(ks, m.fields) && ks != []
    ensures ks[0] + "=" <= Mounts.Print(ks, m)
    ensures OkValue(Mounts.Print(ks, m)) <==> OkValue(ks[0] + "=")
  {
    var es := Mounts.Entries(ks, m.fields);
    var first := ks[0] + "=" + m.fields[ks[0]];
    assert es[0] == first && first <= Join(es, ',');
    assert Join(es, ',') <= Mounts.Print(ks, m);
    assert ks[0] + "=" <= first;
    SameStart(ks[0], Mounts.Print(ks, m));
  }

  /** Whether a value looks like one is decided by its first two characters. */
  lemma SameStart(k: string, s: string)
    requires k + "=" <= s
    ensures OkValue(s) <==> OkValue(k + "=")
  {
    var p := k + "=";
    assert s[0] == p[0] && (|p| > 1 ==> s[1] == p[1]);
    if |p| == 1 {
      assert p[0] == '=';
    }
  }

  lemma GluedMountHandled(c: Config, n: string, v: string, w: string, rest: seq<string>)
    requires ValidConfig(c) && c.handlesMount && n == "--mount" && w == NewMountValue(c, |rest| + 1, v)
    ensures Handled(c, [n + "=" + v] + rest) == Ok([n + "=" + w] + rest)
  {
    var a, b := n + "=" + v, n + "=" + w;
    assert a == n + ['='] + v && '=' !in n;
    CutGlued(n, '=', v);
    assert ([a] + rest)[0 := b] == [b] + rest;
  }

  lemma MountAttachedTurn(c: Config, v: string, w: string, rest: seq<string>)
    requires ValidConfig(c) && c.handlesMount && w == NewMountValue(c, |rest| + 1, v)
    ensures var out := if rest == [] then Args(["--mount=" + w]) else Args(["--mount", w]);
            Turn(c, InOptions, ["--mount=" + v] + rest) == Ok(Step(out, InOptions, rest))
  {
    var n := "--mount";
    MountToken(n, v);
    MountToken(n, w);
    GluedMountHandled(c, n, v, w, rest);
    GluedMountStep(c, n, w, rest);
  }

  lemma GluedMountStep(c: Config, n: string, w: string, rest: seq<string>)
    requires ValidConfig(c) && n == "--mount"
    ensures var out := if rest == [] then Args([n + "=" + w]) else Args([n, w]);
            OptionStep(c, [n + "=" + w] + rest) == Ok(Step(out, InOptions, rest))
  {
    var b := n + "=" + w;
    assert b == n + ['='] + w && '=' !in n;
    CutGlued(n, '=', w);
    MountIsOrdinary(c.tables);
    TurnOrdinaryLong(c, b, rest);
    assert "--" <= b;
  }

  lemma MountLexes(t: Tables, v: string)
    requires ValidTables(t)
    ensures TakesNext(t, "--mount") && Lex(t, "--mount=" + v) == Whole("--mount", Some(v))
    ensures forall h, w :: FlagEntries(h, [Item("--mount", Some(w))]) == FileEntries(h, [Item("--mount", Some(w))]) == []
    ensures forall w :: Options([Item("--mount", Some(w))]) == [Item("--mount", Some(w))]
  {
    MountIsOrdinary(t);
    LongLexes(t, "--mount", v);
    MountToken("--mount", v);
    MountItems();
  }

  lemma MountItems()
    ensures forall h, w :: FlagEntries(h, [Item("--mount", Some(w))]) == FileEntries(h, [Item("--mount", Some(w))]) == []
    ensures forall w :: Options([Item("--mount", Some(w))]) == [Item("--mount", Some(w))]
  {
    forall h, w
      ensures FlagEntries(h, [Item("--mount", Some(w))]) == FileEntries(h, [Item("--mount", Some(w))]) == []
      ensures Options([Item("--mount", Some(w))]) == [Item("--mount", Some(w))]
    {
      MountItemAlone(h, Item("--mount", Some(w)));
    }
  }

  lemma MountItemAlone(h: Host, i: Item)
    requires i.name == "--mount"
    ensures FlagEntries(h, [i]) == FileEntries(h, [i]) == [] && Options([i]) == [i]
  {
    OneFlagEntry(h, i);
    assert |i.name| == 7 && i.name[2] == 'm' && "--debug"[2] == 'd';
  }

  lemma MountAttachedHead(c: Config, v: string, rest: seq<string>, x: seq<string>)
      returns (out: Output, kept: seq<Item>)
    requires ValidConfig(c) && c.handlesMount
    ensures Lex(c.tables, "--mount=" + v).Whole?
    ensures Faithful(c, ["--mount=" + v] + rest, out, kept, x)
    ensures Shape(c, out.nerdctl, rest == [])
    ensures var w := NewMountValue(c, |rest| + 1, v);
            out.nerdctl == if rest == [] then ["--mount=" + w] else ["--mount", w]
  {
    var w := NewMountValue(c, |rest| + 1, v);
    NewValueIsSameMount(c, |rest| + 1, v);
    MountAttachedShape(c, w, rest);
    out := if rest == [] then Args(["--mount=" + w]) else Args(["--mount", w]);
    kept := [Item("--mount", Some(w))];
    MountAttachedFaithful(c, v, w, rest, out, x);
  }

  lemma MountAttachedShape(c: Config, w: string, rest: seq<string>)
    requires ValidConfig(c) && PrintedMount(c, w)
    ensures Shape(c, if rest == [] then ["--mount=" + w] else ["--mount", w], rest == [])
  {
    MountIsOrdinary(c.tables);
    PairShape(c, "--mount", w);
    GluedShape(c, "--mount", w);
    MountToken("--mount", w);
  }

  lemma MountAttachedReads(c: Config, w: string, out: Output, x: seq<string>)
    requires ValidConfig(c) && (out == Args(["--mount=" + w]) || out == Args(["--mount", w]))
    ensures Read(c.tables, out.nerdctl + x) == Cons([Item("--mount", Some(w))], Read(c.tables, x))
  {
    MountLexes(c.tables, w);
    if out == Args(["--mount=" + w]) {
      ClosedReads(c.tables, "--mount=" + w, x);
    } else {
      PairReads(c.tables, "--mount", w, x);
    }
  }

  lemma MountAttachedFaithful(c: Config, v: string, w: string, rest: seq<string>, out: Output, x: seq<string>)
    requires ValidConfig(c) && c.handlesMount && w == NewMountValue(c, |rest| + 1, v) && Mounts.SameMount(v, w)
    requires out == if rest == [] then Args(["--mount=" + w]) else Args(["--mount", w])
    ensures Lex(c.tables, "--mount=" + v).Whole?
    ensures Faithful(c, ["--mount=" + v] + rest, out, [Item("--mount", Some(w))], x)
  {
    MountAttachedTurn(c, v, w, rest);
    MountLexes(c.tables, v);
    MountAttachedReads(c, w, out, x);
    TookToken(c, "--mount=" + v, rest, out, [Item("--mount", Some(w))], x);
  }

  lemma MountSeparateTurn(c: Config, v: string, w: string, rest: seq<string>)
    requires ValidConfig(c) && c.handlesMount && w == NewMountValue(c, |rest| + 2, v) && OkValue(w)
    ensures Turn(c, InOptions, ["--mount", v] + rest) == Ok(Step(Args(["--mount", w]), Skipping, [w] + rest))
  {
    var n := "--mount";
    MountHandled(c, n, v, w, rest);
    MountIsOrdinary(c.tables);
    TurnOrdinaryLong(c, n, [w] + rest);
    LongTakesValue(n, w, rest);
    assert [n, w] + rest == [n] + ([w] + rest);
  }

  lemma LongTakesValue(n: string, w: string, rest: seq<string>)
    requires "--" <= n && '=' !in n && OkValue(w)
    ensures FlagStep(n, [w] + rest) == Step(Args([n, w]), Skipping, [w] + rest)
  {
    assert ([w] + rest)[0] == w;
  }

  lemma MountHandled(c: Config, n: string, v: string, w: string, rest: seq<string>)
    requires ValidConfig(c) && c.handlesMount && n == "--mount" && w == NewMountValue(c, |rest| + 2, v)
    ensures Before(n, '=') == n && '=' !in n && "--" <= n && Handled(c, [n, v] + rest) == Ok([n, w] + rest)
  {
    assert '=' !in n;
    assert Before(n, '=') == n;
    assert ([n, v] + rest)[1 := w] == [n, w] + rest;
  }

  lemma MountSeparateFaithful(c: Config, v: string, w: string, rest: seq<string>, x: seq<string>)
    requires ValidConfig(c) && c.handlesMount && w == NewMountValue(c, |rest| + 2, v) && OkValue(w)
    ensures Lex(c.tables, "--mount").WithNext?
    ensures Faithful(c, ["--mount", v] + rest, Args(["--mount", w]), [Item("--mount", Some(w))], x)
  {
    NewValueIsSameMount(c, |rest| + 2, v);
    MountSeparateTurn(c, v, w, rest);
    NumericIsNoFlag(c, w);
    MountTakesNext(c.tables);
    MountAttachedReads(c, w, Args(["--mount", w]), x);
    MountItemAlone(c.host, Item("--mount", Some(v)));
    MountForwarded(c, v, w);
    TookPair(c, "--mount", v, w, rest, Args(["--mount", w]), [Item("--mount", Some(w))], x);
  }

  lemma MountTakesNext(t: Tables)
    requires ValidTables(t)
    ensures TakesNext(t, "--mount")
  {
    MountIsOrdinary(t);
    LongLexes(t, "--mount", "");
  }

  lemma MountForwarded(c: Config, v: string, w: string)
    requires c.handlesMount && Mounts.SameMount(v, w)
    ensures Forwarded(c, [Item("--mount", Some(v))], [Item("--mount", Some(w))])
  {
    assert |"--mount"| == 7 && |"--add-host"| == 10;
  }

  lemma MountSeparateHead(c: Config, v: string, rest: seq<string>, x: seq<string>)
      returns (out: Output, kept: seq<Item>)
    requires ValidConfig(c) && c.handlesMount && SeparateOK(c, "--mount", v)
    ensures Lex(c.tables, "--mount").WithNext?
    ensures Faithful(c, ["--mount", v] + rest, out, kept, x)
    ensures Shape(c, out.nerdctl, false) && out.nerdctl == ["--mount", NewMountValue(c, |rest| + 2, v)]
  {
    var w := NewMountValue(c, |rest| + 2, v);
    NewValueIsSameMount(c, |rest| + 2, v);
    MountSeparateFaithful(c, v, w, rest, x);
    MountIsOrdinary(c.tables);
    PairShape(c, "--mount", w);
    out, kept := Args(["--mount", w]), [Item("--mount", Some(w))];
  }

  // ---- any head ----

  lemma TokenForm(a: string)
    ensures a == if '=' in a then Before(a, '=') + "=" + After(a, '=') else Before(a, '=')
  {
    if '=' in a {
      CutRejoins(a, '=');
    }
  }

  lemma OrdinaryAttachedHead(c: Config, n: string, v: string, rest: seq<string>, x: seq<string>)
      returns (out: Output, kept: seq<Item>)
    requires ValidConfig(c) && OrdinaryLong(n) && n !in c.tables.longBool
    ensures Lex(c.tables, n + "=" + v).Whole? && Faithful(c, [n + "=" + v] + rest, out, kept, x)
    ensures Shape(c, out.nerdctl, rest == [])
    ensures var w := PassedValue(c, n, |rest| + 1, v); out.nerdctl == if rest == [] then [n + "=" + w] else [n, w]
  {
    if c.handlesMount && n == "--mount" {
      out, kept := HandledMountHead(c, n, v, rest, x);
    } else {
      out, kept := UnhandledHead(c, n, v, rest, x);
    }
  }

  lemma HandledMountHead(c: Config, n: string, v: string, rest: seq<string>, x: seq<string>)
      returns (out: Output, kept: seq<Item>)
    requires ValidConfig(c) && c.handlesMount && n == "--mount"
    ensures Lex(c.tables, n + "=" + v).Whole? && Faithful(c, [n + "=" + v] + rest, out, kept, x)
    ensures Shape(c, out.nerdctl, rest == [])
    ensures var w := PassedValue(c, n, |rest| + 1, v); out.nerdctl == if rest == [] then [n + "=" + w] else [n, w]
  {
    MountToken(n, v);
    MountLexes(c.tables, v);
    out, kept := MountAttachedHead(c, v, rest, x);
    MountToken(n, PassedValue(c, n, |rest| + 1, v));
  }

  lemma UnhandledHead(c: Config, n: string, v: string, rest: seq<string>, x: seq<string>)
      returns (out: Output, kept: seq<Item>)
    requires ValidConfig(c) && OrdinaryLong(n) && n !in c.tables.longBool && !(c.handlesMount && n == "--mount")
    ensures Lex(c.tables, n + "=" + v).Whole? && Faithful(c, [n + "=" + v] + rest, out, kept, x)
    ensures Shape(c, out.nerdctl, rest == [])
    ensures var w := PassedValue(c, n, |rest| + 1, v); out.nerdctl == if rest == [] then [n + "=" + w] else [n, w]
  {
    LongLexes(c.tables, n, v);
    out, kept := if rest == [] then Args([n + "=" + v]) else Args([n, v]), [Item(n, Some(v))];
    LongAttachedHead(c, n, v, rest, x);
    GluedShape(c, n, v);
  }

  lemma MountToken(n: string, v: string)
    requires n == "--mount"
    ensures n + "=" + v == "--mount=" + v
  {
  }

  lemma OrdinarySeparateHead(c: Config, n: string, v: string, rest: seq<string>, x: seq<string>)
      returns (out: Output, kept: seq<Item>)
    requires ValidConfig(c) && OrdinaryLong(n) && n !in c.tables.longBool
    requires SeparateOK(c, n, v)
    ensures Lex(c.tables, n).WithNext? && Faithful(c, [n, v] + rest, out, kept, x)
    ensures Shape(c, out.nerdctl, false) && out.nerdctl == [n, PassedValue(c, n, |rest| + 2, v)]
  {
    LongLexes(c.tables, n, v);
    if c.handlesMount && n == "--mount" {
      out, kept := MountSeparateHead(c, v, rest, x);
    } else {
      LongSeparateHead(c, n, v, rest, x);
      out, kept := Args([n, v]), [Item(n, Some(v))];
    }
  }

  lemma EnvAttachedHead(c: Config, n: string, v: string, rest: seq<string>, x: seq<string>)
      returns (out: Output, kept: seq<Item>)
    requires ValidConfig(c) && (n == "--env" || n == "--env-file") && rest != []
    requires n == "--env-file" ==> Readable(c.host, Item(n, Some(v)))
    ensures Lex(c.tables, n + "=" + v).Whole? && Faithful(c, [n + "=" + v] + rest, out, kept, x)
    ensures out.nerdctl == []
  {
    if n == "--env" {
      assert n + "=" + v == "--env=" + v;
      assert (n + "=" + v)[5] == '=';
      EnvTokenHead(c, n + "=" + v, rest, v, x);
      out, kept := NOTHING.(envs := EnvEntry(c.host, v)), [];
    } else {
      assert n + "=" + v == "--env-file=" + v;
      EnvFileTokenHead(c, n + "=" + v, v, rest, x);
      out, kept := NOTHING.(fileEnvs := FileEntry(c.host, Item("--env-file", Some(v)))), [];
    }
  }

  lemma EnvSeparateHead(c: Config, n: string, v: string, rest: seq<string>, x: seq<string>)
      returns (out: Output, kept: seq<Item>)
    requires ValidConfig(c) && (n == "--env" || n == "--env-file") && Quiet(c, v)
    requires n == "--env-file" ==> Readable(c.host, Item(n, Some(v)))
    ensures Lex(c.tables, n).WithNext? && Faithful(c, [n, v] + rest, out, kept, x)
    ensures out.nerdctl == []
  {
    if n == "--env" {
      EnvPairHead(c, n, v, rest, x);
      out, kept := NOTHING.(envs := EnvEntry(c.host, v)), [];
    } else {
      EnvFilePairHead(c, n, v, rest, x);
      out, kept := NOTHING.(fileEnvs := FileEntry(c.host, Item("--env-file", Some(v)))), [];
    }
  }

  /** The value an option token or the token after it gives to the flag `n`. */
  function ValueAt(a: string, rest: seq<string>): string
    requires '=' in a || rest != []
  {
    if '=' in a then After(a, '=') else rest[0]
  }

  lemma LongEnvHead(c: Config, a: string, rest: seq<string>, x: seq<string>)
      returns (out: Output, kept: seq<Item>)
    requires ValidConfig(c) && rest != [] && ('=' in a || Quiet(c, rest[0]))
    requires Before(a, '=') == "--env" || Before(a, '=') == "--env-file"
    requires Before(a, '=') == "--env-file" ==> Readable(c.host, Item("--env-file", Some(ValueAt(a, rest))))
    ensures Lex(c.tables, a).Whole? || Lex(c.tables, a).WithNext?
    ensures Faithful(c, [a] + rest, out, kept, x)
    ensures out.nerdctl == []
  {
    var n, v := Before(a, '='), ValueAt(a, rest);
    TokenForm(a);
    if '=' in a {
      out, kept := EnvAttachedHead(c, n, v, rest, x);
    } else {
      HeadAndRest(a, rest);
      out, kept := EnvSeparateHead(c, n, v, rest[1..], x);
    }
  }

  lemma LongValueHead(c: Config, a: string, rest: seq<string>, x: seq<string>)
      returns (out: Output, kept: seq<Item>)
    requires ValidConfig(c) && OrdinaryLong(Before(a, '=')) && Before(a, '=') !in c.tables.longBool
    requires '=' in a || (rest != [] && SeparateOK(c, a, rest[0]))
    ensures Lex(c.tables, a).Whole? || (Lex(c.tables, a).WithNext? && rest != [])
    ensures Faithful(c, [a] + rest, out, kept, x)
    ensures Shape(c, out.nerdctl, rest == []) && out.nerdctl == LongArgs(c, a, rest)
  {
    TokenForm(a);
    if '=' in a {
      out, kept := LongGluedHead(c, a, Before(a, '='), After(a, '='), rest, x);
    } else {
      HeadAndRest(a, rest);
      out, kept := OrdinarySeparateHead(c, a, rest[0], rest[1..], x);
      LongArgsOfValue(c, a, rest);
    }
  }

  lemma HeadAndRest(a: string, rest: seq<string>)
    requires rest != []
    ensures [a, rest[0]] + rest[1..] == [a] + rest && |rest[1..]| + 2 == |rest| + 1
  {
  }

  lemma LongGluedHead(c: Config, a: string, n: string, v: string, rest: seq<string>, x: seq<string>)
      returns (out: Output, kept: seq<Item>)
    requires ValidConfig(c) && OrdinaryLong(n) && n !in c.tables.longBool
    requires a == n + "=" + v && n == Before(a, '=') && v == After(a, '=') && '=' in a
    ensures Lex(c.tables, a).Whole? && Faithful(c, [a] + rest, out, kept, x)
    ensures Shape(c, out.nerdctl, rest == []) && out.nerdctl == LongArgs(c, a, rest)
  {
    LongArgsOfValue(c, a, rest);
    out, kept := OrdinaryAttachedHead(c, n, v, rest, x);
  }

  lemma LongArgsOfValue(c: Config, a: string, rest: seq<string>)
    requires ValidConfig(c) && OrdinaryLong(Before(a, '=')) && Before(a, '=') !in c.tables.longBool
    requires '=' in a || rest != []
    ensures var n, w := Before(a, '='), PassedValue(c, Before(a, '='), |rest| + 1, ValueAt(a, rest));
            LongArgs(c, a, rest) == if '=' in a && rest == [] then [n + "=" + w] else [n, w]
  {
  }

  lemma LongAddHostHead(c: Config, a: string, rest: seq<string>, x: seq<string>)
      returns (out: Output, kept: seq<Item>)
    requires ValidConfig(c) && '=' in a && Before(a, '=') == "--add-host" && ':' in After(a, '=')
    ensures Lex(c.tables, a).Whole? && Faithful(c, [a] + rest, out, kept, x)
    ensures Shape(c, out.nerdctl, false) && out.nerdctl == ["--add-host=" + Resolved(After(a, '='))]
  {
    var v := After(a, '=');
    TokenForm(a);
    assert a == "--add-host=" + v;
    AddHostHead(c, v, rest, x);
    ResolvedShape(c, v);
    out, kept := Args(["--add-host=" + Resolved(v)]), [Item("--add-host", Some(Resolved(v)))];
  }

  lemma FixedLongHead(c: Config, a: string, rest: seq<string>, x: seq<string>)
      returns (out: Output, kept: seq<Item>)
    requires ValidConfig(c) && |a| > 1 && a[0] == '-' && a[1] == '-'
    requires Before(a, '=') in c.tables.longBool || a == "--help" || a == "--debug"
    ensures Lex(c.tables, a).Whole? && Faithful(c, [a] + rest, out, kept, x)
    ensures Shape(c, out.nerdctl, false) && out.nerdctl == LongArgs(c, a, rest)
  {
    if Before(a, '=') in c.tables.longBool {
      LongBoolHead(c, a, rest, x);
      out, kept := Args([a]), Items(c.tables, a);
    } else if a == "--help" {
      HelpHead(c, rest, x);
      out, kept := Args([a]), Items(c.tables, a);
    } else {
      DebugHead(c, rest, x);
      out, kept := NOTHING, [];
    }
    FixedLongArgs(c, a, rest);
  }

  lemma FixedLongArgs(c: Config, a: string, rest: seq<string>)
    requires ValidConfig(c) && (Before(a, '=') in c.tables.longBool || a == "--help" || a == "--debug")
    ensures LongArgs(c, a, rest) == if Before(a, '=') !in c.tables.longBool && a == "--debug" then [] else [a]
  {
    if Before(a, '=') !in c.tables.longBool {
      assert '=' !in a;
      assert Before(a, '=') == a && |"--help"| == 6 && |"--debug"| == 7;
    }
  }

  lemma SpecialLongArgs(c: Config, a: string, rest: seq<string>)
    requires ValidConfig(c)
    ensures Before(a, '=') == "--add-host" ==> LongArgs(c, a, rest) == ["--add-host=" + Resolved(After(a, '='))]
    ensures Before(a, '=') == "--env" || Before(a, '=') == "--env-file" ==> LongArgs(c, a, rest) == []
  {
    var n := Before(a, '=');
    if n == "--add-host" || n == "--env" || n == "--env-file" {
      assert n in c.tables.longBool ==> PlainLong(n);
      assert "--env" <= "--env" && "--env" <= "--env-file" && "--add-host" <= "--add-host";
      assert n[2] != 'h' && n[2] != 'd';
    }
  }

  /** `--add-host`, `--env` and `--env-file`. */
  lemma SpecialLongHead(c: Config, a: string, rest: seq<string>, x: seq<string>)
      returns (out: Output, kept: seq<Item>)
    requires ValidConfig(c) && |a| > 1 && a[0] == '-' && a[1] == '-'
    requires if Before(a, '=') == "--add-host" then '=' in a && ':' in After(a, '=')
             else (Before(a, '=') == "--env" || Before(a, '=') == "--env-file")
                  && rest != [] && ('=' in a || Quiet(c, rest[0]))
    requires Before(a, '=') == "--env-file" ==> Readable(c.host, Item("--env-file", Some(ValueAt(a, rest))))
    ensures Lex(c.tables, a).Whole? || (Lex(c.tables, a).WithNext? && rest != [])
    ensures Faithful(c, [a] + rest, out, kept, x)
    ensures Shape(c, out.nerdctl, false) && out.nerdctl == LongArgs(c, a, rest)
  {
    SpecialLongArgs(c, a, rest);
    if Before(a, '=') == "--add-host" {
      out, kept := LongAddHostHead(c, a, rest, x);
    } else {
      out, kept := LongEnvHead(c, a, rest, x);
    }
  }

  predicate FixedName(t: Tables, n: string) { n in t.longBool || n == "--help" || n == "--debug" }

  predicate SpecialName(n: string) { "--add-host" <= n || "--env" <= n }

  lemma FixedIsAlone(c: Config, a: string, rest: seq<string>)
    requires LongOK(c, a, rest) && FixedName(c.tables, Before(a, '='))
    ensures Before(a, '=') in c.tables.longBool || a == "--help" || a == "--debug"
  {
    TokenForm(a);
  }

  lemma SpecialHasValue(c: Config, a: string, rest: seq<string>)
    requires LongOK(c, a, rest) && !FixedName(c.tables, Before(a, '=')) && SpecialName(Before(a, '='))
    ensures if Before(a, '=') == "--add-host" then '=' in a && ':' in After(a, '=')
            else (Before(a, '=') == "--env" || Before(a, '=') == "--env-file")
                 && rest != [] && ('=' in a || Quiet(c, rest[0]))
  {
  }

  lemma OrdinaryHasValue(c: Config, a: string, rest: seq<string>)
    requires |a| > 1 && a[0] == '-' && a[1] == '-'
    requires LongOK(c, a, rest) && !FixedName(c.tables, Before(a, '=')) && !SpecialName(Before(a, '='))
    ensures OrdinaryLong(Before(a, '=')) && Before(a, '=') !in c.tables.longBool
    ensures '=' in a || (rest != [] && SeparateOK(c, a, rest[0]))
  {
    OrdinaryName(c, a, Before(a, '='));
  }

  lemma LongHeadIsFaithful(c: Config, a: string, rest: seq<string>, x: seq<string>)
      returns (out: Output, kept: seq<Item>)
    requires ValidConfig(c) && |a| > 1 && a[0] == '-' && a[1] == '-' && LongOK(c, a, rest)
    requires Before(a, '=') == "--env-file" && rest != [] ==> Readable(c.host, Item("--env-file", Some(ValueAt(a, rest))))
    ensures Lex(c.tables, a).Whole? || (Lex(c.tables, a).WithNext? && rest != [])
    ensures Faithful(c, [a] + rest, out, kept, x)
    ensures Shape(c, out.nerdctl, rest == []) && out.nerdctl == LongArgs(c, a, rest)
  {
    if FixedName(c.tables, Before(a, '=')) {
      FixedIsAlone(c, a, rest);
      out, kept := FixedLongHead(c, a, rest, x);
    } else if SpecialName(Before(a, '=')) {
      SpecialHasValue(c, a, rest);
      out, kept := SpecialLongHead(c, a, rest, x);
    } else {
      OrdinaryHasValue(c, a, rest);
      out, kept := LongValueHead(c, a, rest, x);
    }
  }

  lemma OrdinaryName(c: Config, a: string, n: string)
    requires |a| > 1 && a[0] == '-' && a[1] == '-' && n == Before(a, '=') && |n| > 2
    requires !("--add-host" <= n) && !("--env" <= n) && n != "--help" && n != "--debug"
    ensures OrdinaryLong(n)
  {
    NamesOf(a);
  }

  lemma ShortHeadIsFaithful(c: Config, a: string, rest: seq<string>, x: seq<string>)
      returns (out: Output, kept: seq<Item>)
    requires ValidConfig(c) && |a| > 1 && a[0] == '-' && a[1] != '-' && Lex(c.tables, a) != Stop
    requires HeadOK(c, a, rest) && |rest| + 1 >= Width(c.tables, a) && !IsGroup(c.tables, a)
    ensures Closed(c.tables, a) || OpenEnded(c.tables, a)
    ensures Faithful(c, [a] + rest, out, kept, x)
    ensures Shape(c, out.nerdctl, Width(c.tables, a) == |rest| + 1) && out.nerdctl == HeadArgs(c, a, rest)
  {
    if a[1] in c.tables.shortBool {
      if |a| == 2 {
        ShortBoolHead(c, a, rest, x);
        out, kept := Args([a]), Items(c.tables, a);
      } else {
        assert [rest[0]] + rest[1..] == rest && [a, rest[0]] + rest[1..] == [a] + rest;
        out, kept := OpenGroupHead(c, a, rest[0], rest[1..], x);
      }
    } else if a[1] == 'e' {
      out, kept := ShortVariableHead(c, a, rest, x);
    } else {
      out, kept := ShortArgHead(c, a, rest, x);
    }
  }

  lemma ShortVariableHead(c: Config, a: string, rest: seq<string>, x: seq<string>)
      returns (out: Output, kept: seq<Item>)
    requires ValidConfig(c) && |a| > 1 && a[0] == '-' && a[1] == 'e' && ShortArgOK(c, a, rest)
    ensures Lex(c.tables, a).Whole? || Lex(c.tables, a).WithNext?
    ensures Faithful(c, [a] + rest, out, kept, x) && out.nerdctl == []
  {
    var v := if |a| == 2 then rest[0] else a[2..];
    if |a| == 2 {
      assert a == "-e";
      HeadAndRest(a, rest);
      EnvPairHead(c, a, v, rest[1..], x);
    } else {
      assert a == "-e" + v;
      GluedVariableForm(c.tables, a, rest[0], v);
      EnvTokenHead(c, a, rest, v, x);
    }
    out, kept := NOTHING.(envs := EnvEntry(c.host, v)), [];
  }

  predicate AllReadable(h: Host, items: seq<Item>) { forall i :: i in items ==> Readable(h, i) }

  lemma EnvFileIsHeadItem(c: Config, a: string, rest: seq<string>)
    requires |a| > 1 && a[0] == '-' && a[1] == '-' && Before(a, '=') == "--env-file" && rest != [] && ValidTables(c.tables)
    ensures Lex(c.tables, a).Whole? || Lex(c.tables, a).WithNext?
    ensures HeadItems(c.tables, [a] + rest) == [Item("--env-file", Some(ValueAt(a, rest)))]
  {
    var v := ValueAt(a, rest);
    EnvFileTokenLexes(c.tables, a, rest, v);
    LexedItem(c.tables, [a] + rest, "--env-file", v);
  }

  /** A token that is one option, or that takes the next one, is one item. */
  lemma LexedItem(t: Tables, toks: seq<string>, n: string, v: string)
    requires toks != []
    requires Lex(t, toks[0]) == Whole(n, Some(v)) || (Lex(t, toks[0]) == WithNext(n) && |toks| > 1 && toks[1] == v)
    ensures HeadItems(t, toks) == [Item(n, Some(v))]
  {
  }

  lemma EnvFileTokenLexes(t: Tables, a: string, rest: seq<string>, v: string)
    requires ValidTables(t) && Before(a, '=') == "--env-file" && rest != [] && v == ValueAt(a, rest)
    ensures Lex(t, a) == if '=' in a then Whole("--env-file", Some(v)) else WithNext("--env-file")
  {
    TokenForm(a);
    assert a == if '=' in a then "--env-file=" + v else "--env-file";
    EnvFileLexes(t, a, v);
    assert '=' !in "--env-file";
  }

  /** What the scan adds for the head: its arguments, and the entries that it collects. */
  function HeadOut(c: Config, toks: seq<string>): Output
    requires ValidConfig(c) && HasHead(c.tables, toks) && |toks[0]| > 1
  {
    Output(HeadArgs(c, toks[0], toks[1..]), FlagEntries(c.host, HeadCollected(c.tables, toks)),
           FileEntries(c.host, HeadCollected(c.tables, toks)), [])
  }

  /** Scanning the head adds its output, whose arguments are read as `kept`: what the head passes on, forwarded. */
  ghost predicate Kept(c: Config, toks: seq<string>, kept: seq<Item>, x: seq<string>)
    requires ValidConfig(c) && HasHead(c.tables, toks) && |toks[0]| > 1
  {
    && Scan(c, InOptions, toks) == Add(HeadOut(c, toks), Scan(c, InOptions, toks[Width(c.tables, toks[0])..]))
    && Read(c.tables, HeadArgs(c, toks[0], toks[1..]) + x) == Cons(kept, Read(c.tables, x))
    && Forwarded(c, HeadPassed(c.tables, toks), kept)
  }

  lemma FaithfulIsKept(c: Config, toks: seq<string>, out: Output, kept: seq<Item>, x: seq<string>)
    requires ValidConfig(c) && HasHead(c.tables, toks) && Lex(c.tables, toks[0]) != Stop && |toks[0]| > 1
    requires !IsGroup(c.tables, toks[0]) && out.nerdctl == HeadArgs(c, toks[0], toks[1..])
    requires Faithful(c, toks, out, kept, x)
    ensures Kept(c, toks, kept, x)
  {
    assert out == HeadOut(c, toks);
  }

  lemma GroupIsKept(c: Config, toks: seq<string>, x: seq<string>)
    requires ValidConfig(c) && HasHead(c.tables, toks) && IsGroup(c.tables, toks[0])
    requires GroupOK(c.tables, toks[0], toks[1..])
    ensures Width(c.tables, toks[0]) == 1 && Kept(c, toks, Items(c.tables, toks[0]), x)
    ensures Shape(c, HeadArgs(c, toks[0], toks[1..]), false)
  {
    var a, rest := toks[0], toks[1..];
    assert [a] + rest == toks;
    ClosedGroupHead(c, a, rest, x);
    assert HeadOut(c, toks) == Args([a]);
  }

  /** Whatever supported option stands at the head, one scan step is faithful to it. */
  lemma HeadIsFaithful(c: Config, toks: seq<string>, x: seq<string>) returns (kept: seq<Item>)
    requires ValidConfig(c) && toks != [] && Lex(c.tables, toks[0]) != Stop && HeadOK(c, toks[0], toks[1..])
    requires Width(c.tables, toks[0]) <= |toks|
    requires HasHead(c.tables, toks) ==> AllReadable(c.host, HeadItems(c.tables, toks))
    ensures HasHead(c.tables, toks) && Kept(c, toks, kept, x)
    ensures Shape(c, HeadArgs(c, toks[0], toks[1..]), Width(c.tables, toks[0]) == |toks|)
  {
    var a, rest := toks[0], toks[1..];
    assert [a] + rest == toks;
    if IsGroup(c.tables, a) {
      GroupIsKept(c, toks, x);
      kept := Items(c.tables, a);
    } else {
      var out;
      out, kept := OtherHeadIsFaithful(c, a, rest, x);
      FaithfulIsKept(c, toks, out, kept, x);
    }
  }

  lemma OtherHeadIsFaithful(c: Config, a: string, rest: seq<string>, x: seq<string>)
      returns (out: Output, kept: seq<Item>)
    requires ValidConfig(c) && Lex(c.tables, a) != Stop && HeadOK(c, a, rest) && Width(c.tables, a) <= |rest| + 1
    requires !IsGroup(c.tables, a)
    requires Closed(c.tables, a) || OpenEnded(c.tables, a) || Lex(c.tables, a).WithNext?
             ==> AllReadable(c.host, HeadItems(c.tables, [a] + rest))
    ensures Closed(c.tables, a) || OpenEnded(c.tables, a) || Lex(c.tables, a).WithNext?
    ensures Faithful(c, [a] + rest, out, kept, x)
    ensures Shape(c, out.nerdctl, Width(c.tables, a) == |rest| + 1) && out.nerdctl == HeadArgs(c, a, rest)
  {
    if a[1] == '-' {
      if Before(a, '=') == "--env-file" && rest != [] {
        EnvFileIsHeadItem(c, a, rest);
        assert Item("--env-file", Some(ValueAt(a, rest))) in HeadItems(c.tables, [a] + rest);
      }
      out, kept := LongHeadIsFaithful(c, a, rest, x);
    } else {
      out, kept := ShortHeadIsFaithful(c, a, rest, x);
    }
  }

  // ---- the whole line ----

  lemma AddCommand(a: string, rest: seq<string>)
    ensures Add(NOTHING.(cmd := [a]), Ok(NOTHING.(cmd := rest))) == Ok(NOTHING.(cmd := [a] + rest))
  {
    var none: seq<string> := [];
    assert none + none == none;
  }

  lemma {:induction false} CommandPassesThrough(c: Config, toks: seq<string>)
    requires ValidConfig(c) && forall i :: 0 <= i < |toks| ==> !Fires(c, toks[i])
    ensures Scan(c, InCommand, toks) == Ok(NOTHING.(cmd := toks))
  {
    if toks != [] {
      CommandPassesThrough(c, toks[1..]);
      WordPassesThrough(c, toks);
    }
  }

  lemma WordPassesThrough(c: Config, toks: seq<string>)
    requires ValidConfig(c) && toks != [] && !Fires(c, toks[0])
    requires Scan(c, InCommand, toks[1..]) == Ok(NOTHING.(cmd := toks[1..]))
    ensures Scan(c, InCommand, toks) == Ok(NOTHING.(cmd := toks))
  {
    AddCommand(toks[0], toks[1..]);
    assert toks == [toks[0]] + toks[1..];
  }

  /** A command that the scan passes over. */
  predicate Quiescent(c: Config, cmd: seq<string>) {
    cmd != [] && Lex(c.tables, cmd[0]) == Stop && forall i :: 0 <= i < |cmd| ==> !Fires(c, cmd[i])
  }

  /** From the first token that is no option, everything is passed on unchanged, however flag-like it looks. */
  lemma TrailingCommandUnchanged(c: Config, toks: seq<string>)
    requires ValidConfig(c) && Quiescent(c, toks)
    ensures Scan(c, InOptions, toks) == Ok(NOTHING.(cmd := toks))
    ensures Read(c.tables, toks) == Some(Reading([], toks))
  {
    var a, rest := toks[0], toks[1..];
    assert toks == [a] + rest;
    TurnStop(c, a, rest);
    assert Turn(c, InOptions, [a] + rest) == Ok(Step(NOTHING.(cmd := [a]), InCommand, rest));
    ScanOne(c, a, rest, Step(NOTHING.(cmd := [a]), InCommand, rest));
    forall i | 0 <= i < |rest|
      ensures !Fires(c, rest[i])
    {
      assert rest[i] == toks[i + 1];
    }
    CommandPassesThrough(c, rest);
    AddCommand(a, rest);
  }

  function ReadItems(t: Tables, toks: seq<string>): seq<Item> {
    if Read(t, toks).Some? then Read(t, toks).value.items else []
  }

  lemma ForwardedAppended(c: Config, a: seq<Item>, b: seq<Item>, a': seq<Item>, b': seq<Item>)
    requires Forwarded(c, a, a') && Forwarded(c, b, b')
    ensures Forwarded(c, a + b, a' + b')
  {
  }

  /** The scan's output for a line, against what the line has to pass on and to collect. */
  ghost predicate Matches(c: Config, passed: seq<Item>, collected: seq<Item>, rest: seq<string>,
                          o: Output, kept: seq<Item>)
  {
    && Forwarded(c, passed, kept)
    && o.envs == FlagEntries(c.host, collected)
    && o.fileEnvs == FileEntries(c.host, collected)
    && o.cmd == rest
  }

  lemma HeadReads(c: Config, toks: seq<string>)
    requires ValidConfig(c) && toks != [] && Lex(c.tables, toks[0]) != Stop
    requires HeadOK(c, toks[0], toks[1..]) && Width(c.tables, toks[0]) <= |toks|
    ensures Closed(c.tables, toks[0]) || OpenEnded(c.tables, toks[0]) || Lex(c.tables, toks[0]).WithNext?
    ensures Read(c.tables, toks) == Cons(HeadItems(c.tables, toks), Read(c.tables, toks[Width(c.tables, toks[0])..]))
  {
    HeadKind(c, toks[0], toks[1..]);
    KindReads(c.tables, toks);
  }

  lemma HeadKind(c: Config, a: string, rest: seq<string>)
    requires ValidConfig(c) && Lex(c.tables, a) != Stop && HeadOK(c, a, rest)
    ensures Closed(c.tables, a) || OpenEnded(c.tables, a) || Lex(c.tables, a).WithNext?
  {
  }

  lemma KindReads(t: Tables, toks: seq<string>)
    requires toks != [] && Width(t, toks[0]) <= |toks|
    requires Closed(t, toks[0]) || OpenEnded(t, toks[0]) || Lex(t, toks[0]).WithNext?
    ensures Read(t, toks) == Cons(HeadItems(t, toks), Read(t, toks[Width(t, toks[0])..]))
  {
    var a, rest := toks[0], toks[1..];
    assert toks == [a] + rest;
    if Closed(t, a) {
      ClosedReads(t, a, rest);
    } else {
      assert [a, rest[0]] + rest[1..] == toks && rest[1..] == toks[2..];
      if OpenEnded(t, a) {
        OpenEndedReads(t, a, rest[0], rest[1..]);
      }
    }
  }

  lemma HeadReadable(c: Config, toks: seq<string>)
    requires ValidConfig(c) && toks != [] && Lex(c.tables, toks[0]) != Stop
    requires HeadOK(c, toks[0], toks[1..]) && Width(c.tables, toks[0]) <= |toks|
    requires Read(c.tables, toks).Some? && AllReadable(c.host, ReadItems(c.tables, toks))
    ensures Closed(c.tables, toks[0]) || OpenEnded(c.tables, toks[0]) || Lex(c.tables, toks[0]).WithNext?
    ensures AllReadable(c.host, HeadItems(c.tables, toks))
    ensures AllReadable(c.host, ReadItems(c.tables, toks[Width(c.tables, toks[0])..]))
  {
    HeadReads(c, toks);
    var head, rest := HeadItems(c.tables, toks), ReadItems(c.tables, toks[Width(c.tables, toks[0])..]);
    assert forall i :: i in head ==> i in head + rest;
    assert forall i :: i in rest ==> i in head + rest;
  }

  lemma {:induction false} WellFormedLinesRead(c: Config, toks: seq<string>)
    requires ValidConfig(c) && WellFormed(c, toks)
    ensures Read(c.tables, toks).Some?
    decreases |toks|
  {
    if toks != [] && Lex(c.tables, toks[0]) != Stop {
      HeadReads(c, toks);
      WellFormedLinesRead(c, toks[Width(c.tables, toks[0])..]);
    }
  }

  lemma MatchesAppended(c: Config, headPassed: seq<Item>, headCollected: seq<Item>, out: Output, kept: seq<Item>,
                        passed: seq<Item>, collected: seq<Item>, rest: seq<string>, o: Output, keptRest: seq<Item>)
    requires Forwarded(c, headPassed, kept) && out.cmd == []
    requires out.envs == FlagEntries(c.host, headCollected) && out.fileEnvs == FileEntries(c.host, headCollected)
    requires Matches(c, passed, collected, rest, o, keptRest)
    ensures Matches(c, headPassed + passed, headCollected + collected, rest, out.Plus(o), kept + keptRest)
  {
    EntriesAppended(c.host, headCollected, collected, out, o);
    ForwardedAppended(c, headPassed, passed, kept, keptRest);
    assert out.cmd + o.cmd == o.cmd;
  }

  lemma EntriesAppended(h: Host, a: seq<Item>, b: seq<Item>, out: Output, o: Output)
    requires out.envs == FlagEntries(h, a) && out.fileEnvs == FileEntries(h, a)
    requires o.envs == FlagEntries(h, b) && o.fileEnvs == FileEntries(h, b)
    ensures out.Plus(o).envs == FlagEntries(h, a + b) && out.Plus(o).fileEnvs == FileEntries(h, a + b)
  {
    FlagEntriesAppended(h, a, b);
    FileEntriesAppended(h, a, b);
  }

  /** The scan's output for a whole line. */
  ghost predicate LineMatches(c: Config, toks: seq<string>, o: Output, kept: seq<Item>)
    requires ValidConfig(c)
  {
    && Scan(c, InOptions, toks) == Ok(o) && Read(c.tables, toks).Some?
    && Matches(c, Passed(c.tables, toks), Collected(c.tables, toks), Read(c.tables, toks).value.rest, o, kept)
  }

  lemma NoHead(c: Config, toks: seq<string>, o: Output)
    requires ValidConfig(c) && (toks == [] || Lex(c.tables, toks[0]) == Stop)
    requires Scan(c, InOptions, toks) == Ok(NOTHING.(cmd := toks)) && o == NOTHING.(cmd := toks)
    ensures LineMatches(c, toks, o, [])
  {
  }

  /** Scanning a well-formed line with readable files keeps its options, its entries and its command. */
  lemma {:induction false} ScanPreserves(c: Config, toks: seq<string>, x: seq<string>)
      returns (o: Output, kept: seq<Item>)
    requires ValidConfig(c) && WellFormed(c, toks) && AllReadable(c.host, ReadItems(c.tables, toks))
    ensures LineMatches(c, toks, o, kept)
    ensures Read(c.tables, o.nerdctl + x) == Cons(kept, Read(c.tables, x))
    decreases |toks|
  {
    if toks == [] || Lex(c.tables, toks[0]) == Stop {
      if toks != [] {
        TrailingCommandUnchanged(c, toks);
      }
      o, kept := NOTHING.(cmd := toks), [];
      NoItems(c, x);
      NoHead(c, toks, o);
    } else {
      WellFormedLinesRead(c, toks);
      HeadReadable(c, toks);
      var o1, kept1 := ScanPreserves(c, toks[Width(c.tables, toks[0])..], x);
      o, kept := HeadThenRestPreserved(c, toks, x, o1, kept1);
    }
  }

  lemma HeadThenRestPreserved(c: Config, toks: seq<string>, x: seq<string>, o1: Output, kept1: seq<Item>)
      returns (o: Output, kept: seq<Item>)
    requires ValidConfig(c) && HasHead(c.tables, toks) && Lex(c.tables, toks[0]) != Stop && HeadOK(c, toks[0], toks[1..])
    requires AllReadable(c.host, HeadItems(c.tables, toks))
    requires LineMatches(c, toks[Width(c.tables, toks[0])..], o1, kept1)
    requires Read(c.tables, o1.nerdctl + x) == Cons(kept1, Read(c.tables, x))
    ensures LineMatches(c, toks, o, kept)
    ensures Read(c.tables, o.nerdctl + x) == Cons(kept, Read(c.tables, x))
  {
    var rest, out := toks[Width(c.tables, toks[0])..], HeadOut(c, toks);
    HeadReads(c, toks);
    var keptHead := HeadIsFaithful(c, toks, o1.nerdctl + x);
    MatchesAppended(c, HeadPassed(c.tables, toks), HeadCollected(c.tables, toks), out, keptHead,
                    Passed(c.tables, rest), Collected(c.tables, rest), Read(c.tables, rest).value.rest, o1, kept1);
    ReadsAppended(c.tables, out.nerdctl, o1.nerdctl, x, keptHead, kept1);
    o, kept := out.Plus(o1), keptHead + kept1;
  }

  lemma ReadsAppended(t: Tables, a: seq<string>, b: seq<string>, x: seq<string>, ka: seq<Item>, kb: seq<Item>)
    requires Read(t, a + (b + x)) == Cons(ka, Read(t, b + x)) && Read(t, b + x) == Cons(kb, Read(t, x))
    ensures Read(t, a + b + x) == Cons(ka + kb, Read(t, x))
  {
    ConsTwice(ka, kb, Read(t, x));
    assert a + b + x == a + (b + x);
  }
}
