/** How docker-style command lines are read: ordered options, then a trailing command.
    This reading looks at characters and flag tables only and owes nothing to Finch's rewriter. */
module CommandLine {
  import opened Wrappers
  import opened Strings
  import EnvOrder

  datatype Command = ContainerRun | Exec | Compose

  /** Which flags take no value (`-d`, `--rm`) and which short flags take one (`-p`). */
  datatype Tables = Tables(shortBool: set<char>, longBool: set<string>, shortArg: set<char>)

  function TablesOf(cmd: Command): Tables {
    var longs := {"--detach", "--init", "--interactive", "--oom-kill-disable",
                  "--privileged", "--read-only", "--rm", "--rootfs", "--tty"};
    Tables({'d', 'i', 't'},
           if cmd == ContainerRun then longs + {"--sig-proxy"} else longs,
           {'e', 'h', 'm', 'u', 'w', 'p', 'l', 'v'})
  }

  /** An option as it was meant: its flag and its value, if any. */
  datatype Item = Item(name: string, value: Option<string>)

  datatype Reading = Reading(items: seq<Item>, rest: seq<string>)

  datatype Lexeme =
    | Stop                                          // not an option: the trailing command starts here
    | Ends                                          // `--`, after which nothing is an option
    | Whole(name: string, value: Option<string>)    // the token is one option
    | WithNext(name: string)                        // the next token is the option's value
    | Grouped(name: string, others: string)         // a short flag without value, and the rest of its group

  function Lex(t: Tables, a: string): Lexeme {
    if |a| < 2 || a[0] != '-' then Stop
    else if a == "--" then Ends
    else if a[1] == '-' then
      if '=' in a then Whole(Before(a, '='), Some(After(a, '=')))
      else if a in t.longBool || a == "--help" || a == "--debug" then Whole(a, None)
      else WithNext(a)
    else if a[1] in t.shortBool then
      if |a| == 2 then Whole(a, None)
      else if a[2] == '=' then Whole(a[..2], Some(a[3..]))
      else Grouped(a[..2], "-" + a[2..])
    else if a[1] in t.shortArg then
      if |a| == 2 then WithNext(a)
      else if a[2] == '=' then Whole(a[..2], Some(a[3..]))
      else Whole(a[..2], Some(a[2..]))
    else Stop
  }

  /** The reading of a line; None when the last option lacks its value. */
  function Read(t: Tables, toks: seq<string>): Option<Reading>
    decreases |toks|, if toks == [] then 0 else |toks[0]|
  {
    if toks == [] then Some(Reading([], []))
    else
      match Lex(t, toks[0])
      case Stop => Some(Reading([], toks))
      case Ends => Some(Reading([], toks))
      case Whole(n, v) => Cons([Item(n, v)], Read(t, toks[1..]))
      case WithNext(n) =>
        if |toks| == 1 then None else Cons([Item(n, Some(toks[1]))], Read(t, toks[2..]))
      case Grouped(n, others) => Cons([Item(n, None)], Read(t, [others] + toks[1..]))
  }

  function Cons(items: seq<Item>, r: Option<Reading>): Option<Reading> {
    match r
    case None => None
    case Some(x) => Some(Reading(items + x.items, x.rest))
  }

  lemma ConsTwice(a: seq<Item>, b: seq<Item>, r: Option<Reading>)
    ensures Cons(a, Cons(b, r)) == Cons(a + b, r)
  {
    if r.Some? {
      assert a + (b + r.value.items) == a + b + r.value.items;
    }
  }

  /** What the host contributes: its environment and the files it can open, by cleaned name. */
  datatype Host = Host(env: map<string, string>, files: map<string, FileRead>)
  datatype FileRead = Lines(lines: seq<string>) | Broken

  /** `KEY=VALUE` stands for itself, a bare `KEY` for the host's value if it has one. */
  function EnvEntry(h: Host, v: string): seq<string> {
    if '=' in v then [v] else if v in h.env then [v + "=" + h.env[v]] else []
  }

  function LineEntries(h: Host, lines: seq<string>): seq<string> {
    if lines == [] then []
    else
      var init, line := LineEntries(h, lines[..|lines| - 1]), Trim(lines[|lines| - 1]);
      if line == "" || line[0] == '#' then init else init + EnvEntry(h, line)
  }

  predicate SetsEnv(i: Item) { (i.name == "-e" || i.name == "--env") && i.value.Some? }

  predicate NamesEnvFile(i: Item) { i.name == "--env-file" && i.value.Some? }

  /** The entries one option sets: resolved for `-e`, none for anything else. */
  function FlagEntry(h: Host, i: Item): seq<string> {
    if SetsEnv(i) then EnvEntry(h, i.value.value) else []
  }

  function FlagEntries(h: Host, items: seq<Item>): seq<string> {
    if items == [] then [] else FlagEntry(h, items[0]) + FlagEntries(h, items[1..])
  }

  function FileEntry(h: Host, i: Item): seq<string> {
    if NamesEnvFile(i) && i.value.value in h.files && h.files[i.value.value].Lines?
    then LineEntries(h, h.files[i.value.value].lines) else []
  }

  function FileEntries(h: Host, items: seq<Item>): seq<string> {
    if items == [] then [] else FileEntry(h, items[0]) + FileEntries(h, items[1..])
  }

  /** The container's environment: the files' entries, overridden by the flags'. */
  function Environment(h: Host, items: seq<Item>): map<string, string> {
    EnvOrder.EnvOf(FileEntries(h, items)) + EnvOrder.EnvOf(FlagEntries(h, items))
  }

  /** The options other than environment ones and `--debug`, which is for Finch itself. */
  predicate IsOption(i: Item) { !SetsEnv(i) && !NamesEnvFile(i) && i.name != "--debug" }

  function Options(items: seq<Item>): seq<Item> {
    if items == [] then []
    else (if IsOption(items[0]) then [items[0]] else []) + Options(items[1..])
  }

  // ---- the value of `--mount` ----

  /** Fields, of which a later one overrides an earlier one with the same key, and words without value. */
  datatype MountSpec = MountSpec(fields: map<string, string>, words: seq<string>)

  /** The first '=' ends the key; white space around key and value is not part of them. */
  function ReadEntry(m: MountSpec, e: string): MountSpec {
    if '=' in e then m.(fields := m.fields[Trim(Before(e, '=')) := Trim(After(e, '='))])
    else m.(words := m.words + [e])
  }

  function ReadEntries(es: seq<string>): MountSpec {
    if es == [] then MountSpec(map[], []) else ReadEntry(ReadEntries(es[..|es| - 1]), es[|es| - 1])
  }

  function ReadMount(v: string): MountSpec { ReadEntries(Split(v, ',')) }

  predicate IsBindMount(m: MountSpec) { "type" in m.fields && m.fields["type"] == "bind" }

  /** `w` says what `v` says, but for the consistency of a bind mount, which has no effect in the machine. */
  predicate SaysMount(v: string, w: string) {
    var m := ReadMount(v);
    ReadMount(w) == if IsBindMount(m) then m.(fields := m.fields - {"consistency"}) else m
  }

  lemma {:induction false} FlagEntriesAppended(h: Host, a: seq<Item>, b: seq<Item>)
    ensures FlagEntries(h, a + b) == FlagEntries(h, a) + FlagEntries(h, b)
  {
    if a == [] {
      assert a + b == b;
    } else {
      FlagEntriesAppended(h, a[1..], b);
      assert (a + b)[0] == a[0] && (a + b)[1..] == a[1..] + b;
      Regrouped(FlagEntry(h, a[0]), FlagEntries(h, a[1..]), FlagEntries(h, b));
    }
  }

  lemma {:induction false} FileEntriesAppended(h: Host, a: seq<Item>, b: seq<Item>)
    ensures FileEntries(h, a + b) == FileEntries(h, a) + FileEntries(h, b)
  {
    if a == [] {
      assert a + b == b;
    } else {
      FileEntriesAppended(h, a[1..], b);
      assert (a + b)[0] == a[0] && (a + b)[1..] == a[1..] + b;
      Regrouped(FileEntry(h, a[0]), FileEntries(h, a[1..]), FileEntries(h, b));
    }
  }

  lemma {:induction false} OptionsAppended(a: seq<Item>, b: seq<Item>)
    ensures Options(a + b) == Options(a) + Options(b)
  {
    if a == [] {
      assert a + b == b;
    } else {
      OptionsAppended(a[1..], b);
      assert (a + b)[0] == a[0] && (a + b)[1..] == a[1..] + b;
      Regrouped(if IsOption(a[0]) then [a[0]] else [], Options(a[1..]), Options(b));
    }
  }
}
