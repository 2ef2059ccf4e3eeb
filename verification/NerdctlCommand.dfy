/** What the mount handler, which runs on every token, makes of the trailing command. */
module NerdctlCommand {
  import opened Wrappers
  import opened Strings
  import opened CommandLine
  import opened Nerdctl
  import opened NerdctlForms
  import opened NerdctlMeaning
  import opened NerdctlTheorems
  import opened NerdctlCanonical
  import opened NerdctlEndings
  import EnvOrder
  import Mounts

  // ---- handlers and the trailing command ----

  lemma MountFires(c: Config)
    requires c.handlesMount
    ensures Fires(c, "--mount") && '=' !in "--mount"
  {
    assert '=' !in "--mount";
    assert Before("--mount", '=') == "--mount";
  }

  /** Only a word that is no mount is rewritten to itself. */
  lemma WordFromWord(c: Config, n: nat, v: string, word: string)
    requires ValidConfig(c) && !Mounts.IsBind(Mounts.Parse(word))
    ensures NewMountValue(c, n, v) == word <==> v == word
  {
    NewValueIsSameMount(c, n, v);
  }

  lemma FiredKeepsLast(c: Config, cmd: seq<string>, n: string)
    requires ValidConfig(c) && cmd != [] && Fires(c, cmd[0]) && n == "--mount"
    ensures Handled(c, cmd).Err? <==> cmd == [n]
    ensures var h := Handled(c, cmd);
            h.Ok? && |cmd| > 1 ==> |h.value| == |cmd| && (h.value[|cmd| - 1] == n <==> cmd[|cmd| - 1] == n)
  {
    FiringToken(c, cmd[0]);
    if |cmd| > 1 {
      WordIsNoBind(n);
      WordFromWord(c, |cmd|, cmd[1], n);
    }
  }

  /** The handler fails only at a last `--mount`, and keeps what the line ends in. */
  lemma HandledKeepsLast(c: Config, cmd: seq<string>)
    requires ValidConfig(c) && cmd != []
    ensures Handled(c, cmd).Err? <==> c.handlesMount && cmd == ["--mount"]
    ensures var h := Handled(c, cmd);
            h.Ok? && |cmd| > 1 ==>
              |h.value| == |cmd| && (h.value[|cmd| - 1] == "--mount" <==> cmd[|cmd| - 1] == "--mount")
  {
    if Fires(c, cmd[0]) {
      FiredKeepsLast(c, cmd, "--mount");
    } else if c.handlesMount {
      MountFires(c);
    }
  }

  lemma FiringToken(c: Config, a: string)
    requires Fires(c, a)
    ensures '=' in a <==> a != "--mount"
  {
    TokenForm(a);
    assert '=' !in "--mount";
  }

  /** A trailing command is refused exactly when it ends in `--mount`, though that is not Finch's option there. */
  lemma {:induction false} TrailingMountIsRefusedIff(c: Config, cmd: seq<string>)
    requires ValidConfig(c)
    ensures Scan(c, InCommand, cmd).Err? <==> c.handlesMount && cmd != [] && cmd[|cmd| - 1] == "--mount"
    ensures Scan(c, InCommand, cmd).Err? ==> Scan(c, InCommand, cmd) == Err(HandlerError)
    decreases |cmd|
  {
    if cmd != [] {
      HandledKeepsLast(c, cmd);
      if Handled(c, cmd).Ok? {
        TrailingMountIsRefusedIff(c, Handled(c, cmd).value[1..]);
        RefusedWithRest(c, cmd, Handled(c, cmd).value, "--mount");
      }
    }
  }

  /** One word is passed on, so the command is refused exactly if the rest is. */
  lemma RefusedWithRest(c: Config, cmd: seq<string>, after: seq<string>, n: string)
    requires ValidConfig(c) && cmd != [] && Handled(c, cmd) == Ok(after) && |after| == |cmd|
    requires |cmd| == 1 ==> !(c.handlesMount && cmd == [n])
    requires |cmd| > 1 ==> (after[|cmd| - 1] == n <==> cmd[|cmd| - 1] == n)
    requires var rest := after[1..]; Scan(c, InCommand, rest).Err? <==> c.handlesMount && rest != [] && rest[|rest| - 1] == n
    requires Scan(c, InCommand, after[1..]).Err? ==> Scan(c, InCommand, after[1..]) == Err(HandlerError)
    ensures Scan(c, InCommand, cmd).Err? <==> c.handlesMount && cmd[|cmd| - 1] == n
    ensures Scan(c, InCommand, cmd).Err? ==> Scan(c, InCommand, cmd) == Err(HandlerError)
  {
    ScanCommandWord(c, cmd, after);
    assert |cmd| == 1 ==> cmd == [cmd[0]];
  }

  // ---- orders of map visits ----

  function Without(ks: seq<string>, k: string): seq<string> {
    if ks == [] then [] else (if ks[0] == k then [] else [ks[0]]) + Without(ks[1..], k)
  }

  lemma {:induction false} WithoutKeeps(ks: seq<string>, k: string)
    requires Mounts.Distinct(ks)
    ensures var ls := Without(ks, k);
            Mounts.Distinct(ls) && k !in ls && forall x :: x in ls <==> x in ks && x != k
  {
    if ks != [] {
      WithoutKeeps(ks[1..], k);
      assert forall x :: x in ks <==> x == ks[0] || x in ks[1..];
      assert ks[0] !in ks[1..];
    }
  }

  /** An order of visits that begins with a given key. */
  lemma KeyFirst(ks: seq<string>, m: map<string, string>, k: string)
    requires Mounts.IsOrder(ks, m) && k in m
    ensures Mounts.IsOrder([k] + Without(ks, k), m)
  {
    WithoutKeeps(ks, k);
    var ls := [k] + Without(ks, k);
    assert k in ks;
    forall i | 0 <= i < |ls|
      ensures ls[i] in m
    {
      assert ls[i] == k || ls[i] in Without(ks, k);
    }
    assert forall x :: x in m ==> x == k || x in Without(ks, k);
  }

  /** The order `order`, but with `ks` for the map `fields`. */
  function Instead(order: MapOrder, fields: map<string, string>, ks: seq<string>): MapOrder {
    (n: nat, m: map<string, string>) => if m == fields then ks else order(n, m)
  }

  lemma InsteadIsValid(order: MapOrder, fields: map<string, string>, ks: seq<string>)
    requires ValidOrder(order) && Mounts.IsOrder(ks, fields)
    ensures ValidOrder(Instead(order, fields, ks))
  {
    forall n, m
      ensures Mounts.IsOrder(Instead(order, fields, ks)(n, m), m)
    {
      assert Mounts.IsOrder(order(n, m), m);
    }
  }

  // ---- values that the handler leaves alone in every order ----

  /** Whatever order Go visits the fields in, the value is printed as it is. */
  ghost predicate PrintsAsIs(v: string) {
    Mounts.IsBind(Mounts.Parse(v)) ==>
      forall ks :: Mounts.IsOrder(ks, Mounts.Kept(Mounts.Parse(v)).fields)
                   ==> Mounts.Print(ks, Mounts.Kept(Mounts.Parse(v))) == v
  }

  /** A token of the command for which the handler runs, and the value that it reaches, in the token or in the next. */
  predicate HasValue(cmd: seq<string>, i: nat)
    requires i < |cmd|
  {
    '=' in cmd[i] || i + 1 < |cmd|
  }

  function ReachedValue(cmd: seq<string>, i: nat): string
    requires i < |cmd| && HasValue(cmd, i)
  {
    if '=' in cmd[i] then After(cmd[i], '=') else cmd[i + 1]
  }

  /** No value that the handler reaches in the command is missing, or a bind mount that some order prints differently. */
  ghost predicate Untouched(c: Config, cmd: seq<string>) {
    forall i :: 0 <= i < |cmd| && Fires(c, cmd[i]) ==> HasValue(cmd, i) && PrintsAsIs(ReachedValue(cmd, i))
  }

  lemma FirstKeyIsPlain(ks: seq<string>, v: string)
    requires Mounts.IsBind(Mounts.Parse(v)) && Mounts.IsOrder(ks, Mounts.Kept(Mounts.Parse(v)).fields)
    ensures ks != [] && '=' !in ks[0]
  {
    assert "type" in Mounts.Kept(Mounts.Parse(v)).fields && "type" in ks;
    Mounts.ParsedFieldsArePlain(Split(v, ','));
    assert Mounts.Plain(ks[0]);
  }

  lemma BeginsWithKey(k: string, w: string)
    requires k + "=" <= w && '=' !in k
    ensures '=' in w && Before(w, '=') == k
  {
    assert w == k + ['='] + w[|k| + 1..];
    CutGlued(k, '=', w[|k| + 1..]);
  }

  lemma PrintedStart(c: Config, ks: seq<string>, v: string)
    requires ValidConfig(c) && Mounts.IsBind(Mounts.Parse(v)) && Mounts.IsOrder(ks, Mounts.Kept(Mounts.Parse(v)).fields)
    ensures ks != [] && Before(Mounts.Print(ks, Mounts.Kept(Mounts.Parse(v))), '=') == ks[0]
    ensures '=' in Mounts.Print(ks, Mounts.Kept(Mounts.Parse(v)))
  {
    FirstKeyIsPlain(ks, v);
    PrintStartsWithKey(ks, Mounts.Kept(Mounts.Parse(v)));
    BeginsWithKey(ks[0], Mounts.Print(ks, Mounts.Kept(Mounts.Parse(v))));
  }

  lemma FirstKeyIs(c: Config, ks: seq<string>, k: string, v: string)
    requires ValidConfig(c) && Mounts.IsBind(Mounts.Parse(v)) && PrintsAsIs(v)
    requires Mounts.IsOrder(ks, Mounts.Kept(Mounts.Parse(v)).fields) && k in Mounts.Kept(Mounts.Parse(v)).fields
    ensures Before(v, '=') == k
  {
    KeyFirst(ks, Mounts.Kept(Mounts.Parse(v)).fields, k);
    PrintedStart(c, [k] + Without(ks, k), v);
  }

  /** A bind mount with any field but its type is printed differently by some order. */
  lemma BareBindsOnly(c: Config, v: string)
    requires ValidConfig(c) && Mounts.IsBind(Mounts.Parse(v)) && PrintsAsIs(v)
    ensures forall k :: k in Mounts.Kept(Mounts.Parse(v)).fields ==> k == "type"
  {
    var m := Mounts.Kept(Mounts.Parse(v));
    var ks := c.order(0, m.fields);
    assert Mounts.IsOrder(ks, m.fields) && "type" in m.fields;
    forall k | k in m.fields
      ensures k == "type"
    {
      FirstKeyIs(c, ks, k, v);
      FirstKeyIs(c, ks, "type", v);
    }
  }

  // ---- commands that are passed on unchanged ----

  lemma {:induction false} UntouchedPasses(c: Config, cmd: seq<string>)
    requires ValidConfig(c) && Untouched(c, cmd)
    ensures Scan(c, InCommand, cmd) == Ok(NOTHING.(cmd := cmd))
  {
    if cmd != [] {
      UntouchedRest(c, cmd);
      UntouchedPasses(c, cmd[1..]);
      UntouchedHead(c, cmd);
      ScanCommandWord(c, cmd, cmd);
    }
  }

  lemma UntouchedRest(c: Config, cmd: seq<string>)
    requires cmd != [] && Untouched(c, cmd)
    ensures Untouched(c, cmd[1..])
  {
    var rest := cmd[1..];
    forall i | 0 <= i < |rest| && Fires(c, rest[i])
      ensures HasValue(rest, i) && PrintsAsIs(ReachedValue(rest, i))
    {
      assert rest[i] == cmd[i + 1] && HasValue(cmd, i + 1);
      assert ReachedValue(rest, i) == ReachedValue(cmd, i + 1);
    }
  }

  lemma UntouchedHead(c: Config, cmd: seq<string>)
    requires ValidConfig(c) && cmd != []
    requires Fires(c, cmd[0]) ==> HasValue(cmd, 0) && PrintsAsIs(ReachedValue(cmd, 0))
    ensures Handled(c, cmd) == Ok(cmd)
  {
    if Fires(c, cmd[0]) {
      NewValueAsIs(c, |cmd|, ReachedValue(cmd, 0));
      TokenForm(cmd[0]);
      if '=' in cmd[0] {
        assert cmd[0 := cmd[0]] == cmd;
      } else {
        assert cmd[1 := cmd[1]] == cmd;
      }
    }
  }

  lemma NewValueAsIs(c: Config, n: nat, v: string)
    requires ValidConfig(c) && PrintsAsIs(v)
    ensures NewMountValue(c, n, v) == v
  {
    var m := Mounts.Kept(Mounts.Parse(v));
    assert Mounts.IsOrder(c.order(n, m.fields), m.fields);
  }

  /** One token of the command, after the handler has run. */
  lemma ScanCommandWord(c: Config, cmd: seq<string>, after: seq<string>)
    requires ValidConfig(c) && cmd != [] && after != [] && Handled(c, cmd) == Ok(after)
    ensures Scan(c, InCommand, cmd) == Add(NOTHING.(cmd := [after[0]]), Scan(c, InCommand, after[1..]))
    ensures Scan(c, InCommand, after[1..]) == Ok(NOTHING.(cmd := after[1..]))
            ==> Scan(c, InCommand, cmd) == Ok(NOTHING.(cmd := after))
  {
    AddCommand(after[0], after[1..]);
    assert after == [after[0]] + after[1..];
  }

  // ---- and commands that some order changes ----

  lemma {:induction false} SomeOrderChanges(c: Config, cmd: seq<string>) returns (order: MapOrder)
    requires ValidConfig(c) && !Untouched(c, cmd)
    ensures ValidOrder(order) && Scan(c.(order := order), InCommand, cmd) != Ok(NOTHING.(cmd := cmd))
  {
    if Fires(c, cmd[0]) && !(HasValue(cmd, 0) && PrintsAsIs(ReachedValue(cmd, 0))) {
      order := SomeOrderChangesHead(c, cmd);
    } else {
      TouchedRest(c, cmd);
      order := SomeOrderChanges(c, cmd[1..]);
      var d := c.(order := order);
      UntouchedHead(d, cmd);
      ScanCommandWord(d, cmd, cmd);
      OnlyIfRestPasses(cmd, Scan(d, InCommand, cmd[1..]));
    }
  }

  lemma OnlyIfRestPasses(cmd: seq<string>, r: Result<Output>)
    requires cmd != [] && r != Ok(NOTHING.(cmd := cmd[1..]))
    ensures Add(NOTHING.(cmd := [cmd[0]]), r) != Ok(NOTHING.(cmd := cmd))
  {
    if r.Ok? {
      var o := r.value;
      assert [] + o.nerdctl == o.nerdctl && [] + o.envs == o.envs && [] + o.fileEnvs == o.fileEnvs;
      assert ([cmd[0]] + o.cmd)[1..] == o.cmd;
    }
  }

  lemma TouchedRest(c: Config, cmd: seq<string>)
    requires cmd != [] && !Untouched(c, cmd)
    requires Fires(c, cmd[0]) ==> HasValue(cmd, 0) && PrintsAsIs(ReachedValue(cmd, 0))
    ensures !Untouched(c, cmd[1..])
  {
    var i :| 0 <= i < |cmd| && Fires(c, cmd[i]) && !(HasValue(cmd, i) && PrintsAsIs(ReachedValue(cmd, i)));
    SameInRest(cmd, i);
  }

  lemma SameInRest(cmd: seq<string>, i: nat)
    requires 0 < i < |cmd|
    ensures cmd[1..][i - 1] == cmd[i] && (HasValue(cmd[1..], i - 1) <==> HasValue(cmd, i))
    ensures HasValue(cmd, i) ==> ReachedValue(cmd[1..], i - 1) == ReachedValue(cmd, i)
  {
  }

  /** What comes out for a token depends on the handler's run at it only. */
  lemma FirstWordOut(c: Config, cmd: seq<string>, after: seq<string>)
    requires ValidConfig(c) && cmd != [] && after != [] && Handled(c, cmd) == Ok(after)
    ensures Scan(c, InCommand, cmd).Ok? ==>
              Scan(c, InCommand, cmd).value.cmd != [] && Scan(c, InCommand, cmd).value.cmd[0] == after[0]
  {
    ScanCommandWord(c, cmd, after);
  }

  lemma SomeOrderChangesHead(c: Config, cmd: seq<string>) returns (order: MapOrder)
    requires ValidConfig(c) && cmd != [] && Fires(c, cmd[0])
    requires !(HasValue(cmd, 0) && PrintsAsIs(ReachedValue(cmd, 0)))
    ensures ValidOrder(order) && Scan(c.(order := order), InCommand, cmd) != Ok(NOTHING.(cmd := cmd))
  {
    TokenForm(cmd[0]);
    if '=' in cmd[0] {
      order := GluedBindChanges(c, cmd, After(cmd[0], '='));
    } else if |cmd| == 1 {
      order := c.order;
    } else {
      order := SeparateBindChanges(c, cmd, cmd[1]);
    }
  }

  /** The orders that print a value differently. */
  lemma DifferentOrder(c: Config, v: string, n: nat, ks: seq<string>) returns (order: MapOrder)
    requires ValidConfig(c) && Mounts.IsBind(Mounts.Parse(v)) && Mounts.IsOrder(ks, Mounts.Kept(Mounts.Parse(v)).fields)
    ensures ValidOrder(order)
    ensures NewMountValue(c.(order := order), n, v) == Mounts.Print(ks, Mounts.Kept(Mounts.Parse(v)))
  {
    var m := Mounts.Kept(Mounts.Parse(v));
    order := Instead(c.order, m.fields, ks);
    InsteadIsValid(c.order, m.fields, ks);
  }

  lemma GluedBindChanges(c: Config, cmd: seq<string>, v: string) returns (order: MapOrder)
    requires ValidConfig(c) && cmd != [] && Fires(c, cmd[0]) && '=' in cmd[0] && v == After(cmd[0], '=') && !PrintsAsIs(v)
    ensures ValidOrder(order) && Scan(c.(order := order), InCommand, cmd) != Ok(NOTHING.(cmd := cmd))
  {
    var m := Mounts.Kept(Mounts.Parse(v));
    var ks :| Mounts.IsOrder(ks, m.fields) && Mounts.Print(ks, m) != v;
    order := DifferentOrder(c, v, |cmd|, ks);
    var d := c.(order := order);
    var tok := Before(cmd[0], '=') + "=" + NewMountValue(d, |cmd|, v);
    assert Handled(d, cmd) == Ok(cmd[0 := tok]);
    TokenForm(cmd[0]);
    assert tok != cmd[0] by { assert tok[|Before(cmd[0], '=')| + 1..] == NewMountValue(d, |cmd|, v); }
    FirstWordOut(d, cmd, cmd[0 := tok]);
  }

  /** An order whose printing neither is the value nor calls the handler again; or one that turns a value that begins
      with its type into one that begins with `--mount`. */
  lemma ChangingKeys(c: Config, v: string) returns (ks: seq<string>)
    requires ValidConfig(c) && Mounts.IsBind(Mounts.Parse(v)) && !PrintsAsIs(v)
    ensures var m := Mounts.Kept(Mounts.Parse(v));
            && Mounts.IsOrder(ks, m.fields) && Mounts.Print(ks, m) != v
            && ks != [] && (ks[0] == "--mount" ==> v != "" && v[0] == 't')
  {
    var m := Mounts.Kept(Mounts.Parse(v));
    ks :| Mounts.IsOrder(ks, m.fields) && Mounts.Print(ks, m) != v;
    PrintedStart(c, ks, v);
    if ks[0] == "--mount" {
      var typeFirst := ["type"] + Without(ks, "type");
      KeyFirst(ks, m.fields, "type");
      PrintedStart(c, typeFirst, v);
      if Mounts.Print(typeFirst, m) != v {
        ks := typeFirst;
      } else {
        assert Before(v, '=') == "type" && Before(v, '=') <= v;
      }
    }
  }

  lemma SeparateBindChanges(c: Config, cmd: seq<string>, v: string) returns (order: MapOrder)
    requires ValidConfig(c) && |cmd| > 1 && Fires(c, cmd[0]) && '=' !in cmd[0] && v == cmd[1] && !PrintsAsIs(v)
    ensures ValidOrder(order) && Scan(c.(order := order), InCommand, cmd) != Ok(NOTHING.(cmd := cmd))
  {
    var ks := ChangingKeys(c, v);
    order := DifferentOrder(c, v, |cmd|, ks);
    var d := c.(order := order);
    var w := NewMountValue(d, |cmd|, v);
    var after := cmd[1 := w];
    assert Handled(d, cmd) == Ok(after);
    ScanCommandWord(d, cmd, after);
    PrintedStart(c, ks, v);
    SecondWordChanges(d, after[1..], v, w, ks[0]);
    OtherRest(cmd, Scan(d, InCommand, after[1..]), after[0]);
  }

  lemma SecondWordChanges(d: Config, rest: seq<string>, v: string, w: string, k: string)
    requires ValidConfig(d) && rest != [] && rest[0] == w && w != v && '=' in w && Before(w, '=') == k
    requires k == "--mount" ==> v != "" && v[0] == 't'
    ensures Scan(d, InCommand, rest).Ok? ==>
              Scan(d, InCommand, rest).value.cmd != [] && Scan(d, InCommand, rest).value.cmd[0] != v
  {
    if Fires(d, w) {
      var tok := k + "=" + NewMountValue(d, |rest|, After(w, '='));
      assert Handled(d, rest) == Ok(rest[0 := tok]) && tok[0] == '-';
      FirstWordOut(d, rest, rest[0 := tok]);
    } else {
      FirstWordOut(d, rest, rest);
    }
  }

  lemma OtherRest(cmd: seq<string>, r: Result<Output>, first: string)
    requires |cmd| > 1 && (r.Ok? ==> r.value.cmd != [] && r.value.cmd[0] != cmd[1])
    ensures Add(NOTHING.(cmd := [first]), r) != Ok(NOTHING.(cmd := cmd))
  {
    if r.Ok? {
      assert ([first] + r.value.cmd)[1] == r.value.cmd[0];
    }
  }

  /** In every order of map visits a command is passed on unchanged, exactly if no value that the handler reaches in it
      is missing, or a bind mount that some order prints differently. */
  lemma CommandUnchangedIff(c: Config, cmd: seq<string>)
    requires ValidConfig(c)
    ensures (forall order :: ValidOrder(order) ==> Scan(c.(order := order), InCommand, cmd) == Ok(NOTHING.(cmd := cmd)))
            <==> Untouched(c, cmd)
  {
    if Untouched(c, cmd) {
      forall order | ValidOrder(order)
        ensures Scan(c.(order := order), InCommand, cmd) == Ok(NOTHING.(cmd := cmd))
      {
        UntouchedPasses(c.(order := order), cmd);
      }
    } else {
      var order := SomeOrderChanges(c, cmd);
    }
  }

  // ---- the command of a whole line ----

  /** Where the options end, the scan goes on as in the command. */
  lemma StopScansAsCommand(c: Config, cmd: seq<string>)
    requires ValidConfig(c) && cmd != [] && Lex(c.tables, cmd[0]) == Stop
    ensures Scan(c, InOptions, cmd) == Scan(c, InCommand, cmd) && !Fires(c, cmd[0])
  {
    StopIsQuiet(c, cmd[0]);
    assert cmd == [cmd[0]] + cmd[1..];
    TurnStop(c, cmd[0], cmd[1..]);
    assert Turn(c, InOptions, cmd) == Turn(c, InCommand, cmd);
  }

  lemma StopIsQuiet(c: Config, a: string)
    requires ValidConfig(c) && Lex(c.tables, a) == Stop
    ensures !Fires(c, a)
  {
    assert Before(a, '=') <= a && |"--mount"| == 7;
  }

  lemma {:induction false} OptionsUpToAlike(c: Config, d: Config, toks: seq<string>, n: nat)
    requires Alike(c, d) && n <= |toks| && OptionsUpTo(c, toks, n)
    ensures OptionsUpTo(d, toks, n)
    decreases n
  {
    if n > 0 {
      OptionsUpToAlike(c, d, toks[Width(c.tables, toks[0])..], n - Width(c.tables, toks[0]));
    }
  }

  /** The scan of the line passes everything from `n` on to the container, as it is. */
  ghost predicate PassesCommand(c: Config, toks: seq<string>, n: nat)
    requires ValidOrder(c.order) && n <= |toks|
  {
    Scan(c, InOptions, toks).Ok? && Scan(c, InOptions, toks).value.cmd == toks[n..]
  }

  lemma PassesCommandIff(c: Config, toks: seq<string>, n: nat)
    requires ValidConfig(c) && n < |toks| && OptionsUpTo(c, toks, n) && AllReadable(c.host, ItemsUpTo(c.tables, toks, n))
    requires Lex(c.tables, toks[n]) == Stop
    ensures PassesCommand(c, toks, n) <==> Scan(c, InCommand, toks[n..]) == Ok(NOTHING.(cmd := toks[n..]))
  {
    var out, kept := OptionsContribute(c, toks, n, []);
    StopScansAsCommand(c, toks[n..]);
    CommandOutput(c, toks[n..]);
    SameCommand(out, Scan(c, InCommand, toks[n..]), toks[n..]);
  }

  lemma SameCommand(out: Output, r: Result<Output>, cmd: seq<string>)
    requires out.cmd == [] && (r.Ok? ==> r.value == NOTHING.(cmd := r.value.cmd))
    ensures Add(out, r).Ok? && Add(out, r).value.cmd == cmd <==> r == Ok(NOTHING.(cmd := cmd))
  {
    if r.Ok? {
      assert [] + r.value.cmd == r.value.cmd;
    }
  }

  /** In the command, the scan only collects words. */
  lemma {:induction false} CommandOutput(c: Config, cmd: seq<string>)
    requires ValidConfig(c)
    ensures Scan(c, InCommand, cmd).Ok? ==> Scan(c, InCommand, cmd).value == NOTHING.(cmd := Scan(c, InCommand, cmd).value.cmd)
    decreases |cmd|
  {
    if cmd != [] && Handled(c, cmd).Ok? {
      var after := Handled(c, cmd).value;
      CommandOutput(c, after[1..]);
      ScanCommandWord(c, cmd, after);
      if Scan(c, InCommand, after[1..]).Ok? {
        AddCommand(after[0], Scan(c, InCommand, after[1..]).value.cmd);
      }
    }
  }

  /** For any supported options before it: in every order of map visits the command is passed on unchanged, exactly if
      no value that the handler reaches in it is missing, or a bind mount that some order prints differently. */
  lemma TrailingCommandUnchangedIff(c: Config, toks: seq<string>, n: nat)
    requires ValidConfig(c) && n < |toks| && OptionsUpTo(c, toks, n) && AllReadable(c.host, ItemsUpTo(c.tables, toks, n))
    requires Lex(c.tables, toks[n]) == Stop
    ensures (forall order :: ValidOrder(order) ==> PassesCommand(c.(order := order), toks, n))
            <==> Untouched(c, toks[n..])
  {
    forall order | ValidOrder(order)
      ensures PassesCommand(c.(order := order), toks, n)
              <==> Scan(c.(order := order), InCommand, toks[n..]) == Ok(NOTHING.(cmd := toks[n..]))
    {
      OptionsUpToAlike(c, c.(order := order), toks, n);
      PassesCommandIff(c.(order := order), toks, n);
    }
    CommandUnchangedIff(c, toks[n..]);
  }

  // ---- a command that is changed in every order ----

  /** `--mount=V` in the command, where V is a bind mount with a consistency: the container is called with another
      argument, whatever the order. */
  lemma ConsistencyInCommandIsLost(c: Config, pre: seq<string>, v: string, post: seq<string>)
    requires ValidConfig(c) && c.handlesMount && (forall i :: 0 <= i < |pre| ==> !Fires(c, pre[i]))
    requires Mounts.IsBind(Mounts.Parse(v)) && "consistency" in Mounts.Parse(v).fields
    ensures var cmd := pre + (["--mount=" + v] + post); Scan(c, InCommand, cmd) != Ok(NOTHING.(cmd := cmd))
  {
    var tail := ["--mount=" + v] + post;
    if pre == [] {
      assert pre + tail == tail;
      GluedConsistencyChanges(c, tail, v);
    } else {
      var cmd := pre + tail;
      ConsistencyInCommandIsLost(c, pre[1..], v, post);
      assert cmd[1..] == pre[1..] + tail && cmd[0] == pre[0];
      UntouchedHead(c, cmd);
      ScanCommandWord(c, cmd, cmd);
      OnlyIfRestPasses(cmd, Scan(c, InCommand, cmd[1..]));
    }
  }

  lemma GluedConsistencyChanges(c: Config, cmd: seq<string>, v: string)
    requires ValidConfig(c) && c.handlesMount && cmd != [] && cmd[0] == "--mount=" + v
    requires Mounts.IsBind(Mounts.Parse(v)) && "consistency" in Mounts.Parse(v).fields
    ensures Scan(c, InCommand, cmd) != Ok(NOTHING.(cmd := cmd))
  {
    MountTokensFire(c, cmd[0]);
    assert cmd[0] == "--mount" + ['='] + v;
    CutGlued("--mount", '=', v);
    var w := NewMountValue(c, |cmd|, v);
    NewValueIsSameMount(c, |cmd|, v);
    assert w != v;
    var tok := "--mount" + "=" + w;
    assert Handled(c, cmd) == Ok(cmd[0 := tok]);
    assert tok[8..] == w && cmd[0][8..] == v;
    FirstWordOut(c, cmd, cmd[0 := tok]);
  }

  lemma WordIsPlain(w: string)
    requires ',' !in w && '=' !in w && w != "" && !IsSpace(w[0]) && !IsSpace(w[|w| - 1])
    ensures Mounts.Plain(w)
  {
  }

  function FourFields(a: string, b: string, k: string, v: string, k': string, v': string, l: string, m: string): seq<string> {
    [] + [a + "=" + b] + [k + "=" + v] + [k' + "=" + v'] + [l + "=" + m]
  }

  lemma FourFieldsParse(a: string, b: string, k: string, v: string, k': string, v': string, l: string, m: string)
    requires Mounts.Plain(a) && Mounts.Plain(b) && Mounts.Plain(k) && Mounts.Plain(v)
    requires Mounts.Plain(k') && Mounts.Plain(v') && Mounts.Plain(l) && Mounts.Plain(m)
    ensures Mounts.ParseEntries(FourFields(a, b, k, v, k', v', l, m)).fields == map[a := b, k := v, k' := v', l := m]
  {
    var none: seq<string> := [];
    Mounts.ParsePrinted(none, a, b);
    Mounts.ParsePrinted(none + [a + "=" + b], k, v);
    Mounts.ParsePrinted(none + [a + "=" + b] + [k + "=" + v], k', v');
    Mounts.ParsePrinted(none + [a + "=" + b] + [k + "=" + v] + [k' + "=" + v'], l, m);
  }

  lemma FourFieldsHoldNoComma(a: string, b: string, k: string, v: string, k': string, v': string, l: string, m: string)
    requires Mounts.Plain(a) && Mounts.Plain(b) && Mounts.Plain(k) && Mounts.Plain(v)
    requires Mounts.Plain(k') && Mounts.Plain(v') && Mounts.Plain(l) && Mounts.Plain(m)
    ensures forall e :: e in FourFields(a, b, k, v, k', v', l, m) ==> ',' !in e
  {
  }

  /** A value that spells a bind mount with a consistency. */
  lemma ConsistentBind(k: string, v: string, k': string, v': string, m: string)
    requires Mounts.Plain(k) && Mounts.Plain(v) && Mounts.Plain(k') && Mounts.Plain(v') && Mounts.Plain(m)
    requires k != "type" && k' != "type"
    ensures var v := Join(FourFields("type", "bind", k, v, k', v', "consistency", m), ',');
            Mounts.IsBind(Mounts.Parse(v)) && "consistency" in Mounts.Parse(v).fields
  {
    WordIsPlain("type");
    WordIsPlain("bind");
    WordIsPlain("consistency");
    assert "type"[0] == 't' && "consistency"[0] == 'c';
    FourFieldsRead("type", "bind", k, v, k', v', "consistency", m);
  }

  lemma FourFieldsRead(a: string, b: string, k: string, v: string, k': string, v': string, l: string, m: string)
    requires Mounts.Plain(a) && Mounts.Plain(b) && Mounts.Plain(k) && Mounts.Plain(v)
    requires Mounts.Plain(k') && Mounts.Plain(v') && Mounts.Plain(l) && Mounts.Plain(m)
    requires a != k && a != k' && a != l
    ensures var fields := Mounts.Parse(Join(FourFields(a, b, k, v, k', v', l, m), ',')).fields;
            a in fields && fields[a] == b && l in fields
  {
    FourFieldsHoldNoComma(a, b, k, v, k', v', l, m);
    SplitJoined(FourFields(a, b, k, v, k', v', l, m), ',');
    FourFieldsParse(a, b, k, v, k', v', l, m);
  }

  /** `docker:dind docker run --mount=type=bind,source=/a,target=/b,consistency=cached img`, for all sources and targets:
      the inner docker is called with another mount. */
  lemma InnerDockerIsChanged(c: Config, source: string, target: string, mode: string, img: string)
    requires ValidConfig(c) && c.handlesMount && Mounts.Plain(source) && Mounts.Plain(target) && Mounts.Plain(mode)
    ensures var v := Join(FourFields("type", "bind", "source", source, "target", target, "consistency", mode), ',');
            var cmd := ["docker:dind", "docker", "run"] + (["--mount=" + v] + [img]);
            Scan(c, InCommand, cmd) != Ok(NOTHING.(cmd := cmd))
  {
    var v := Join(FourFields("type", "bind", "source", source, "target", target, "consistency", mode), ',');
    WordIsPlain("source");
    WordIsPlain("target");
    assert "source"[0] == 's' && "target"[1] == 'a' && "type"[0] == 't' && "type"[1] == 'y';
    ConsistentBind("source", source, "target", target, mode);
    DindWordsAreQuiet(c, ["docker:dind", "docker", "run"]);
    ConsistencyInCommandIsLost(c, ["docker:dind", "docker", "run"], v, [img]);
  }

  lemma DindWordsAreQuiet(c: Config, ws: seq<string>)
    requires forall w :: w in ws ==> w != "" && w[0] != '-'
    ensures forall i :: 0 <= i < |ws| ==> !Fires(c, ws[i])
  {
    forall i | 0 <= i < |ws|
      ensures !Fires(c, ws[i])
    {
      assert ws[i] in ws && Before(ws[i], '=') <= ws[i] && |"--mount"| == 7;
    }
  }
}
