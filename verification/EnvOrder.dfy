/** The insertion-ordered map in which Finch merges environment entries `KEY=VALUE`. */
module EnvOrder {
  import opened Strings

  type Ordered = seq<(string, string)>

  function Key(e: string): string { Before(e, '=') }

  function Val(e: string): string { After(e, '=') }

  /** Setting a present key changes its value and not its position. */
  function Set(om: Ordered, k: string, v: string): Ordered {
    if om == [] then [(k, v)]
    else if om[0].0 == k then [(k, v)] + om[1..]
    else [om[0]] + Set(om[1..], k, v)
  }

  function Merge(es: seq<string>): Ordered {
    if es == [] then [] else Set(Merge(es[..|es| - 1]), Key(es[|es| - 1]), Val(es[|es| - 1]))
  }

  /** The environment that a list of entries denotes: later entries win. */
  function EnvOf(es: seq<string>): map<string, string> {
    if es == [] then map[] else EnvOf(es[..|es| - 1])[Key(es[|es| - 1]) := Val(es[|es| - 1])]
  }

  function Args(om: Ordered): (args: seq<string>)
    ensures |args| == 2 * |om|
  {
    if om == [] then [] else ["-e", om[0].0 + "=" + om[0].1] + Args(om[1..])
  }

  function Entries(om: Ordered): (es: seq<string>)
    ensures |es| == |om| && forall i :: 0 <= i < |om| ==> es[i] == om[i].0 + "=" + om[i].1
  {
    if om == [] then [] else [om[0].0 + "=" + om[0].1] + Entries(om[1..])
  }

  lemma MergedOneMore(init: seq<string>, es: seq<string>, i: nat)
    requires i < |es|
    ensures Merge(init + es[..i + 1]) == Set(Merge(init + es[..i]), Key(es[i]), Val(es[i]))
  {
    var all := init + es[..i + 1];
    assert all[..|all| - 1] == init + es[..i] && all[|all| - 1] == es[i];
  }

  /** One of the two loops that fill the map. */
  method MergeInto(init: Ordered, ghost before: seq<string>, es: seq<string>) returns (envVars: Ordered)
    requires init == Merge(before)
    ensures envVars == Merge(before + es)
  {
    envVars := init;
    assert before + es[..0] == before;
    for i := 0 to |es|
      invariant envVars == Merge(before + es[..i])
    {
      MergedOneMore(before, es, i);
      envVars := Set(envVars, Key(es[i]), Val(es[i]));
    }
    assert es[..|es|] == es;
  }

  lemma ArgsFrom(om: Ordered, i: nat)
    requires i < |om|
    ensures Args(om[i..]) == ["-e", om[i].0 + "=" + om[i].1] + Args(om[i + 1..])
  {
    assert om[i..][1..] == om[i + 1..];
  }

  /** Files first, then flags; and the loop that prints the map. */
  method MergeEnv(fileEnvs: seq<string>, envs: seq<string>) returns (envArgs: seq<string>)
    ensures envArgs == Args(Merge(fileEnvs + envs))
  {
    var envVars := MergeInto([], [], fileEnvs);
    assert [] + fileEnvs == fileEnvs;
    envVars := MergeInto(envVars, fileEnvs, envs);
    envArgs := [];
    for i := 0 to |envVars|
      invariant envArgs + Args(envVars[i..]) == Args(envVars)
    {
      ArgsFrom(envVars, i);
      Regrouped(envArgs, ["-e", envVars[i].0 + "=" + envVars[i].1], Args(envVars[i + 1..]));
      envArgs := envArgs + ["-e", envVars[i].0 + "=" + envVars[i].1];
    }
  }

  ghost predicate DistinctKeys(om: Ordered) { forall i, j :: 0 <= i < j < |om| ==> om[i].0 != om[j].0 }

  ghost predicate HasKey(om: Ordered, k: string) { exists i :: 0 <= i < |om| && om[i].0 == k }

  /** Position of the first entry for `k`; |es| when there is none. */
  ghost function FirstMention(es: seq<string>, k: string): (p: nat)
    ensures p <= |es| && (forall q :: 0 <= q < p ==> Key(es[q]) != k)
    ensures p < |es| ==> Key(es[p]) == k
  {
    if es == [] then 0
    else
      var n := |es| - 1;
      var p := FirstMention(es[..n], k);
      if p < n || Key(es[n]) == k then p else n + 1
  }

  /** Keys appear in the order in which the entries first mention them. */
  ghost predicate InMentionOrder(om: Ordered, es: seq<string>) {
    && (forall i :: 0 <= i < |om| ==> FirstMention(es, om[i].0) < |es|)
    && (forall i, j :: 0 <= i < j < |om| ==> FirstMention(es, om[i].0) < FirstMention(es, om[j].0))
  }

  /** `v` is the value of the last entry for `k`. */
  ghost predicate LastValue(es: seq<string>, k: string, v: string) {
    exists p :: 0 <= p < |es| && Key(es[p]) == k && Val(es[p]) == v
                && forall q :: p < q < |es| ==> Key(es[q]) != k
  }

  lemma {:induction false} SetPresent(om: Ordered, k: string, v: string, i: nat)
    requires DistinctKeys(om) && i < |om| && om[i].0 == k
    ensures Set(om, k, v) == om[i := (k, v)]
  {
    if i > 0 {
      SetPresent(om[1..], k, v, i - 1);
    }
  }

  lemma {:induction false} SetAbsent(om: Ordered, k: string, v: string)
    requires !HasKey(om, k)
    ensures Set(om, k, v) == om + [(k, v)]
  {
    if om != [] {
      assert om[0].0 != k;
      assert !HasKey(om[1..], k) by {
        assert forall i :: 0 <= i < |om| - 1 ==> om[1..][i] == om[i + 1];
      }
      SetAbsent(om[1..], k, v);
    }
  }

  lemma LastValueAppended(init: seq<string>, e: string, k: string, v: string)
    ensures Key(e) == k ==> LastValue(init + [e], k, Val(e))
    ensures Key(e) != k && LastValue(init, k, v) ==> LastValue(init + [e], k, v)
  {
    var es := init + [e];
    assert es[|init|] == e;
    if Key(e) != k && LastValue(init, k, v) {
      var p :| 0 <= p < |init| && Key(init[p]) == k && Val(init[p]) == v
               && forall q :: p < q < |init| ==> Key(init[q]) != k;
      assert es[p] == init[p];
      assert forall q :: p < q < |init| ==> es[q] == init[q];
    }
  }

  ghost predicate LastValues(om: Ordered, es: seq<string>) {
    forall i :: 0 <= i < |om| ==> LastValue(es, om[i].0, om[i].1)
  }

  ghost predicate Covers(om: Ordered, es: seq<string>) {
    forall p :: 0 <= p < |es| ==> HasKey(om, Key(es[p]))
  }

  /** `om` lists the distinct keys of `es` in the order of first mention, each with its last value. */
  ghost predicate Summarises(om: Ordered, es: seq<string>) {
    DistinctKeys(om) && InMentionOrder(om, es) && LastValues(om, es) && Covers(om, es)
  }

  lemma MentionsAppended(init: seq<string>, e: string, k: string)
    ensures FirstMention(init, k) < |init| ==> FirstMention(init + [e], k) == FirstMention(init, k)
    ensures FirstMention(init, k) == |init| && Key(e) == k ==> FirstMention(init + [e], k) == |init|
  {
    assert (init + [e])[..|init|] == init;
  }

  lemma CoversAppended(om: Ordered, om': Ordered, init: seq<string>, e: string)
    requires Covers(om, init) && |om| <= |om'| && (forall i :: 0 <= i < |om| ==> om'[i].0 == om[i].0)
    requires HasKey(om', Key(e))
    ensures Covers(om', init + [e])
  {
    forall p | 0 <= p < |init|
      ensures HasKey(om', Key((init + [e])[p]))
    {
      assert HasKey(om, Key(init[p]));
      var i :| 0 <= i < |om| && om[i].0 == Key(init[p]);
      assert om'[i].0 == Key(init[p]);
    }
  }

  lemma OrderAppended(om: Ordered, om': Ordered, init: seq<string>, e: string)
    requires InMentionOrder(om, init) && |om| == |om'| && (forall i :: 0 <= i < |om| ==> om'[i].0 == om[i].0)
    ensures InMentionOrder(om', init + [e])
  {
    forall j | 0 <= j < |om|
      ensures FirstMention(init + [e], om'[j].0) == FirstMention(init, om[j].0) < |init|
    {
      MentionsAppended(init, e, om[j].0);
    }
  }

  lemma SummaryUpdated(om: Ordered, init: seq<string>, e: string, i: nat)
    requires Summarises(om, init) && i < |om| && om[i].0 == Key(e)
    ensures Summarises(Set(om, Key(e), Val(e)), init + [e])
  {
    var k, v := Key(e), Val(e);
    var om' := om[i := (k, v)];
    assert Set(om, k, v) == om' by { SetPresent(om, k, v, i); }
    OrderAppended(om, om', init, e);
    forall j | 0 <= j < |om|
      ensures LastValue(init + [e], om'[j].0, om'[j].1)
    {
      LastValueAppended(init, e, om[j].0, om[j].1);
    }
    assert om'[i].0 == k;
    CoversAppended(om, om', init, e);
  }

  lemma NotMentioned(om: Ordered, init: seq<string>, k: string)
    requires Covers(om, init) && !HasKey(om, k)
    ensures FirstMention(init, k) == |init|
  {
    forall q | 0 <= q < |init|
      ensures Key(init[q]) != k
    {
      assert HasKey(om, Key(init[q]));
    }
  }

  lemma OrderExtended(om: Ordered, init: seq<string>, e: string)
    requires InMentionOrder(om, init) && FirstMention(init, Key(e)) == |init|
    ensures InMentionOrder(om + [(Key(e), Val(e))], init + [e])
  {
    var om', es := om + [(Key(e), Val(e))], init + [e];
    forall j | 0 <= j < |om'|
      ensures FirstMention(es, om'[j].0) == if j < |om| then FirstMention(init, om[j].0) else |init|
    {
      MentionsAppended(init, e, om'[j].0);
    }
  }

  lemma ValuesExtended(om: Ordered, init: seq<string>, e: string)
    requires LastValues(om, init) && !HasKey(om, Key(e))
    ensures LastValues(om + [(Key(e), Val(e))], init + [e])
  {
    var om' := om + [(Key(e), Val(e))];
    forall j | 0 <= j < |om'|
      ensures LastValue(init + [e], om'[j].0, om'[j].1)
    {
      LastValueAppended(init, e, om'[j].0, om'[j].1);
    }
  }

  lemma SummaryExtended(om: Ordered, init: seq<string>, e: string)
    requires Summarises(om, init) && !HasKey(om, Key(e))
    ensures Summarises(Set(om, Key(e), Val(e)), init + [e])
  {
    SetAbsent(om, Key(e), Val(e));
    var om' := om + [(Key(e), Val(e))];
    NotMentioned(om, init, Key(e));
    OrderExtended(om, init, e);
    ValuesExtended(om, init, e);
    assert om'[|om|].0 == Key(e);
    CoversAppended(om, om', init, e);
  }

  /** The merged map summarises the entries. */
  lemma {:induction false} MergedEnvironment(es: seq<string>)
    ensures Summarises(Merge(es), es)
  {
    if es != [] {
      var init, e := es[..|es| - 1], es[|es| - 1];
      MergedEnvironment(init);
      InitAndLast(es);
      if i :| 0 <= i < |Merge(init)| && Merge(init)[i].0 == Key(e) {
        SummaryUpdated(Merge(init), init, e, i);
      } else {
        SummaryExtended(Merge(init), init, e);
      }
    }
  }

  ghost predicate PlainKeys(om: Ordered) { forall i :: 0 <= i < |om| ==> '=' !in om[i].0 }

  function AsMap(om: Ordered): map<string, string> {
    if om == [] then map[] else AsMap(om[..|om| - 1])[om[|om| - 1].0 := om[|om| - 1].1]
  }

  lemma {:induction false} Lookup(om: Ordered, k: string)
    requires DistinctKeys(om)
    ensures k in AsMap(om) <==> HasKey(om, k)
    ensures forall i :: 0 <= i < |om| && om[i].0 == k ==> AsMap(om)[k] == om[i].1
  {
    if om != [] {
      Lookup(om[..|om| - 1], k);
      assert om[|om| - 1].0 == k || (HasKey(om, k) <==> HasKey(om[..|om| - 1], k)) by {
        assert forall i :: 0 <= i < |om| - 1 ==> om[..|om| - 1][i] == om[i];
      }
    }
  }

  /** The merged map is the environment the entries denote. */
  lemma {:induction false} MergeDenotes(es: seq<string>)
    ensures AsMap(Merge(es)) == EnvOf(es)
  {
    if es != [] {
      var init, k, v := es[..|es| - 1], Key(es[|es| - 1]), Val(es[|es| - 1]);
      MergeDenotes(init);
      MergedEnvironment(init);
      MergedEnvironment(es);
      SetDenotes(Merge(init), k, v);
    }
  }

  lemma SetDenotes(om: Ordered, k: string, v: string)
    requires DistinctKeys(om)
    ensures AsMap(Set(om, k, v)) == AsMap(om)[k := v]
  {
    if i :| 0 <= i < |om| && om[i].0 == k {
      SetPresent(om, k, v, i);
      var om' := om[i := (k, v)];
      Lookup(om, k);
      forall x
        ensures x in AsMap(om') <==> x in AsMap(om)[k := v]
        ensures x in AsMap(om') ==> AsMap(om')[x] == AsMap(om)[k := v][x]
      {
        Lookup(om, x);
        Lookup(om', x);
        assert om'[i].0 == k;
        if j :| 0 <= j < |om| && om[j].0 == x {
          assert om'[j].0 == x;
        }
      }
    } else {
      SetAbsent(om, k, v);
      assert (om + [(k, v)])[..|om|] == om;
    }
  }

  lemma {:induction false} MergedKeysArePlain(es: seq<string>)
    ensures PlainKeys(Merge(es))
  {
    if es != [] {
      MergedKeysArePlain(es[..|es| - 1]);
      SetKeepsPlain(Merge(es[..|es| - 1]), Key(es[|es| - 1]), Val(es[|es| - 1]));
    }
  }

  lemma {:induction false} SetKeepsPlain(om: Ordered, k: string, v: string)
    requires PlainKeys(om) && '=' !in k
    ensures PlainKeys(Set(om, k, v))
  {
    if om != [] {
      SetKeepsPlain(om[1..], k, v);
    }
  }

  /** Merging what was printed gives the same map, position by position. */
  lemma {:induction false} MergeSettles(om: Ordered)
    requires DistinctKeys(om) && PlainKeys(om)
    ensures Merge(Entries(om)) == om
  {
    if om != [] {
      var init, last := om[..|om| - 1], om[|om| - 1];
      MergeSettles(init);
      LastEntry(om);
      CutGlued(last.0, '=', last.1);
      SetAbsent(init, last.0, last.1);
      InitAndLast(om);
    }
  }

  lemma {:induction false} EntriesAppended(om: Ordered, k: string, v: string)
    ensures Entries(om + [(k, v)]) == Entries(om) + [k + "=" + v]
  {
    if om == [] {
      assert om + [(k, v)] == [(k, v)] && [(k, v)][1..] == [];
    } else {
      EntriesAppended(om[1..], k, v);
      assert (om + [(k, v)])[1..] == om[1..] + [(k, v)] && (om + [(k, v)])[0] == om[0];
    }
  }

  lemma LastEntry(om: Ordered)
    requires om != []
    ensures Entries(om)[..|om| - 1] == Entries(om[..|om| - 1])
    ensures Entries(om)[|om| - 1] == om[|om| - 1].0 + ['='] + om[|om| - 1].1
  {
    var init, last := om[..|om| - 1], om[|om| - 1];
    EntriesAppended(init, last.0, last.1);
    InitAndLast(om);
    assert init + [(last.0, last.1)] == om;
  }

  /** Printing the merged map loses nothing of the environment. */
  lemma PrintedEnvironment(es: seq<string>)
    ensures Merge(Entries(Merge(es))) == Merge(es)
    ensures EnvOf(Entries(Merge(es))) == EnvOf(es)
  {
    MergedEnvironment(es);
    MergedKeysArePlain(es);
    MergeSettles(Merge(es));
    MergeDenotes(es);
    MergeDenotes(Entries(Merge(es)));
  }

  lemma UpdatedSum(m: map<string, string>, n: map<string, string>, k: string, v: string)
    ensures (m + n)[k := v] == m + n[k := v]
  {
  }

  /** Flag entries override file entries, and no entry removes another's key. */
  lemma {:induction false} FlagsOverrideFiles(fileEnvs: seq<string>, envs: seq<string>)
    ensures EnvOf(fileEnvs + envs) == EnvOf(fileEnvs) + EnvOf(envs)
  {
    if envs == [] {
      assert fileEnvs + envs == fileEnvs;
    } else {
      FlagsOverrideFiles(fileEnvs, envs[..|envs| - 1]);
      var all, last := fileEnvs + envs, envs[|envs| - 1];
      assert all[..|all| - 1] == fileEnvs + envs[..|envs| - 1] && all[|all| - 1] == last;
      UpdatedSum(EnvOf(fileEnvs), EnvOf(envs[..|envs| - 1]), Key(last), Val(last));
    }
  }
}
