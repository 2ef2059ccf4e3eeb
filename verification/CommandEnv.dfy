/** The environment of a limactl command: entries replaced in place, or appended. */
module CommandEnv {
  import opened Wrappers
  import opened Strings

  function Entry(name: string, value: string): string { name + "=" + value }

  function Name(entry: string): string { Before(entry, '=') }

  /** `entry` gives `name` a value: "name=" is its beginning. */
  predicate Sets(entry: string, name: string) { name + "=" <= entry }

  function FirstSetting(env: seq<string>, name: string): (i: nat)
    ensures i <= |env|
    ensures forall k :: 0 <= k < i ==> !Sets(env[k], name)
    ensures i < |env| ==> Sets(env[i], name)
  {
    if env == [] || Sets(env[0], name) then 0 else 1 + FirstSetting(env[1..], name)
  }

  function ReplaceOrAppend(env: seq<string>, name: string, entry: string): seq<string> {
    var i := FirstSetting(env, name);
    if i < |env| then env[i := entry] else env + [entry]
  }

  /** Overwrites the first setting of `name` where it stands, or makes a longer copy. */
  method ReplaceOrAppendInPlace(env: array<string>, name: string, entry: string) returns (r: array<string>)
    modifies env
    ensures r[..] == ReplaceOrAppend(old(env[..]), name, entry)
    ensures FirstSetting(old(env[..]), name) < env.Length ==> r == env
    ensures FirstSetting(old(env[..]), name) == env.Length ==> fresh(r) && env[..] == old(env[..])
  {
    var i := 0;
    while i < env.Length && !Sets(env[i], name)
      invariant i <= env.Length && forall k :: 0 <= k < i ==> !Sets(env[k], name)
    {
      i := i + 1;
    }
    FirstIs(env[..], name, i);
    if i < env.Length {
      env[i] := entry;
      r := env;
    } else {
      r := new string[env.Length + 1](k requires 0 <= k <= env.Length reads env =>
        if k < env.Length then env[k] else entry);
      assert r[..] == env[..] + [entry];
    }
  }

  lemma FirstIs(env: seq<string>, name: string, i: nat)
    requires i <= |env| && (forall k :: 0 <= k < i ==> !Sets(env[k], name)) && (i < |env| ==> Sets(env[i], name))
    ensures FirstSetting(env, name) == i
  {
    var j := FirstSetting(env, name);
    assert !(i < j) && !(j < i);
  }

  // ---- a map update, on environments that name each variable once ----

  ghost predicate DistinctNames(env: seq<string>) {
    forall i, j :: 0 <= i < j < |env| ==> Name(env[i]) != Name(env[j])
  }

  /** What the first setting of a variable says. */
  function FirstValue(env: seq<string>, name: string): Option<string> {
    var i := FirstSetting(env, name);
    if i < |env| then Some(env[i][|name| + 1..]) else None
  }

  /** What the last setting of a variable says: the one a process started with the environment sees. */
  function LastValue(env: seq<string>, name: string): Option<string> {
    if env == [] then None
    else if Sets(env[|env| - 1], name) then Some(env[|env| - 1][|name| + 1..])
    else LastValue(env[..|env| - 1], name)
  }

  lemma SetsIsNamed(entry: string, name: string)
    requires '=' !in name
    ensures Sets(entry, name) <==> '=' in entry && Name(entry) == name
    ensures Sets(entry, name) ==> entry == Entry(name, entry[|name| + 1..])
  {
    if Sets(entry, name) {
      assert entry == name + ['='] + entry[|name| + 1..];
      CutGlued(name, '=', entry[|name| + 1..]);
    }
    if '=' in entry && Name(entry) == name {
      CutRejoins(entry, '=');
    }
  }

  lemma EntrySets(name: string, value: string, other: string)
    requires '=' !in name && '=' !in other
    ensures Sets(Entry(name, value), other) <==> name == other
    ensures Entry(name, value)[|name| + 1..] == value && Name(Entry(name, value)) == name
  {
    assert Entry(name, value) == name + ['='] + value;
    CutGlued(name, '=', value);
    SetsIsNamed(Entry(name, value), other);
    SetsIsNamed(Entry(name, value), name);
  }

  /** Every name keeps its value and every entry its place, except the one that is set; the names stay distinct,
      if and only if the variable is not there as a bare name without a value. */
  lemma UpdatesLikeAMap(env: seq<string>, name: string, value: string)
    requires DistinctNames(env) && '=' !in name
    ensures var r := ReplaceOrAppend(env, name, Entry(name, value));
            && (forall other :: '=' !in other ==>
                  FirstValue(r, other) == if other == name then Some(value) else FirstValue(env, other))
            && (forall i :: 0 <= i < |env| && !Sets(env[i], name) ==> r[i] == env[i])
            && |r| == (if FirstSetting(env, name) < |env| then |env| else |env| + 1)
            && (DistinctNames(r) <==> name !in env)
  {
    var r := ReplaceOrAppend(env, name, Entry(name, value));
    forall other | '=' !in other
      ensures FirstValue(r, other) == if other == name then Some(value) else FirstValue(env, other)
    {
      UpdatedValue(env, name, value, other);
    }
    OthersStay(env, name, value);
    DistinctIff(env, name, value);
  }

  lemma UpdatedValue(env: seq<string>, name: string, value: string, other: string)
    requires '=' !in name && '=' !in other
    ensures FirstValue(ReplaceOrAppend(env, name, Entry(name, value)), other)
            == if other == name then Some(value) else FirstValue(env, other)
  {
    var r := ReplaceOrAppend(env, name, Entry(name, value));
    var i, j := FirstSetting(env, name), FirstSetting(env, other);
    EntrySets(name, value, other);
    if other == name {
      FirstIs(r, name, i);
    } else {
      if i < |env| {
        SetsIsNamed(env[i], name);
        SetsIsNamed(env[i], other);
      }
      FirstIs(r, other, if j < |env| then j else |r|);
    }
  }

  lemma OthersStay(env: seq<string>, name: string, value: string)
    requires DistinctNames(env) && '=' !in name
    ensures var r := ReplaceOrAppend(env, name, Entry(name, value));
            |r| >= |env| && forall i :: 0 <= i < |env| && !Sets(env[i], name) ==> r[i] == env[i]
  {
  }

  lemma DistinctIff(env: seq<string>, name: string, value: string)
    requires DistinctNames(env) && '=' !in name
    ensures DistinctNames(ReplaceOrAppend(env, name, Entry(name, value))) <==> name !in env
  {
    var r := ReplaceOrAppend(env, name, Entry(name, value));
    var i := FirstSetting(env, name);
    EntrySets(name, value, name);
    BareName(name);
    if name in env {
      var k :| 0 <= k < |env| && env[k] == name;
      if i < |env| {
        SetsIsNamed(env[i], name);
      } else {
        assert Name(r[k]) == Name(r[|env|]);
      }
    } else if i < |env| {
      SetsIsNamed(env[i], name);
      assert forall k :: 0 <= k < |env| ==> Name(r[k]) == Name(env[k]);
    } else {
      forall k | 0 <= k < |env|
        ensures Name(r[k]) != name
      {
        SetsIsNamed(env[k], name);
        if Name(env[k]) == name {
          NamedBare(env[k], name);
        }
      }
    }
  }

  lemma BareName(name: string)
    requires '=' !in name
    ensures Name(name) == name
  {
    assert name[..|name|] == name;
  }

  lemma NamedBare(entry: string, name: string)
    requires '=' !in entry && Name(entry) == name
    ensures entry == name
  {
    BareName(entry);
  }

  // ---- environments that name a variable more than once ----

  lemma {:induction false} LastValueIs(env: seq<string>, name: string, i: nat)
    requires i < |env| && Sets(env[i], name) && forall k :: i < k < |env| ==> !Sets(env[k], name)
    ensures LastValue(env, name) == Some(env[i][|name| + 1..])
    decreases |env|
  {
    if i < |env| - 1 {
      LastValueIs(env[..|env| - 1], name, i);
    }
  }

  lemma LastSettingExists(env: seq<string>, name: string) returns (i: nat)
    requires FirstSetting(env, name) < |env|
    ensures FirstSetting(env, name) <= i < |env| && Sets(env[i], name)
    ensures forall k :: i < k < |env| ==> !Sets(env[k], name)
  {
    var first := FirstSetting(env, name);
    i := |env| - 1;
    while !Sets(env[i], name)
      invariant first <= i < |env| && forall k :: i < k < |env| ==> !Sets(env[k], name)
      decreases i
    {
      i := i - 1;
    }
  }

  /** The started process sees the new value if and only if no later setting says something else: only the first
      of several settings is replaced. */
  lemma SeenIff(env: seq<string>, name: string, value: string)
    requires '=' !in name
    ensures LastValue(ReplaceOrAppend(env, name, Entry(name, value)), name) == Some(value)
            <==> (forall k :: FirstSetting(env, name) < k < |env| ==> !Sets(env[k], name))
                 || LastValue(env, name) == Some(value)
  {
    var r := ReplaceOrAppend(env, name, Entry(name, value));
    var i := FirstSetting(env, name);
    EntrySets(name, value, name);
    if i < |env| {
      var last := LastSettingExists(env, name);
      LastValueIs(env, name, last);
      LastValueIs(r, name, last);
    } else {
      LastValueIs(r, name, |env|);
    }
  }

  /** The environment in which limactl is run. */
  function Limactl(env: seq<string>, limaHome: string, path: string): seq<string> {
    ReplaceOrAppend(ReplaceOrAppend(env, "LIMA_HOME", Entry("LIMA_HOME", limaHome)), "PATH", Entry("PATH", path))
  }

  /** Of an environment that gives each variable once a value, both settings and nothing else are changed. */
  lemma LimactlSeesBoth(env: seq<string>, limaHome: string, path: string)
    requires DistinctNames(env) && forall i :: 0 <= i < |env| ==> '=' in env[i]
    ensures var r := Limactl(env, limaHome, path);
            && DistinctNames(r)
            && FirstValue(r, "LIMA_HOME") == Some(limaHome) && FirstValue(r, "PATH") == Some(path)
            && (forall other :: '=' !in other && other != "LIMA_HOME" && other != "PATH" ==>
                  FirstValue(r, other) == FirstValue(env, other))
            && |env| <= |r| <= |env| + 2
  {
    assert '=' !in "LIMA_HOME" && '=' !in "PATH" && |"PATH"| == 4 && |"LIMA_HOME"| == 9;
    TwoUpdates(env, "LIMA_HOME", limaHome, "PATH", path);
  }

  lemma TwoUpdates(env: seq<string>, n: string, v: string, n': string, v': string)
    requires DistinctNames(env) && (forall i :: 0 <= i < |env| ==> '=' in env[i])
    requires '=' !in n && '=' !in n' && n != n'
    ensures var r := ReplaceOrAppend(ReplaceOrAppend(env, n, Entry(n, v)), n', Entry(n', v'));
            && DistinctNames(r) && FirstValue(r, n) == Some(v) && FirstValue(r, n') == Some(v')
            && (forall other :: '=' !in other && other != n && other != n' ==> FirstValue(r, other) == FirstValue(env, other))
            && |env| <= |r| <= |env| + 2
  {
    var first := ReplaceOrAppend(env, n, Entry(n, v));
    UpdatesLikeAMap(env, n, v);
    AllHaveValues(env, n, v);
    UpdatesLikeAMap(first, n', v');
  }

  lemma AllHaveValues(env: seq<string>, n: string, v: string)
    requires forall i :: 0 <= i < |env| ==> '=' in env[i]
    ensures var r := ReplaceOrAppend(env, n, Entry(n, v)); forall i :: 0 <= i < |r| ==> '=' in r[i]
  {
    assert Entry(n, v)[|n|] == '=';
  }
}
