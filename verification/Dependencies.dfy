/** Optional dependencies: probing and installing a group in order, collecting what fails. */
module Dependencies {
  import opened Wrappers

  /** A dependency over a world `W`, which installing it may change in any way. */
  datatype Dependency<!W> = Dependency(requiresRoot: bool, installed: W -> bool, install: W -> (W, bool))

  /** A group; a missing dependency is passed over. */
  type Deps<!W> = seq<Option<Dependency<W>>>

  datatype Event = Probed(i: nat) | Described | Attempted(i: nat, ok: bool)

  /** The dependency is there and not installed. */
  predicate Missing<W>(d: Option<Dependency<W>>, w: W) { d.Some? && !d.value.installed(w) }

  function Installing<W>(d: Option<Dependency<W>>, w: W): W {
    if Missing(d, w) then d.value.install(w).0 else w
  }

  /** The world before dependency `n`'s turn. */
  function World<W>(deps: Deps<W>, w: W, n: nat): W
    requires n <= |deps|
    decreases n
  {
    if n == 0 then w else Installing(deps[n - 1], World(deps, w, n - 1))
  }

  /** Dependency `i` is missing when its turn comes. */
  predicate Tried<W>(deps: Deps<W>, w: W, i: nat)
    requires i < |deps|
  {
    Missing(deps[i], World(deps, w, i))
  }

  predicate RootBefore<W>(deps: Deps<W>, w: W, n: nat)
    requires n <= |deps|
    decreases n
  {
    n > 0 && (RootBefore(deps, w, n - 1) || (Tried(deps, w, n - 1) && deps[n - 1].value.requiresRoot))
  }

  /** What a dependency's turn logs, `described` telling whether the description was logged before. */
  function Events<W>(d: Option<Dependency<W>>, w: W, i: nat, described: bool): seq<Event> {
    if d.None? then []
    else if !Missing(d, w) then [Probed(i)]
    else if d.value.requiresRoot && !described then [Probed(i), Described, Attempted(i, d.value.install(w).1)]
    else [Probed(i), Attempted(i, d.value.install(w).1)]
  }

  function Turn<W>(deps: Deps<W>, w: W, i: nat): seq<Event>
    requires i < |deps|
  {
    Events(deps[i], World(deps, w, i), i, RootBefore(deps, w, i))
  }

  function Log<W>(deps: Deps<W>, w: W, n: nat): seq<Event>
    requires n <= |deps|
    decreases n
  {
    if n == 0 then [] else Log(deps, w, n - 1) + Turn(deps, w, n - 1)
  }

  predicate AnyFailed(log: seq<Event>) { exists k :: 0 <= k < |log| && log[k].Attempted? && !log[k].ok }

  /** Installs a group; `failed` tells whether there is a combined error. */
  method InstallOptional<W>(deps: Deps<W>, w0: W) returns (w: W, log: seq<Event>, failed: bool)
    ensures w == World(deps, w0, |deps|) && log == Log(deps, w0, |deps|)
    ensures failed <==> AnyFailed(log)
  {
    w, log, failed := w0, [], false;
    var loggedMessage := false;
    for i := 0 to |deps|
      invariant w == World(deps, w0, i) && log == Log(deps, w0, i)
      invariant loggedMessage <==> RootBefore(deps, w0, i)
      invariant failed <==> AnyFailed(log)
    {
      ghost var before, hadFailed := log, failed;
      if deps[i].Some? {
        var dep := deps[i].value;
        log := log + [Probed(i)];
        if !dep.installed(w) {
          if dep.requiresRoot && !loggedMessage {
            loggedMessage := true;
            log := log + [Described];
          }
          var (w', ok) := dep.install(w);
          w, log, failed := w', log + [Attempted(i, ok)], failed || !ok;
        }
      }
      assert log == before + Turn(deps, w0, i);
      AnyFailedAppended(before, Turn(deps, w0, i));
      TurnFails(deps, w0, i);
      assert failed <==> hadFailed || AnyFailed(Turn(deps, w0, i));
    }
  }

  lemma TurnFails<W>(deps: Deps<W>, w: W, i: nat)
    requires i < |deps|
    ensures AnyFailed(Turn(deps, w, i)) <==> Tried(deps, w, i) && !deps[i].value.install(World(deps, w, i)).1
  {
    var t := Turn(deps, w, i);
    if Tried(deps, w, i) {
      assert t[|t| - 1] == Attempted(i, deps[i].value.install(World(deps, w, i)).1);
    }
  }

  lemma AnyFailedAppended(a: seq<Event>, b: seq<Event>)
    ensures AnyFailed(a + b) <==> AnyFailed(a) || AnyFailed(b)
  {
    if k :| 0 <= k < |a| && a[k].Attempted? && !a[k].ok {
      assert (a + b)[k] == a[k];
    }
    if k :| 0 <= k < |b| && b[k].Attempted? && !b[k].ok {
      assert (a + b)[|a| + k] == b[k];
    }
  }

  // ---- what the log shows ----

  /** The dependencies probed, in order. */
  function Probes(log: seq<Event>): seq<nat> {
    if log == [] then []
    else Probes(log[..|log| - 1]) + (if log[|log| - 1].Probed? then [log[|log| - 1].i] else [])
  }

  /** The dependencies that are there, in order. */
  function Present<W>(deps: Deps<W>, n: nat): seq<nat>
    requires n <= |deps|
  {
    if n == 0 then [] else Present(deps, n - 1) + (if deps[n - 1].Some? then [n - 1] else [])
  }

  lemma {:induction false} ProbesAppended(a: seq<Event>, b: seq<Event>)
    ensures Probes(a + b) == Probes(a) + Probes(b)
  {
    if b == [] {
      assert a + b == a;
    } else {
      ProbesAppended(a, b[..|b| - 1]);
      assert (a + b)[..|a + b| - 1] == a + b[..|b| - 1];
    }
  }

  lemma TurnProbes<W>(deps: Deps<W>, w: W, i: nat)
    requires i < |deps|
    ensures Probes(Turn(deps, w, i)) == if deps[i].Some? then [i] else []
  {
    if deps[i].Some? {
      var first, rest := [Probed(i)], Turn(deps, w, i)[1..];
      assert Turn(deps, w, i) == first + rest;
      assert first[..0] == [];
      ProbesAppended(first, rest);
      NoProbes(rest);
    }
  }

  lemma {:induction false} NoProbes(log: seq<Event>)
    requires forall k :: 0 <= k < |log| ==> !log[k].Probed?
    ensures Probes(log) == []
  {
    if log != [] {
      NoProbes(log[..|log| - 1]);
    }
  }

  /** Each dependency that is there is probed exactly once, in the order of the group. */
  lemma {:induction false} EachProbedOnce<W>(deps: Deps<W>, w: W, n: nat)
    requires n <= |deps|
    ensures Probes(Log(deps, w, n)) == Present(deps, n)
  {
    if n > 0 {
      EachProbedOnce(deps, w, n - 1);
      ProbesAppended(Log(deps, w, n - 1), Turn(deps, w, n - 1));
      TurnProbes(deps, w, n - 1);
    }
  }

  /** An install is attempted exactly at the turns that find the dependency missing, with the outcome it had. */
  lemma {:induction false} AttemptedIffMissing<W>(deps: Deps<W>, w: W, n: nat, i: nat, ok: bool)
    requires i < n <= |deps|
    ensures Attempted(i, ok) in Log(deps, w, n)
            <==> Tried(deps, w, i) && ok == deps[i].value.install(World(deps, w, i)).1
  {
    if i < n - 1 {
      AttemptedIffMissing(deps, w, n - 1, i, ok);
    } else {
      NothingBeforeItsTurn(deps, w, n - 1, i, ok);
    }
  }

  lemma {:induction false} NothingBeforeItsTurn<W>(deps: Deps<W>, w: W, n: nat, i: nat, ok: bool)
    requires n <= i && n <= |deps|
    ensures Attempted(i, ok) !in Log(deps, w, n)
  {
    if n > 0 {
      NothingBeforeItsTurn(deps, w, n - 1, i, ok);
    }
  }

  /** An attempt on a dependency that needs root. */
  predicate RootAttempt<W>(deps: Deps<W>, e: Event) {
    e.Attempted? && e.i < |deps| && deps[e.i].Some? && deps[e.i].value.requiresRoot
  }

  /** The description is logged if and only if something needing root is installed, once, and before it. */
  ghost predicate DescribedFirst<W>(deps: Deps<W>, log: seq<Event>, root: bool) {
    && (Described in log <==> root)
    && (forall a, b :: 0 <= a < b < |log| ==> !(log[a].Described? && log[b].Described?))
    && (forall b :: 0 <= b < |log| && RootAttempt(deps, log[b]) ==> exists a :: 0 <= a < b && log[a].Described?)
  }

  lemma {:induction false} DescriptionOnceAndFirst<W>(deps: Deps<W>, w: W, n: nat)
    requires n <= |deps|
    ensures DescribedFirst(deps, Log(deps, w, n), RootBefore(deps, w, n))
  {
    if n > 0 {
      DescriptionOnceAndFirst(deps, w, n - 1);
      EventsDescribe(deps, World(deps, w, n - 1), n - 1, RootBefore(deps, w, n - 1));
      DescribedAppended(deps, Log(deps, w, n - 1), Turn(deps, w, n - 1),
                        RootBefore(deps, w, n - 1), RootBefore(deps, w, n));
    }
  }

  /** The event before `b` is the description. */
  predicate JustDescribed(turn: seq<Event>, b: nat)
    requires b < |turn|
  {
    b > 0 && turn[b - 1].Described?
  }

  /** What one turn may log, `was` telling whether the description was logged before. */
  ghost predicate DescribesOnce<W>(deps: Deps<W>, turn: seq<Event>, was: bool, now: bool) {
    && (Described in turn <==> now && !was)
    && (forall a, b :: 0 <= a < b < |turn| ==> !(turn[a].Described? && turn[b].Described?))
    && (forall b :: 0 <= b < |turn| && RootAttempt(deps, turn[b]) ==> was || JustDescribed(turn, b))
  }

  lemma EventsDescribe<W>(deps: Deps<W>, w: W, i: nat, was: bool)
    requires i < |deps|
    ensures DescribesOnce(deps, Events(deps[i], w, i, was), was,
                          was || (Missing(deps[i], w) && deps[i].value.requiresRoot))
  {
    var t := Events(deps[i], w, i, was);
    if Missing(deps[i], w) && deps[i].value.requiresRoot && !was {
      DescribingTurn(deps, t, i, Attempted(i, deps[i].value.install(w).1));
    } else {
      PlainTurn(deps, t, was);
    }
  }

  lemma DescribingTurn<W>(deps: Deps<W>, t: seq<Event>, i: nat, last: Event)
    requires t == [Probed(i), Described, last] && last.Attempted?
    ensures DescribesOnce(deps, t, false, true)
  {
    assert t[0] == Probed(i) && t[1] == Described && t[2] == last;
    forall b | 0 <= b < |t| && RootAttempt(deps, t[b])
      ensures JustDescribed(t, b)
    {
      assert b == 2;
    }
  }

  lemma PlainTurn<W>(deps: Deps<W>, t: seq<Event>, was: bool)
    requires forall k :: 0 <= k < |t| ==> !t[k].Described?
    requires !was ==> forall k :: 0 <= k < |t| ==> !RootAttempt(deps, t[k])
    ensures DescribesOnce(deps, t, was, was)
  {
  }

  lemma DescribedAppended<W>(deps: Deps<W>, before: seq<Event>, turn: seq<Event>, was: bool, now: bool)
    requires DescribedFirst(deps, before, was) && DescribesOnce(deps, turn, was, now) && (was ==> now)
    ensures DescribedFirst(deps, before + turn, now)
  {
    var log := before + turn;
    forall b | 0 <= b < |log| && RootAttempt(deps, log[b])
      ensures exists a :: 0 <= a < b && log[a].Described?
    {
      if b < |before| {
        var a :| 0 <= a < b && before[a].Described?;
        assert log[a].Described?;
      } else if was {
        var a :| 0 <= a < |before| && before[a] == Described;
        assert log[a].Described?;
      } else {
        var k := b - |before|;
        assert RootAttempt(deps, turn[k]) && JustDescribed(turn, k);
        assert log[b - 1] == turn[k - 1];
      }
    }
  }

  // ---- groups ----

  /** Groups are installed one after the other, each in the world the one before it left. */
  function WorldAfter<W>(groups: seq<Deps<W>>, w: W, n: nat): W
    requires n <= |groups|
    decreases n
  {
    if n == 0 then w
    else World(groups[n - 1], WorldAfter(groups, w, n - 1), |groups[n - 1]|)
  }

  function GroupLog<W>(groups: seq<Deps<W>>, w: W, n: nat): seq<Event>
    requires n < |groups|
  {
    Log(groups[n], WorldAfter(groups, w, n), |groups[n]|)
  }

  /** Installs every group whatever failed before; `failed` if and only if an attempt failed in some group. */
  method InstallOptionalDeps<W>(groups: seq<Deps<W>>, w0: W) returns (w: W, failed: bool)
    ensures w == WorldAfter(groups, w0, |groups|)
    ensures failed <==> exists g, i :: 0 <= g < |groups| && 0 <= i < |groups[g]|
                          && Attempted(i, false) in GroupLog(groups, w0, g)
  {
    w, failed := w0, false;
    for n := 0 to |groups|
      invariant w == WorldAfter(groups, w0, n)
      invariant failed <==> exists g :: 0 <= g < n && AnyFailed(GroupLog(groups, w0, g))
    {
      var w', log, groupFailed := InstallOptional(groups[n], w);
      ghost var hadFailed := failed;
      w, failed := w', failed || groupFailed;
      assert groupFailed <==> AnyFailed(GroupLog(groups, w0, n));
      if failed && !hadFailed {
        assert AnyFailed(GroupLog(groups, w0, n));
      }
    }
    forall g | 0 <= g < |groups|
      ensures AnyFailed(GroupLog(groups, w0, g))
              <==> exists i :: 0 <= i < |groups[g]| && Attempted(i, false) in GroupLog(groups, w0, g)
    {
      FailureIsAnAttempt(groups[g], WorldAfter(groups, w0, g), |groups[g]|);
    }
  }

  lemma FailureIsAnAttempt<W>(deps: Deps<W>, w: W, n: nat)
    requires n <= |deps|
    ensures AnyFailed(Log(deps, w, n)) <==> exists i :: 0 <= i < n && Attempted(i, false) in Log(deps, w, n)
  {
    var log := Log(deps, w, n);
    if k :| 0 <= k < |log| && log[k].Attempted? && !log[k].ok {
      assert log[k] == Attempted(log[k].i, false);
      AttemptsAreOfEarlier(deps, w, n, log[k].i, false);
      assert Attempted(log[k].i, false) in log;
    }
  }

  lemma AttemptsAreOfEarlier<W>(deps: Deps<W>, w: W, n: nat, i: nat, ok: bool)
    requires n <= |deps|
    ensures Attempted(i, ok) in Log(deps, w, n) ==> i < n
  {
    if n <= i {
      NothingBeforeItsTurn(deps, w, n, i, ok);
    }
  }
}
