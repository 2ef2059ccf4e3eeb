/** The regular expressions Finch's redactors use, with Go's leftmost-first (greedy) choice of match. */
module Regex {
  import opened Replacement

  datatype Regex =
    | Class(chars: set<char>)
    | Cat(first: Regex, second: Regex)
    | Rep(body: Regex, least: nat, most: nat)

  /** The language, by what the expression says and not by how it is searched for. */
  ghost predicate Lang(r: Regex, s: string)
    decreases r, 0
  {
    match r
    case Class(cs) => |s| == 1 && s[0] in cs
    case Cat(x, y) => exists k :: 0 <= k <= |s| && Lang(x, s[..k]) && Lang(y, s[k..])
    case Rep(x, lo, hi) => RepLang(x, lo, hi, s)
  }

  ghost predicate RepLang(x: Regex, lo: nat, hi: nat, s: string)
    decreases x, 1 + hi
  {
    || (lo == 0 && s == "")
    || (hi > 0 && exists k :: 0 <= k <= |s| && Lang(x, s[..k]) && RepLang(x, Less(lo), hi - 1, s[k..]))
  }

  function Less(n: nat): nat { if n == 0 then 0 else n - 1 }

  predicate AtMost(ns: seq<nat>, bound: int) { forall i :: 0 <= i < |ns| ==> ns[i] <= bound }

  /** Lengths of all matches at the start of `s`, in the engine's order of preference. */
  function Ends(r: Regex, s: string): (ns: seq<nat>)
    ensures AtMost(ns, |s|)
    decreases r, 0, 0
  {
    match r
    case Class(cs) => if s != "" && s[0] in cs then [1] else []
    case Cat(x, y) => ThenEnds(Ends(x, s), y, s)
    case Rep(x, lo, hi) => RepEnds(x, lo, hi, s)
  }

  function RepEnds(x: Regex, lo: nat, hi: nat, s: string): (ns: seq<nat>)
    ensures AtMost(ns, |s|)
    decreases x, 1 + hi, 0
  {
    var stop := if lo == 0 then [0] else [];
    if hi == 0 then stop else ThenRepEnds(Ends(x, s), x, Less(lo), hi - 1, s) + stop
  }

  function ThenEnds(ks: seq<nat>, y: Regex, s: string): (ns: seq<nat>)
    requires AtMost(ks, |s|)
    ensures AtMost(ns, |s|)
    decreases y, 0, 1 + |ks|
  {
    if ks == [] then []
    else Shift(ks[0], Ends(y, s[ks[0]..]), |s|) + ThenEnds(ks[1..], y, s)
  }

  function ThenRepEnds(ks: seq<nat>, x: Regex, lo: nat, hi: nat, s: string): (ns: seq<nat>)
    requires AtMost(ks, |s|)
    ensures AtMost(ns, |s|)
    decreases x, 1 + hi, 1 + |ks|
  {
    if ks == [] then []
    else Shift(ks[0], RepEnds(x, lo, hi, s[ks[0]..]), |s|) + ThenRepEnds(ks[1..], x, lo, hi, s)
  }

  function Shift(k: nat, ns: seq<nat>, bound: nat): (r: seq<nat>)
    requires k <= bound && AtMost(ns, bound - k)
    ensures AtMost(r, bound)
    ensures forall n :: n in r <==> n >= k && n - k in ns
  {
    if ns == [] then [] else [k + ns[0]] + Shift(k, ns[1..], bound)
  }

  /** The match the engine takes: the first in order of preference. */
  function FirstMatch(r: Regex): Matcher {
    (s: string) => var ns := Ends(r, s); if ns == [] then 0 else ns[0]
  }

  /** The match of length `n` splits after `k` characters, one of `ks`. */
  predicate SplitsAt(ks: seq<nat>, y: Regex, s: string, n: nat, k: nat)
    requires n <= |s|
  {
    k <= n && k in ks && n - k in Ends(y, s[k..])
  }

  predicate RepSplitsAt(ks: seq<nat>, x: Regex, lo: nat, hi: nat, s: string, n: nat, k: nat)
    requires n <= |s|
  {
    k <= n && k in ks && n - k in RepEnds(x, lo, hi, s[k..])
  }

  lemma SplitsInRest(ks: seq<nat>, y: Regex, s: string, n: nat, k: nat)
    requires n <= |s| && ks != []
    ensures SplitsAt(ks, y, s, n, k) <==> SplitsAt(ks[1..], y, s, n, k) || (k == ks[0] && SplitsAt([k], y, s, n, k))
  {
    assert ks == [ks[0]] + ks[1..];
  }

  lemma ThenEndsStep(ks: seq<nat>, y: Regex, s: string, n: nat)
    requires n <= |s| && AtMost(ks, |s|) && ks != []
    ensures n in ThenEnds(ks, y, s) <==> SplitsAt([ks[0]], y, s, n, ks[0]) || n in ThenEnds(ks[1..], y, s)
  {
  }

  lemma {:induction false} ThenEndsMembers(ks: seq<nat>, y: Regex, s: string, n: nat)
    requires n <= |s| && AtMost(ks, |s|)
    ensures n in ThenEnds(ks, y, s) <==> exists k :: SplitsAt(ks, y, s, n, k)
  {
    if ks != [] {
      ThenEndsMembers(ks[1..], y, s, n);
      ThenEndsStep(ks, y, s, n);
      forall k: nat
        ensures SplitsAt(ks, y, s, n, k)
                <==> SplitsAt(ks[1..], y, s, n, k) || (k == ks[0] && SplitsAt([k], y, s, n, k))
      {
        SplitsInRest(ks, y, s, n, k);
      }
    }
  }

  lemma RepSplitsInRest(ks: seq<nat>, x: Regex, lo: nat, hi: nat, s: string, n: nat, k: nat)
    requires n <= |s| && ks != []
    ensures RepSplitsAt(ks, x, lo, hi, s, n, k)
            <==> RepSplitsAt(ks[1..], x, lo, hi, s, n, k) || (k == ks[0] && RepSplitsAt([k], x, lo, hi, s, n, k))
  {
    assert ks == [ks[0]] + ks[1..];
  }

  lemma ThenRepEndsStep(ks: seq<nat>, x: Regex, lo: nat, hi: nat, s: string, n: nat)
    requires n <= |s| && AtMost(ks, |s|) && ks != []
    ensures n in ThenRepEnds(ks, x, lo, hi, s)
            <==> RepSplitsAt([ks[0]], x, lo, hi, s, n, ks[0]) || n in ThenRepEnds(ks[1..], x, lo, hi, s)
  {
  }

  lemma {:induction false} ThenRepEndsMembers(ks: seq<nat>, x: Regex, lo: nat, hi: nat, s: string, n: nat)
    requires n <= |s| && AtMost(ks, |s|)
    ensures n in ThenRepEnds(ks, x, lo, hi, s) <==> exists k :: RepSplitsAt(ks, x, lo, hi, s, n, k)
  {
    if ks != [] {
      ThenRepEndsMembers(ks[1..], x, lo, hi, s, n);
      ThenRepEndsStep(ks, x, lo, hi, s, n);
      forall k: nat
        ensures RepSplitsAt(ks, x, lo, hi, s, n, k)
                <==> RepSplitsAt(ks[1..], x, lo, hi, s, n, k) || (k == ks[0] && RepSplitsAt([k], x, lo, hi, s, n, k))
      {
        RepSplitsInRest(ks, x, lo, hi, s, n, k);
      }
    }
  }

  /** The text splits after `k` characters into a member of `x` and one of the rest. */
  ghost predicate LangSplitsAt(x: Regex, y: Regex, s: string, k: nat) {
    k <= |s| && Lang(x, s[..k]) && Lang(y, s[k..])
  }

  ghost predicate RepLangSplitsAt(x: Regex, lo: nat, hi: nat, s: string, k: nat) {
    k <= |s| && Lang(x, s[..k]) && RepLang(x, lo, hi, s[k..])
  }

  lemma CatSplits(x: Regex, y: Regex, s: string)
    ensures Lang(Cat(x, y), s) <==> exists k :: LangSplitsAt(x, y, s, k)
  {
    if k: nat :| k <= |s| && Lang(x, s[..k]) && Lang(y, s[k..]) {
      assert LangSplitsAt(x, y, s, k);
    }
  }

  /** `lo` to `hi + 1` repetitions are none, or one and the rest. */
  lemma RepSplits(x: Regex, lo: nat, rest: nat, hi: nat, s: string)
    requires rest == Less(lo)
    ensures RepLang(x, lo, hi + 1, s) <==> (lo == 0 && s == "") || exists k :: RepLangSplitsAt(x, rest, hi, s, k)
  {
    if k: nat :| k <= |s| && Lang(x, s[..k]) && RepLang(x, rest, hi, s[k..]) {
      assert RepLangSplitsAt(x, rest, hi, s, k);
    }
  }

  lemma PartsOfPrefix(s: string, n: nat, k: nat)
    requires k <= n <= |s|
    ensures s[..n][..k] == s[..k] && s[..n][k..] == s[k..][..n - k]
  {
  }

  /** The engine finds exactly the prefixes that are in the language. */
  lemma {:induction false} EndsAreMatches(r: Regex, s: string, n: nat)
    requires n <= |s|
    ensures n in Ends(r, s) <==> Lang(r, s[..n])
    decreases r, 0, 0
  {
    match r
    case Class(cs) =>
    case Cat(x, y) =>
      forall k: nat
        ensures SplitsAt(Ends(x, s), y, s, n, k) <==> LangSplitsAt(x, y, s[..n], k)
      {
        if k <= n {
          EndsAreMatches(x, s, k);
          EndsAreMatches(y, s[k..], n - k);
          PartsOfPrefix(s, n, k);
        }
      }
      ThenEndsMembers(Ends(x, s), y, s, n);
      CatSplits(x, y, s[..n]);
    case Rep(x, lo, hi) => RepEndsAreMatches(x, lo, hi, s, n);
  }

  lemma {:induction false} RepEndsAreMatches(x: Regex, lo: nat, hi: nat, s: string, n: nat)
    requires n <= |s|
    ensures n in RepEnds(x, lo, hi, s) <==> RepLang(x, lo, hi, s[..n])
    decreases x, 1 + hi, 1
  {
    if hi > 0 {
      var l, h: nat := Less(lo), hi - 1;
      forall k: nat
        ensures RepSplitsAt(Ends(x, s), x, l, h, s, n, k) <==> RepLangSplitsAt(x, l, h, s[..n], k)
      {
        SplitsAlike(x, l, h, s, n, k);
      }
      ThenRepEndsMembers(Ends(x, s), x, l, h, s, n);
      RepSplits(x, lo, l, h, s[..n]);
      RepEndsSplit(x, lo, hi, s, n);
    }
  }

  lemma RepEndsSplit(x: Regex, lo: nat, hi: nat, s: string, n: nat)
    requires n <= |s| && hi > 0
    ensures n in RepEnds(x, lo, hi, s)
            <==> (lo == 0 && n == 0) || n in ThenRepEnds(Ends(x, s), x, Less(lo), hi - 1, s)
  {
  }

  lemma {:induction false} SplitsAlike(x: Regex, lo: nat, hi: nat, s: string, n: nat, k: nat)
    requires n <= |s|
    ensures RepSplitsAt(Ends(x, s), x, lo, hi, s, n, k) <==> RepLangSplitsAt(x, lo, hi, s[..n], k)
    decreases x, 1 + hi, 2
  {
    if k <= n {
      EndsAreMatches(x, s, k);
      RepEndsAreMatches(x, lo, hi, s[k..], n - k);
      PartsOfPrefix(s, n, k);
    }
  }

  function Alphabet(r: Regex): set<char> {
    match r
    case Class(cs) => cs
    case Cat(x, y) => Alphabet(x) + Alphabet(y)
    case Rep(x, _, _) => Alphabet(x)
  }

  function Shortest(r: Regex): nat {
    match r
    case Class(_) => 1
    case Cat(x, y) => Shortest(x) + Shortest(y)
    case Rep(x, lo, _) => lo * Shortest(x)
  }

  lemma {:induction false} MembersAreBounded(r: Regex, s: string)
    requires Lang(r, s)
    ensures Over(Alphabet(r), s) && |s| >= Shortest(r)
    decreases r, 0
  {
    match r
    case Class(_) =>
    case Cat(x, y) =>
      var k :| 0 <= k <= |s| && Lang(x, s[..k]) && Lang(y, s[k..]);
      MembersAreBounded(x, s[..k]);
      MembersAreBounded(y, s[k..]);
      assert s == s[..k] + s[k..];
    case Rep(x, lo, hi) => RepMembersAreBounded(x, lo, hi, s);
  }

  lemma {:induction false} RepMembersAreBounded(x: Regex, lo: nat, hi: nat, s: string)
    requires RepLang(x, lo, hi, s)
    ensures Over(Alphabet(x), s) && |s| >= lo * Shortest(x)
    decreases x, 1 + hi
  {
    if !(lo == 0 && s == "") {
      var k :| 0 <= k <= |s| && Lang(x, s[..k]) && RepLang(x, Less(lo), hi - 1, s[k..]);
      MembersAreBounded(x, s[..k]);
      RepMembersAreBounded(x, Less(lo), hi - 1, s[k..]);
      assert s == s[..k] + s[k..];
      OneMoreTime(lo, Shortest(x));
    }
  }

  lemma OneMoreTime(n: nat, m: nat)
    ensures n * m <= m + Less(n) * m
  {
    if n > 0 {
      assert n * m == m + (n - 1) * m;
    }
  }

  ghost function LanguageOf(r: Regex): Language { s => Lang(r, s) }

  /** For an expression that matches no empty text, the engine's choice is exact. */
  lemma EngineIsSound(r: Regex)
    ensures Fits(FirstMatch(r)) && Sound(FirstMatch(r), LanguageOf(r))
  {
    forall s | 0 < FirstMatch(r)(s) <= |s|
      ensures Lang(r, s[..FirstMatch(r)(s)])
    {
      assert Ends(r, s)[0] in Ends(r, s);
      EndsAreMatches(r, s, Ends(r, s)[0]);
    }
  }

  lemma EngineIsComplete(r: Regex)
    requires Shortest(r) > 0
    ensures Complete(FirstMatch(r), LanguageOf(r))
  {
    forall s, n | 0 < n <= |s| && Lang(r, s[..n])
      ensures FirstMatch(r)(s) > 0
    {
      EndsAreMatches(r, s, n);
      var ns := Ends(r, s);
      assert ns[0] in ns;
      EndsAreMatches(r, s, ns[0]);
      MembersAreBounded(r, s[..ns[0]]);
    }
  }

  lemma MembersUseAlphabet(r: Regex)
    requires Shortest(r) > 0
    ensures OverAlphabet(LanguageOf(r), Alphabet(r))
  {
    forall x | Lang(r, x)
      ensures x != "" && Over(Alphabet(r), x)
    {
      MembersAreBounded(r, x);
    }
  }
}
