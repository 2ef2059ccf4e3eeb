/** Leftmost, non-overlapping replacement of every match of a pattern, and what it leaves behind. */
module Replacement {

  /** A matcher gives the length of the match at the start of its argument, 0 for none. */
  type Matcher = string -> nat
  type Language = string -> bool

  ghost predicate Fits(m: Matcher) { forall s :: m(s) <= |s| }

  /** Whatever the matcher takes is in the language. */
  ghost predicate Sound(m: Matcher, l: Language) { forall s :: 0 < m(s) <= |s| ==> l(s[..m(s)]) }

  /** When some non-empty prefix is in the language, the matcher takes a prefix. */
  ghost predicate Complete(m: Matcher, l: Language) {
    forall s, n :: 0 < n <= |s| && l(s[..n]) ==> m(s) > 0
  }

  ghost predicate Absent(l: Language, s: string) {
    forall i, j :: 0 <= i <= j <= |s| ==> !l(s[i..j])
  }

  ghost predicate Over(a: set<char>, s: string) { forall i :: 0 <= i < |s| ==> s[i] in a }

  /** Members of the language are non-empty and use only the alphabet `a`. */
  ghost predicate OverAlphabet(l: Language, a: set<char>) { forall x :: l(x) ==> x != "" && Over(a, x) }

  /** A replacement text that no member of a language over `a` can overlap from outside. */
  ghost predicate Guarded(t: string, a: set<char>) {
    t != "" && t[0] !in a && t[|t| - 1] !in a
  }

  function ReplaceAll(m: Matcher, s: string, t: string): string
    requires Fits(m)
    decreases |s|
  {
    if s == "" then ""
    else if m(s) > 0 then t + ReplaceAll(m, s[m(s)..], t)
    else [s[0]] + ReplaceAll(m, s[1..], t)
  }

  /** A prefix of the output that avoids the replacement's first character was copied from the input. */
  lemma {:induction false} CopiedPrefix(m: Matcher, s: string, t: string, a: set<char>, j: nat)
    requires Fits(m) && t != "" && t[0] !in a
    requires j <= |ReplaceAll(m, s, t)| && Over(a, ReplaceAll(m, s, t)[..j])
    ensures j <= |s| && s[..j] == ReplaceAll(m, s, t)[..j]
    decreases |s|
  {
    var out := ReplaceAll(m, s, t);
    if s != "" && j > 0 {
      assert out[..j][0] == out[0];
      if m(s) == 0 {
        var rest := ReplaceAll(m, s[1..], t);
        assert forall i :: 0 <= i < j - 1 ==> rest[i] == out[..j][i + 1];
        CopiedPrefix(m, s[1..], t, a, j - 1);
        assert s[..j] == [s[0]] + s[1..][..j - 1];
        assert out[..j] == [s[0]] + rest[..j - 1];
      }
    }
  }

  /** The leftmost-replacement theorem: nothing of the replaced language survives. */
  lemma {:induction false} NoneSurvives(m: Matcher, l: Language, a: set<char>, s: string, t: string)
    requires Fits(m) && Complete(m, l) && OverAlphabet(l, a)
    requires Guarded(t, a) && Absent(l, t)
    ensures Absent(l, ReplaceAll(m, s, t))
    decreases |s|
  {
    if s != "" {
      var out := ReplaceAll(m, s, t);
      var head := if m(s) > 0 then t else [s[0]];
      var tail := if m(s) > 0 then s[m(s)..] else s[1..];
      NoneSurvives(m, l, a, tail, t);
      forall i, j | 0 <= i <= j <= |out|
        ensures !l(out[i..j])
      {
        if l(out[i..j]) {
          StraddlesNothing(l, a, head, ReplaceAll(m, tail, t), i, j);
          if i == 0 && m(s) == 0 {
            assert out[..j] == out[i..j];
            CopiedPrefix(m, s, t, a, j);
          }
        }
      }
    }
  }

  lemma SliceOfTail(head: string, rest: string, i: nat, j: nat)
    requires |head| <= i <= j <= |head + rest|
    ensures (head + rest)[i..j] == rest[i - |head|..j - |head|]
  {
  }

  /** A member found in `head + rest` starts in `head` only if it covers none of head's last guard. */
  lemma StraddlesNothing(l: Language, a: set<char>, head: string, rest: string, i: nat, j: nat)
    requires i <= j <= |head + rest| && head != "" && OverAlphabet(l, a)
    requires l((head + rest)[i..j])
    requires Absent(l, rest)
    ensures i < j && i < |head|
    ensures |head| <= j ==> head[|head| - 1] in a
    ensures j <= |head| ==> (head + rest)[i..j] == head[i..j]
  {
    if |head| <= i {
      SliceOfTail(head, rest, i, j);
    } else if |head| <= j {
      assert (head + rest)[i..j][|head| - 1 - i] == head[|head| - 1];
    }
  }

  /** Replacing one language brings back no member of another that was absent before. */
  lemma {:induction false} OthersStayAbsent(m: Matcher, l: Language, a: set<char>, s: string, t: string)
    requires Fits(m) && OverAlphabet(l, a)
    requires Guarded(t, a) && Absent(l, t) && Absent(l, s)
    ensures Absent(l, ReplaceAll(m, s, t))
    decreases |s|
  {
    if s != "" {
      var out := ReplaceAll(m, s, t);
      var head := if m(s) > 0 then t else [s[0]];
      var k := if m(s) > 0 then m(s) else 1;
      AbsentFrom(l, s, k);
      OthersStayAbsent(m, l, a, s[k..], t);
      forall i, j | 0 <= i <= j <= |out|
        ensures !l(out[i..j])
      {
        if l(out[i..j]) {
          StraddlesNothing(l, a, head, ReplaceAll(m, s[k..], t), i, j);
          if i == 0 && m(s) == 0 {
            assert out[..j] == out[i..j];
            CopiedPrefix(m, s, t, a, j);
            PrefixAbsent(l, s, j);
          }
        }
      }
    }
  }

  lemma AbsentFrom(l: Language, s: string, k: nat)
    requires Absent(l, s) && k <= |s|
    ensures Absent(l, s[k..])
  {
    forall i, j | 0 <= i <= j <= |s[k..]|
      ensures !l(s[k..][i..j])
    {
      assert s[k..][i..j] == s[k + i..k + j];
    }
  }

  lemma PrefixAbsent(l: Language, s: string, n: nat)
    requires Absent(l, s) && n <= |s|
    ensures !l(s[..n])
  {
    assert s[0..n] == s[..n];
  }

  /** With nothing to replace, the text is returned as it is. */
  lemma {:induction false} NothingToReplace(m: Matcher, l: Language, s: string, t: string)
    requires Fits(m) && Sound(m, l) && Absent(l, s)
    ensures ReplaceAll(m, s, t) == s
    decreases |s|
  {
    if s != "" {
      PrefixAbsent(l, s, m(s));
      AbsentFrom(l, s, 1);
      NothingToReplace(m, l, s[1..], t);
    }
  }

  /** The text between matches: one piece more than there are matches. */
  function Gaps(m: Matcher, s: string): (gaps: seq<string>)
    requires Fits(m)
    ensures |gaps| == |Taken(m, s)| + 1
    decreases |s|
  {
    if s == "" then [""]
    else if m(s) > 0 then [""] + Gaps(m, s[m(s)..])
    else
      var gaps := Gaps(m, s[1..]);
      [[s[0]] + gaps[0]] + gaps[1..]
  }

  /** The matches, in order. */
  function Taken(m: Matcher, s: string): seq<string>
    requires Fits(m)
    decreases |s|
  {
    if s == "" then []
    else if m(s) > 0 then [s[..m(s)]] + Taken(m, s[m(s)..])
    else Taken(m, s[1..])
  }

  function Weave(gaps: seq<string>, between: seq<string>): string
    requires |gaps| == |between| + 1
  {
    if between == [] then gaps[0] else gaps[0] + between[0] + Weave(gaps[1..], between[1..])
  }

  lemma {:induction false} TakenAreMatches(m: Matcher, l: Language, s: string)
    requires Fits(m) && Sound(m, l)
    ensures forall i :: 0 <= i < |Taken(m, s)| ==> l(Taken(m, s)[i])
    ensures s == Weave(Gaps(m, s), Taken(m, s))
    decreases |s|
  {
    if s != "" {
      var k := if m(s) > 0 then m(s) else 1;
      TakenAreMatches(m, l, s[k..]);
      assert s == s[..k] + s[k..];
      if m(s) > 0 {
        WovenFirst(s[..k], Gaps(m, s[k..]), Taken(m, s[k..]));
      } else {
        PushIntoFirstGap(s[0], Gaps(m, s[1..]), Taken(m, s[1..]));
      }
    }
  }

  /** The output is the gaps of the input, in order, around copies of `t`. */
  lemma {:induction false} GapsAreKept(m: Matcher, s: string, t: string)
    requires Fits(m)
    ensures ReplaceAll(m, s, t) == Weave(Gaps(m, s), Copies(|Taken(m, s)|, t))
    decreases |s|
  {
    if s != "" {
      var k := if m(s) > 0 then m(s) else 1;
      GapsAreKept(m, s[k..], t);
      var copies := Copies(|Taken(m, s[k..])|, t);
      if m(s) > 0 {
        WovenFirst(t, Gaps(m, s[k..]), copies);
      } else {
        PushIntoFirstGap(s[0], Gaps(m, s[1..]), copies);
      }
    }
  }

  lemma WovenFirst(t: string, gaps: seq<string>, between: seq<string>)
    requires |gaps| == |between| + 1
    ensures Weave([""] + gaps, [t] + between) == t + Weave(gaps, between)
  {
    assert ([""] + gaps)[1..] == gaps && ([t] + between)[1..] == between;
    assert "" + t == t;
  }

  lemma PushIntoFirstGap(c: char, gaps: seq<string>, between: seq<string>)
    requires |gaps| == |between| + 1
    ensures Weave([[c] + gaps[0]] + gaps[1..], between) == [c] + Weave(gaps, between)
  {
  }

  function Copies(n: nat, t: string): (copies: seq<string>)
    ensures |copies| == n && forall i :: 0 <= i < n ==> copies[i] == t
  {
    if n == 0 then [] else [t] + Copies(n - 1, t)
  }

  function Total(texts: seq<string>): nat {
    if texts == [] then 0 else |texts[0]| + Total(texts[1..])
  }

  lemma {:induction false} WeaveLength(gaps: seq<string>, n: nat, t: string)
    requires |gaps| == n + 1
    ensures |Weave(gaps, Copies(n, t))| == Total(gaps) + n * |t|
  {
    if n > 0 {
      WeaveLength(gaps[1..], n - 1, t);
      assert Copies(n, t)[1..] == Copies(n - 1, t);
      assert n * |t| == |t| + (n - 1) * |t|;
    }
  }
}
