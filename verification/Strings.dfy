/** The part of Go's strings package that Finch's text code relies on, over one-byte characters. */
module Strings {

  /** True iff `sub` occurs in `s` as a contiguous block. */
  predicate Occurs(sub: string, s: string) {
    exists i, j :: 0 <= i <= j <= |s| && s[i..j] == sub
  }

  /** Position of the first `c`, or |s| when there is none. */
  function Index(s: string, c: char): (i: nat)
    ensures i <= |s|
    ensures forall k :: 0 <= k < i ==> s[k] != c
    ensures i < |s| ==> s[i] == c
    ensures i == |s| <==> c !in s
  {
    if s == "" || s[0] == c then 0 else 1 + Index(s[1..], c)
  }

  /** Text before the first `c`; the whole string when there is none. */
  function Before(s: string, c: char): string { s[..Index(s, c)] }

  /** Text after the first `c`; empty when there is none. */
  function After(s: string, c: char): string {
    if Index(s, c) < |s| then s[Index(s, c) + 1..] else ""
  }

  lemma IndexUnique(s: string, c: char, i: nat)
    requires i <= |s| && (forall k :: 0 <= k < i ==> s[k] != c) && (i < |s| ==> s[i] == c)
    ensures Index(s, c) == i
  {
  }

  /** Cutting `k + [c] + v` gives back `k` and `v` when `k` holds no `c`. */
  lemma CutGlued(k: string, c: char, v: string)
    requires c !in k
    ensures Before(k + [c] + v, c) == k && After(k + [c] + v, c) == v
  {
    var s := k + [c] + v;
    assert s[..|k|] == k;
    assert forall i :: 0 <= i < |k| ==> s[i] == k[i];
    IndexUnique(s, c, |k|);
    assert s[|k| + 1..] == v;
  }

  lemma CutRejoins(s: string, c: char)
    requires c in s
    ensures s == Before(s, c) + [c] + After(s, c)
  {
  }

  function Split(s: string, c: char): (parts: seq<string>)
    ensures |parts| > 0
    ensures forall p :: p in parts ==> c !in p
    decreases |s|
  {
    if c !in s then [s] else [Before(s, c)] + Split(After(s, c), c)
  }

  function Join(parts: seq<string>, c: char): string {
    if parts == [] then ""
    else if |parts| == 1 then parts[0]
    else parts[0] + [c] + Join(parts[1..], c)
  }

  lemma {:induction false} SplitJoined(parts: seq<string>, c: char)
    requires |parts| > 0 && forall p :: p in parts ==> c !in p
    ensures Split(Join(parts, c), c) == parts
  {
    if |parts| > 1 {
      SplitJoined(parts[1..], c);
      CutGlued(parts[0], c, Join(parts[1..], c));
      assert c in parts[0] + [c] + Join(parts[1..], c);
    } else {
      assert parts == [parts[0]];
    }
  }

  lemma {:induction false} JoinAppended(a: seq<string>, b: seq<string>, c: char)
    requires |a| > 0 && |b| > 0
    ensures Join(a + b, c) == Join(a, c) + [c] + Join(b, c)
  {
    if |a| == 1 {
      assert (a + b)[1..] == b;
    } else {
      assert (a + b)[1..] == a[1..] + b;
      JoinAppended(a[1..], b, c);
    }
  }

  predicate IsSpace(c: char) { c in {' ', '\t', '\n', '\r', '\U{000B}', '\U{000C}'} }

  function TrimLeft(s: string): (t: string)
    ensures t != "" ==> !IsSpace(t[0])
    ensures forall c :: c in t ==> c in s
    ensures |t| <= |s|
    ensures s != "" && !IsSpace(s[0]) ==> t == s
  {
    if s != "" && IsSpace(s[0]) then TrimLeft(s[1..]) else s
  }

  function TrimRight(s: string): (t: string)
    ensures t <= s
    ensures t != "" ==> !IsSpace(t[|t| - 1])
    ensures s != "" && !IsSpace(s[|s| - 1]) ==> t == s
  {
    if s != "" && IsSpace(s[|s| - 1]) then TrimRight(s[..|s| - 1]) else s
  }

  /** Drops white space from both ends. */
  function Trim(s: string): (t: string)
    ensures forall c :: c in t ==> c in s
    ensures t != "" ==> !IsSpace(t[0]) && !IsSpace(t[|t| - 1])
  {
    TrimRight(TrimLeft(s))
  }

  lemma TrimTwice(s: string)
    ensures Trim(Trim(s)) == Trim(s)
  {
  }

  lemma {:induction false} TrimLeftKeeps(s: string, c: char)
    requires c in s && !IsSpace(c)
    ensures c in TrimLeft(s)
  {
    if IsSpace(s[0]) {
      TrimLeftKeeps(s[1..], c);
    }
  }

  lemma {:induction false} TrimRightKeeps(s: string, c: char)
    requires c in s && !IsSpace(c)
    ensures c in TrimRight(s)
  {
    if IsSpace(s[|s| - 1]) {
      TrimRightKeeps(s[..|s| - 1], c);
    }
  }

  /** Only white space is trimmed. */
  lemma TrimKeeps(s: string, c: char)
    requires c in s && !IsSpace(c)
    ensures c in Trim(s)
  {
    TrimLeftKeeps(s, c);
    TrimRightKeeps(TrimLeft(s), c);
  }

  lemma Regrouped<T>(a: seq<T>, b: seq<T>, c: seq<T>)
    ensures a + b + c == a + (b + c)
  {
  }

  lemma InitAndLast<T>(s: seq<T>)
    requires s != []
    ensures s == s[..|s| - 1] + [s[|s| - 1]]
  {
  }
}
