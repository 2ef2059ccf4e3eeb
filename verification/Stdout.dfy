/** Replacing strings in a command's buffered standard output. */
module Stdout {
  import opened Strings
  import opened Replacement

  datatype Substitution = Substitution(source: string, target: string)

  function Literal(source: string): Matcher { (s: string) => if source <= s then |source| else 0 }

  ghost function Only(source: string): Language { x => x == source }

  function Letters(s: string): set<char> { set c | c in s }

  /** An empty source matches before every character and at the end. */
  function Spread(s: string, t: string): string {
    if s == "" then t else t + [s[0]] + Spread(s[1..], t)
  }

  function Replaced(s: string, r: Substitution): string {
    if r.source == "" then Spread(s, r.target) else ReplaceAll(Literal(r.source), s, r.target)
  }

  function AllReplaced(s: string, rs: seq<Substitution>): string
    decreases |rs|
  {
    if rs == [] then s else AllReplaced(Replaced(s, rs[0]), rs[1..])
  }

  /** The substitutions are applied one after the other, each to the result of the one before. */
  method ReplaceBytes(s: string, rs: seq<Substitution>) returns (out: string)
    ensures out == AllReplaced(s, rs)
  {
    out := s;
    for i := 0 to |rs|
      invariant AllReplaced(out, rs[i..]) == AllReplaced(s, rs)
    {
      out := Replaced(out, rs[i]);
      assert rs[i..][1..] == rs[i + 1..];
    }
  }

  /** A target no occurrence of `source` can overlap or lie in. */
  ghost predicate Shields(target: string, source: string) {
    target != "" && target[0] !in source && target[|target| - 1] !in source && !Occurs(source, target)
  }

  lemma LiteralIsExact(source: string)
    requires source != ""
    ensures Fits(Literal(source)) && Sound(Literal(source), Only(source)) && Complete(Literal(source), Only(source))
    ensures OverAlphabet(Only(source), Letters(source))
  {
  }

  lemma SourceIsGone(s: string, r: Substitution)
    requires r.source != "" && Shields(r.target, r.source)
    ensures !Occurs(r.source, Replaced(s, r))
  {
    LiteralIsExact(r.source);
    NoneSurvives(Literal(r.source), Only(r.source), Letters(r.source), s, r.target);
  }

  lemma OtherSourceStaysGone(s: string, r: Substitution, source: string)
    requires source != "" && r.source != "" && Shields(r.target, source) && !Occurs(source, s)
    ensures !Occurs(source, Replaced(s, r))
  {
    LiteralIsExact(source);
    LiteralIsExact(r.source);
    OthersStayAbsent(Literal(r.source), Only(source), Letters(source), s, r.target);
  }

  /** After a whole list of substitutions whose targets shield every source, no source is left. */
  lemma {:induction false} NoSourceSurvives(s: string, rs: seq<Substitution>, source: string)
    requires source != "" && forall r :: r in rs ==> r.source != "" && Shields(r.target, source)
    requires !Occurs(source, s) || exists r :: r in rs && r.source == source
    ensures !Occurs(source, AllReplaced(s, rs))
    decreases |rs|
  {
    if rs != [] {
      if rs[0].source == source {
        SourceIsGone(s, rs[0]);
      } else if !Occurs(source, s) {
        OtherSourceStaysGone(s, rs[0], source);
      }
      NoSourceSurvives(Replaced(s, rs[0]), rs[1..], source);
    }
  }

  /** Input and output differ only in that each replaced source became the target. */
  lemma OnlySourcesChange(s: string, r: Substitution)
    requires r.source != ""
    ensures Fits(Literal(r.source))
    ensures var gaps, n := Gaps(Literal(r.source), s), |Taken(Literal(r.source), s)|;
            && s == Weave(gaps, Copies(n, r.source))
            && Replaced(s, r) == Weave(gaps, Copies(n, r.target))
            && |Replaced(s, r)| == |s| + n * (|r.target| - |r.source|)
  {
    var m := Literal(r.source);
    LiteralIsExact(r.source);
    TakenAreMatches(m, Only(r.source), s);
    GapsAreKept(m, s, r.target);
    var n := |Taken(m, s)|;
    assert Taken(m, s) == Copies(n, r.source);
    WeaveLength(Gaps(m, s), n, r.source);
    WeaveLength(Gaps(m, s), n, r.target);
    assert n * (|r.target| - |r.source|) == n * |r.target| - n * |r.source|;
  }

  lemma OneSubstitution(s: string, r: Substitution)
    ensures AllReplaced(s, [r]) == Replaced(s, r)
  {
    assert [r][1..] == [];
  }

  lemma FinchShieldsNerdctl()
    ensures Shields("finch", "nerdctl")
  {
    assert |"nerdctl"| == 7;
  }

  lemma LengthChange(s: string, r: Substitution)
    requires r.source != "" && |r.target| == |r.source| - 2
    ensures Fits(Literal(r.source)) && |Replaced(s, r)| == |s| - 2 * |Taken(Literal(r.source), s)|
  {
    OnlySourcesChange(s, r);
  }

  /** What `finch <command> --help` prints names Finch and never nerdctl. */
  lemma NerdctlBecomesFinch(s: string, r: Substitution)
    requires r == Substitution("nerdctl", "finch")
    ensures !Occurs(r.source, AllReplaced(s, [r]))
    ensures Fits(Literal(r.source)) && |AllReplaced(s, [r])| == |s| - 2 * |Taken(Literal(r.source), s)|
  {
    FinchShieldsNerdctl();
    OneSubstitution(s, r);
    SourceIsGone(s, r);
    LengthChange(s, r);
  }
}
