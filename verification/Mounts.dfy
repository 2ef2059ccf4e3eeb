/** The value of `--mount`: comma-separated `key=value` entries and bare words. */
module Mounts {
  import opened Strings
  import CL = CommandLine

  datatype Mount = Mount(fields: map<string, string>, bare: seq<string>)

  /** One entry: a later key overrides an earlier one; only the text up to a second '=' is kept. */
  function AddEntry(m: Mount, e: string): Mount {
    var parts := Split(e, '=');
    if |parts| < 2 then m.(bare := m.bare + parts)
    else m.(fields := m.fields[Trim(parts[0]) := Trim(parts[1])])
  }

  function ParseEntries(es: seq<string>): Mount {
    if es == [] then Mount(map[], [])
    else AddEntry(ParseEntries(es[..|es| - 1]), es[|es| - 1])
  }

  function Parse(v: string): Mount { ParseEntries(Split(v, ',')) }

  predicate IsBind(m: Mount) { "type" in m.fields && m.fields["type"] == "bind" }

  /** What Finch keeps of a bind mount. */
  function Kept(m: Mount): Mount { m.(fields := m.fields - {"consistency"}) }

  /** `ks` lists every key of `m` once: an order in which Go may visit the map. */
  ghost predicate IsOrder(ks: seq<string>, m: map<string, string>) {
    && (forall i :: 0 <= i < |ks| ==> ks[i] in m)
    && (forall k :: k in m ==> k in ks)
    && (forall i, j :: 0 <= i < j < |ks| ==> ks[i] != ks[j])
  }

  function Entries(ks: seq<string>, m: map<string, string>): (es: seq<string>)
    requires forall i :: 0 <= i < |ks| ==> ks[i] in m
    ensures |es| == |ks| && forall i :: 0 <= i < |ks| ==> es[i] == ks[i] + "=" + m[ks[i]]
  {
    if ks == [] then [] else Entries(ks[..|ks| - 1], m) + [ks[|ks| - 1] + "=" + m[ks[|ks| - 1]]]
  }

  function Print(ks: seq<string>, m: Mount): string
    requires forall i :: 0 <= i < |ks| ==> ks[i] in m.fields
  {
    var s := Join(Entries(ks, m.fields), ',');
    if m.bare == [] then s else s + "," + Join(m.bare, ',')
  }

  /** Go's map printing, visiting the keys in the order `ks`. */
  method MapToString(m: map<string, string>, ks: seq<string>) returns (s: string)
    requires IsOrder(ks, m)
    ensures s == Join(Entries(ks, m), ',')
  {
    var parts: seq<string> := [];
    for i := 0 to |ks|
      invariant parts == Entries(ks[..i], m)
    {
      parts := parts + [ks[i] + "=" + m[ks[i]]];
      assert ks[..i + 1][..i] == ks[..i];
    }
    assert ks[..|ks|] == ks;
    s := Join(parts, ',');
  }

  /** The loop over the entries of a mount value. */
  method ParseMountValue(v: string) returns (m: map<string, string>, ro: seq<string>)
    ensures Mount(m, ro) == Parse(v)
  {
    var entries := Split(v, ',');
    m, ro := map[], [];
    for i := 0 to |entries|
      invariant Mount(m, ro) == ParseEntries(entries[..i])
    {
      var parts := Split(entries[i], '=');
      if |parts| < 2 {
        ro := ro + parts;
      } else {
        m := m[Trim(parts[0]) := Trim(parts[1])];
      }
      assert entries[..i + 1][..i] == entries[..i];
    }
    assert entries[..|entries|] == entries;
  }

  predicate Plain(s: string) { ',' !in s && '=' !in s && Trim(s) == s }

  ghost predicate PlainFields(m: map<string, string>) { forall k :: k in m ==> Plain(k) && Plain(m[k]) }

  lemma {:induction false} ParsedFieldsArePlain(es: seq<string>)
    requires forall e :: e in es ==> ',' !in e
    ensures PlainFields(ParseEntries(es).fields)
    ensures forall b :: b in ParseEntries(es).bare ==> ',' !in b && '=' !in b
  {
    if es != [] {
      ParsedFieldsArePlain(es[..|es| - 1]);
      var e := es[|es| - 1];
      var parts := Split(e, '=');
      SplitPartsComeFrom(e, '=');
      if |parts| >= 2 {
        assert parts[0] in parts && parts[1] in parts;
        TrimTwice(parts[0]);
        TrimTwice(parts[1]);
      }
    }
  }

  lemma {:induction false} SplitPartsComeFrom(s: string, c: char)
    ensures forall p, x :: p in Split(s, c) && x in p ==> x in s
    decreases |s|
  {
    if c in s {
      SplitPartsComeFrom(After(s, c), c);
    }
  }

  lemma AddPrinted(m: Mount, k: string, v: string)
    requires Plain(k) && Plain(v)
    ensures AddEntry(m, k + "=" + v) == m.(fields := m.fields[k := v])
  {
    SplitJoined([k, v], '=');
    assert Join([k, v], '=') == k + "=" + v;
  }

  lemma AddBare(m: Mount, b: string)
    requires '=' !in b
    ensures AddEntry(m, b) == m.(bare := m.bare + [b])
  {
  }

  lemma ParseAppended(es: seq<string>, e: string)
    ensures ParseEntries(es + [e]) == AddEntry(ParseEntries(es), e)
  {
    assert (es + [e])[..|es|] == es;
  }

  lemma ParsePrinted(es: seq<string>, k: string, v: string)
    requires Plain(k) && Plain(v)
    ensures ParseEntries(es + [k + "=" + v]) == ParseEntries(es).(fields := ParseEntries(es).fields[k := v])
  {
    ParseAppended(es, k + "=" + v);
    AddPrinted(ParseEntries(es), k, v);
  }

  function Submap(m: map<string, string>, ks: seq<string>): map<string, string> { map k | k in m && k in ks :: m[k] }

  lemma SubmapAppended(m: map<string, string>, ks: seq<string>, k: string)
    requires k in m
    ensures Submap(m, ks + [k]) == Submap(m, ks)[k := m[k]]
  {
  }

  /** Reading printed entries back, one more key at a time. */
  lemma {:induction false} PrintedEntriesParse(ks: seq<string>, m: map<string, string>)
    requires forall i :: 0 <= i < |ks| ==> ks[i] in m
    requires PlainFields(m)
    ensures ParseEntries(Entries(ks, m)) == Mount(Submap(m, ks), [])
  {
    if ks != [] {
      var init, k := ks[..|ks| - 1], ks[|ks| - 1];
      PrintedEntriesParse(init, m);
      ParsePrinted(Entries(init, m), k, m[k]);
      SubmapAppended(m, init, k);
      InitAndLast(ks);
      assert Entries(ks, m) == Entries(init, m) + [k + "=" + m[k]];
    }
  }

  lemma {:induction false} BareEntriesParse(es: seq<string>, bare: seq<string>)
    requires forall b :: b in bare ==> '=' !in b
    ensures ParseEntries(es + bare) == ParseEntries(es).(bare := ParseEntries(es).bare + bare)
  {
    if bare == [] {
      assert es + bare == es && ParseEntries(es).bare + bare == ParseEntries(es).bare;
    } else {
      BareEntriesParse(es, bare[..|bare| - 1]);
      BareEntryParses(es, bare);
    }
  }

  lemma BareEntryParses(es: seq<string>, bare: seq<string>)
    requires bare != [] && '=' !in bare[|bare| - 1]
    requires var init := bare[..|bare| - 1];
             ParseEntries(es + init) == ParseEntries(es).(bare := ParseEntries(es).bare + init)
    ensures ParseEntries(es + bare) == ParseEntries(es).(bare := ParseEntries(es).bare + bare)
  {
    var init, b := bare[..|bare| - 1], bare[|bare| - 1];
    ParseAppended(es + init, b);
    AddBare(ParseEntries(es + init), b);
    InitAndLast(bare);
    Regrouped(es, init, [b]);
    Regrouped(ParseEntries(es).bare, init, [b]);
  }

  lemma PrintedJoined(ks: seq<string>, m: Mount)
    requires ks != [] && forall i :: 0 <= i < |ks| ==> ks[i] in m.fields
    ensures Print(ks, m) == Join(Entries(ks, m.fields) + m.bare, ',')
  {
    var es := Entries(ks, m.fields);
    if m.bare == [] {
      assert es + m.bare == es;
    } else {
      JoinAppended(es, m.bare, ',');
    }
  }

  lemma PrintedEntriesHoldNoComma(ks: seq<string>, m: map<string, string>)
    requires (forall i :: 0 <= i < |ks| ==> ks[i] in m) && PlainFields(m)
    ensures forall e :: e in Entries(ks, m) ==> ',' !in e
  {
    forall i | 0 <= i < |ks|
      ensures ',' !in Entries(ks, m)[i]
    {
      assert Plain(ks[i]) && Plain(m[ks[i]]);
    }
  }

  lemma PrintedParts(ks: seq<string>, m: Mount)
    requires IsOrder(ks, m.fields) && m.fields != map[] && PlainFields(m.fields)
    requires forall b :: b in m.bare ==> ',' !in b
    ensures Split(Print(ks, m), ',') == Entries(ks, m.fields) + m.bare
  {
    var k :| k in m.fields;
    assert k in ks;
    PrintedJoined(ks, m);
    PrintedEntriesHoldNoComma(ks, m.fields);
    SplitJoined(Entries(ks, m.fields) + m.bare, ',');
  }

  /** Whatever order the map is visited in, the printed value reads back as the mount that was printed. */
  lemma PrintedMountParses(ks: seq<string>, m: Mount)
    requires IsOrder(ks, m.fields) && m.fields != map[] && PlainFields(m.fields)
    requires forall b :: b in m.bare ==> ',' !in b && '=' !in b
    ensures Parse(Print(ks, m)) == m
  {
    PrintedParts(ks, m);
    PartsParse(ks, m);
  }

  lemma PartsParse(ks: seq<string>, m: Mount)
    requires IsOrder(ks, m.fields) && PlainFields(m.fields) && forall b :: b in m.bare ==> '=' !in b
    ensures ParseEntries(Entries(ks, m.fields) + m.bare) == m
  {
    PrintedEntriesParse(ks, m.fields);
    WholeSubmap(m.fields, ks);
    BareEntriesParse(Entries(ks, m.fields), m.bare);
    assert [] + m.bare == m.bare;
  }

  lemma WholeSubmap(m: map<string, string>, ks: seq<string>)
    requires forall k :: k in m ==> k in ks
    ensures Submap(m, ks) == m
  {
  }

  /** How Finch rewrites the value of `--mount`. */
  function Rewritten(v: string, ks: seq<string>): string
    requires IsBind(Parse(v)) ==> IsOrder(ks, Kept(Parse(v)).fields)
  {
    if IsBind(Parse(v)) then Print(ks, Kept(Parse(v))) else v
  }

  /** `w` says, to Finch and to any reader, what Finch understands of `v`, less the consistency of a bind mount. */
  ghost predicate SameMount(v: string, w: string) {
    if IsBind(Parse(v)) then Parse(w) == Kept(Parse(v)) && CL.ReadMount(w) == SpecOf(Kept(Parse(v))) else w == v
  }

  function SpecOf(m: Mount): CL.MountSpec { CL.MountSpec(m.fields, m.bare) }

  // ---- Finch's reading of a mount, against the reading that cuts at the first '=' only ----

  /** What Finch understands agrees with what an entry says, except for values that hold a '='. */
  ghost predicate Agrees(m: Mount, r: CL.MountSpec) {
    && m.bare == r.words && m.fields.Keys == r.fields.Keys
    && forall k :: k in m.fields ==> '=' !in m.fields[k] && ('=' !in r.fields[k] ==> m.fields[k] == r.fields[k])
  }

  lemma AgreesOneMore(m: Mount, r: CL.MountSpec, e: string)
    requires Agrees(m, r)
    ensures Agrees(AddEntry(m, e), CL.ReadEntry(r, e))
  {
    if '=' in e {
      var rest := After(e, '=');
      assert Split(e, '=') == [Before(e, '=')] + Split(rest, '=');
      assert Split(rest, '=')[0] == Before(rest, '=');
      if '=' in rest {
        TrimKeeps(rest, '=');
      }
    }
  }

  lemma {:induction false} EntriesAgree(es: seq<string>)
    ensures Agrees(ParseEntries(es), CL.ReadEntries(es))
  {
    if es != [] {
      EntriesAgree(es[..|es| - 1]);
      AgreesOneMore(ParseEntries(es[..|es| - 1]), CL.ReadEntries(es[..|es| - 1]), es[|es| - 1]);
    }
  }

  /** No value in the list holds a '=', so that both readings are one. */
  lemma {:induction false} WholeEntriesReadAlike(es: seq<string>)
    requires forall e :: e in es && '=' in e ==> '=' !in After(e, '=')
    ensures CL.ReadEntries(es) == SpecOf(ParseEntries(es))
  {
    if es != [] {
      var init, e := es[..|es| - 1], es[|es| - 1];
      WholeEntriesReadAlike(init);
      if '=' in e {
        assert Split(e, '=') == [Before(e, '='), After(e, '=')];
      }
    }
  }

  lemma PrintedReadsAlike(ks: seq<string>, m: Mount)
    requires IsOrder(ks, m.fields) && m.fields != map[] && PlainFields(m.fields)
    requires forall b :: b in m.bare ==> ',' !in b && '=' !in b
    ensures CL.ReadMount(Print(ks, m)) == SpecOf(Parse(Print(ks, m)))
  {
    PrintedParts(ks, m);
    var es := Entries(ks, m.fields);
    forall e | e in es + m.bare && '=' in e
      ensures '=' !in After(e, '=')
    {
      var i :| 0 <= i < |es| && es[i] == e;
      assert Plain(ks[i]) && Plain(m.fields[ks[i]]) && e == ks[i] + ['='] + m.fields[ks[i]];
      CutGlued(ks[i], '=', m.fields[ks[i]]);
    }
    WholeEntriesReadAlike(es + m.bare);
  }

  /** Finch takes `v` for a bind mount, and an entry that is in force there, and is passed on, holds a second '='. */
  predicate IsCut(v: string) {
    IsBind(Parse(v)) && exists k :: k in CL.ReadMount(v).fields && k != "consistency" && '=' in CL.ReadMount(v).fields[k]
  }

  /** What a rewritten mount says is what the mount said exactly if nothing of it is cut. */
  lemma MountIsSaidIff(v: string, w: string)
    requires SameMount(v, w)
    ensures CL.SaysMount(v, w) <==> !IsCut(v)
  {
    EntriesAgree(Split(v, ','));
    assert Agrees(Parse(v), CL.ReadMount(v));
    if IsBind(Parse(v)) {
      if k :| k in CL.ReadMount(v).fields && k != "consistency" && '=' in CL.ReadMount(v).fields[k] {
        CutFieldIsLost(Parse(v), CL.ReadMount(v), CL.ReadMount(w), k);
      } else {
        WholeFieldsAreSaid(Parse(v), CL.ReadMount(v));
      }
    }
  }

  lemma CutFieldIsLost(m: Mount, r: CL.MountSpec, said: CL.MountSpec, k: string)
    requires Agrees(m, r) && said == SpecOf(Kept(m)) && k in r.fields && k != "consistency" && '=' in r.fields[k]
    ensures said != r && said != r.(fields := r.fields - {"consistency"})
  {
    assert k in said.fields && said.fields[k] != r.fields[k];
    assert k in r.fields - {"consistency"};
  }

  lemma WholeFieldsAreSaid(m: Mount, r: CL.MountSpec)
    requires Agrees(m, r) && IsBind(m)
    requires forall k :: k in r.fields && k != "consistency" ==> '=' !in r.fields[k]
    ensures CL.IsBindMount(r) && SpecOf(Kept(m)) == r.(fields := r.fields - {"consistency"})
  {
    assert "type" in r.fields && "type"[0] != "consistency"[0];
    assert m.fields - {"consistency"} == r.fields - {"consistency"};
  }

  /** For every visiting order, rewriting a mount keeps its fields and bare words, minus `consistency`. */
  lemma RewritingKeepsMount(v: string, ks: seq<string>)
    requires IsBind(Parse(v)) ==> IsOrder(ks, Kept(Parse(v)).fields)
    ensures SameMount(v, Rewritten(v, ks))
  {
    if IsBind(Parse(v)) {
      ParsedFieldsArePlain(Split(v, ','));
      assert "type" in Kept(Parse(v)).fields;
      PrintedMountParses(ks, Kept(Parse(v)));
      PrintedReadsAlike(ks, Kept(Parse(v)));
    }
  }

  /** Rewriting a rewritten bind mount can only put its entries in another order. */
  lemma SecondRewriteOnlyPermutes(v: string, ks: seq<string>, ls: seq<string>)
    requires IsBind(Parse(v)) && IsOrder(ks, Kept(Parse(v)).fields) && IsOrder(ls, Kept(Parse(v)).fields)
    ensures Kept(Parse(Rewritten(v, ks))) == Kept(Parse(v))
    ensures multiset(Split(Rewritten(Rewritten(v, ks), ls), ',')) == multiset(Split(Rewritten(v, ks), ','))
  {
    var m := Kept(Parse(v));
    RewritingKeepsMount(v, ks);
    assert m.fields - {"consistency"} == m.fields;
    assert "type" in m.fields;
    ParsedFieldsArePlain(Split(v, ','));
    PrintedParts(ks, m);
    PrintedParts(ls, m);
    SameEntriesInAnyOrder(ks, ls, m.fields);
  }

  ghost predicate Distinct(xs: seq<string>) { forall i, j :: 0 <= i < j < |xs| ==> xs[i] != xs[j] }

  lemma {:induction false} DistinctMultiset(xs: seq<string>, x: string)
    requires Distinct(xs)
    ensures multiset(xs)[x] == if x in xs then 1 else 0
  {
    if xs != [] {
      DistinctMultiset(xs[1..], x);
      assert xs == [xs[0]] + xs[1..];
    }
  }

  lemma PrintedEntriesAreDistinct(ks: seq<string>, m: map<string, string>)
    requires IsOrder(ks, m) && PlainFields(m)
    ensures Distinct(Entries(ks, m))
  {
    var es := Entries(ks, m);
    forall i, j | 0 <= i < j < |ks|
      ensures es[i] != es[j]
    {
      CutGlued(ks[i], '=', m[ks[i]]);
      CutGlued(ks[j], '=', m[ks[j]]);
    }
  }

  lemma SameEntriesInAnyOrder(ks: seq<string>, ls: seq<string>, m: map<string, string>)
    requires IsOrder(ks, m) && IsOrder(ls, m) && PlainFields(m)
    ensures multiset(Entries(ks, m)) == multiset(Entries(ls, m))
  {
    PrintedEntriesAreDistinct(ks, m);
    PrintedEntriesAreDistinct(ls, m);
    forall e
      ensures multiset(Entries(ks, m))[e] == multiset(Entries(ls, m))[e]
    {
      DistinctMultiset(Entries(ks, m), e);
      DistinctMultiset(Entries(ls, m), e);
      PrintedInBoth(ks, ls, m, e);
      PrintedInBoth(ls, ks, m, e);
    }
  }

  lemma PrintedInBoth(ks: seq<string>, ls: seq<string>, m: map<string, string>, e: string)
    requires IsOrder(ks, m) && IsOrder(ls, m)
    ensures e in Entries(ks, m) ==> e in Entries(ls, m)
  {
    if e in Entries(ks, m) {
      var i :| 0 <= i < |ks| && Entries(ks, m)[i] == e;
      assert ks[i] in ls;
      var j :| 0 <= j < |ls| && ls[j] == ks[i];
      assert Entries(ls, m)[j] == e;
    }
  }

  /** The value that is stored for an entry is its whole value, trimmed, exactly when that holds no further '='. */
  lemma ValueIsWholeIff(m: Mount, e: string)
    requires '=' in e
    ensures var stored := AddEntry(m, e).fields;
            && Trim(Before(e, '=')) in stored
            && (stored[Trim(Before(e, '='))] == Trim(After(e, '=')) <==> '=' !in After(e, '='))
  {
    var rest := After(e, '=');
    assert Split(e, '=') == [Before(e, '=')] + Split(rest, '=');
    assert Split(rest, '=')[0] == Before(rest, '=');
    if '=' in rest {
      TrimKeeps(rest, '=');
    }
  }

  /** What follows a second '=' is lost: the entry reads like the one that ends there. */
  lemma RestOfValueIsLost(m: Mount, k: string, x: string, y: string)
    requires Plain(k) && Plain(x)
    ensures AddEntry(m, k + "=" + x + "=" + y) == AddEntry(m, k + "=" + x)
  {
    var e := k + "=" + x + "=" + y;
    var rest := x + "=" + y;
    assert e == k + ['='] + rest;
    CutGlued(k, '=', rest);
    assert rest == x + ['='] + y;
    CutGlued(x, '=', y);
    assert Split(e, '=')[..2] == [k, x];
    AddPrinted(m, k, x);
  }
}
