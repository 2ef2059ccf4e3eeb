/** Redaction of network addresses in a support bundle. */
module Redact {
  import opened Replacement
  import opened Regex

  const DIGIT := Class(set c: char | '0' <= c <= '9')
  const UPPER_HEX := Class((set c: char | '0' <= c <= '9') + (set c: char | 'A' <= c <= 'F'))
  const HEX := Class((set c: char | '0' <= c <= '9') + (set c: char | 'A' <= c <= 'F') + (set c: char | 'a' <= c <= 'f'))

  const IPV4 := Cat(Rep(Cat(Rep(DIGIT, 1, 3), Class({'.'})), 3, 3),
                    Cat(Rep(DIGIT, 1, 3), Rep(Cat(Class({':'}), Rep(DIGIT, 1, 5)), 0, 1)))
  const IPV6 := Cat(Rep(Cat(Rep(UPPER_HEX, 1, 4), Class({':'})), 7, 7), Rep(UPPER_HEX, 1, 4))
  const MAC := Cat(Rep(Cat(Rep(HEX, 2, 2), Class({':', '-'})), 5, 5), Rep(HEX, 2, 2))

  const IP_ELIDED := "<ip-address-elided>"
  const MAC_ELIDED := "<mac-address-elided>"

  /** One redactor: every match of `r` becomes `t`. */
  function Elide(r: Regex, content: string, t: string): string
  {
    EngineIsSound(r);
    ReplaceAll(FirstMatch(r), content, t)
  }

  function RedactNetworkAddresses(content: string): string {
    Elide(MAC, Elide(IPV6, Elide(IPV4, content, IP_ELIDED), IP_ELIDED), MAC_ELIDED)
  }

  ghost predicate NoneOf(r: Regex, s: string) { Absent(LanguageOf(r), s) }

  /** A replacement text that neither contains nor can complete a match of `r`. */
  ghost predicate Inert(r: Regex, t: string) { Shortest(r) > 0 && Guarded(t, Alphabet(r)) && NoneOf(r, t) }

  /** A text in which every window as long as a shortest match shows a foreign character is inert. */
  lemma ForeignWindows(r: Regex, t: string, at: nat)
    requires Shortest(r) > 0 && Guarded(t, Alphabet(r)) && at < |t| && t[at] !in Alphabet(r)
    requires |t| - Shortest(r) <= at < Shortest(r)
    ensures Inert(r, t)
  {
    forall i, j | 0 <= i <= j <= |t|
      ensures !LanguageOf(r)(t[i..j])
    {
      if j - i >= Shortest(r) {
        assert t[i..j][at - i] == t[at];
      }
      if Lang(r, t[i..j]) {
        MembersAreBounded(r, t[i..j]);
      }
    }
  }

  lemma AllForeign(r: Regex, t: string)
    requires Shortest(r) > 0 && t != "" && forall i :: 0 <= i < |t| ==> t[i] !in Alphabet(r)
    ensures Inert(r, t)
  {
    forall i, j | 0 <= i <= j <= |t|
      ensures !LanguageOf(r)(t[i..j])
    {
      if i < j {
        assert t[i..j][0] == t[i];
      }
      if Lang(r, t[i..j]) {
        MembersAreBounded(r, t[i..j]);
      }
    }
  }

  /** The letters and the least length of a repeated expression. */
  lemma RepShape(x: Regex, lo: nat, hi: nat)
    requires lo <= hi && hi > 0
    ensures Alphabet(Rep(x, lo, hi)) == Alphabet(x)
    ensures Shortest(Rep(x, lo, hi)) == lo * Shortest(x)
  {
  }

  lemma CatShape(x: Regex, y: Regex)
    ensures Alphabet(Cat(x, y)) == Alphabet(x) + Alphabet(y) && Shortest(Cat(x, y)) == Shortest(x) + Shortest(y)
  {
  }

  lemma IPv4Shape()
    ensures Alphabet(IPV4) == DIGIT.chars + {'.', ':'} && Shortest(IPV4) > 0
  {
    var octet, dot, port := Rep(DIGIT, 1, 3), Class({'.'}), Cat(Class({':'}), Rep(DIGIT, 1, 5));
    RepShape(DIGIT, 1, 3);
    RepShape(DIGIT, 1, 5);
    CatShape(octet, dot);
    RepShape(Cat(octet, dot), 3, 3);
    CatShape(Class({':'}), Rep(DIGIT, 1, 5));
    RepShape(port, 0, 1);
    CatShape(octet, Rep(port, 0, 1));
    CatShape(IPV4.first, IPV4.second);
    assert Shortest(DIGIT) == 1 && Shortest(octet) == 1 * 1;
  }

  lemma IPv6Shape()
    ensures Alphabet(IPV6) == UPPER_HEX.chars + {':'} && Shortest(IPV6) > 0
  {
    var word, colon := Rep(UPPER_HEX, 1, 4), Class({':'});
    RepShape(UPPER_HEX, 1, 4);
    CatShape(word, colon);
    RepShape(Cat(word, colon), 7, 7);
    CatShape(IPV6.first, word);
    assert Shortest(UPPER_HEX) == 1 && Shortest(word) == 1 * 1;
  }

  lemma MacShape()
    ensures Alphabet(MAC) == HEX.chars + {':', '-'} && Shortest(MAC) == 17
  {
    var pair, sep := Rep(HEX, 2, 2), Class({':', '-'});
    RepShape(HEX, 2, 2);
    CatShape(pair, sep);
    RepShape(Cat(pair, sep), 5, 5);
    CatShape(MAC.first, pair);
    assert Shortest(HEX) == 1 && Shortest(sep) == 1;
    assert Shortest(pair) == 2 * 1 && Shortest(Cat(pair, sep)) == 3;
    assert Shortest(MAC.first) == 5 * 3;
  }

  lemma AddressShapes()
    ensures Alphabet(IPV4) == DIGIT.chars + {'.', ':'} && Shortest(IPV4) > 0
    ensures Alphabet(IPV6) == UPPER_HEX.chars + {':'} && Shortest(IPV6) > 0
    ensures Alphabet(MAC) == HEX.chars + {':', '-'} && Shortest(MAC) == 17
  {
    IPv4Shape();
    IPv6Shape();
    MacShape();
  }

  lemma ReplacementsAreInert()
    ensures Inert(IPV4, IP_ELIDED) && Inert(IPV6, IP_ELIDED)
    ensures Inert(IPV4, MAC_ELIDED) && Inert(IPV6, MAC_ELIDED) && Inert(MAC, MAC_ELIDED)
  {
    AddressShapes();
    AllForeign(IPV4, IP_ELIDED);
    AllForeign(IPV6, IP_ELIDED);
    AllForeign(IPV4, MAC_ELIDED);
    AllForeign(IPV6, MAC_ELIDED);
    ForeignWindows(MAC, MAC_ELIDED, 8);
  }

  /** Eliding `r` removes it and brings back nothing that was absent. */
  lemma ElideRemoves(r: Regex, content: string, t: string)
    requires Inert(r, t)
    ensures NoneOf(r, Elide(r, content, t))
  {
    EngineIsSound(r);
    EngineIsComplete(r);
    MembersUseAlphabet(r);
    NoneSurvives(FirstMatch(r), LanguageOf(r), Alphabet(r), content, t);
  }

  lemma ElideKeepsAbsent(r: Regex, other: Regex, content: string, t: string)
    requires Inert(other, t) && NoneOf(other, content)
    ensures NoneOf(other, Elide(r, content, t))
  {
    EngineIsSound(r);
    MembersUseAlphabet(other);
    OthersStayAbsent(FirstMatch(r), LanguageOf(other), Alphabet(other), content, t);
  }

  /** No address of the three kinds is left anywhere in the redacted text. */
  lemma NoAddressSurvives(content: string)
    ensures NoneOf(IPV4, RedactNetworkAddresses(content))
    ensures NoneOf(IPV6, RedactNetworkAddresses(content))
    ensures NoneOf(MAC, RedactNetworkAddresses(content))
  {
    ReplacementsAreInert();
    var first := Elide(IPV4, content, IP_ELIDED);
    var second := Elide(IPV6, first, IP_ELIDED);
    ElideRemoves(IPV4, content, IP_ELIDED);
    ElideKeepsAbsent(IPV6, IPV4, first, IP_ELIDED);
    ElideKeepsAbsent(MAC, IPV4, second, MAC_ELIDED);
    ElideRemoves(IPV6, first, IP_ELIDED);
    ElideKeepsAbsent(MAC, IPV6, second, MAC_ELIDED);
    ElideRemoves(MAC, second, MAC_ELIDED);
  }

  lemma ElideIdle(r: Regex, content: string, t: string)
    requires NoneOf(r, content)
    ensures Elide(r, content, t) == content
  {
    EngineIsSound(r);
    NothingToReplace(FirstMatch(r), LanguageOf(r), content, t);
  }

  /** Redacting is exactly what changes text that shows an address, and it is idempotent. */
  lemma RedactionSettles(content: string)
    ensures RedactNetworkAddresses(RedactNetworkAddresses(content)) == RedactNetworkAddresses(content)
    ensures RedactNetworkAddresses(content) == content
            <==> NoneOf(IPV4, content) && NoneOf(IPV6, content) && NoneOf(MAC, content)
  {
    NoAddressSurvives(content);
    SettledText(RedactNetworkAddresses(content));
    if NoneOf(IPV4, content) && NoneOf(IPV6, content) && NoneOf(MAC, content) {
      SettledText(content);
    }
  }

  lemma SettledText(content: string)
    requires NoneOf(IPV4, content) && NoneOf(IPV6, content) && NoneOf(MAC, content)
    ensures RedactNetworkAddresses(content) == content
  {
    ElideIdle(IPV4, content, IP_ELIDED);
    ElideIdle(IPV6, content, IP_ELIDED);
    ElideIdle(MAC, content, MAC_ELIDED);
  }

  /** Each pass replaces addresses of its kind and nothing else. */
  lemma ElideTouchesOnlyMatches(r: Regex, content: string, t: string)
    ensures Fits(FirstMatch(r))
    ensures forall i :: 0 <= i < |Taken(FirstMatch(r), content)| ==> Lang(r, Taken(FirstMatch(r), content)[i])
    ensures content == Weave(Gaps(FirstMatch(r), content), Taken(FirstMatch(r), content))
    ensures Elide(r, content, t)
            == Weave(Gaps(FirstMatch(r), content), Copies(|Taken(FirstMatch(r), content)|, t))
  {
    EngineIsSound(r);
    TakenAreMatches(FirstMatch(r), LanguageOf(r), content);
    GapsAreKept(FirstMatch(r), content, t);
  }
}
