/**
 * The rules applied to addresses built from parts: a street, the separator,
 * the neighbourhood and the city suffix.
 */
module AddressExamples {
  import opened Address

  /** No dot-rule match can start inside `s` when `s` has no '.' at all. */
  lemma NoDotWithoutPeriod(s: string)
    requires '.' !in s
    ensures NoMatch(Dot, s)
  {
  }

  /**
   * "<street> - <neighbourhood>, Porto Alegre - RS" gives the stripped
   * neighbourhood when the address has no '.' and the street no '-':
   * "Rua X, 123 - Centro, Porto Alegre - RS" gives "Centro", and the group
   * may itself hold " - ": "A - B - C, Porto Alegre - RS" gives "B - C".
   */
  lemma {:induction false} HyphenAfterStreet(street: string, g: string)
    requires '.' !in street && '-' !in street
    requires g != [] && '.' !in g && ',' !in g
    ensures ExtractBairro(Text(street + " - " + g + CitySuffix)) == Strip(g)
  {
    var s := street + " - " + g + CitySuffix;
    var n := |street|;
    assert s[..n] == street;
    assert s[n..n + 3] == " - ";
    assert s[n + 3 .. n + 3 + |g|] == g;
    assert s[n + 3 + |g| ..] == CitySuffix;
    assert '.' !in s by {
      assert '.' !in CitySuffix;
      assert s == street + " - " + g + CitySuffix;
    }
    NoDotWithoutPeriod(s);
    assert MatchAt(Hyphen, s, n, n + 3 + |g|) by {
      forall m | n + 3 <= m < n + 3 + |g| ensures InGroup(Hyphen, s[m]) {
        assert s[m] == g[m - n - 3];
        assert g[m - n - 3] in g;
      }
    }
    forall i: nat, j: nat | i < n ensures !MatchAt(Hyphen, s, i, j) {
      assert s[i + 1] != '-' by {
        if i + 1 < n {
          assert s[i + 1] == street[i + 1];
        }
      }
      assert s[i..i + 3][1] == s[i + 1];
    }
    HyphenRuleApplies(s, n, n + 3 + |g|);
  }

  /**
   * "<text>. <neighbourhood>, Porto Alegre - RS<rest>" gives the stripped
   * neighbourhood when the text before it has no '.', whatever hyphen
   * matches the text holds: "Rua Y - Centro, Porto Alegre - RS. Bom Fim,
   * Porto Alegre - RS" gives "Bom Fim", not "Centro".
   */
  lemma {:induction false} DotAfterText(pre: string, g: string, rest: string)
    requires '.' !in pre
    requires g != [] && '.' !in g && ',' !in g && '-' !in g
    ensures ExtractBairro(Text(pre + ". " + g + CitySuffix + rest)) == Strip(g)
  {
    var s := pre + ". " + g + CitySuffix + rest;
    var n := |pre|;
    var e := n + 2 + |g|;
    assert s[n..n + 2] == ". ";
    assert s[n + 2 .. e] == g;
    assert s[e .. e + |CitySuffix|] == CitySuffix;
    assert MatchAt(Dot, s, n, e) by {
      assert s[n] == '.' && s[n + 1] == ' ';
      forall m | n + 2 <= m < e ensures InGroup(Dot, s[m]) {
        assert s[m] == g[m - n - 2];
        assert g[m - n - 2] in g;
      }
    }
    forall i: nat, j: nat | i < n ensures !MatchAt(Dot, s, i, j) {
      assert s[i] == pre[i];
      assert pre[i] in pre;
    }
    DotRuleWins(s, n, e);
  }

  /**
   * A group made only of whitespace strips to the empty string:
   * ".  , Porto Alegre - RS" yields "", not the fallback.
   */
  lemma EmptyNeighbourhood()
    ensures ExtractBairro(Text(". " + " " + CitySuffix)) == ""
  {
    DotAfterText("", " ", "");
    assert "" + ". " + " " + CitySuffix + "" == ". " + " " + CitySuffix;
    assert !Trimmed(" ");
  }
}
