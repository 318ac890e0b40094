/** `parse_name` from src/helpers.py: a full name cut into (first, middle, last). */
module Helpers {
  import opened Text

  /** The tuple `parse_name` returns: the empty tuple, or a (first, middle, last) triple. */
  datatype NameParts = NoParts | Parts(first: string, middle: string, last: string)

  predicate IsWord(t: string)
  {
    t != [] && NoSpace(t)
  }

  /**
   * Splits `fullname` on runs of whitespace and shapes the tokens by their
   * count: none gives the empty tuple, one gives (t0, '', ''), two give
   * (t0, '', t1), three give (t0, t1, t2) and four or more give (t0, '', '').
   */
  function ParseName(fullname: string): (r: NameParts)
    ensures r.NoParts? <==> AllSpace(fullname)
    ensures r.Parts? ==> Tokens(fullname) != [] && r.first == Tokens(fullname)[0]
    ensures r.Parts? ==> IsWord(r.first) && NoSpace(r.middle) && NoSpace(r.last)
  {
    var ts := Tokens(fullname);
    TokensEmpty(fullname);
    if |ts| == 0 then NoParts
    else
      assert ts[0] in ts;
      if |ts| == 1 then Parts(ts[0], "", "")
      else
        assert ts[1] in ts;
        if |ts| == 2 then Parts(ts[0], "", ts[1])
        else
          assert ts[2] in ts;
          if |ts| == 3 then Parts(ts[0], ts[1], ts[2])
          else Parts(ts[0], "", "")
  }

  /**
   * Only the tokens matter: a name with any runs of whitespace, leading or
   * trailing, parses like its tokens joined by single spaces, which the
   * lemmas below cover by token count.
   */
  lemma ParseNameTokens(fullname: string)
    ensures ParseName(fullname) == ParseName(Join(Tokens(fullname), ' '))
  {
    TokensJoin(Tokens(fullname));
  }

  /** Two words separated by any whitespace, with any whitespace after them, are the first and the last name. */
  lemma ParseNameTwoSpaced(first: string, gap: string, last: string, trail: string)
    requires IsWord(first) && IsWord(last)
    requires gap != [] && AllSpace(gap) && AllSpace(trail)
    ensures ParseName(first + gap + last + trail) == Parts(first, "", last)
  {
    assert first + gap + last + trail == first + (gap + (last + trail));
    TokensWord(first, gap + (last + trail));
    TokensSkipSpace(gap, last + trail);
    TokensEmpty(trail);
    if trail == [] {
      assert last + trail == last;
      TokensWord(last, "");
      assert last + "" == last;
    } else {
      TokensWord(last, trail);
    }
  }

  /** Whitespace before the name changes nothing. */
  lemma ParseNameLeadingSpace(w: string, fullname: string)
    requires AllSpace(w)
    ensures ParseName(w + fullname) == ParseName(fullname)
  {
    TokensSkipSpace(w, fullname);
  }

  /** A single word is the first name, middle and last empty. */
  lemma ParseNameOne(first: string)
    requires IsWord(first)
    ensures ParseName(first) == Parts(first, "", "")
  {
    TokensJoin([first]);
  }

  /** Two words are the first and the last name; the middle name is empty. */
  lemma ParseNameTwo(first: string, last: string)
    requires IsWord(first) && IsWord(last)
    ensures ParseName(first + " " + last) == Parts(first, "", last)
  {
    TokensJoin([first, last]);
    assert Join([first, last], ' ') == first + " " + last;
  }

  /** Three words are returned in order. */
  lemma ParseNameThree(first: string, middle: string, last: string)
    requires IsWord(first) && IsWord(middle) && IsWord(last)
    ensures ParseName(first + " " + middle + " " + last) == Parts(first, middle, last)
  {
    TokensJoin([first, middle, last]);
    assert [first, middle, last][1..] == [middle, last];
    assert Join([middle, last], ' ') == middle + " " + last;
    assert Join([first, middle, last], ' ') == first + " " + middle + " " + last;
  }

  /** Four or more words keep only the first; every later word is discarded. */
  lemma ParseNameMany(words: seq<string>)
    requires |words| >= 4
    requires forall t | t in words :: IsWord(t)
    ensures ParseName(Join(words, ' ')) == Parts(words[0], "", "")
  {
    TokensJoin(words);
  }
}
