/**
 * Python string primitives used by the modelled code: `str.isspace`,
 * `str.replace(c, '')`, `str.split(sep)`, `sep.join(...)` and the
 * argument-less `str.split()` that splits on runs of whitespace.
 */
module Text {

  /** The characters for which Python's `str.isspace()` holds. */
  predicate IsSpace(c: char)
  {
    c == ' ' || ('\t' <= c <= '\r') || ('\U{1c}' <= c <= '\U{1f}')
    || c == '\U{85}' || c == '\U{a0}' || c == '\U{1680}'
    || ('\U{2000}' <= c <= '\U{200a}') || c == '\U{2028}' || c == '\U{2029}'
    || c == '\U{202f}' || c == '\U{205f}' || c == '\U{3000}'
  }

  predicate NoSpace(s: string)
  {
    forall i | 0 <= i < |s| :: !IsSpace(s[i])
  }

  predicate AllSpace(s: string)
  {
    forall i | 0 <= i < |s| :: IsSpace(s[i])
  }

  /** `s.replace(c, '')`: every occurrence of `c` is deleted, nothing else is. */
  function Remove(s: string, c: char): (r: string)
    ensures c !in r
    ensures |r| <= |s|
    ensures forall ch | ch != c :: multiset(r)[ch] == multiset(s)[ch]
  {
    if s == [] then []
    else
      assert s == [s[0]] + s[1..];
      (if s[0] == c then [] else [s[0]]) + Remove(s[1..], c)
  }

  lemma {:induction false} RemoveAbsent(s: string, c: char)
    requires c !in s
    ensures Remove(s, c) == s
  {
    if s != [] {
      RemoveAbsent(s[1..], c);
    }
  }

  lemma {:induction false} RemoveAppend(a: string, b: string, c: char)
    ensures Remove(a + b, c) == Remove(a, c) + Remove(b, c)
  {
    if a != [] {
      assert (a + b)[1..] == a[1..] + b;
      RemoveAppend(a[1..], b, c);
    } else {
      assert a + b == b;
    }
  }

  /** `s.split(sep)`: the pieces between occurrences of `sep`, empty pieces kept. */
  function SplitOn(s: string, sep: char): (r: seq<string>)
    ensures |r| >= 1
    ensures forall p | p in r :: sep !in p
  {
    if s == [] then [""]
    else
      var rest := SplitOn(s[1..], sep);
      if s[0] == sep then [""] + rest
      else [[s[0]] + rest[0]] + rest[1..]
  }

  /** There is one more piece than there are separators. */
  lemma {:induction false} SplitCount(s: string, sep: char)
    ensures |SplitOn(s, sep)| == multiset(s)[sep] + 1
  {
    if s != [] {
      assert s == [s[0]] + s[1..];
      SplitCount(s[1..], sep);
    }
  }

  /** Every character of a piece comes from the split string. */
  lemma {:induction false} SplitPiecesWithin(s: string, sep: char)
    ensures forall p, c | p in SplitOn(s, sep) && c in p :: c in s
  {
    if s != [] {
      SplitPiecesWithin(s[1..], sep);
      assert forall c | c in s[1..] :: c in s;
    }
  }

  /** `sep.join(ps)`. */
  function Join(ps: seq<string>, sep: char): string
  {
    if |ps| == 0 then ""
    else if |ps| == 1 then ps[0]
    else ps[0] + [sep] + Join(ps[1..], sep)
  }

  /** A joined string holds only the separator and characters of the pieces. */
  lemma {:induction false} JoinWithin(ps: seq<string>, sep: char, c: char)
    requires c != sep
    requires forall p | p in ps :: c !in p
    ensures c !in Join(ps, sep)
  {
    if |ps| > 1 {
      assert ps[0] in ps;
      assert forall p | p in ps[1..] :: p in ps;
      JoinWithin(ps[1..], sep, c);
    } else if |ps| == 1 {
      assert ps[0] in ps;
    }
  }

  lemma JoinCons(p: string, rest: seq<string>, sep: char)
    requires |rest| > 0
    ensures Join([p] + rest, sep) == p + [sep] + Join(rest, sep)
  {
    assert ([p] + rest)[1..] == rest;
  }

  lemma JoinExtendHead(c: char, rest: seq<string>, sep: char)
    requires |rest| > 0
    ensures Join([[c] + rest[0]] + rest[1..], sep) == [c] + Join(rest, sep)
  {
    if |rest| > 1 {
      assert ([[c] + rest[0]] + rest[1..])[1..] == rest[1..];
    }
  }

  /** Splitting and joining again gives the string back. */
  lemma {:induction false} JoinSplit(s: string, sep: char)
    ensures Join(SplitOn(s, sep), sep) == s
  {
    if s != [] {
      JoinSplit(s[1..], sep);
      var rest := SplitOn(s[1..], sep);
      assert s == [s[0]] + s[1..];
      if s[0] == sep {
        JoinCons("", rest, sep);
      } else {
        JoinExtendHead(s[0], rest, sep);
      }
    }
  }

  lemma {:induction false} SplitPrefix(p: string, t: string, sep: char)
    requires sep !in p
    ensures SplitOn(p + t, sep) == [p + SplitOn(t, sep)[0]] + SplitOn(t, sep)[1..]
  {
    if p != [] {
      assert (p + t)[1..] == p[1..] + t;
      SplitPrefix(p[1..], t, sep);
      assert [p[0]] + (p[1..] + SplitOn(t, sep)[0]) == p + SplitOn(t, sep)[0];
    } else {
      var r := SplitOn(t, sep);
      assert p + t == t;
      assert p + r[0] == r[0];
      assert r == [r[0]] + r[1..];
    }
  }

  /**
   * Splitting is the only way to cut a string into separator-free pieces:
   * joining such pieces and splitting again returns exactly those pieces.
   */
  lemma {:induction false} SplitJoin(ps: seq<string>, sep: char)
    requires |ps| > 0
    requires forall p | p in ps :: sep !in p
    ensures SplitOn(Join(ps, sep), sep) == ps
  {
    if |ps| == 1 {
      SplitPrefix(ps[0], "", sep);
      assert ps[0] + "" == ps[0];
    } else {
      var tail := Join(ps[1..], sep);
      SplitJoin(ps[1..], sep);
      assert Join(ps, sep) == ps[0] + ([sep] + tail);
      SplitPrefix(ps[0], [sep] + tail, sep);
      assert ([sep] + tail)[1..] == tail;
      assert SplitOn([sep] + tail, sep) == [""] + ps[1..];
      assert ps[0] + "" == ps[0];
    }
  }

  /** Length of the longest whitespace-free prefix of `s`. */
  function WordLength(s: string): (n: nat)
    ensures n <= |s|
    ensures NoSpace(s[..n])
    ensures n < |s| ==> IsSpace(s[n])
    ensures s != [] && !IsSpace(s[0]) ==> n > 0
  {
    if s == [] || IsSpace(s[0]) then 0
    else
      var n := 1 + WordLength(s[1..]);
      assert s[..n] == [s[0]] + s[1..][..n - 1];
      n
  }

  /** `s.split()`: the maximal whitespace-free runs of `s`, in order. */
  function Tokens(s: string): (ts: seq<string>)
    ensures forall t | t in ts :: t != [] && NoSpace(t)
    decreases |s|
  {
    if s == [] then []
    else if IsSpace(s[0]) then Tokens(s[1..])
    else
      var n := WordLength(s);
      [s[..n]] + Tokens(s[n..])
  }

  /** `s.split()` is empty exactly when `s` is all whitespace. */
  lemma {:induction false} TokensEmpty(s: string)
    ensures Tokens(s) == [] <==> AllSpace(s)
    decreases |s|
  {
    if s != [] && IsSpace(s[0]) {
      TokensEmpty(s[1..]);
      assert AllSpace(s) <==> AllSpace(s[1..]) by {
        forall i | 0 <= i < |s[1..]| ensures s[1..][i] == s[i + 1] { }
      }
    }
  }

  /** Leading whitespace produces no token. */
  lemma {:induction false} TokensSkipSpace(w: string, s: string)
    requires AllSpace(w)
    ensures Tokens(w + s) == Tokens(s)
  {
    if w != [] {
      assert (w + s)[1..] == w[1..] + s;
      TokensSkipSpace(w[1..], s);
    } else {
      assert w + s == s;
    }
  }

  lemma {:induction false} WordLengthOf(t: string, rest: string)
    requires NoSpace(t)
    requires rest == [] || IsSpace(rest[0])
    ensures WordLength(t + rest) == |t|
  {
    if t != [] {
      assert (t + rest)[1..] == t[1..] + rest;
      WordLengthOf(t[1..], rest);
    } else {
      assert t + rest == rest;
    }
  }

  /** A word followed by whitespace (or by nothing) is the next token. */
  lemma TokensWord(t: string, rest: string)
    requires t != [] && NoSpace(t)
    requires rest == [] || IsSpace(rest[0])
    ensures Tokens(t + rest) == [t] + Tokens(rest)
  {
    WordLengthOf(t, rest);
    assert (t + rest)[..|t|] == t;
    assert (t + rest)[|t|..] == rest;
  }

  /** Joining words with single spaces and splitting on whitespace gives the words back. */
  lemma {:induction false} TokensJoin(ts: seq<string>)
    requires forall t | t in ts :: t != [] && NoSpace(t)
    ensures Tokens(Join(ts, ' ')) == ts
  {
    if |ts| == 1 {
      assert ts[0] in ts;
      TokensWord(ts[0], "");
      assert ts[0] + "" == ts[0];
    } else if |ts| > 1 {
      var tail := Join(ts[1..], ' ');
      assert ts[0] in ts;
      assert forall t | t in ts[1..] :: t in ts;
      TokensJoin(ts[1..]);
      assert Join(ts, ' ') == ts[0] + ([' '] + tail);
      TokensWord(ts[0], [' '] + tail);
      TokensSkipSpace([' '], tail);
    }
  }
}
