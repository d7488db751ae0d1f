/** Positions in texts, shared by everything that scans one. */
module Strings {
  /** The character at i, or NUL past the end. */
  function CharAt(s: string, i: nat): char {
    if i < |s| then s[i] else '\0'
  }

  /** w stands in s at position i. */
  predicate At(s: string, i: nat, w: string) {
    i + |w| <= |s| && s[i..i + |w|] == w
  }

  lemma Reassociated(u: string, v: string, w: string)
    ensures (u + v) + w == u + (v + w)
  {}

  lemma AtSplit(s: string, i: nat, u: string, v: string)
    requires At(s, i, u + v)
    ensures At(s, i, u) && At(s, i + |u|, v)
  {
    assert (u + v)[..|u|] == u && (u + v)[|u|..] == v;
    assert s[i..i + |u + v|][..|u|] == s[i..i + |u|];
    assert s[i..i + |u + v|][|u|..] == s[i + |u|..i + |u| + |v|];
  }

  lemma AtFirst(s: string, i: nat, c: char, w: string)
    requires At(s, i, [c] + w)
    ensures i < |s| && s[i] == c && At(s, i + 1, w)
  {
    AtSplit(s, i, [c], w);
    assert s[i..i + 1][0] == c;
  }

  lemma AtOne(s: string, i: nat, c: char)
    requires At(s, i, [c])
    ensures i < |s| && s[i] == c
  {
    assert s[i..i + 1][0] == c;
  }

  lemma AtTwo(s: string, i: nat, c: char, d: char)
    requires At(s, i, [c, d])
    ensures i + 1 < |s| && s[i] == c && s[i + 1] == d
  {
    assert s[i..i + 2][0] == c && s[i..i + 2][1] == d;
  }

  lemma AtBound(s: string, i: nat, w: string)
    requires At(s, i, w)
    ensures i + |w| <= |s| && s[i..i + |w|] == w
  {}

  lemma AtJoin(s: string, i: nat, u: string, v: string)
    requires At(s, i, u) && At(s, i + |u|, v)
    ensures At(s, i, u + v)
  {
    assert s[i..i + |u| + |v|] == s[i..i + |u|] + s[i + |u|..i + |u| + |v|];
  }

  lemma AtChar(s: string, i: nat, w: string, m: nat)
    requires At(s, i, w) && i <= m < i + |w|
    ensures m < |s| && s[m] == w[m - i]
  {
    assert s[i..i + |w|][m - i] == w[m - i];
  }

  lemma Itself(w: string)
    ensures At(w, 0, w)
  {}
}
