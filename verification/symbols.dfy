/** Counting symbols in an instruction string and the nesting discipline of a
    pair of symbols (an "open" that raises a depth and a "close" that lowers it).
    The L-system grammar and the turtle interpreter both rely on these notions:
    the brackets '[' ']' nest the saved-state stack, and 'd' 'i' nest the
    trunk-width changes. */
module Symbols {

  /** Number of occurrences of `c` in `s`. */
  function Count(c: char, s: string): (k: nat)
    ensures k <= |s|
  {
    if s == [] then 0 else (if s[0] == c then 1 else 0) + Count(c, s[1..])
  }

  lemma {:induction false} CountAppend(c: char, a: string, b: string)
    ensures Count(c, a + b) == Count(c, a) + Count(c, b)
  {
    if a == [] {
      assert a + b == b;
    } else {
      assert (a + b)[1..] == a[1..] + b;
      CountAppend(c, a[1..], b);
    }
  }

  /** How one symbol moves the nesting depth. */
  function Delta(ch: char, open: char, close: char): int
  {
    if ch == open then 1 else if ch == close then -1 else 0
  }

  /** Net change of the nesting depth over a whole string. */
  function Diff(s: string, open: char, close: char): int
  {
    Count(open, s) - Count(close, s)
  }

  lemma DiffCons(ch: char, s: string, open: char, close: char)
    requires open != close
    ensures Diff([ch] + s, open, close) == Delta(ch, open, close) + Diff(s, open, close)
  {
    assert ([ch] + s)[1..] == s;
  }

  /** Walking `s` from nesting depth `depth`, the depth never becomes negative
      (the starting depth included). */
  predicate NeverBelow(s: string, open: char, close: char, depth: int)
    decreases |s|
  {
    depth >= 0 && (s == [] || NeverBelow(s[1..], open, close, depth + Delta(s[0], open, close)))
  }

  /** Properly nested: no prefix closes more than it opened, and the whole string
      closes exactly what it opened. */
  predicate Nested(s: string, open: char, close: char)
  {
    NeverBelow(s, open, close, 0) && Count(open, s) == Count(close, s)
  }

  /** NeverBelow is the "every prefix" condition: from `depth`, every prefix of
      `s` has at least as many closes as the depth plus its opens can absorb. */
  lemma {:induction false} NeverBelowPrefixes(s: string, open: char, close: char, depth: int)
    requires open != close
    ensures NeverBelow(s, open, close, depth) <==>
            forall k :: 0 <= k <= |s| ==> depth + Count(open, s[..k]) - Count(close, s[..k]) >= 0
  {
    if s == [] {
      assert s[..0] == [];
    } else {
      var d := depth + Delta(s[0], open, close);
      NeverBelowPrefixes(s[1..], open, close, d);
      forall k | 1 <= k <= |s|
        ensures depth + Count(open, s[..k]) - Count(close, s[..k])
             == d + Count(open, s[1..][..k - 1]) - Count(close, s[1..][..k - 1])
      {
        assert s[..k] == [s[0]] + s[1..][..k - 1];
        DiffCons(s[0], s[1..][..k - 1], open, close);
      }
      assert s[..0] == [];
      if NeverBelow(s, open, close, depth) {
        forall k | 0 <= k <= |s|
          ensures depth + Count(open, s[..k]) - Count(close, s[..k]) >= 0
        {
          if k > 0 {
            assert 0 <= k - 1 <= |s[1..]|;
          }
        }
      }
      if forall k :: 0 <= k <= |s| ==> depth + Count(open, s[..k]) - Count(close, s[..k]) >= 0 {
        assert depth + Count(open, s[..0]) - Count(close, s[..0]) >= 0;
        forall j | 0 <= j <= |s[1..]|
          ensures d + Count(open, s[1..][..j]) - Count(close, s[1..][..j]) >= 0
        {
          assert depth + Count(open, s[..j + 1]) - Count(close, s[..j + 1]) >= 0;
        }
      }
    }
  }

  /** Walking a concatenation: the second part starts where the first ends. */
  lemma {:induction false} NeverBelowAppend(a: string, b: string, open: char, close: char, depth: int)
    requires open != close
    ensures NeverBelow(a + b, open, close, depth) <==>
            NeverBelow(a, open, close, depth) && NeverBelow(b, open, close, depth + Diff(a, open, close))
  {
    if a == [] {
      assert a + b == b;
    } else {
      assert (a + b)[0] == a[0];
      assert (a + b)[1..] == a[1..] + b;
      NeverBelowAppend(a[1..], b, open, close, depth + Delta(a[0], open, close));
      DiffCons(a[0], a[1..], open, close);
      assert [a[0]] + a[1..] == a;
    }
  }

  /** Starting deeper never hurts. */
  lemma {:induction false} NeverBelowMonotone(s: string, open: char, close: char, depth: int, deeper: int)
    requires NeverBelow(s, open, close, depth)
    requires depth <= deeper
    ensures NeverBelow(s, open, close, deeper)
  {
    if s != [] {
      NeverBelowMonotone(s[1..], open, close, depth + Delta(s[0], open, close), deeper + Delta(s[0], open, close));
    }
  }
}
