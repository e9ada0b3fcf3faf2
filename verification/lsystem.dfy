/** The L-system of `generateIteration` (tree.js:37-57): one pass rewrites
    every 'X' into the rule string, every 'F' into "FF" and copies every
    other symbol, in order; the pass repeats while the current iteration is
    below the target. */
module LSystem {
  import opened Symbols

  /** The replacement of 'X' (tree.js:42), "dF-[[X]+X]+F[+FX]-Xi", spelled in
      four pieces of five symbols that the proofs below take one at a time. */
  const XRule: string := "dF-[[" + "X]+X]" + "+F[+F" + "X]-Xi"

  /** The symbols the grammar produces. */
  const Alphabet: set<char> := {'X', 'F', '+', '-', '[', ']', 'i', 'd'}

  /** What one symbol becomes in a pass. */
  function Image(c: char): string
  {
    if c == 'X' then XRule else if c == 'F' then "FF" else [c]
  }

  /** One pass over the whole string, left to right. */
  function Rewrite(s: string): (r: string)
  {
    if s == [] then [] else Image(s[0]) + Rewrite(s[1..])
  }

  /** `k` passes. */
  function Iterate(s: string, k: nat): string
    decreases k
  {
    if k == 0 then s else Iterate(Rewrite(s), k - 1)
  }

  /** `generateIteration(treeString, currentIteration, targetIteration)`: one
      pass, then the recursive call while `currentIteration < targetIteration`. */
  function Generate(s: string, current: int, target: int): (r: string)
    decreases target - current
  {
    var next := Rewrite(s);
    if current < target then Generate(next, current + 1, target) else next
  }

  /** The string `drawTree(context, xPos, iterations)` interprets (tree.js:61). */
  function Tree(iterations: nat): (t: string)
    ensures t == Iterate("X", iterations + 1)
    ensures Nested(t, '[', ']') && Nested(t, 'd', 'i')
    ensures InAlphabet(t)
    ensures t != "X"
  {
    GeneratePasses("X", 0, iterations);
    IterateKeepsShape("X", iterations + 1);
    IterateLast("X", iterations);
    RewriteNeverX(Iterate("X", iterations));
    Generate("X", 0, iterations)
  }

  predicate InAlphabet(s: string)
  {
    forall k :: 0 <= k < |s| ==> s[k] in Alphabet
  }

  /** The pairs whose nesting the grammar keeps. */
  predicate NestingPair(open: char, close: char)
  {
    (open == '[' && close == ']') || (open == 'd' && close == 'i')
  }

  // ---------------------------------------------------------------------------
  // The methods: the buffer-appending loop and the recursion of the source.

  /** `generateIteration`, as the source runs it: a loop appending to the new
      string, then a recursive call while the target is not reached. */
  method GenerateIteration(treeString: string, currentIteration: int, targetIteration: int)
    returns (newTreeString: string)
    ensures newTreeString == Generate(treeString, currentIteration, targetIteration)
    decreases targetIteration - currentIteration
  {
    newTreeString := "";
    var i := 0;
    while i < |treeString|
      invariant 0 <= i <= |treeString|
      invariant newTreeString == Rewrite(treeString[..i])
    {
      var symbol := treeString[i];
      RewriteSnoc(treeString[..i], symbol);
      assert treeString[..i + 1] == treeString[..i] + [symbol];
      if symbol == 'X' {
        newTreeString := newTreeString + XRule;
      } else if symbol == 'F' {
        newTreeString := newTreeString + "FF";
      } else {
        newTreeString := newTreeString + [symbol];
      }
      i := i + 1;
    }
    assert treeString[..i] == treeString;
    if currentIteration < targetIteration {
      newTreeString := GenerateIteration(newTreeString, currentIteration + 1, targetIteration);
    }
  }

  // ---------------------------------------------------------------------------
  // One pass.

  /** A pass rewrites a concatenation piece by piece: every symbol is
      replaced independently and in place. */
  lemma {:induction false} RewriteAppend(a: string, b: string)
    ensures Rewrite(a + b) == Rewrite(a) + Rewrite(b)
  {
    if a == [] {
      assert a + b == b;
    } else {
      assert (a + b)[0] == a[0];
      assert (a + b)[1..] == a[1..] + b;
      RewriteAppend(a[1..], b);
    }
  }

  lemma RewriteSnoc(s: string, c: char)
    ensures Rewrite(s + [c]) == Rewrite(s) + Image(c)
  {
    RewriteAppend(s, [c]);
    assert Rewrite([c]) == Image(c) + Rewrite([]);
  }

  /** Output length: 20 per 'X', 2 per 'F', 1 per other symbol. */
  lemma {:induction false} RewriteLength(s: string)
    ensures |Rewrite(s)| == 20 * Count('X', s) + 2 * Count('F', s) + (|s| - Count('X', s) - Count('F', s))
  {
    if s != [] {
      RewriteLength(s[1..]);
      XRuleSplit();
    }
  }

  /** How many of a symbol a pass produces: the rule's share per 'X', the share
      of "FF" per 'F', and the symbol's own occurrences unless it is rewritten. */
  lemma ImageCount(c: char, x: char)
    ensures Count(c, Image(x)) == if x == 'X' then Count(c, XRule) else if x == 'F' then Count(c, "FF") else if x == c then 1 else 0
  {
    if x != 'X' && x != 'F' { assert [x][1..] == []; }
  }

  lemma Distribute(rx: int, rf: int, nx: int, nf: int, bx: int, bf: int)
    ensures rx * (bx + nx) + rf * (bf + nf) == rx * bx + rf * bf + rx * nx + rf * nf
  {
  }

  lemma {:induction false} RewriteCount(c: char, s: string, rx: nat, rf: nat)
    requires rx == Count(c, XRule) && rf == Count(c, "FF")
    ensures Count(c, Rewrite(s)) ==
            rx * Count('X', s) + rf * Count('F', s) + (if c == 'X' || c == 'F' then 0 else Count(c, s))
  {
    if s != [] {
      var x, t := s[0], s[1..];
      RewriteCount(c, t, rx, rf);
      assert Rewrite(s) == Image(x) + Rewrite(t);
      CountAppend(c, Image(x), Rewrite(t));
      ImageCount(c, x);
      var nx, nf := Count('X', t), Count('F', t);
      var bx, bf := if x == 'X' then 1 else 0, if x == 'F' then 1 else 0;
      assert Count('X', s) == bx + nx;
      assert Count('F', s) == bf + nf;
      assert Count(c, s) == (if x == c then 1 else 0) + Count(c, t);
      Distribute(rx, rf, nx, nf, bx, bf);
    }
  }

  /** The alphabet is closed under a pass. */
  lemma {:induction false} RewriteInAlphabet(s: string)
    requires InAlphabet(s)
    ensures InAlphabet(Rewrite(s))
  {
    if s != [] {
      assert s[0] in Alphabet;
      RewriteInAlphabet(s[1..]);
      XRuleInAlphabet();
      InAlphabetAppend(Image(s[0]), Rewrite(s[1..]));
    }
  }

  /** A pass keeps the nesting of '[' ']' and of 'd' 'i', from any depth, and
      keeps the net depth change of the string. */
  lemma {:induction false} RewriteNeverBelow(s: string, open: char, close: char, depth: int)
    requires NestingPair(open, close)
    requires NeverBelow(s, open, close, depth)
    ensures NeverBelow(Rewrite(s), open, close, depth)
    ensures Diff(Rewrite(s), open, close) == Diff(s, open, close)
  {
    if s != [] {
      var d := depth + Delta(s[0], open, close);
      RewriteNeverBelow(s[1..], open, close, d);
      ImageNesting(s[0], open, close, depth);
      NeverBelowAppend(Image(s[0]), Rewrite(s[1..]), open, close, depth);
      CountAppend(open, Image(s[0]), Rewrite(s[1..]));
      CountAppend(close, Image(s[0]), Rewrite(s[1..]));
      DiffCons(s[0], s[1..], open, close);
      assert [s[0]] + s[1..] == s;
    }
  }

  lemma RewriteNested(s: string, open: char, close: char)
    requires NestingPair(open, close)
    requires Nested(s, open, close)
    ensures Nested(Rewrite(s), open, close)
  {
    RewriteNeverBelow(s, open, close, 0);
  }

  /** No string is rewritten into "X": the first symbol of a non-empty result
      is 'd', 'F' or a copied symbol other than 'X'. */
  lemma RewriteNeverX(s: string)
    ensures Rewrite(s) != "X"
  {
    if s != [] {
      XRuleSplit();
      assert Rewrite(s)[0] == Image(s[0])[0];
    }
  }

  // ---------------------------------------------------------------------------
  // Repeated passes.

  /** `generateIteration(s, current, target)` makes max(1, target - current + 1)
      passes; so `drawTree(.., n)` interprets n + 1 passes over "X". */
  lemma {:induction false} GeneratePasses(s: string, current: int, target: int)
    ensures Generate(s, current, target) == Iterate(s, if current < target then target - current + 1 else 1)
    decreases target - current
  {
    if current < target {
      GeneratePasses(Rewrite(s), current + 1, target);
    }
  }

  lemma {:induction false} IterateLast(s: string, k: nat)
    ensures Iterate(s, k + 1) == Rewrite(Iterate(s, k))
    decreases k
  {
    if k > 0 {
      IterateLast(Rewrite(s), k - 1);
    }
  }

  /** Every number of passes over "X" keeps both nestings and the alphabet. */
  lemma {:induction false} IterateKeepsShape(s: string, k: nat)
    requires s == "X"
    ensures Nested(Iterate(s, k), '[', ']') && Nested(Iterate(s, k), 'd', 'i')
    ensures InAlphabet(Iterate(s, k))
  {
    if k == 0 {
      assert s[1..] == [];
    } else {
      IterateKeepsShape(s, k - 1);
      IterateLast(s, k - 1);
      var t := Iterate(s, k - 1);
      RewriteNested(t, '[', ']');
      RewriteNested(t, 'd', 'i');
      RewriteInAlphabet(t);
    }
  }

  function Pow4(k: nat): (p: nat)
    ensures p >= 1
  {
    if k == 0 then 1 else 4 * Pow4(k - 1)
  }

  /** After k passes over "X" there are 4^k 'X', 4^k - 1 '+' and
      2 (4^k - 1) / 3 '-'. */
  lemma {:induction false} IterateTurnCounts(k: nat)
    ensures Count('X', Iterate("X", k)) == Pow4(k)
    ensures Count('+', Iterate("X", k)) == Pow4(k) - 1
    ensures 3 * Count('-', Iterate("X", k)) == 2 * (Pow4(k) - 1)
  {
    if k == 0 {
      assert "X"[1..] == [];
    } else {
      IterateTurnCounts(k - 1);
      IterateLast("X", k - 1);
      RewriteTurnCounts(Iterate("X", k - 1));
      assert Pow4(k) == 4 * Pow4(k - 1);
    }
  }

  /** A pass makes four 'X' of each 'X', and adds three '+' and two '-' for it. */
  lemma RewriteTurnCounts(t: string)
    ensures Count('X', Rewrite(t)) == 4 * Count('X', t)
    ensures Count('+', Rewrite(t)) == 3 * Count('X', t) + Count('+', t)
    ensures Count('-', Rewrite(t)) == 2 * Count('X', t) + Count('-', t)
  {
    XRuleCounts();
    FFCounts();
    RewriteCount('X', t, 4, 0);
    RewriteCount('+', t, 3, 0);
    RewriteCount('-', t, 2, 0);
  }

  lemma FFCounts()
    ensures Count('X', "FF") == 0 && Count('+', "FF") == 0 && Count('-', "FF") == 0
  {
    assert "FF"[1..] == "F";
    assert "F"[1..] == [];
  }

  /** The first pass, which even `generateIteration("X", 0, 0)` makes. */
  lemma FirstPass()
    ensures Generate("X", 0, 0) == XRule
  {
    assert Rewrite("X") == XRule + Rewrite([]);
  }

  // ---------------------------------------------------------------------------
  // Facts about the rule string, proved piece by piece.

  lemma XRuleSplit()
    ensures XRule == "dF-[[X]+X]+F[+FX]-Xi"
    ensures |XRule| == 20 && XRule[0] == 'd'
  {
  }

  lemma XRuleCounts()
    ensures Count('X', XRule) == 4 && Count('F', XRule) == 3
    ensures Count('[', XRule) == 3 && Count(']', XRule) == 3
    ensures Count('+', XRule) == 3 && Count('-', XRule) == 2
    ensures Count('i', XRule) == 1 && Count('d', XRule) == 1
  {
    XRuleCountX();
    XRuleCountF();
    XRuleCountOpen();
    XRuleCountClose();
    XRuleCountPlus();
    XRuleCountMinus();
    XRuleCountWiden();
    XRuleCountNarrow();
  }

  lemma XRuleCountX()
    ensures Count('X', XRule) == 4
  {
    CountMultiplicity('X', XRule);
  }

  lemma XRuleCountF()
    ensures Count('F', XRule) == 3
  {
    CountMultiplicity('F', XRule);
  }

  lemma XRuleCountOpen()
    ensures Count('[', XRule) == 3
  {
    CountMultiplicity('[', XRule);
  }

  lemma XRuleCountClose()
    ensures Count(']', XRule) == 3
  {
    CountMultiplicity(']', XRule);
  }

  lemma XRuleCountPlus()
    ensures Count('+', XRule) == 3
  {
    CountMultiplicity('+', XRule);
  }

  lemma XRuleCountMinus()
    ensures Count('-', XRule) == 2
  {
    CountMultiplicity('-', XRule);
  }

  lemma XRuleCountWiden()
    ensures Count('i', XRule) == 1
  {
    CountMultiplicity('i', XRule);
  }

  lemma XRuleCountNarrow()
    ensures Count('d', XRule) == 1
  {
    CountMultiplicity('d', XRule);
  }

  lemma {:induction false} CountMultiplicity(c: char, s: string)
    ensures Count(c, s) == multiset(s)[c]
  {
    if s != [] {
      CountMultiplicity(c, s[1..]);
      assert s == [s[0]] + s[1..];
      assert multiset(s) == multiset{s[0]} + multiset(s[1..]);
    }
  }

  lemma XRuleInAlphabet()
    ensures InAlphabet(XRule)
  {
    var a, b, c, d := "dF-[[", "X]+X]", "+F[+F", "X]-Xi";
    assert InAlphabet(a) && InAlphabet(b) && InAlphabet(c) && InAlphabet(d);
    InAlphabetAppend(a, b);
    InAlphabetAppend(a + b, c);
    InAlphabetAppend(a + b + c, d);
  }

  lemma InAlphabetAppend(a: string, b: string)
    requires InAlphabet(a) && InAlphabet(b)
    ensures InAlphabet(a + b)
  {
    forall k | 0 <= k < |a + b|
      ensures (a + b)[k] in Alphabet
    {
      if k >= |a| {
        assert (a + b)[k] == b[k - |a|];
      }
    }
  }

  /** The rule string is nested for both pairs and opens what it closes. */
  lemma XRuleNested(open: char, close: char)
    requires NestingPair(open, close)
    ensures Nested(XRule, open, close)
  {
    if open == '[' {
      XRuleBrackets();
    } else {
      XRuleWidths();
    }
  }

  lemma XRuleBrackets()
    ensures Nested(XRule, '[', ']')
  {
    XRuleCountOpen();
    XRuleCountClose();
    BracketPiecesHead();
    BracketPiecesTail();
    ChainNeverBelow("dF-[[", "X]+X]", "+F[+F", "X]-Xi", '[', ']');
  }

  lemma XRuleWidths()
    ensures Nested(XRule, 'd', 'i')
  {
    XRuleCountWiden();
    XRuleCountNarrow();
    WidthPiecesHead();
    WidthPiecesTail();
    ChainNeverBelow("dF-[[", "X]+X]", "+F[+F", "X]-Xi", 'd', 'i');
  }

  lemma BracketPiecesHead()
    ensures NeverBelow("dF-[[", '[', ']', 0) && Diff("dF-[[", '[', ']') == 2
    ensures NeverBelow("X]+X]", '[', ']', 2) && Diff("X]+X]", '[', ']') == -2
  {
  }

  lemma BracketPiecesTail()
    ensures NeverBelow("+F[+F", '[', ']', 0) && Diff("+F[+F", '[', ']') == 1
    ensures NeverBelow("X]-Xi", '[', ']', 1)
  {
  }

  lemma WidthPiecesHead()
    ensures NeverBelow("dF-[[", 'd', 'i', 0) && Diff("dF-[[", 'd', 'i') == 1
    ensures NeverBelow("X]+X]", 'd', 'i', 1) && Diff("X]+X]", 'd', 'i') == 0
  {
  }

  lemma WidthPiecesTail()
    ensures NeverBelow("+F[+F", 'd', 'i', 1) && Diff("+F[+F", 'd', 'i') == 0
    ensures NeverBelow("X]-Xi", 'd', 'i', 1)
  {
  }

  lemma ChainNeverBelow(a: string, b: string, c: string, d: string, open: char, close: char)
    requires open != close
    requires NeverBelow(a, open, close, 0)
    requires NeverBelow(b, open, close, Diff(a, open, close))
    requires NeverBelow(c, open, close, Diff(a, open, close) + Diff(b, open, close))
    requires NeverBelow(d, open, close, Diff(a, open, close) + Diff(b, open, close) + Diff(c, open, close))
    ensures NeverBelow(a + b + c + d, open, close, 0)
  {
    NeverBelowAppend(a, b, open, close, 0);
    CountAppend(open, a, b);
    CountAppend(close, a, b);
    NeverBelowAppend(a + b, c, open, close, 0);
    CountAppend(open, a + b, c);
    CountAppend(close, a + b, c);
    NeverBelowAppend(a + b + c, d, open, close, 0);
  }

  /** What one symbol's image does to a nesting. */
  lemma ImageNesting(c: char, open: char, close: char, depth: int)
    requires NestingPair(open, close)
    requires depth >= 0 && depth + Delta(c, open, close) >= 0
    ensures NeverBelow(Image(c), open, close, depth)
    ensures Diff(Image(c), open, close) == Delta(c, open, close)
  {
    if c == 'X' {
      XRuleNested(open, close);
      NeverBelowMonotone(XRule, open, close, 0, depth);
    } else if c == 'F' {
      assert "FF"[1..] == "F" && "F"[1..] == [];
    } else {
      assert [c][1..] == [];
    }
  }

  // ---------------------------------------------------------------------------
  // How deep the trunk-width changes go.

  /** Walking `s` from width depth `depth` (the 'd' seen minus the 'i' seen),
      the depth never exceeds `cap`, and every 'X' sits at exactly `cap`. */
  predicate WithinDepth(s: string, depth: int, cap: int)
    decreases |s|
  {
    depth <= cap &&
    (s == [] || ((s[0] == 'X' ==> depth == cap) && WithinDepth(s[1..], depth + Delta(s[0], 'd', 'i'), cap)))
  }

  lemma {:induction false} WithinDepthAppend(a: string, b: string, depth: int, cap: int)
    ensures WithinDepth(a + b, depth, cap) <==>
            WithinDepth(a, depth, cap) && WithinDepth(b, depth + Diff(a, 'd', 'i'), cap)
  {
    if a == [] {
      assert a + b == b;
    } else {
      assert (a + b)[0] == a[0];
      assert (a + b)[1..] == a[1..] + b;
      WithinDepthAppend(a[1..], b, depth + Delta(a[0], 'd', 'i'), cap);
      DiffCons(a[0], a[1..], 'd', 'i');
      assert [a[0]] + a[1..] == a;
    }
  }

  /** Within the rule string every 'X' is one width change deeper than the
      'X' it replaces, and nothing goes deeper. */
  lemma XRuleWithinDepth(cap: int)
    ensures WithinDepth(XRule, cap - 1, cap)
  {
    WidthDepthPieces(cap);
    ChainWithinDepth("dF-[[", "X]+X]", "+F[+F", "X]-Xi", cap - 1, cap);
  }

  lemma WidthDepthPieces(cap: int)
    ensures WithinDepth("dF-[[", cap - 1, cap) && Diff("dF-[[", 'd', 'i') == 1
    ensures WithinDepth("X]+X]", cap, cap) && Diff("X]+X]", 'd', 'i') == 0
    ensures WithinDepth("+F[+F", cap, cap) && Diff("+F[+F", 'd', 'i') == 0
    ensures WithinDepth("X]-Xi", cap, cap)
  {
  }

  lemma ChainWithinDepth(a: string, b: string, c: string, d: string, depth: int, cap: int)
    requires WithinDepth(a, depth, cap)
    requires WithinDepth(b, depth + Diff(a, 'd', 'i'), cap)
    requires WithinDepth(c, depth + Diff(a, 'd', 'i') + Diff(b, 'd', 'i'), cap)
    requires WithinDepth(d, depth + Diff(a, 'd', 'i') + Diff(b, 'd', 'i') + Diff(c, 'd', 'i'), cap)
    ensures WithinDepth(a + b + c + d, depth, cap)
  {
    WithinDepthAppend(a, b, depth, cap);
    CountAppend('d', a, b);
    CountAppend('i', a, b);
    WithinDepthAppend(a + b, c, depth, cap);
    CountAppend('d', a + b, c);
    CountAppend('i', a + b, c);
    WithinDepthAppend(a + b + c, d, depth, cap);
  }

  /** A pass keeps the net width change of any string. */
  lemma RewriteDiff(s: string)
    ensures Diff(Rewrite(s), 'd', 'i') == Diff(s, 'd', 'i')
  {
    XRuleCounts();
    assert "FF"[1..] == "F" && "F"[1..] == [];
    RewriteCount('d', s, 1, 0);
    RewriteCount('i', s, 1, 0);
  }

  lemma ImageWithinDepth(c: char, depth: int, cap: int)
    requires depth <= cap && (c == 'X' ==> depth == cap)
    ensures WithinDepth(Image(c), depth, cap + 1)
    ensures Diff(Image(c), 'd', 'i') == Delta(c, 'd', 'i')
  {
    if c == 'X' {
      XRuleWithinDepth(cap + 1);
      XRuleCounts();
    } else if c == 'F' {
      assert "FF"[1..] == "F" && "F"[1..] == [];
    } else {
      assert [c][1..] == [];
    }
  }

  /** A pass pushes every 'X', and so the deepest point, one width change
      deeper. */
  lemma {:induction false} RewriteWithinDepth(s: string, depth: int, cap: int)
    requires WithinDepth(s, depth, cap)
    ensures WithinDepth(Rewrite(s), depth, cap + 1)
  {
    if s != [] {
      RewriteWithinDepth(s[1..], depth + Delta(s[0], 'd', 'i'), cap);
      ImageWithinDepth(s[0], depth, cap);
      WithinDepthAppend(Image(s[0]), Rewrite(s[1..]), depth, cap + 1);
    }
  }

  lemma {:induction false} IterateWithinDepth(k: nat)
    ensures WithinDepth(Iterate("X", k), 0, k)
  {
    if k == 0 {
      assert "X"[1..] == [];
    } else {
      IterateWithinDepth(k - 1);
      IterateLast("X", k - 1);
      RewriteWithinDepth(Iterate("X", k - 1), 0, k - 1);
    }
  }

  /** The comment at tree.js:67: the trunk width is decreased at most
      `iterations + 1` times before it is increased again. Along the tree
      string the count of 'd' minus 'i' stays between 0 and n + 1, and every
      'X' (each branch tip) sits at exactly n + 1. */
  lemma TreeWidthDepth(n: nat)
    ensures WithinDepth(Tree(n), 0, n + 1)
    ensures forall k :: 0 <= k <= |Tree(n)| ==> 0 <= Diff(Tree(n)[..k], 'd', 'i') <= n + 1
  {
    IterateWithinDepth(n + 1);
    PrefixDepths(Tree(n), n + 1);
  }

  /** A nested string that stays within `cap` has every prefix's net width
      change between 0 and `cap`. */
  lemma PrefixDepths(s: string, cap: int)
    requires WithinDepth(s, 0, cap) && NeverBelow(s, 'd', 'i', 0)
    ensures forall k :: 0 <= k <= |s| ==> 0 <= Diff(s[..k], 'd', 'i') <= cap
  {
    NeverBelowPrefixes(s, 'd', 'i', 0);
    forall k | 0 <= k <= |s|
      ensures Diff(s[..k], 'd', 'i') <= cap
    {
      assert s == s[..k] + s[k..];
      WithinDepthAppend(s[..k], s[k..], 0, cap);
    }
  }
}
