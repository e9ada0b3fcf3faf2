/** `stringToInteger` (tree.js:10-16): a base-31 Horner hash over the UTF-16
    code units of a string, used to turn a non-numeric seed parameter into a
    number. JavaScript computes it in doubles; here it is computed on
    unbounded integers, which agrees with the source as long as every
    intermediate value stays below 2^53 (see `HashExactBelow2To53`). */
module SeedHash {

  /** A UTF-16 code unit, the value `charCodeAt` returns. */
  newtype CodeUnit = x: int | 0 <= x < 0x1_0000

  /** The Horner form: the hash of a string extended by one code unit. */
  function Hash(s: seq<CodeUnit>): (h: int)
    ensures h >= 0
    decreases |s|
  {
    if s == [] then 0 else Hash(s[..|s| - 1]) * 31 + s[|s| - 1] as int
  }

  function Pow31(k: nat): (p: nat)
    ensures p >= 1
  {
    if k == 0 then 1 else 31 * Pow31(k - 1)
  }

  /** The polynomial the hash evaluates: the sum of code(s[k]) * 31^(|s|-1-k). */
  function Polynomial(s: seq<CodeUnit>): int
    decreases |s|
  {
    if s == [] then 0 else s[0] as int * Pow31(|s| - 1) + Polynomial(s[1..])
  }

  /** `stringToInteger(str)`: the loop of tree.js:11-15. */
  method StringToInteger(str: seq<CodeUnit>) returns (result: int)
    ensures result == Polynomial(str)
    ensures 0 <= 30 * result <= 0xFFFF * (Pow31(|str|) - 1)
  {
    result := 0;
    var i := 0;
    while i < |str|
      invariant 0 <= i <= |str|
      invariant result == Hash(str[..i])
    {
      assert str[..i + 1][..i] == str[..i];
      result := result * 31 + str[i] as int;
      i := i + 1;
    }
    assert str[..|str|] == str;
    HashIsPolynomial(str);
    HashBound(str);
  }

  /** The Horner loop evaluates the polynomial. */
  lemma {:induction false} HashIsPolynomial(s: seq<CodeUnit>)
    ensures Hash(s) == Polynomial(s)
    decreases |s|
  {
    if s != [] {
      var init := s[..|s| - 1];
      HashIsPolynomial(init);
      PolynomialSnoc(init, s[|s| - 1]);
      assert init + [s[|s| - 1]] == s;
    }
  }

  /** Appending a code unit multiplies the polynomial by 31 and adds the unit. */
  lemma {:induction false} PolynomialSnoc(s: seq<CodeUnit>, c: CodeUnit)
    ensures Polynomial(s + [c]) == Polynomial(s) * 31 + c as int
    decreases |s|
  {
    if s == [] {
      assert [] + [c] == [c];
      assert [c][1..] == [];
    } else {
      assert (s + [c])[1..] == s[1..] + [c];
      PolynomialSnoc(s[1..], c);
      assert Pow31(|s|) == 31 * Pow31(|s| - 1);
      calc {
        Polynomial(s + [c]);
        s[0] as int * Pow31(|s|) + Polynomial(s[1..] + [c]);
        s[0] as int * (31 * Pow31(|s| - 1)) + Polynomial(s[1..]) * 31 + c as int;
        { assert s[0] as int * (31 * Pow31(|s| - 1)) == (s[0] as int * Pow31(|s| - 1)) * 31; }
        (s[0] as int * Pow31(|s| - 1) + Polynomial(s[1..])) * 31 + c as int;
      }
    }
  }

  /** The hash of n code units is at most 0xFFFF * (31^n - 1) / 30, the hash of
      n code units 0xFFFF. */
  lemma {:induction false} HashBound(s: seq<CodeUnit>)
    ensures 0 <= 30 * Hash(s) <= 0xFFFF * (Pow31(|s|) - 1)
    decreases |s|
  {
    if s != [] {
      var init := s[..|s| - 1];
      HashBound(init);
      var h, p := Hash(init), Pow31(|init|);
      assert Hash(s) == h * 31 + s[|s| - 1] as int;
      assert 30 * (h * 31) <= 0xFFFF * (p - 1) * 31;
      assert Pow31(|s|) == 31 * p;
    }
  }

  /** Strings of up to eight code units hash below 2^53, as do all their
      prefixes (the loop's intermediate values); a double holds every such
      integer exactly, so on them the model and the source agree. */
  lemma HashExactBelow2To53(s: seq<CodeUnit>)
    requires |s| <= 8
    ensures forall k :: 0 <= k <= |s| ==> 0 <= Hash(s[..k]) < 0x20_0000_0000_0000
  {
    assert Pow31(8) == 852891037441;
    forall k | 0 <= k <= |s|
      ensures Hash(s[..k]) < 0x20_0000_0000_0000
    {
      HashBound(s[..k]);
      Pow31Monotone(k, 8);
    }
  }

  lemma {:induction false} Pow31Monotone(j: nat, k: nat)
    requires j <= k
    ensures Pow31(j) <= Pow31(k)
    decreases k
  {
    if j < k {
      Pow31Monotone(j, k - 1);
    }
  }

  /** The comment at tree.js:9 calls the integer unique; it is not: "Aa" and
      "BB" hash alike (65 * 31 + 97 == 66 * 31 + 66 == 2112). */
  lemma HashNotInjective()
    ensures Hash([65, 97]) == Hash([66, 66]) == 2112
  {
    assert [65, 97][..1] == [65 as CodeUnit];
    assert [66, 66][..1] == [66 as CodeUnit];
    assert [65 as CodeUnit][..0] == [];
    assert [66 as CodeUnit][..0] == [];
  }
}
