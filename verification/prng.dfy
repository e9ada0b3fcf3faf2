/** The Mulberry32 pseudo-random generator (tree.js:2-7) and the random angle
    drawn from it (tree.js:26-30).

    JavaScript keeps the seed as a Number; every bitwise operator and
    `Math.imul` reads its operands modulo 2^32, so from the first shift on the
    computation is exact 32-bit wrapping arithmetic, written here on `bv32`.
    The final `>>> 0` reads the word as unsigned and the division by 2^32 is
    exact, so the result is a rational number k / 2^32. */
module Prng {

  type Word = bv32

  const TwoTo32: int := 0x1_0000_0000

  /** JavaScript's ToUint32: the integer taken modulo 2^32. */
  function ToWord(n: int): Word
  {
    (n % 0x1_0000_0000) as Word
  }

  /** The two multiply/xor-shift rounds and the final xor-shift. */
  function Scramble(t0: Word): Word
  {
    var t1 := (t0 ^ (t0 >> 15)) * (t0 | 1);
    var t2 := t1 ^ (t1 + (t1 ^ (t1 >> 7)) * (t1 | 61));
    t2 ^ (t2 >> 14)
  }

  /** Mulberry32 on the seed's word: add the constant 0x6d2b79f5 (wrapping, which
      is what reading `seed + 0x6d2b79f5` modulo 2^32 gives), then scramble. */
  function Mulberry32(seed: Word): Word
  {
    Scramble(seed + 0x6d2b79f5)
  }

  /** The unsigned 32-bit value behind `pseudoRand(seed)`. */
  function Draw32(seed: int): (k: int)
    ensures 0 <= k < TwoTo32
  {
    Mulberry32(ToWord(seed)) as int
  }

  /** An unsigned 32-bit value read as a fraction of 2^32. */
  function Ratio(k: int): (r: real)
    requires 0 <= k < TwoTo32
    ensures 0.0 <= r < 1.0
    ensures r * TwoTo32 as real == k as real
  {
    k as real / TwoTo32 as real
  }

  /** `pseudoRand(seed)`: always a value in [0, 1). */
  function PseudoRand(seed: int): (r: real)
    ensures 0.0 <= r < 1.0
  {
    Ratio(Draw32(seed))
  }

  /** The generator sees the seed only modulo 2^32. */
  lemma PseudoRandPeriodic(a: int, b: int)
    requires a % TwoTo32 == b % TwoTo32
    ensures PseudoRand(a) == PseudoRand(b)
  {
    assert ToWord(a) == ToWord(b);
  }

  /** Distinct 32-bit values give distinct results: the division loses nothing. */
  lemma RatioExact(j: int, k: int)
    requires 0 <= j < TwoTo32 && 0 <= k < TwoTo32
    ensures Ratio(j) == Ratio(k) <==> j == k
  {
  }

  /** Known-answer vectors of the algorithm for the seeds 0 and 42. */
  lemma KnownAnswers()
    ensures Mulberry32(0) as int == 1144304738
    ensures Mulberry32(42) as int == 2581720956
    ensures Ratio(Mulberry32(42) as int) == 2581720956.0 / 4294967296.0
  {
  }

  /** The test `pseudoRand(seed) < 0.3` (tree.js:147, tree.js:154) holds for
      exactly the values up to 1288490188, since 0.3 * 2^32 = 1288490188.8. */
  lemma BiasThreshold(seed: int)
    ensures PseudoRand(seed) < 0.3 <==> Draw32(seed) <= 1288490188
  {
    var k := Draw32(seed);
    if k <= 1288490188 {
      assert k as real <= 1288490188.0;
    } else {
      assert k as real >= 1288490189.0;
    }
  }

  /** `randomAngle(seed, midpoint, range)` measured in degrees: the source
      multiplies each of these terms by pi/180 to obtain radians. The angle
      lies in [midpoint - range/2, midpoint + range/2). */
  function RandomAngle(seed: int, midpoint: real, range: real): (deg: real)
    requires range >= 0.0
    ensures midpoint - range / 2.0 <= deg
    ensures range > 0.0 ==> deg < midpoint + range / 2.0
  {
    Scale(PseudoRand(seed), range) - range / 2.0 + midpoint
  }

  /** The share `p` of `range`, for a fraction `p` in [0, 1). */
  function Scale(p: real, range: real): (s: real)
    requires 0.0 <= p < 1.0 && range >= 0.0
    ensures 0.0 <= s <= range
    ensures range > 0.0 ==> s < range
  {
    assert (1.0 - p) * range >= 0.0;
    assert range > 0.0 ==> (1.0 - p) * range > 0.0;
    p * range
  }
}
