# web-bonsai tree generator, modelled in Dafny

`tree.js` draws a bonsai tree on an HTML canvas. It has four parts:

- **Seeded generator.** A Mulberry32 generator (`pseudoRand`) is fed from a module-level
  counter, `globalSeed`. The counter comes from the page's `seed` parameter. A non-numeric
  parameter is first turned into a number by the base-31 hash `stringToInteger`.
- **String grammar.** An L-system (`generateIteration`) rewrites the axiom `"X"`:
  - every `X` becomes `dF-[[X]+X]+F[+FX]-Xi`;
  - every `F` becomes `FF`;
  - every other symbol is copied.

  It makes one pass more than the requested number of iterations.
- **Turtle interpreter** (`drawTree`). It walks the string one symbol at a time:
  - `F` strokes a trunk segment;
  - `-` and `+` turn the pen by a random angle, in a direction chosen at random (30/70);
  - `[` saves the pen on a stack;
  - `]` strokes a leaf and then restores the pen from the stack;
  - `i` widens the trunk by `trunkChange`, and `d` narrows it by the same amount.
- **Scene.** `populateScene` paints the background and draws one tree of five iterations
  at x = 512.

The Dafny files:

| file | contents |
|---|---|
| `symbols.dfy` | Symbol counts, and the nesting of a pair of symbols. |
| `prng.dfy` | `pseudoRand` on exact 32-bit words (`bv32`), and `randomAngle`. |
| `seed_hash.dfy` | `stringToInteger` as a loop. It is proved equal to the base-31 polynomial. |
| `lsystem.dfy` | The rewriting pass and `generateIteration` (its loop and its recursion). Also what the passes keep: alphabet, bracket nesting, width nesting, turn counts, width depth. |
| `turtle.dfy` | `Step`/`Run`, the interpreter as functions on an immutable state. `Scene` is a class whose fields are `globalSeed` and the canvas. Its `DrawTree` runs the source's loop and is proved to do what `Run` says. The lemmas prove that the generated tree never pops an empty stack, how far the seed advances, and the bounds on the trunk width. |

## Model

| member | source | states |
|---|---|---|
| Prng.ToWord | tree.js:3 | ToUint32: the seed taken modulo 2^32, which is how the bitwise operators read the sum. A definition without its own contract; `PseudoRandPeriodic` states what it implies. |
| Prng.Scramble | tree.js:4-6 | The two `Math.imul` rounds and the final xor-shift on wrapping 32-bit words. A definition without its own contract; `KnownAnswers` pins it to the algorithm's published outputs. |
| Prng.Mulberry32 | tree.js:3-6 | The wrapping add of 0x6d2b79f5 followed by `Scramble`. A definition without its own contract; it is checked by `KnownAnswers`. |
| Prng.Draw32 | tree.js:3-6 | The unsigned value `(t ^ (t >>> 14)) >>> 0` lies in [0, 2^32). |
| Prng.Ratio | tree.js:6 | The unsigned word divided by 2^32 lies in [0, 1), and multiplying back by 2^32 gives the word exactly. |
| Prng.PseudoRand | tree.js:2-7 | `pseudoRand(seed)` always lies in [0, 1). |
| Prng.PseudoRandPeriodic | tree.js:3-5 | Two seeds that agree modulo 2^32 give the same value. |
| Prng.RatioExact | tree.js:6 | The final division loses nothing: distinct 32-bit words give distinct results. |
| Prng.KnownAnswers | tree.js:2-7 | Known-answer vectors: seed 0 gives the word 1144304738, and seed 42 gives 2581720956 (that is, 2581720956 / 2^32). |
| Prng.BiasThreshold | tree.js:147 | `pseudoRand(seed) < 0.3` holds exactly when the 32-bit word is at most 1288490188. |
| Prng.RandomAngle | tree.js:26-30 | `randomAngle(seed, midpoint, range)` lies in [midpoint - range/2, midpoint + range/2). |
| Prng.Scale | tree.js:29 | `pseudoRand(seed) * range` lies in [0, range], and below `range` when `range` is positive. |
| SeedHash.Hash | tree.js:11-15 | The Horner recurrence over the code units. Its value is never negative. |
| SeedHash.StringToInteger | tree.js:10-16 | The loop returns the polynomial sum of code(s[k]) * 31^(n-1-k), and this lies between 0 and 0xFFFF * (31^n - 1) / 30. |
| SeedHash.HashIsPolynomial | tree.js:11-15 | The Horner recurrence `result * 31 + code` evaluates the base-31 polynomial. |
| SeedHash.PolynomialSnoc | tree.js:13 | Appending a code unit multiplies the polynomial by 31 and adds the unit. |
| SeedHash.HashBound | tree.js:10-16 | The hash of n code units is non-negative and at most 0xFFFF * (31^n - 1) / 30. |
| SeedHash.HashExactBelow2To53 | tree.js:13 | For up to 8 code units, the hash of every prefix (each intermediate value of the loop) lies in [0, 2^53), where doubles compute it exactly. |
| SeedHash.HashNotInjective | tree.js:9 | The integer is not unique: "Aa" and "BB" both hash to 2112. |
| LSystem.Image | tree.js:41-47 | What one symbol becomes: the rule string for 'X', "FF" for 'F', the symbol itself otherwise. A definition without its own contract; `ImageCount`, `ImageNesting` and `RewriteLength` state its properties. |
| LSystem.Rewrite | tree.js:39-48 | One pass: the images of the symbols, concatenated in order. A definition without its own contract; the `Rewrite*` lemmas below state its properties. |
| LSystem.Generate | tree.js:37-57 | One pass, then the recursive call while `currentIteration < targetIteration`. A definition without its own contract; `GeneratePasses` states how many passes it makes. |
| LSystem.GenerateIteration | tree.js:37-57 | The loop and the recursion return `Generate(treeString, currentIteration, targetIteration)`. |
| LSystem.GeneratePasses | tree.js:49-55 | `generateIteration(s, current, target)` makes max(1, target - current + 1) passes over `s`. |
| LSystem.FirstPass | tree.js:37-57 | Even `generateIteration("X", 0, 0)` rewrites once, giving the rule string. |
| LSystem.IterateLast | tree.js:49-55 | k + 1 passes are k passes followed by one more. |
| LSystem.Tree | tree.js:61 | The tree string is k + 1 passes over "X". It nests '[' ']' and 'd' 'i', uses only the eight symbols, and is never "X" itself. |
| LSystem.RewriteAppend | tree.js:39-48 | A pass rewrites a concatenation piece by piece: each symbol's image is produced in place and in order. |
| LSystem.RewriteSnoc | tree.js:39-48 | One more symbol of input appends its image to the output, which is the loop's step. |
| LSystem.RewriteLength | tree.js:41-47 | The output length is 20 per 'X', 2 per 'F' and 1 per other symbol. |
| LSystem.ImageCount | tree.js:41-47 | What one symbol's image holds of a symbol c: the rule's share for 'X', the share of "FF" for 'F', and the symbol itself otherwise. |
| LSystem.RewriteCount | tree.js:39-48 | The number of c in a pass is the rule's count of c times #X, plus the count of c in "FF" times #F, plus (unless c is 'X' or 'F') the number of c already there. |
| LSystem.RewriteInAlphabet | tree.js:41-47 | A pass keeps a string within the alphabet X F + - [ ] i d. |
| LSystem.RewriteNeverBelow | tree.js:41-47 | A pass keeps "no prefix closes more than it opened" for '[' ']' and for 'd' 'i', from any depth, and keeps the net balance. |
| LSystem.RewriteNested | tree.js:41-47 | A pass keeps both nestings. |
| LSystem.RewriteNeverX | tree.js:41-47 | No string is rewritten into "X". |
| LSystem.IterateKeepsShape | tree.js:37-57 | Any number of passes over "X" keeps both nestings and the alphabet. |
| LSystem.RewriteTurnCounts | tree.js:41-42 | A pass turns each 'X' into four. For each 'X' it adds three '+' and two '-'. |
| LSystem.IterateTurnCounts | tree.js:37-57 | After k passes over "X" there are 4^k 'X', 4^k - 1 '+' and 2(4^k - 1)/3 '-'. |
| LSystem.XRuleSplit | tree.js:42 | The four five-symbol pieces spell "dF-[[X]+X]+F[+FX]-Xi", which has 20 symbols and starts with 'd'. |
| LSystem.XRuleCounts | tree.js:42 | The rule holds 4 'X', 3 'F', 3 '[', 3 ']', 3 '+', 2 '-', 1 'i' and 1 'd'. |
| LSystem.XRuleInAlphabet | tree.js:42 | The rule uses only the eight symbols. |
| LSystem.XRuleNested | tree.js:42 | The rule nests '[' ']' and 'd' 'i'. |
| LSystem.RewriteDiff | tree.js:41-47 | A pass keeps the net width change (#d - #i). |
| LSystem.RewriteWithinDepth | tree.js:41-47 | A pass lets the width depth (d seen minus i seen) grow by at most one. |
| LSystem.IterateWithinDepth | tree.js:37-57 | After k passes over "X", the width depth never exceeds k. |
| LSystem.TreeWidthDepth | tree.js:67 | In a tree of n iterations, every prefix has between 0 and n + 1 more 'd' than 'i'. The trunk narrows at most n + 1 times. |
| Turtle.BaseWidth | tree.js:66 | `3 * iterations - 6` is non-negative exactly from two iterations on. |
| Turtle.Change | tree.js:66-68 | `trunkChange` times (iterations + 1) is the base width `3 * iterations - 6`. It is non-negative from two iterations on. |
| Turtle.Ceil | tree.js:100 | `Math.ceil(w)` is the least integer not below w. |
| Turtle.DrawnWidth | tree.js:100 | `Math.max(1, Math.ceil(w))` is at least 1 and at least w, and is either 1 or below w + 1. |
| Turtle.Turn | tree.js:145-158 | A turn changes the heading by between 15 and 25 degrees, one way or the other. |
| Turtle.TurnDirection | tree.js:145-158 | The heading grows exactly when the symbol is '-' and the 0.3 test passes, or the symbol is '+' and it fails. |
| Turtle.TurnLeft | tree.js:145-151 | The '-' branch turns as `Turn('-', ...)` says and uses two seed values. |
| Turtle.TurnRight | tree.js:152-158 | The '+' branch turns as `Turn('+', ...)` says and uses two seed values. |
| Turtle.Step | tree.js:140-173 | One symbol of the loop. It stops the walk exactly when the symbol is ']' and the stack is empty; `StepAccounting` states what a finished step changes. |
| Turtle.Run | tree.js:139-174 | The loop over a whole string. A walk can stop early only if the string holds a ']'; `RunFinishes` states exactly when. |
| Turtle.Start | tree.js:61-68 | The loop starts with an empty stack, the base width and the seed advanced by one. The starting heading lies in [-10, 10) degrees. |
| Turtle.Render | tree.js:60-175 | The loop over `Tree(n)` from `Start`. A definition without its own contract; `RenderCompletes`, `RenderSeedAdvance` and `TreeWidthRange` state its properties. |
| Turtle.RunAppend | tree.js:139-174 | Walking a concatenation is walking its parts in turn, stopping at an abort. |
| Turtle.RunNext | tree.js:139-174 | A finished walk takes a finished first step and goes on from there. |
| Turtle.StepAccounting | tree.js:140-173 | One symbol moves the stack by the bracket delta and the seed by 2 on a turn. 'i'/'d' move the width by plus or minus `trunkChange`. It appends one stroke on 'F' and ']' and keeps the earlier strokes. |
| Turtle.RunFinishes | tree.js:162-168 | The walk finishes exactly when no prefix closes more brackets than the stack plus its own opens. |
| Turtle.RunAccounting | tree.js:139-174 | After a finished walk the stack height has moved by #[ - #]. The seed has moved by 2(#+ + #-). One stroke was appended per 'F' and per ']' after the strokes already there. |
| Turtle.RunWidth | tree.js:169-172 | The width after a finished walk is the start width plus one `trunkChange` per 'i', minus one per 'd'. |
| Turtle.RunKeepsBase | tree.js:159-168 | A walk that never pops below height k leaves the bottom k saved pens untouched. |
| Turtle.BranchRestores | tree.js:159-168 | "[" + s + "]" over a nested s restores the pen and the stack. The trunk width is not saved: it keeps the branch's 'i' and 'd'. |
| Turtle.RenderCompletes | tree.js:60-175 | `drawTree` never pops an empty stack. It ends with the stack empty and the width back at the base. The seed moves by 1 + 2(#+ + #-), and one stroke is added per 'F' and ']' after the old canvas. |
| Turtle.RenderSeedAdvance | tree.js:60-175 | A tree of n iterations uses 1 + 10(4^(n+1) - 1)/3 seed values. |
| Turtle.CentreTreeSeed | tree.js:191-192 | The centre tree (five iterations at x = 512) uses exactly 13651 seed values. |
| Turtle.TreeWidthRange | tree.js:66-68 | From two iterations on, the trunk width after every prefix of the walk lies between 0 and the base width. |
| Turtle.Scene.constructor | tree.js:32 | The page starts with `globalSeed` set to the given seed and an empty canvas. |
| Turtle.Scene.DrawTree | tree.js:60-175 | `drawTree` finishes, and leaves `globalSeed` and the canvas as `Render` says. |
| Turtle.Scene.Walk | tree.js:137-174 | The loop, started from the initial pen, leaves `globalSeed` and the canvas as `Run` says. |
| Turtle.Scene.Interpret | tree.js:140-173 | One pass of the loop body changes the pen, stack, width, seed and canvas exactly as `Step` says. |
| Turtle.Scene.PopulateScene | tree.js:35-202 | The canvas holds exactly the strokes of the five-iteration tree at x = 512, and `globalSeed` has advanced by 13651. |

## Left out

- Canvas output is not modelled. This covers colours, gradients (`summerGradient`, `winterGradient`), `lineCap`, the background and box `fillRect` calls, and the leaf's stroke width `lineLength / 3`. Strokes are recorded as `Trunk` and `Leaf` values carrying position, heading and width or length.
- Positions are not computed. `xPos += lineLength * sin(lineAngle)` and `yPos -= lineLength * cos(lineAngle)` are kept as the term `Moved(from, length, heading)`, since the model has no trigonometry.
- Angles are kept in degrees. The source multiplies every angle term by pi/180; that is a constant factor, and it matters only inside sin and cos.
- Floating-point rounding is not modelled: headings and widths are exact reals. For five iterations, `trunkChange` is 1.5 and the widths are multiples of 1.5, so doubles hold them exactly.
- `getSeed` is not modelled. It reads the URL, parses it with `parseInt`/`Number`, and falls back to 0. The initial seed is the parameter of `Scene`'s constructor.
- The `DOMContentLoaded` and `click` listeners (tree.js:204-211) are not modelled. They are browser events, and they only call `populateScene`. The click handler also writes the seed to the console with `console.log`, which is not modelled either.
- Prng.PseudoRand: `seed + 0x6d2b79f5` is taken as an exact integer before reducing modulo 2^32. The source adds in doubles, and that sum rounds only for seeds beyond about 2^53.
- Turtle.Scene.PopulateScene: the seed counter is an unbounded integer, but in the source `globalSeed` is a double. From 2^53 on, `globalSeed++` stops changing it, and from then on every draw uses the same seed. The promise that one scene advances the seed by 13651 therefore holds for the source only while `globalSeed + 13651 <= 2^53`. Text seeds of 11 or more code units hash beyond that (`98 * 31^10` is about 8e16), and so do large numeric seeds.
- Turtle.CentreTreeSeed, Turtle.RenderCompletes, Turtle.RenderSeedAdvance, Turtle.RunAccounting, Turtle.StepAccounting, Turtle.TurnLeft, Turtle.TurnRight: their seed accounting (+1 per start angle, +2 per turn) has the same limit. It holds for the source only while `globalSeed` stays at or below 2^53.
- SeedHash.StringToInteger: the hash is computed on unbounded integers. The source's doubles round once an intermediate value passes 2^53. `HashExactBelow2To53` shows this cannot happen for strings of up to 8 code units.
- Turtle.Scene.Walk: it is required to receive a string whose brackets never close more than they opened. On any other string the source throws at `coords[0]` after `stack.pop()` returns `undefined`. `Run` models that outcome as `Aborted`, with the leaf already drawn. `DrawTree` proves the generated tree never reaches it.
- Turtle.Scene.DrawTree: `iterations` is a natural number. A negative count divides `trunkChange` by zero or makes the width negative, and the only call passes 5.
- Turtle.TurnLeft and Turtle.TurnRight: the two turn branches are separate methods that take `globalSeed` and return its new value. They are not inline statements on the field. They perform the same draws in the same order.
- The commented-out loop that draws trees of 3 to 5 iterations (tree.js:195-197) is not modelled.
