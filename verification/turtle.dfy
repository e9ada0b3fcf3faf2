/** The turtle interpreter of `drawTree` (tree.js:60-175): it walks the tree
    string symbol by symbol, drawing trunk segments on 'F', turning on '+' and
    '-', saving and restoring the pen on '[' and ']', and narrowing or widening
    the trunk on 'd' and 'i'. `Step` and `Run` specify the walk as functions;
    the class `Scene` below runs it as the source does, with the module-level
    `globalSeed` as a field. */
module Turtle {
  import opened Symbols
  import opened Prng
  import opened LSystem

  /** A point of the canvas, kept as the term that computes it: the starting
      point, or the point reached by moving `length` units from another one
      along a heading (degrees, 0 pointing up, growing clockwise; the source
      moves by `length * sin` horizontally and `length * cos` upwards). */
  datatype Place = Origin(x: real, y: real) | Moved(from: Place, length: int, heading: real)

  /** Position and heading of the pen: what '[' saves (tree.js:161). */
  datatype Pose = Pose(place: Place, heading: real)

  /** What the interpreter strokes on the canvas. */
  datatype Stroke =
    | Trunk(start: Place, heading: real, width: int)   // drawTrunk: TrunkLength units long
    | Leaf(start: Place, heading: real, length: int)   // drawLeaf: as wide as length / 3

  /** The walk's state: pen, saved pens, trunk width, `globalSeed` and the
      strokes drawn so far. */
  datatype State = State(pose: Pose, stack: seq<Pose>, width: real, seed: int, strokes: seq<Stroke>)

  /** A walk either finishes, or stops at a ']' whose `stack.pop()` yields
      nothing (reading `coords[0]` of it throws). */
  datatype Outcome = Finished(state: State) | Aborted(state: State)

  const TrunkLength: int := 2
  const StartY: real := 400.0

  /** Width of the trunk at the bottom of a tree of `n` iterations. */
  function BaseWidth(n: nat): (w: int)
    ensures n >= 2 <==> w >= 0
  {
    3 * n - 6
  }

  /** `trunkChange`: the base width split into n + 1 equal steps. */
  function Change(n: nat): (c: real)
    ensures (n + 1) as real * c == BaseWidth(n) as real
    ensures n >= 2 ==> c >= 0.0
  {
    BaseWidth(n) as real / (n + 1) as real
  }

  /** `Math.ceil`. */
  function Ceil(w: real): (c: int)
    ensures w <= c as real < w + 1.0
  {
    -((-w).Floor)
  }

  /** `Math.max(1, Math.ceil(w))`: the width a trunk segment is stroked with. */
  function DrawnWidth(w: real): (k: int)
    ensures k >= 1 && w <= k as real
    ensures k == 1 || (k as real) < w + 1.0
  {
    if Ceil(w) < 1 then 1 else Ceil(w)
  }

  /** The turn of '-' and '+' (tree.js:145-158): `pseudoRand(seed) < 0.3` picks
      the direction, `randomAngle(seed + 1, 20, 10)` the size. '-' adds the
      angle when the test holds and subtracts it otherwise; '+' does the
      opposite. */
  function Turn(symbol: char, seed: int, heading: real): (turned: real)
    requires symbol == '-' || symbol == '+'
    ensures 15.0 <= turned - heading < 25.0 || 15.0 <= heading - turned < 25.0
  {
    var angle := RandomAngle(seed + 1, 20.0, 10.0);
    if (symbol == '-') == (PseudoRand(seed) < 0.3) then heading + angle else heading - angle
  }

  /** The direction of a turn: towards the symbol's own side (adding for '-')
      exactly when the 32-bit draw is at most 1288490188, that is, with
      probability about 0.3. */
  lemma TurnDirection(symbol: char, seed: int, heading: real)
    requires symbol == '-' || symbol == '+'
    ensures Turn(symbol, seed, heading) > heading <==> (symbol == '-' <==> Draw32(seed) <= 1288490188)
  {
    BiasThreshold(seed);
  }

  /** The '-' branch of the loop (tree.js:145-151): draw from `globalSeed++`;
      below 0.3 the heading grows by an angle drawn from `globalSeed++`,
      otherwise it shrinks by it. The seed is passed in and handed back. */
  method TurnLeft(globalSeed: int, lineAngle: real) returns (turned: real, seed: int)
    ensures turned == Turn('-', globalSeed, lineAngle) && seed == globalSeed + 2
  {
    seed := globalSeed;
    var toward := PseudoRand(seed) < 0.3;
    seed := seed + 1;
    if toward {
      turned := lineAngle + RandomAngle(seed, 20.0, 10.0);
    } else {
      turned := lineAngle - RandomAngle(seed, 20.0, 10.0);
    }
    seed := seed + 1;
  }

  /** The '+' branch (tree.js:152-158), the mirror image of the '-' branch. */
  method TurnRight(globalSeed: int, lineAngle: real) returns (turned: real, seed: int)
    ensures turned == Turn('+', globalSeed, lineAngle) && seed == globalSeed + 2
  {
    seed := globalSeed;
    var toward := PseudoRand(seed) < 0.3;
    seed := seed + 1;
    if toward {
      turned := lineAngle - RandomAngle(seed, 20.0, 10.0);
    } else {
      turned := lineAngle + RandomAngle(seed, 20.0, 10.0);
    }
    seed := seed + 1;
  }

  /** One symbol of the loop at tree.js:139-174. Only a ']' that finds the
      stack empty stops the walk. */
  function Step(n: nat, t: State, symbol: char): (o: Outcome)
    ensures o.Aborted? <==> symbol == ']' && t.stack == []
  {
    var here, heading := t.pose.place, t.pose.heading;
    if symbol == 'F' then
      Finished(t.(pose := Pose(Moved(here, TrunkLength, heading), heading),
                  strokes := t.strokes + [Trunk(here, heading, DrawnWidth(t.width))]))
    else if symbol == '-' || symbol == '+' then
      Finished(t.(pose := Pose(here, Turn(symbol, t.seed, heading)), seed := t.seed + 2))
    else if symbol == '[' then
      Finished(t.(stack := t.stack + [t.pose]))
    else if symbol == ']' then
      var leafed := t.(pose := Pose(Moved(here, n + 1, heading), heading),
                       strokes := t.strokes + [Leaf(here, heading, n + 1)]);
      if t.stack == [] then Aborted(leafed)
      else Finished(leafed.(pose := t.stack[|t.stack| - 1], stack := t.stack[..|t.stack| - 1]))
    else if symbol == 'i' then
      Finished(t.(width := t.width + Change(n)))
    else if symbol == 'd' then
      Finished(t.(width := t.width - Change(n)))
    else
      Finished(t)
  }

  /** The whole loop over a string. A walk with no ']' cannot stop early. */
  function Run(n: nat, t: State, s: string): (o: Outcome)
    ensures o.Aborted? ==> Count(']', s) > 0
    decreases |s|
  {
    if s == [] then Finished(t)
    else match Step(n, t, s[0])
      case Finished(u) => Run(n, u, s[1..])
      case Aborted(u) => Aborted(u)
  }

  /** The state `drawTree(context, xPos, n)` starts its loop in (tree.js:61-68):
      the pen at (xPos, 400) with heading `randomAngle(globalSeed++, 0, 20)`. */
  function Start(xPos: real, n: nat, seed: int, canvas: seq<Stroke>): (t: State)
    ensures t.stack == [] && t.width == BaseWidth(n) as real && t.seed == seed + 1
    ensures -10.0 <= t.pose.heading < 10.0
  {
    State(Pose(Origin(xPos, StartY), RandomAngle(seed, 0.0, 20.0)), [], BaseWidth(n) as real, seed + 1, canvas)
  }

  /** What `drawTree(context, xPos, n)` does to the canvas and the seed. */
  function Render(xPos: real, n: nat, seed: int, canvas: seq<Stroke>): Outcome
  {
    Run(n, Start(xPos, n, seed, canvas), Tree(n))
  }

  // ---------------------------------------------------------------------------
  // The walk.

  /** Walking a concatenation is walking its parts one after the other. */
  lemma {:induction false} RunAppend(n: nat, t: State, a: string, b: string)
    ensures Run(n, t, a + b) == match Run(n, t, a)
                                  case Finished(u) => Run(n, u, b)
                                  case Aborted(u) => Aborted(u)
    decreases |a|
  {
    if a == [] {
      assert a + b == b;
    } else {
      var ab := a + b;
      assert ab[0] == a[0] && ab[1..] == a[1..] + b;
      var o := Step(n, t, a[0]);
      if o.Finished? {
        RunAppend(n, o.state, a[1..], b);
      }
    }
  }

  /** A finished walk takes a finished first step, and goes on from there. */
  lemma RunNext(n: nat, t: State, s: string)
    requires s != [] && Run(n, t, s).Finished?
    ensures Step(n, t, s[0]).Finished?
    ensures Run(n, t, s) == Run(n, Step(n, t, s[0]).state, s[1..])
  {
  }

  /** The walk finishes exactly when no ']' finds the stack empty. */
  lemma {:induction false} RunFinishes(n: nat, t: State, s: string)
    ensures Run(n, t, s).Finished? <==> NeverBelow(s, '[', ']', |t.stack|)
    decreases |s|
  {
    if s != [] {
      var o := Step(n, t, s[0]);
      if o.Finished? {
        StepAccounting(n, t, s[0], o.state);
        RunFinishes(n, o.state, s[1..]);
      }
    }
  }

  /** What one finished step changes. */
  lemma StepAccounting(n: nat, t: State, symbol: char, v: State)
    requires Step(n, t, symbol) == Finished(v)
    ensures |v.stack| == |t.stack| + Delta(symbol, '[', ']')
    ensures v.seed == t.seed + (if symbol == '+' || symbol == '-' then 2 else 0)
    ensures v.width == t.width + (if symbol == 'i' then Change(n) else if symbol == 'd' then -Change(n) else 0.0)
    ensures v.strokes == t.strokes + v.strokes[|t.strokes|..]
    ensures |v.strokes| == |t.strokes| + (if symbol == 'F' || symbol == ']' then 1 else 0)
  {
  }

  /** What a finished walk has done, symbol by symbol: the stack moved by the
      bracket balance, the seed by two per turn, and one stroke appended per
      'F' and per ']', after the strokes that were there. */
  lemma {:induction false} RunAccounting(n: nat, t: State, s: string, u: State)
    requires Run(n, t, s) == Finished(u)
    ensures |u.stack| == |t.stack| + Diff(s, '[', ']')
    ensures u.seed == t.seed + 2 * (Count('+', s) + Count('-', s))
    ensures |u.strokes| == |t.strokes| + Count('F', s) + Count(']', s)
    ensures u.strokes[..|t.strokes|] == t.strokes
    decreases |s|
  {
    if s != [] {
      var v := Step(n, t, s[0]).state;
      StepAccounting(n, t, s[0], v);
      RunAccounting(n, v, s[1..], u);
      assert u.strokes[..|v.strokes|] == v.strokes;
    }
  }

  /** The trunk width of a finished walk: one `trunkChange` more per 'i' and
      one less per 'd'. */
  lemma {:induction false} RunWidth(n: nat, t: State, s: string, u: State)
    requires Run(n, t, s) == Finished(u)
    ensures u.width == t.width + Copies(Count('i', s), Change(n)) - Copies(Count('d', s), Change(n))
    decreases |s|
  {
    if s != [] {
      var v := Step(n, t, s[0]).state;
      StepAccounting(n, t, s[0], v);
      RunWidth(n, v, s[1..], u);
      var c, wi, wd := Change(n), Count('i', s[1..]), Count('d', s[1..]);
      if s[0] == 'i' {
        assert Copies(Count('i', s), c) == Copies(wi, c) + c;
      } else if s[0] == 'd' {
        assert Copies(Count('d', s), c) == Copies(wd, c) + c;
      }
    }
  }

  /** `c` added `k` times, as the loop adds `trunkChange` once per 'i'. */
  function Copies(k: nat, c: real): real
  {
    if k == 0 then 0.0 else Copies(k - 1, c) + c
  }

  lemma {:induction false} CopiesIsProduct(k: nat, c: real)
    ensures Copies(k, c) == k as real * c
  {
    if k > 0 {
      CopiesIsProduct(k - 1, c);
    }
  }

  /** The walk never disturbs the saved pens below the lowest stack height it
      reaches: if it never pops below height `k`, the bottom `k` entries
      stay. */
  lemma {:induction false} RunKeepsBase(n: nat, t: State, s: string, k: nat)
    requires k <= |t.stack|
    requires NeverBelow(s, '[', ']', |t.stack| - k)
    ensures Run(n, t, s).Finished?
    ensures k <= |Run(n, t, s).state.stack| && Run(n, t, s).state.stack[..k] == t.stack[..k]
    decreases |s|
  {
    if s != [] {
      var u := Step(n, t, s[0]).state;
      assert Step(n, t, s[0]).Finished?;
      assert |u.stack| == |t.stack| + Delta(s[0], '[', ']');
      assert u.stack[..k] == t.stack[..k];
      RunKeepsBase(n, u, s[1..], k);
    }
  }

  /** A bracketed branch "[" + s + "]" over a nested `s` puts the pen back
      where it was and leaves the stack as it found it. The trunk width is
      not part of what '[' saves: it keeps every 'i' and 'd' of the branch. */
  lemma BranchRestores(n: nat, t: State, s: string)
    requires Nested(s, '[', ']')
    ensures Run(n, t, "[" + s + "]").Finished?
    ensures Run(n, t, "[" + s + "]").state.pose == t.pose
    ensures Run(n, t, "[" + s + "]").state.stack == t.stack
    ensures Run(n, t, "[" + s + "]").state.width
         == t.width + Copies(Count('i', s), Change(n)) - Copies(Count('d', s), Change(n))
  {
    var pushed := t.(stack := t.stack + [t.pose]);
    assert Run(n, t, "[") == Run(n, pushed, []);
    RunAppend(n, t, "[", s);
    RunKeepsBase(n, pushed, s, |pushed.stack|);
    var v := Run(n, pushed, s).state;
    RunAccounting(n, pushed, s, v);
    RunWidth(n, pushed, s, v);
    assert v.stack == pushed.stack;
    assert Run(n, v, "]") == Run(n, Step(n, v, ']').state, []);
    RunAppend(n, t, "[" + s, "]");
  }

  // ---------------------------------------------------------------------------
  // Drawing a whole tree.

  /** `drawTree` never hits the empty-stack pop: it finishes with the stack
      empty, the trunk width back at the base, one stroke per 'F' and per ']'
      after what the canvas held, and the seed advanced by one for the
      starting angle and two per turn. */
  lemma RenderCompletes(xPos: real, n: nat, seed: int, canvas: seq<Stroke>)
    ensures Render(xPos, n, seed, canvas).Finished?
    ensures var u := Render(xPos, n, seed, canvas).state;
            && u.stack == []
            && u.width == BaseWidth(n) as real
            && u.seed == seed + 1 + 2 * (Count('+', Tree(n)) + Count('-', Tree(n)))
            && |u.strokes| == |canvas| + Count('F', Tree(n)) + Count(']', Tree(n))
            && u.strokes[..|canvas|] == canvas
  {
    var t := Start(xPos, n, seed, canvas);
    RunFinishes(n, t, Tree(n));
    RunAccounting(n, t, Tree(n), Render(xPos, n, seed, canvas).state);
    RunWidth(n, t, Tree(n), Render(xPos, n, seed, canvas).state);
  }

  /** The seed a tree of n iterations consumes: 1 + (10 / 3) (4^(n+1) - 1). */
  lemma RenderSeedAdvance(xPos: real, n: nat, seed: int, canvas: seq<Stroke>)
    ensures 3 * (Render(xPos, n, seed, canvas).state.seed - seed) == 3 + 10 * (Pow4(n + 1) - 1)
  {
    RenderCompletes(xPos, n, seed, canvas);
    IterateTurnCounts(n + 1);
  }

  /** The centre tree of `populateScene` (five iterations at x = 512) uses
      13651 seed values. */
  lemma CentreTreeSeed(seed: int)
    ensures Render(512.0, 5, seed, []).state.seed == seed + 13651
  {
    RenderSeedAdvance(512.0, 5, seed, []);
    assert Pow4(6) == 4096;
  }

  /** From two iterations on, the trunk width after every prefix of the walk
      lies between 0 and the base width: the trunk narrows to nothing at the
      branch tips and never grows past the bottom of the trunk. */
  lemma TreeWidthRange(xPos: real, n: nat, seed: int, canvas: seq<Stroke>, k: nat)
    requires n >= 2 && k <= |Tree(n)|
    ensures Run(n, Start(xPos, n, seed, canvas), Tree(n)[..k]).Finished?
    ensures 0.0 <= Run(n, Start(xPos, n, seed, canvas), Tree(n)[..k]).state.width <= BaseWidth(n) as real
  {
    var tree, t := Tree(n), Start(xPos, n, seed, canvas);
    var prefix := tree[..k];
    assert tree == prefix + tree[k..];
    NeverBelowAppend(prefix, tree[k..], '[', ']', 0);
    RunFinishes(n, t, prefix);
    RunWidth(n, t, prefix, Run(n, t, prefix).state);
    TreeWidthDepth(n);
    assert 0 <= Diff(prefix, 'd', 'i') <= n + 1;
    WidthBetween(n, Count('i', prefix), Count('d', prefix));
  }

  /** Narrowing the base width by between 0 and n + 1 of its n + 1 steps
      leaves between 0 and all of it. */
  lemma WidthBetween(n: nat, widened: nat, narrowed: nat)
    requires n >= 2 && 0 <= narrowed - widened <= n + 1
    ensures 0.0 <= BaseWidth(n) as real + Copies(widened, Change(n)) - Copies(narrowed, Change(n)) <= BaseWidth(n) as real
  {
    var d: nat := narrowed - widened;
    assert narrowed == widened + d;
    CopiesWhole(n);
    CopiesBetween(n + 1, widened, d, Change(n));
  }

  /** The n + 1 steps of `trunkChange` add up to the base width. */
  lemma CopiesWhole(n: nat)
    ensures Copies(n + 1, Change(n)) == BaseWidth(n) as real
  {
    CopiesIsProduct(n + 1, Change(n));
  }

  /** Taking away `part` of `total` equal non-negative steps, after adding
      `widened` and taking away as many, leaves between none and all. */
  lemma CopiesBetween(total: nat, widened: nat, part: nat, c: real)
    requires c >= 0.0 && part <= total
    ensures 0.0 <= Copies(total, c) + Copies(widened, c) - Copies(widened + part, c) <= Copies(total, c)
  {
    CopiesAdd(widened, part, c);
    CopiesAdd(part, total - part, c);
    CopiesNonNegative(part, c);
    CopiesNonNegative(total - part, c);
    assert total == part + (total - part);
  }

  lemma {:induction false} CopiesAdd(a: nat, b: nat, c: real)
    ensures Copies(a + b, c) == Copies(a, c) + Copies(b, c)
    decreases b
  {
    if b > 0 {
      CopiesAdd(a, b - 1, c);
    }
  }

  lemma {:induction false} CopiesNonNegative(k: nat, c: real)
    requires c >= 0.0
    ensures Copies(k, c) >= 0.0
  {
    if k > 0 {
      CopiesNonNegative(k - 1, c);
    }
  }

  // ---------------------------------------------------------------------------
  // The page.

  /** The page's state: the module-level `globalSeed` and what has been drawn
      on the canvas since the background was last painted. */
  class Scene {
    var globalSeed: int
    var canvas: seq<Stroke>

    /** `let globalSeed = getSeed()`: the seed read from the page's address is a
        parameter. */
    constructor(seed: int)
      ensures globalSeed == seed && canvas == []
    {
      globalSeed := seed;
      canvas := [];
    }

    /** `drawTree(context, xPos, iterations)` (tree.js:60-175): generate the
        tree string, draw the starting angle from `globalSeed++`, then walk. */
    method DrawTree(xPos: real, iterations: nat)
      modifies this
      ensures Render(xPos, iterations, old(globalSeed), old(canvas)).Finished?
      ensures globalSeed == Render(xPos, iterations, old(globalSeed), old(canvas)).state.seed
      ensures canvas == Render(xPos, iterations, old(globalSeed), old(canvas)).state.strokes
    {
      var tree := GenerateIteration("X", 0, iterations);
      assert tree == Tree(iterations);
      ghost var start := Start(xPos, iterations, globalSeed, canvas);
      var lineAngle := RandomAngle(globalSeed, 0.0, 20.0);
      globalSeed := globalSeed + 1;
      Walk(tree, iterations, xPos, lineAngle, start);
    }

    /** The rest of `drawTree`: the pen starts at (xPos, 400) with the trunk
        at its base width, and the loop of tree.js:137-174 walks `tree`. A ']'
        that finds the stack empty makes the source throw, so the walk is
        only asked of strings whose brackets never close more than they
        opened. */
    method Walk(tree: string, iterations: nat, xPos: real, startAngle: real, ghost start: State)
      requires NeverBelow(tree, '[', ']', 0)
      requires start == State(Pose(Origin(xPos, StartY), startAngle), [], BaseWidth(iterations) as real, globalSeed, canvas)
      modifies this
      ensures Run(iterations, start, tree).Finished?
              && globalSeed == Run(iterations, start, tree).state.seed
              && canvas == Run(iterations, start, tree).state.strokes
    {
      var place := Origin(xPos, StartY);
      var lineAngle := startAngle;
      var currentLineWidth := BaseWidth(iterations) as real;
      var trunkChange := currentLineWidth / (iterations + 1) as real;
      var stack: seq<Pose> := [];
      ghost var walk := State(Pose(place, lineAngle), stack, currentLineWidth, globalSeed, canvas);
      ghost var final := Run(iterations, walk, tree);
      RunFinishes(iterations, walk, tree);
      assert tree[0..] == tree;
      var i := 0;
      while i < |tree|
        invariant 0 <= i <= |tree|
        invariant walk == State(Pose(place, lineAngle), stack, currentLineWidth, globalSeed, canvas)
        invariant Run(iterations, walk, tree[i..]) == final
        invariant trunkChange == Change(iterations)
      {
        var symbol := tree[i];
        RunNext(iterations, walk, tree[i..]);
        assert tree[i..][0] == symbol && tree[i..][1..] == tree[i + 1..];
        walk := Step(iterations, walk, symbol).state;
        assert Run(iterations, walk, tree[i + 1..]) == final;
        place, lineAngle, currentLineWidth, stack := Interpret(iterations, symbol, place, lineAngle, currentLineWidth, trunkChange, stack);
        i := i + 1;
      }
    }

    /** One pass of the loop body (tree.js:140-173): the pen's local state
        comes in and goes out, `globalSeed` and the canvas are updated in
        place, and the result is what `Step` says of the symbol. */
    method Interpret(iterations: nat, symbol: char, place0: Place, lineAngle0: real, width0: real,
                     trunkChange: real, stack0: seq<Pose>)
      returns (place: Place, lineAngle: real, currentLineWidth: real, stack: seq<Pose>)
      requires trunkChange == Change(iterations)
      requires Step(iterations, State(Pose(place0, lineAngle0), stack0, width0, globalSeed, canvas), symbol).Finished?
      modifies this
      ensures State(Pose(place, lineAngle), stack, currentLineWidth, globalSeed, canvas)
           == Step(iterations, State(Pose(place0, lineAngle0), stack0, width0, old(globalSeed), old(canvas)), symbol).state
    {
      ghost var walk := Step(iterations, State(Pose(place0, lineAngle0), stack0, width0, globalSeed, canvas), symbol).state;
      place, lineAngle, currentLineWidth, stack := place0, lineAngle0, width0, stack0;
      if symbol == 'X' {
        // skipped
      } else if symbol == 'F' {
        var lineWidth := DrawnWidth(currentLineWidth);
        canvas := canvas + [Trunk(place, lineAngle, lineWidth)];
        place := Moved(place, TrunkLength, lineAngle);
        assert walk == State(Pose(place, lineAngle), stack, currentLineWidth, globalSeed, canvas);
      } else if symbol == '-' {
        lineAngle, globalSeed := TurnLeft(globalSeed, lineAngle);
        assert walk == State(Pose(place, lineAngle), stack, currentLineWidth, globalSeed, canvas);
      } else if symbol == '+' {
        lineAngle, globalSeed := TurnRight(globalSeed, lineAngle);
        assert walk == State(Pose(place, lineAngle), stack, currentLineWidth, globalSeed, canvas);
      } else if symbol == '[' {
        stack := stack + [Pose(place, lineAngle)];
        assert walk == State(Pose(place, lineAngle), stack, currentLineWidth, globalSeed, canvas);
      } else if symbol == ']' {
        var lineLength := iterations + 1;
        canvas := canvas + [Leaf(place, lineAngle, lineLength)];
        place := Moved(place, lineLength, lineAngle);
        var coords := stack[|stack| - 1];
        stack := stack[..|stack| - 1];
        place := coords.place;
        lineAngle := coords.heading;
        assert walk == State(Pose(place, lineAngle), stack, currentLineWidth, globalSeed, canvas);
      } else if symbol == 'i' {
        currentLineWidth := currentLineWidth + trunkChange;
        assert walk == State(Pose(place, lineAngle), stack, currentLineWidth, globalSeed, canvas);
      } else if symbol == 'd' {
        currentLineWidth := currentLineWidth - trunkChange;
        assert walk == State(Pose(place, lineAngle), stack, currentLineWidth, globalSeed, canvas);
      }
    }

    /** `populateScene()`: the background is painted over what was drawn, then
        the centre tree of five iterations is drawn at x = 512, consuming
        13651 values of the seed. */
    method PopulateScene()
      modifies this
      ensures canvas == Render(512.0, 5, old(globalSeed), []).state.strokes
      ensures globalSeed == old(globalSeed) + 13651
    {
      canvas := [];
      DrawTree(512.0, 5);
      CentreTreeSeed(old(globalSeed));
    }
  }
}
