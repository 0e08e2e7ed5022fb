/**
  The geometry of a Kakuro board (the `Data` array of Kakuro.cs) and what the
  scanning loops of the source compute, as functions over two values: the
  board's `Layout` (every square's kind and clue sums, which never change once
  the board is loaded) and its `Values` (the digit on each square, which the
  solver rewrites).

  `Data[x, y]` is indexed by column x (0 = left) and row y, where row 0 is the
  BOTTOM row: the file is read top-down with y counting down from Height-1.
  A clue's rightward sum (SumRight) governs the run of fillable squares to its
  right (x increasing); its downward sum (SumLeft) governs the run below it,
  which the source walks with y DEcreasing.
 */
module Grid {
  import opened Optional
  import opened Containers
  import opened Combinations

  type Pos = (int, int)

  /** X: runs of SumRight clues, walked rightwards. Y: runs of SumLeft clues, walked downwards. */
  datatype Axis = X | Y

  function Orthogonal(axis: Axis): Axis {
    if axis == X then Y else X
  }

  /** The fixed part of a square: its kind and its two clue sums. */
  datatype Square = Square(kind: ContainerType, sumLeft: Option<int>, sumRight: Option<int>)

  /** The fixed part of a board: `width` columns of `height` squares, `columns[x][y]` the square at (x, y). */
  datatype Layout = Layout(width: nat, height: nat, columns: seq<seq<Square>>)

  /** The digits on a board: `v[x][y]` is the value of the square at (x, y). */
  type Values = seq<seq<Option<int>>>

  predicate InGrid(l: Layout, p: Pos) {
    0 <= p.0 < l.width && 0 <= p.1 < l.height
  }

  /** The square at p; off the board, a Block. */
  function At(l: Layout, p: Pos): Square {
    if InGrid(l, p) && p.0 < |l.columns| && p.1 < |l.columns[p.0]| then l.columns[p.0][p.1]
    else Square(Block, None, None)
  }

  function KindAt(l: Layout, p: Pos): ContainerType {
    At(l, p).kind
  }

  /** The digit at p; off the board, none. */
  function ValueAt(v: Values, p: Pos): Option<int> {
    if 0 <= p.0 < |v| && 0 <= p.1 < |v[p.0]| then v[p.0][p.1] else None
  }

  /** v holds one digit slot for each square of a board of the given size. */
  predicate Shaped(v: Values, width: int, height: int) {
    |v| == width && forall x :: 0 <= x < |v| ==> |v[x]| == height
  }

  /** The digits v with the slot at p set to d. */
  function Put(v: Values, p: Pos, d: Option<int>): (r: Values)
    requires 0 <= p.0 < |v| && 0 <= p.1 < |v[p.0]|
    ensures forall w, h :: Shaped(v, w, h) ==> Shaped(r, w, h)
    ensures forall q :: ValueAt(r, q) == if q == p then d else ValueAt(v, q)
  {
    v[p.0 := v[p.0][p.1 := d]]
  }

  function SquareOf(c: Container): Square {
    Square(c.kind, c.sumLeft, c.sumRight)
  }

  /** The layout of a grid of square objects. */
  ghost function LayoutOf(g: array2<Container>): (l: Layout)
    reads g
    ensures l.width == g.Length0 && l.height == g.Length1
    ensures forall p :: InGrid(l, p) ==> At(l, p) == SquareOf(g[p.0, p.1])
  {
    Layout(g.Length0, g.Length1,
      seq(g.Length0, x requires 0 <= x < g.Length0 reads g =>
        seq(g.Length1, y requires 0 <= y < g.Length1 reads g => SquareOf(g[x, y]))))
  }

  /** Every square object of the grid. */
  function Cells(g: array2<Container>): set<Container>
    reads g
  {
    set x, y | 0 <= x < g.Length0 && 0 <= y < g.Length1 :: g[x, y]
  }

  /** The digits of a grid of square objects. */
  ghost function ValuesOf(g: array2<Container>): (v: Values)
    reads g, Cells(g)
    ensures Shaped(v, g.Length0, g.Length1)
    ensures forall p: Pos :: 0 <= p.0 < g.Length0 && 0 <= p.1 < g.Length1 ==> ValueAt(v, p) == g[p.0, p.1].value
  {
    seq(g.Length0, x requires 0 <= x < g.Length0 reads g, Cells(g) =>
      seq(g.Length1, y requires 0 <= y < g.Length1 reads g, Cells(g) => g[x, y].value))
  }

  /** No square object is shared by two positions, so writing one square changes no other. */
  ghost predicate Injective(g: array2<Container>)
    reads g
  {
    forall x1, y1, x2, y2 ::
      (0 <= x1 < g.Length0 && 0 <= y1 < g.Length1 && 0 <= x2 < g.Length0 && 0 <= y2 < g.Length1 &&
       g[x1, y1] == g[x2, y2]) ==> x1 == x2 && y1 == y2
  }

  /** One step of a scan: forward along a run (x + 1 or y - 1), or backward towards its clue (x - 1 or y + 1). */
  function Step(axis: Axis, forward: bool, p: Pos): Pos {
    match axis
    case X => if forward then (p.0 + 1, p.1) else (p.0 - 1, p.1)
    case Y => if forward then (p.0, p.1 - 1) else (p.0, p.1 + 1)
  }

  /** n steps of a scan from p. */
  function Advance(axis: Axis, forward: bool, p: Pos, n: int): Pos {
    match axis
    case X => if forward then (p.0 + n, p.1) else (p.0 - n, p.1)
    case Y => if forward then (p.0, p.1 - n) else (p.0, p.1 + n)
  }

  /**
    The edge test of the scanning loops: only the moving coordinate is compared,
    and only with the edge it moves towards (`x >= Width`, `x < 0`, `y < 0`,
    `y >= Height`).
   */
  predicate InTravel(l: Layout, axis: Axis, forward: bool, p: Pos) {
    Within(l.width, l.height, axis, forward, p)
  }

  /** The same test on a board of the given size. */
  predicate Within(width: int, height: int, axis: Axis, forward: bool, p: Pos) {
    match axis
    case X => if forward then p.0 < width else p.0 >= 0
    case Y => if forward then p.1 >= 0 else p.1 < height
  }

  /** The coordinates a scan never tests are in range, so the scan cannot index outside the board. */
  predicate CrossOk(l: Layout, axis: Axis, forward: bool, p: Pos) {
    match axis
    case X => 0 <= p.1 < l.height && (if forward then p.0 >= 0 else p.0 < l.width)
    case Y => 0 <= p.0 < l.width && (if forward then p.1 < l.height else p.1 >= 0)
  }

  /** How many squares a scan from p can still visit before it reaches the edge. */
  function Dist(l: Layout, axis: Axis, forward: bool, p: Pos): int {
    match axis
    case X => if forward then l.width - p.0 else p.0 + 1
    case Y => if forward then p.1 + 1 else l.height - p.1
  }

  /** How many fillable squares a scan from p meets before the edge or a Sum or Block square. */
  function WalkLength(l: Layout, axis: Axis, forward: bool, p: Pos): (n: nat)
    ensures forall i :: 0 <= i < n ==>
      InGrid(l, Advance(axis, forward, p, i)) && IsFillable(KindAt(l, Advance(axis, forward, p, i)))
    ensures var q := Advance(axis, forward, p, n);
      InTravel(l, axis, forward, q) ==> !IsFillable(KindAt(l, q))
    decreases Dist(l, axis, forward, p)
  {
    if !InTravel(l, axis, forward, p) || !IsFillable(KindAt(l, p)) then 0
    else
      var q := Step(axis, forward, p);
      assert forall i :: 1 <= i ==> Advance(axis, forward, p, i) == Advance(axis, forward, q, i - 1);
      1 + WalkLength(l, axis, forward, q)
  }

  /** The squares a scan from p visits. */
  function Walk(l: Layout, axis: Axis, forward: bool, p: Pos): (r: seq<Pos>)
    ensures |r| == WalkLength(l, axis, forward, p)
    ensures forall i :: 0 <= i < |r| ==>
      r[i] == Advance(axis, forward, p, i) && InGrid(l, r[i]) && IsFillable(KindAt(l, r[i]))
    ensures var q := Advance(axis, forward, p, |r|);
      InTravel(l, axis, forward, q) ==> !IsFillable(KindAt(l, q))
  {
    seq(WalkLength(l, axis, forward, p), i => Advance(axis, forward, p, i))
  }

  /** The run governed by the clue at c: the squares after it, in the direction of the axis. */
  function Run(l: Layout, axis: Axis, c: Pos): (r: seq<Pos>)
    ensures forall i :: 0 <= i < |r| ==>
      r[i] == Advance(axis, true, c, i + 1) && InGrid(l, r[i]) && IsFillable(KindAt(l, r[i]))
    ensures var q := Advance(axis, true, c, |r| + 1);
      InTravel(l, axis, true, q) ==> !IsFillable(KindAt(l, q))
  {
    Walk(l, axis, true, Step(axis, true, c))
  }

  /** One more step of a scan. */
  lemma StepAdvance(axis: Axis, forward: bool, p: Pos, n: int)
    ensures Step(axis, forward, Advance(axis, forward, p, n)) == Advance(axis, forward, p, n + 1)
  {
  }

  /** The same for the run of a clue c, whose square k is k + 1 steps after c. */
  lemma RunStep(l: Layout, axis: Axis, c: Pos, k: int)
    requires 0 <= k <= |Run(l, axis, c)|
    ensures k < |Run(l, axis, c)| <==>
      InTravel(l, axis, true, Advance(axis, true, c, k + 1)) && IsFillable(KindAt(l, Advance(axis, true, c, k + 1)))
  {
    var r := Run(l, axis, c);
    if k == |r| {
      assert Advance(axis, true, c, k + 1) == Advance(axis, true, c, |r| + 1);
    } else {
      assert r[k] == Advance(axis, true, c, k + 1);
    }
  }

  /**
    The state after writing the first i digits of comb into the squares of
    the run r, starting from v0: those squares hold their digits, and every
    square outside them still holds what it held in v0.
   */
  ghost predicate Written(v: Values, v0: Values, r: seq<Pos>, comb: seq<int>, i: int)
    requires 0 <= i <= |r| && |r| <= |comb|
  {
    && (forall j :: 0 <= j < i ==> ValueAt(v, r[j]) == Some(comb[j]))
    && (forall p :: p !in r[..i] ==> ValueAt(v, p) == ValueAt(v0, p))
  }

  /** Writing digit i into square i of a run extends the written prefix by one. */
  lemma WrittenStep(l: Layout, axis: Axis, c: Pos, v: Values, v0: Values, comb: seq<int>, i: int)
    requires 0 <= i < |Run(l, axis, c)| == |comb|
    requires var p := Run(l, axis, c)[i]; 0 <= p.0 < |v| && 0 <= p.1 < |v[p.0]|
    requires Written(v, v0, Run(l, axis, c), comb, i)
    ensures Written(Put(v, Run(l, axis, c)[i], Some(comb[i])), v0, Run(l, axis, c), comb, i + 1)
  {
    var r := Run(l, axis, c);
    var v' := Put(v, r[i], Some(comb[i]));
    forall j | 0 <= j < i
      ensures ValueAt(v', r[j]) == Some(comb[j])
    {
      assert r[j] == Advance(axis, true, c, j + 1) && r[i] == Advance(axis, true, c, i + 1);
    }
    forall p | p !in r[..i + 1]
      ensures ValueAt(v', p) == ValueAt(v0, p)
    {
      assert r[..i + 1] == r[..i] + [r[i]];
    }
  }

  /** The clue sum that governs the `axis` run of the square at c. */
  function ClueSum(l: Layout, axis: Axis, c: Pos): Option<int> {
    if axis == X then At(l, c).sumRight else At(l, c).sumLeft
  }

  /**
    The back-scan of the checkers ends on a Sum square: from p, through
    fillable squares only, towards the clue (left for X, up for Y), without
    leaving the board. Otherwise the source's loop spins forever on a Block
    or indexes outside the board.
   */
  predicate ReachesClue(l: Layout, axis: Axis, p: Pos)
    decreases Dist(l, axis, false, p)
  {
    && InGrid(l, p)
    && (KindAt(l, p) == Sum || (IsFillable(KindAt(l, p)) && ReachesClue(l, axis, Step(axis, false, p))))
  }

  /** The Sum square the back-scan from p stops at. */
  function ClueOf(l: Layout, axis: Axis, p: Pos): (c: Pos)
    requires ReachesClue(l, axis, p)
    ensures InGrid(l, c) && KindAt(l, c) == Sum
    ensures IsFillable(KindAt(l, p)) ==> p in Run(l, axis, c)
    decreases Dist(l, axis, false, p)
  {
    if KindAt(l, p) == Sum then p
    else
      var c := ClueOf(l, axis, Step(axis, false, p));
      RunExtends(l, axis, c, Step(axis, false, p), p);
      c
  }

  /**
    The back-scan from square i of the run of the clue c reaches c: it
    passes only squares of that run before it.
   */
  lemma {:induction false} RunClue(l: Layout, axis: Axis, c: Pos, i: int)
    requires InGrid(l, c) && KindAt(l, c) == Sum && 0 <= i < |Run(l, axis, c)|
    ensures ReachesClue(l, axis, Run(l, axis, c)[i]) && ClueOf(l, axis, Run(l, axis, c)[i]) == c
    decreases i
  {
    var r := Run(l, axis, c);
    StepAdvance(axis, true, c, i);
    assert Step(axis, false, Step(axis, true, Advance(axis, true, c, i))) == Advance(axis, true, c, i);
    if i == 0 {
      assert Advance(axis, true, c, 0) == c;
    } else {
      RunClue(l, axis, c, i - 1);
      assert r[i - 1] == Advance(axis, true, c, i);
    }
  }

  /** Every square of the run of the clue c has c as its clue, so runs of distinct clues are disjoint. */
  lemma RunClues(l: Layout, axis: Axis, c: Pos)
    requires InGrid(l, c) && KindAt(l, c) == Sum
    ensures forall p :: p in Run(l, axis, c) ==> ReachesClue(l, axis, p) && ClueOf(l, axis, p) == c
  {
    var r := Run(l, axis, c);
    forall p | p in r
      ensures ReachesClue(l, axis, p) && ClueOf(l, axis, p) == c
    {
      var i :| 0 <= i < |r| && r[i] == p;
      RunClue(l, axis, c, i);
    }
  }

  /** The run of c reaches one square further when that square is fillable. */
  lemma RunExtends(l: Layout, axis: Axis, c: Pos, q: Pos, p: Pos)
    requires InGrid(l, p) && IsFillable(KindAt(l, p))
    requires q == Step(axis, false, p)
    requires q == c || q in Run(l, axis, c)
    ensures p in Run(l, axis, c)
  {
    var r := Run(l, axis, c);
    var n := 0;
    if q != c {
      var i :| 0 <= i < |r| && r[i] == q;
      n := i + 1;
      assert r[i] == Advance(axis, true, c, n);
    } else {
      assert Advance(axis, true, c, 0) == c;
    }
    StepAdvance(axis, true, c, n);
    assert Step(axis, true, Step(axis, false, p)) == p;
    RunStep(l, axis, c, n);
    assert r[n] == p;
  }

  /** The letter `GetTypesInSum` emits for a fillable square. */
  function LetterOf(t: ContainerType): Letter
    requires IsFillable(t)
  {
    match t
    case Even => E
    case Odd => O
    case Parity => P
  }

  /** The letters of a sequence of fillable squares. */
  function Letters(l: Layout, ps: seq<Pos>): (r: seq<Letter>)
    requires forall i :: 0 <= i < |ps| ==> IsFillable(KindAt(l, ps[i]))
    ensures |r| == |ps|
    ensures forall i :: 0 <= i < |ps| ==> r[i] == LetterOf(KindAt(l, ps[i]))
  {
    if ps == [] then [] else [LetterOf(KindAt(l, ps[0]))] + Letters(l, ps[1..])
  }

  /** A kind's letter has exactly the digits the kind's setter accepts. */
  lemma LetterDigits(t: ContainerType, d: int)
    requires IsFillable(t)
    ensures d in Digits(LetterOf(t)) <==> Legal(t, d)
  {
  }

  /** The digits already placed on the squares ps, in order, unset squares skipped. */
  function Placed(v: Values, ps: seq<Pos>): seq<int> {
    if ps == [] then []
    else
      var last := ValueAt(v, ps[|ps| - 1]);
      Placed(v, ps[..|ps| - 1]) + (if last.Some? then [last.value] else [])
  }

  /** Every square of ps holds a digit. */
  predicate AllSet(v: Values, ps: seq<Pos>) {
    ps == [] || (AllSet(v, ps[..|ps| - 1]) && ValueAt(v, ps[|ps| - 1]).Some?)
  }

  /** One more square of a scan: its digit, if any, joins the placed digits, and it must be set for all to be set. */
  lemma PlacedStep(v: Values, ps: seq<Pos>, k: int)
    requires 0 <= k < |ps|
    ensures Placed(v, ps[..k + 1]) == Placed(v, ps[..k]) + (if ValueAt(v, ps[k]).Some? then [ValueAt(v, ps[k]).value] else [])
    ensures AllSet(v, ps[..k + 1]) <==> AllSet(v, ps[..k]) && ValueAt(v, ps[k]).Some?
  {
    assert ps[..k + 1][..k] == ps[..k];
  }

  /**
    One more square of a repetition scan: the digits placed so far stay
    distinct exactly when its digit, if any, is new; once a digit repeats, the
    whole scan repeats it.
   */
  lemma DistinctStep(v: Values, ps: seq<Pos>, k: int)
    requires 0 <= k < |ps| && Distinct(Placed(v, ps[..k]))
    ensures Distinct(Placed(v, ps[..k + 1])) <==> ValueAt(v, ps[k]).None? || ValueAt(v, ps[k]).value !in Placed(v, ps[..k])
    ensures !Distinct(Placed(v, ps[..k + 1])) ==> !Distinct(Placed(v, ps))
  {
    PlacedStep(v, ps, k);
    var a := Placed(v, ps[..k]);
    var d := ValueAt(v, ps[k]);
    if d.Some? && d.value in a {
      RepeatBreaksDistinct(a, d.value, []);
      assert a + [d.value] + [] == Placed(v, ps[..k + 1]);
      Prefixes(v, ps, k + 1);
    }
  }

  /**
    One more square of a sum scan: an unset square means the whole scan is
    not all set; a set square adds its digit to the total.
   */
  lemma SumStep(v: Values, ps: seq<Pos>, k: int)
    requires 0 <= k < |ps| && AllSet(v, ps[..k])
    ensures ValueAt(v, ps[k]).None? ==> !AllSet(v, ps)
    ensures ValueAt(v, ps[k]).Some? ==> AllSet(v, ps[..k + 1])
    ensures ValueAt(v, ps[k]).Some? ==>
      Combinations.Sum(Placed(v, ps[..k + 1])) == Combinations.Sum(Placed(v, ps[..k])) + ValueAt(v, ps[k]).value
  {
    PlacedStep(v, ps, k);
    Prefixes(v, ps, k + 1);
    if ValueAt(v, ps[k]).Some? {
      SumAppend(Placed(v, ps[..k]), [ValueAt(v, ps[k]).value]);
    }
  }

  /** What holds of all of ps holds of its prefixes: all squares set, no digit repeated. */
  lemma {:induction false} Prefixes(v: Values, ps: seq<Pos>, k: int)
    requires 0 <= k <= |ps|
    ensures AllSet(v, ps) ==> AllSet(v, ps[..k])
    ensures Distinct(Placed(v, ps)) ==> Distinct(Placed(v, ps[..k]))
    decreases |ps|
  {
    if k == |ps| {
      assert ps[..k] == ps;
    } else {
      var front := ps[..|ps| - 1];
      assert front[..k] == ps[..k];
      Prefixes(v, front, k);
      var a := Placed(v, front);
      var b := Placed(v, ps);
      if Distinct(b) {
        assert forall i :: 0 <= i < |a| ==> a[i] == b[i];
      }
    }
  }

  /** The squares ps hold the digits t, one each, in order. */
  predicate Holds(v: Values, ps: seq<Pos>, t: seq<int>) {
    |t| == |ps| && forall i :: 0 <= i < |ps| ==> ValueAt(v, ps[i]) == Some(t[i])
  }

  /** The digits v with the tuple t written onto the squares ps, one after the other, as the solver's insertion loop does. */
  function Overwrite(v: Values, ps: seq<Pos>, t: seq<int>): (r: Values)
    requires |t| == |ps|
    ensures forall w, h :: Shaped(v, w, h) ==> Shaped(r, w, h)
    ensures forall q :: q !in ps ==> ValueAt(r, q) == ValueAt(v, q)
    decreases |ps|
  {
    if ps == [] then v
    else
      var n := |ps| - 1;
      var u := Overwrite(v, ps[..n], t[..n]);
      assert forall q :: q !in ps ==> q !in ps[..n] && q != ps[n];
      if 0 <= ps[n].0 < |u| && 0 <= ps[n].1 < |u[ps[n].0]| then Put(u, ps[n], Some(t[n])) else u
  }

  /** Squares on the board that hold t are exactly what writing t onto them gives. */
  lemma {:induction false} OverwriteMatches(v0: Values, v: Values, ps: seq<Pos>, t: seq<int>, w: int, h: int)
    requires Shaped(v0, w, h) && Holds(v, ps, t)
    requires forall i :: 0 <= i < |ps| ==> 0 <= ps[i].0 < w && 0 <= ps[i].1 < h
    ensures forall q :: q in ps ==> ValueAt(Overwrite(v0, ps, t), q) == ValueAt(v, q)
    decreases |ps|
  {
    if ps != [] {
      var n := |ps| - 1;
      var u := Overwrite(v0, ps[..n], t[..n]);
      assert Holds(v, ps[..n], t[..n]);
      OverwriteMatches(v0, v, ps[..n], t[..n], w, h);
      assert Shaped(u, w, h);
      assert Overwrite(v0, ps, t) == Put(u, ps[n], Some(t[n]));
      forall q | q in ps
        ensures ValueAt(Overwrite(v0, ps, t), q) == ValueAt(v, q)
      {
        if q != ps[n] {
          var i :| 0 <= i < |ps| && ps[i] == q;
          assert q in ps[..n];
        }
      }
    }
  }

  /** Writing one tuple onto the same squares of two digit grids leaves those squares equal. */
  lemma {:induction false} OverwriteSame(v1: Values, v2: Values, ps: seq<Pos>, t: seq<int>, w: int, h: int)
    requires |t| == |ps| && Shaped(v1, w, h) && Shaped(v2, w, h)
    requires forall i :: 0 <= i < |ps| ==> 0 <= ps[i].0 < w && 0 <= ps[i].1 < h
    ensures forall q :: q in ps ==> ValueAt(Overwrite(v1, ps, t), q) == ValueAt(Overwrite(v2, ps, t), q)
    decreases |ps|
  {
    if ps != [] {
      var n := |ps| - 1;
      OverwriteSame(v1, v2, ps[..n], t[..n], w, h);
      var u1 := Overwrite(v1, ps[..n], t[..n]);
      var u2 := Overwrite(v2, ps[..n], t[..n]);
      assert Shaped(u1, w, h) && Shaped(u2, w, h);
      assert Overwrite(v1, ps, t) == Put(u1, ps[n], Some(t[n]));
      assert Overwrite(v2, ps, t) == Put(u2, ps[n], Some(t[n]));
      forall q | q in ps
        ensures ValueAt(Overwrite(v1, ps, t), q) == ValueAt(Overwrite(v2, ps, t), q)
      {
        if q != ps[n] {
          var i :| 0 <= i < |ps| && ps[i] == q;
          assert q in ps[..n];
        }
      }
    }
  }

  /** Digits that hold t on the squares ps and agree with v0 everywhere else are v0 with t written onto ps. */
  lemma OverwriteIs(v0: Values, v: Values, ps: seq<Pos>, t: seq<int>, w: int, h: int)
    requires Shaped(v0, w, h) && Shaped(v, w, h) && Holds(v, ps, t)
    requires forall i :: 0 <= i < |ps| ==> 0 <= ps[i].0 < w && 0 <= ps[i].1 < h
    requires forall q :: q !in ps ==> ValueAt(v, q) == ValueAt(v0, q)
    ensures v == Overwrite(v0, ps, t)
  {
    OverwriteMatches(v0, v, ps, t, w, h);
    SameValues(Overwrite(v0, ps, t), v, w, h);
  }

  /** Two digit grids of one shape that agree on every square are the same. */
  lemma SameValues(u: Values, v: Values, w: int, h: int)
    requires Shaped(u, w, h) && Shaped(v, w, h)
    requires forall q :: ValueAt(u, q) == ValueAt(v, q)
    ensures u == v
  {
    forall x | 0 <= x < |u|
      ensures u[x] == v[x]
    {
      forall y | 0 <= y < |u[x]|
        ensures u[x][y] == v[x][y]
      {
        assert ValueAt(u, (x, y)) == ValueAt(v, (x, y));
      }
    }
  }

  /** Squares holding the digits t, one each, are all set and place exactly t. */
  lemma {:induction false} PlacedWritten(v: Values, ps: seq<Pos>, t: seq<int>)
    requires Holds(v, ps, t)
    ensures AllSet(v, ps) && Placed(v, ps) == t
    decreases |ps|
  {
    if ps != [] {
      var n := |ps| - 1;
      PlacedWritten(v, ps[..n], t[..n]);
      assert t == t[..n] + [t[n]];
    }
  }

  /** Conversely, when every square is set, the placed digits are the squares' values, one per square. */
  lemma {:induction false} PlacedAllSet(v: Values, ps: seq<Pos>)
    requires AllSet(v, ps)
    ensures |Placed(v, ps)| == |ps|
    ensures forall i :: 0 <= i < |ps| ==> ValueAt(v, ps[i]) == Some(Placed(v, ps)[i])
    decreases |ps|
  {
    if ps != [] {
      var n := |ps| - 1;
      var front, d := ps[..n], ValueAt(v, ps[n]).value;
      PlacedAllSet(v, front);
      assert Placed(v, ps) == Placed(v, front) + [d];
      forall i | 0 <= i < |ps|
        ensures ValueAt(v, ps[i]) == Some(Placed(v, ps)[i])
      {
        if i < n {
          assert front[i] == ps[i];
        }
      }
    }
  }

  /** Values that agree on the squares ps place the same digits there. */
  lemma {:induction false} PlacedAgree(v: Values, w: Values, ps: seq<Pos>)
    requires forall i :: 0 <= i < |ps| ==> ValueAt(v, ps[i]) == ValueAt(w, ps[i])
    ensures Placed(v, ps) == Placed(w, ps) && (AllSet(v, ps) <==> AllSet(w, ps))
    decreases |ps|
  {
    if ps != [] {
      PlacedAgree(v, w, ps[..|ps| - 1]);
    }
  }

  /** `CheckSumX/Y` of the clue c: every square of the run is set and the digits add up to the clue sum. */
  predicate SumOk(l: Layout, v: Values, axis: Axis, c: Pos) {
    AllSet(v, Run(l, axis, c)) && ClueSum(l, axis, c) == Some(Combinations.Sum(Placed(v, Run(l, axis, c))))
  }

  /** `CheckRepetionsX/Y` of the clue c: no digit occurs twice among the set squares of the run. */
  predicate RepsOk(l: Layout, v: Values, axis: Axis, c: Pos) {
    Distinct(Placed(v, Run(l, axis, c)))
  }

  /**
    The checkers and the generator agree: a run whose digits suit their squares
    passes the sum and repetition checks of its clue exactly when every square
    is set and the digits, in run order, are a tuple the generator yields for
    the clue.
   */
  lemma RunSolved(l: Layout, v: Values, axis: Axis, c: Pos)
    requires |Run(l, axis, c)| > 0
    requires forall i :: 0 <= i < |Run(l, axis, c)| ==>
      (ValueAt(v, Run(l, axis, c)[i]).Some? ==> Legal(KindAt(l, Run(l, axis, c)[i]), ValueAt(v, Run(l, axis, c)[i]).value))
    ensures SumOk(l, v, axis, c) && RepsOk(l, v, axis, c) <==>
      && AllSet(v, Run(l, axis, c))
      && Placed(v, Run(l, axis, c)) in Combinations.Combinations(Letters(l, Run(l, axis, c)), [], ClueSum(l, axis, c))
  {
    var r := Run(l, axis, c);
    var kinds := Letters(l, r);
    var target := ClueSum(l, axis, c);
    if AllSet(v, r) {
      var t := Placed(v, r);
      PlacedAllSet(v, r);
      forall i | 0 <= i < |t|
        ensures t[i] in Digits(kinds[i])
      {
        LetterDigits(KindAt(l, r[i]), t[i]);
      }
      CombinationsExact(kinds, [], target, t);
    }
  }

  /** The target left for the rest of a run once the digits `used` are placed (a null sum stays null). */
  function Remaining(target: Option<int>, used: seq<int>): (r: Option<int>)
    ensures r.Some? <==> target.Some?
  {
    if target.None? then None else Some(target.value - Combinations.Sum(used))
  }

  /** The kinds of the squares between p and its clue, listed from p towards the clue. */
  function KindsBefore(l: Layout, axis: Axis, p: Pos): seq<Letter> {
    Letters(l, Walk(l, axis, false, Step(axis, false, p)))
  }

  /** The digits placed from p to the end of its run. */
  function UsedFrom(l: Layout, v: Values, axis: Axis, p: Pos): seq<int> {
    Placed(v, Walk(l, axis, true, p))
  }

  /**
    `CheckIfThereAreStillPossibleCombinationsX/Y` at the square p of an `axis`
    run: some tuple for the squares between the clue and p avoids the digits
    placed from p onwards and adds up to the clue sum less those digits.
   */
  ghost predicate CanStillComplete(l: Layout, v: Values, axis: Axis, p: Pos)
    requires ReachesClue(l, axis, p)
  {
    exists t :: IsCombination(t, KindsBefore(l, axis, p), UsedFrom(l, v, axis, p),
      Remaining(ClueSum(l, axis, ClueOf(l, axis, p)), UsedFrom(l, v, axis, p)))
  }

  /**
    The crossing check of the fillable square p along `axis` stays on the
    board: the square before p on that run exists, and when it is fillable
    the back-scan from p reaches a clue through fillable squares.
   */
  predicate CrossReady(l: Layout, axis: Axis, p: Pos) {
    && InGrid(l, p) && IsFillable(KindAt(l, p))
    && InGrid(l, Step(axis, false, p))
    && (IsFillable(KindAt(l, Step(axis, false, p))) ==> ReachesClue(l, axis, p))
  }

  /** Every square of the run of c is ready for its crossing check along the other axis. */
  predicate RunReady(l: Layout, axis: Axis, c: Pos) {
    forall i :: 0 <= i < |Run(l, axis, c)| ==> CrossReady(l, Orthogonal(axis), Run(l, axis, c)[i])
  }

  /** Every entry of locs is a Sum square on the board. */
  predicate CluesOn(l: Layout, locs: seq<Pos>) {
    forall k :: 0 <= k < |locs| ==> InGrid(l, locs[k]) && KindAt(l, locs[k]) == Sum
  }

  /** The entries of locs after position k. */
  function After(locs: seq<Pos>, k: nat): seq<Pos>
    requires k < |locs|
  {
    locs[k + 1..]
  }

  /** No entry of locs appears twice. */
  predicate EachOnce(locs: seq<Pos>) {
    forall k {:trigger After(locs, k)} :: 0 <= k < |locs| ==> locs[k] !in After(locs, k)
  }

  /** Every clue of locs but the last has a run ready for its crossing checks. */
  predicate CluesReady(l: Layout, axis: Axis, locs: seq<Pos>) {
    forall k {:trigger RunReady(l, axis, locs[k])} :: 0 <= k < |locs| - 1 ==> RunReady(l, axis, locs[k])
  }

  /**
    The pruning test the solver applies, for the crossing run along `axis`, to
    a square p it has just written: if the square before p on that run is its
    clue, the whole crossing run must pass the sum and repetition checks; if it
    is fillable, the forward check must still find a completion.
   */
  ghost predicate CrossingOk(l: Layout, v: Values, axis: Axis, p: Pos)
    requires CrossReady(l, axis, p)
  {
    var q := Step(axis, false, p);
    if KindAt(l, q) == Sum then SumOk(l, v, axis, q) && RepsOk(l, v, axis, q)
    else if IsFillable(KindAt(l, q)) then CanStillComplete(l, v, axis, p)
    else true
  }

  /** The crossing checks of the first n squares of the `axis` run of c all pass. */
  ghost predicate CrossingsOk(l: Layout, v: Values, axis: Axis, c: Pos, n: int)
    requires 0 <= n <= |Run(l, axis, c)|
    requires RunReady(l, axis, c)
  {
    forall i :: 0 <= i < n ==> CrossingOk(l, v, Orthogonal(axis), Run(l, axis, c)[i])
  }

  /**
    The squares the crossing check of p along `axis` reads: the whole crossing
    run when the square before p is its clue, the squares from p to the end of
    the run when it is fillable, none at a Block.
   */
  function CheckedSquares(l: Layout, axis: Axis, p: Pos): seq<Pos> {
    var q := Step(axis, false, p);
    if KindAt(l, q) == Sum then Run(l, axis, q)
    else if IsFillable(KindAt(l, q)) then Walk(l, axis, true, p)
    else []
  }

  /** The squares a crossing check reads lie on p's row at or right of p (X), or on p's column at or below p (Y). */
  lemma CheckedPlace(l: Layout, axis: Axis, p: Pos, q: Pos)
    requires q in CheckedSquares(l, axis, p)
    ensures axis == X ==> q.1 == p.1 && q.0 >= p.0
    ensures axis == Y ==> q.0 == p.0 && q.1 <= p.1
  {
    var ps := CheckedSquares(l, axis, p);
    var i :| 0 <= i < |ps| && ps[i] == q;
  }

  /** The squares of the run of c lie on c's row right of c (X), or on c's column below c (Y). */
  lemma RunPlace(l: Layout, axis: Axis, c: Pos, q: Pos)
    requires q in Run(l, axis, c)
    ensures axis == X ==> q.1 == c.1 && q.0 > c.0
    ensures axis == Y ==> q.0 == c.0 && q.1 < c.1
  {
    var r := Run(l, axis, c);
    var i :| 0 <= i < |r| && r[i] == q;
  }

  /** A crossing check depends on the digits of the squares it reads and on nothing else. */
  lemma CrossingAgree(l: Layout, v1: Values, v2: Values, axis: Axis, p: Pos)
    requires CrossReady(l, axis, p)
    requires forall q :: q in CheckedSquares(l, axis, p) ==> ValueAt(v1, q) == ValueAt(v2, q)
    ensures CrossingOk(l, v1, axis, p) == CrossingOk(l, v2, axis, p)
  {
    var q := Step(axis, false, p);
    var ps := CheckedSquares(l, axis, p);
    assert forall i :: 0 <= i < |ps| ==> ValueAt(v1, ps[i]) == ValueAt(v2, ps[i]) by {
      assert forall i :: 0 <= i < |ps| ==> ps[i] in ps;
    }
    PlacedAgree(v1, v2, ps);
    if KindAt(l, q) == Sum {
      assert ps == Run(l, axis, q);
    } else if IsFillable(KindAt(l, q)) {
      assert UsedFrom(l, v1, axis, p) == UsedFrom(l, v2, axis, p);
    }
  }

  /** The crossing checks of a run agree on two digit grids that agree on every square those checks read. */
  lemma CrossingsAgree(l: Layout, v1: Values, v2: Values, axis: Axis, c: Pos, n: int)
    requires 0 <= n <= |Run(l, axis, c)| && RunReady(l, axis, c)
    requires forall i, q :: 0 <= i < n && q in CheckedSquares(l, Orthogonal(axis), Run(l, axis, c)[i]) ==>
      ValueAt(v1, q) == ValueAt(v2, q)
    ensures CrossingsOk(l, v1, axis, c, n) == CrossingsOk(l, v2, axis, c, n)
  {
    var r := Run(l, axis, c);
    forall i | 0 <= i < n
      ensures CrossingOk(l, v1, Orthogonal(axis), r[i]) == CrossingOk(l, v2, Orthogonal(axis), r[i])
    {
      CrossingAgree(l, v1, v2, Orthogonal(axis), r[i]);
    }
  }

  /** One more square of the run passes its crossing check. */
  lemma CrossingsStep(l: Layout, v: Values, axis: Axis, c: Pos, n: int)
    requires 0 <= n < |Run(l, axis, c)|
    requires RunReady(l, axis, c)
    requires CrossingsOk(l, v, axis, c, n)
    ensures CrossingsOk(l, v, axis, c, n + 1) <==> CrossingOk(l, v, Orthogonal(axis), Run(l, axis, c)[n])
  {
    var r := Run(l, axis, c);
    if CrossingOk(l, v, Orthogonal(axis), r[n]) {
      forall i | 0 <= i < n + 1
        ensures CrossingOk(l, v, Orthogonal(axis), r[i])
      {
      }
    }
  }

  /**
    The weights of the axis-choice heuristic, in tenths (0.4, 0.5 and 0.9 in
    the source). The source's weight table has no entry for Sum or Block, so
    its lookup adds nothing for them.
   */
  function Weight(t: ContainerType): int {
    match t
    case Even => 4
    case Odd => 5
    case Parity => 9
    case _ => 0
  }

  /** The total weight of a sequence of squares. */
  function Weights(l: Layout, ps: seq<Pos>): int {
    if ps == [] then 0 else Weights(l, ps[..|ps| - 1]) + Weight(KindAt(l, ps[|ps| - 1]))
  }

  /** The total weight of the runs of the clues cs. */
  function RunWeights(l: Layout, axis: Axis, cs: seq<Pos>): int {
    if cs == [] then 0 else RunWeights(l, axis, cs[..|cs| - 1]) + Weights(l, Run(l, axis, cs[|cs| - 1]))
  }

  /** One more square of a weighed scan adds its weight. */
  lemma WeightsStep(l: Layout, ps: seq<Pos>, k: int)
    requires 0 <= k < |ps|
    ensures Weights(l, ps[..k + 1]) == Weights(l, ps[..k]) + Weight(KindAt(l, ps[k]))
  {
    assert ps[..k + 1][..k] == ps[..k];
  }

  /**
    One turn of the loop that weighs the run of the clue c: the fillable
    square k + 1 steps after c is square k of the run and adds its weight; the
    scan then moves one step, and stops at the end of the run when that step
    fails the edge test.
   */
  lemma WeighStep(l: Layout, axis: Axis, c: Pos, k: nat)
    requires k <= |Run(l, axis, c)|
    requires InGrid(l, Advance(axis, true, c, k + 1)) && IsFillable(KindAt(l, Advance(axis, true, c, k + 1)))
    ensures k < |Run(l, axis, c)|
    ensures Weights(l, Run(l, axis, c)[..k + 1]) == Weights(l, Run(l, axis, c)[..k]) + Weight(KindAt(l, Advance(axis, true, c, k + 1)))
    ensures Step(axis, true, Advance(axis, true, c, k + 1)) == Advance(axis, true, c, k + 2)
    ensures InTravel(l, axis, true, Advance(axis, true, c, k + 2)) ==> InGrid(l, Advance(axis, true, c, k + 2))
    ensures !InTravel(l, axis, true, Advance(axis, true, c, k + 2)) ==> k + 1 == |Run(l, axis, c)|
  {
    RunStep(l, axis, c, k);
    WeightsStep(l, Run(l, axis, c), k);
    StepAdvance(axis, true, c, k + 1);
    RunStep(l, axis, c, k + 1);
  }

  /** One more clue adds the weight of its run. */
  lemma RunWeightsStep(l: Layout, axis: Axis, cs: seq<Pos>, k: int)
    requires 0 <= k < |cs|
    ensures RunWeights(l, axis, cs[..k + 1]) == RunWeights(l, axis, cs[..k]) + Weights(l, Run(l, axis, cs[k]))
  {
    assert cs[..k + 1][..k] == cs[..k];
  }
}
