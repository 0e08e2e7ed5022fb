/**
  The Kakuro board of Kakuro.cs: a grid of squares, the three position lists
  built when the board is loaded, the run checkers, and the backtracking
  solver that writes candidate digit tuples into the grid in place.

  The source has an X and a Y version of most operations (`CheckSumX` and
  `CheckSumY`, `SolveCombinationsUsingXAxisRun` and `...YAxisRun`, ...); they
  differ only in the direction of travel, so each pair is one method here with
  an `Axis` parameter, and the directions live in `Grid.Step`.

  The methods work on the square objects; their contracts speak of the
  board's fixed `layout` and of `values`, the digits on it, which the
  solver's writes keep equal to the square objects' own values.
 */
module Board {
  import opened Optional
  import opened Containers
  import opened Combinations
  import opened Grid
  import opened Locations

  /**
    The list building of the file reader, on a board whose squares have
    already been created: rows are read top-down, each left to right, and a
    square's position is appended to every list that collects its sort.
   */
  method ReadLocations(grid: array2<Container>) returns (rs: seq<Pos>, ls: seq<Pos>, eop: seq<Pos>)
    ensures rs == FileOrder(LayoutOf(grid), RightClue)
    ensures ls == FileOrder(LayoutOf(grid), DownClue)
    ensures eop == FileOrder(LayoutOf(grid), FillableSquare)
  {
    ghost var l := LayoutOf(grid);
    rs, ls, eop := [], [], [];
    var y := grid.Length1 - 1;
    while y >= 0
      invariant -1 <= y < grid.Length1
      invariant rs == ScanRows(l, RightClue, grid.Length1 - 1 - y)
      invariant ls == ScanRows(l, DownClue, grid.Length1 - 1 - y)
      invariant eop == ScanRows(l, FillableSquare, grid.Length1 - 1 - y)
    {
      rs, ls, eop := ReadRow(grid, y, rs, ls, eop);
      y := y - 1;
    }
  }

  /** One row of the file, left to right, appended to the three lists. */
  method ReadRow(grid: array2<Container>, y: int, rs0: seq<Pos>, ls0: seq<Pos>, eop0: seq<Pos>)
    returns (rs: seq<Pos>, ls: seq<Pos>, eop: seq<Pos>)
    requires 0 <= y < grid.Length1
    ensures rs == rs0 + RowPrefix(LayoutOf(grid), RightClue, y, grid.Length0)
    ensures ls == ls0 + RowPrefix(LayoutOf(grid), DownClue, y, grid.Length0)
    ensures eop == eop0 + RowPrefix(LayoutOf(grid), FillableSquare, y, grid.Length0)
  {
    ghost var l := LayoutOf(grid);
    rs, ls, eop := rs0, ls0, eop0;
    for x := 0 to grid.Length0
      invariant rs == rs0 + RowPrefix(l, RightClue, y, x)
      invariant ls == ls0 + RowPrefix(l, DownClue, y, x)
      invariant eop == eop0 + RowPrefix(l, FillableSquare, y, x)
    {
      var square := grid[x, y];
      assert SquareOf(square) == At(l, (x, y));
      if IsFillable(square.kind) {
        eop := eop + [(x, y)];
      } else if square.kind == Sum {
        if square.sumLeft.Some? {
          ls := ls + [(x, y)];
        }
        if square.sumRight.Some? {
          rs := rs + [(x, y)];
        }
      }
    }
  }

  /** Reversing a list in reading order lists the same squares in reverse reading order. */
  lemma ReversedReadingOrder(l: Layout, s: Selector)
    ensures forall p :: p in Reversed(FileOrder(l, s)) <==> InGrid(l, p) && Selects(s, At(l, p))
    ensures forall i, j :: 0 <= i < j < |Reversed(FileOrder(l, s))| ==>
      ReadBefore(Reversed(FileOrder(l, s))[j], Reversed(FileOrder(l, s))[i])
  {
    FileOrderSpec(l, s);
    ReversedMembers(FileOrder(l, s));
  }

  /**
    Sorting the list by column and reversing it lists the same squares by
    descending column, each column top-down, none twice.
   */
  lemma SortedReversedOrder(l: Layout, s: Selector)
    ensures forall p :: p in Reversed(SortByColumn(FileOrder(l, s))) <==> InGrid(l, p) && Selects(s, At(l, p))
    ensures ColumnsDescending(Reversed(SortByColumn(FileOrder(l, s))))
  {
    var read := FileOrder(l, s);
    FileOrderSpec(l, s);
    assert NoRepeats(read);
    var sorted := SortByColumn(read);
    SameMembers(sorted, read);
    ReversedMembers(sorted);
    ReversedDescending(sorted);
  }

  /** Sequences with the same multiset have the same members. */
  lemma SameMembers(a: seq<Pos>, b: seq<Pos>)
    requires multiset(a) == multiset(b)
    ensures forall p :: p in a <==> p in b
  {
    forall p
      ensures p in a <==> p in b
    {
      assert p in a <==> p in multiset(a);
      assert p in b <==> p in multiset(b);
    }
  }

  /** A list without two equal entries has each entry once. */
  lemma ListedOnce(locs: seq<Pos>)
    requires NoRepeats(locs)
    ensures EachOnce(locs)
  {
    forall k | 0 <= k < |locs|
      ensures locs[k] !in After(locs, k)
    {
      var later := After(locs, k);
      forall i | 0 <= i < |later|
        ensures later[i] != locs[k]
      {
        assert later[i] == locs[k + 1 + i];
      }
    }
  }

  /** Reversing a column-sorted list without repeats makes it strictly descending. */
  lemma ReversedDescending(sorted: seq<Pos>)
    requires SortedByColumn(sorted) && NoRepeats(sorted)
    ensures ColumnsDescending(Reversed(sorted))
  {
    var r := Reversed(sorted);
    forall i, j | 0 <= i < j < |r|
      ensures r[i].0 > r[j].0 || (r[i].0 == r[j].0 && r[i].1 > r[j].1)
    {
      var n := |sorted|;
      assert r[i] == sorted[n - 1 - i] && r[j] == sorted[n - 1 - j];
      assert ColumnLeq(sorted[n - 1 - j], sorted[n - 1 - i]);
    }
  }

  /** Reversal keeps the members. */
  lemma ReversedMembers<T>(s: seq<T>)
    ensures forall x :: x in Reversed(s) <==> x in s
  {
    var r := Reversed(s);
    forall x | x in s
      ensures x in r
    {
      var i :| 0 <= i < |s| && s[i] == x;
      assert r[|s| - 1 - i] == x;
    }
  }

  /**
    The tuples the generator yields for a run fit it: one digit per square,
    each a digit the square's setter accepts.
   */
  lemma CombinationFits(l: Layout, axis: Axis, c: Pos, t: seq<int>)
    requires t in Combinations.Combinations(Letters(l, Run(l, axis, c)), [], ClueSum(l, axis, c))
    ensures |t| == |Run(l, axis, c)|
    ensures forall i :: 0 <= i < |t| ==> Legal(KindAt(l, Run(l, axis, c)[i]), t[i])
  {
    var r := Run(l, axis, c);
    CombinationsExact(Letters(l, r), [], ClueSum(l, axis, c), t);
    forall i | 0 <= i < |t|
      ensures Legal(KindAt(l, r[i]), t[i])
    {
      LetterDigits(KindAt(l, r[i]), t[i]);
    }
  }

  /**
    The axis choice of `SolveCombinations`: Y iff the average run weight of
    the Y clues is strictly below that of the X clues. An empty list averages
    to NaN (0 / 0), which compares false, so it never lets Y be chosen.
   */
  function ChooseAxis(scoreX: int, countX: int, scoreY: int, countY: int): (axis: Axis)
    requires countX >= 0 && countY >= 0
    ensures axis == Y <==>
      countX > 0 && countY > 0 && (scoreY as real) / (countY as real) < (scoreX as real) / (countX as real)
  {
    if countX > 0 && countY > 0 then
      AverageLess(scoreY, countY, scoreX, countX);
      if scoreY * countX < scoreX * countY then Y else X
    else X
  }

  /** Comparing averages is comparing cross products. */
  lemma AverageLess(a: int, m: int, b: int, n: int)
    requires m > 0 && n > 0
    ensures (a as real) / (m as real) < (b as real) / (n as real) <==> a * n < b * m
  {
    var x := (a as real) / (m as real);
    var y := (b as real) / (n as real);
    assert x * (m as real) == a as real;
    assert y * (n as real) == b as real;
    assert (a * n) as real == x * (m as real) * (n as real);
    assert (b * m) as real == y * (n as real) * (m as real);
    assert (m as real) * (n as real) > 0.0;
  }

  /**
    The subtraction loop of `CheckIfThereAreStillPossibleCombinationsX/Y`:
    each digit already placed is taken off the clue sum; a missing sum stays
    missing.
   */
  method SubtractUsed(sum: Option<int>, used: seq<int>) returns (rest: Option<int>)
    ensures rest == Remaining(sum, used)
  {
    rest := sum;
    for i := 0 to |used|
      invariant rest == Remaining(sum, used[..i])
    {
      assert used[..i + 1] == used[..i] + [used[i]];
      SumAppend(used[..i], [used[i]]);
      if rest.Some? {
        rest := Some(rest.value - used[i]);
      }
    }
    assert used[..|used|] == used;
  }

  /** None of the first j verdicts bs is true. */
  predicate NoneBefore(bs: seq<bool>, j: nat)
    requires j <= |bs|
  {
    j == 0 || (NoneBefore(bs, j - 1) && !bs[j - 1])
  }

  /** `NoneBefore` holds exactly when every verdict before position j is false. */
  lemma {:induction false} NoneBeforeAll(bs: seq<bool>, j: nat)
    requires j <= |bs|
    ensures NoneBefore(bs, j) <==> forall i :: 0 <= i < j ==> !bs[i]
  {
    if j > 0 {
      NoneBeforeAll(bs, j - 1);
    }
  }

  class Kakuro {
    /** `Data[x, y]`: Width columns by Height rows, row 0 at the bottom. */
    const data: array2<Container>
    /** The kinds and clue sums of `data`, fixed once the board is loaded. */
    ghost const layout: Layout
    const locationsRS: seq<Pos>
    const locationsLS: seq<Pos>
    const locationsEOP: seq<Pos>
    var isSolved: bool
    var combinationsTraversed: int
    /** The digit on each square, `values[x][y]` the value of `data[x, y]`. */
    ghost var values: Values

    /** `layout` describes the squares of `data`. */
    ghost predicate Linked()
      reads data
    {
      && layout.width == data.Length0 && layout.height == data.Length1
      && forall p {:trigger data[p.0, p.1]} :: InGrid(layout, p) ==> At(layout, p) == SquareOf(data[p.0, p.1])
    }

    /** `values` holds the digit of every square object. */
    ghost predicate Mirrored()
      reads this`values, data, Cells(data)
    {
      && Linked()
      && Shaped(values, layout.width, layout.height)
      && forall p {:trigger data[p.0, p.1]} :: InGrid(layout, p) ==> data[p.0, p.1].value == ValueAt(values, p)
    }

    /**
      A loaded board: no square object appears twice in the grid, every square
      satisfies its own invariant, and every clue list entry is a Sum square on
      the board.
     */
    ghost predicate Valid()
      reads this`values, data, Cells(data)
    {
      && Mirrored()
      && Injective(data)
      && (forall x, y :: 0 <= x < data.Length0 && 0 <= y < data.Length1 ==> data[x, y].Valid())
      && CluesOnBoard(X) && CluesOnBoard(Y)
      && DistinctClues(X) && DistinctClues(Y)
    }

    /** Every entry of the axis's clue list is a Sum square on the board. */
    ghost predicate CluesOnBoard(axis: Axis) {
      CluesOn(layout, Locations(axis))
    }

    /** No clue appears twice in the axis's clue list. */
    ghost predicate DistinctClues(axis: Axis) {
      EachOnce(Locations(axis))
    }

    /**
      The crossing checks of the solver along `axis` stay on the board: for
      every square of the run of every clue but the last (the last level runs
      `CheckAll` instead), the square before it on the crossing run exists,
      and when that square is fillable the back-scan reaches a clue.
     */
    ghost predicate Crossable(axis: Axis) {
      CluesReady(layout, axis, Locations(axis))
    }

    /**
      The three lists are the reader's lists after the reordering at the end
      of loading: LocationsRS and LocationsEOP reversed, LocationsLS sorted
      and then reversed.
     */
    ghost predicate Loaded() {
      && locationsRS == Reversed(FileOrder(layout, RightClue))
      && locationsLS == Reversed(SortByColumn(FileOrder(layout, DownClue)))
      && locationsEOP == Reversed(FileOrder(layout, FillableSquare))
    }

    /** The clue list the solver walks for an axis. */
    function Locations(axis: Axis): seq<Pos> {
      if axis == X then locationsRS else locationsLS
    }

    /** The loading constructor, from the moment every square of the board exists. */
    constructor (grid: array2<Container>)
      requires Injective(grid)
      requires forall x, y :: 0 <= x < grid.Length0 && 0 <= y < grid.Length1 ==> grid[x, y].Valid()
      ensures data == grid && layout == LayoutOf(grid)
      ensures Valid() && Loaded()
      ensures !isSolved && combinationsTraversed == 0
    {
      ghost var v := ValuesOf(grid);
      var rs, ls, eop := ReadLocations(grid);
      data := grid;
      layout := LayoutOf(grid);
      values := v;
      locationsRS := Reversed(rs);
      locationsLS := Reversed(SortByColumn(ls));
      locationsEOP := Reversed(eop);
      isSolved := false;
      combinationsTraversed := 0;
      new;
      LoadedValid();
    }

    /**
      A board whose layout and digits are read off its square objects, whose
      square objects are distinct and valid, and whose lists are the loaded
      ones, is valid.
     */
    lemma LoadedValid()
      requires Mirrored() && Loaded() && Injective(data)
      requires forall x, y :: 0 <= x < data.Length0 && 0 <= y < data.Length1 ==> data[x, y].Valid()
      ensures Valid()
    {
      LoadedClues();
    }

    /** Both clue lists of a loaded board hold Sum squares on the board only, each once. */
    lemma LoadedClues()
      requires Loaded()
      ensures CluesOnBoard(X) && CluesOnBoard(Y)
      ensures DistinctClues(X) && DistinctClues(Y)
    {
      ReversedReadingOrder(layout, RightClue);
      forall k | 0 <= k < |locationsRS|
        ensures InGrid(layout, locationsRS[k]) && KindAt(layout, locationsRS[k]) == Sum
      {
        assert locationsRS[k] in locationsRS;
      }
      assert NoRepeats(locationsRS);
      ListedOnce(locationsRS);
      SortedReversedOrder(layout, DownClue);
      forall k | 0 <= k < |locationsLS|
        ensures InGrid(layout, locationsLS[k]) && KindAt(layout, locationsLS[k]) == Sum
      {
        assert locationsLS[k] in locationsLS;
      }
      assert NoRepeats(locationsLS);
      ListedOnce(locationsLS);
    }

    /**
      The order the solver meets the clues in: LocationsRS and LocationsEOP
      hold their squares in reverse reading order (bottom row first, each row
      right to left), LocationsLS holds its squares by descending column, each
      column top-down; none holds a square twice.
     */
    lemma ListOrder()
      requires Loaded()
      ensures forall p :: p in locationsRS <==> InGrid(layout, p) && Selects(RightClue, At(layout, p))
      ensures forall p :: p in locationsLS <==> InGrid(layout, p) && Selects(DownClue, At(layout, p))
      ensures forall p :: p in locationsEOP <==> InGrid(layout, p) && Selects(FillableSquare, At(layout, p))
      ensures forall i, j :: 0 <= i < j < |locationsRS| ==> ReadBefore(locationsRS[j], locationsRS[i])
      ensures forall i, j :: 0 <= i < j < |locationsEOP| ==> ReadBefore(locationsEOP[j], locationsEOP[i])
      ensures ColumnsDescending(locationsLS)
    {
      ReversedReadingOrder(layout, RightClue);
      ReversedReadingOrder(layout, FillableSquare);
      SortedReversedOrder(layout, DownClue);
    }

    /**
      `GetTypesInSum`: the letters E, O, P of the fillable squares met walking
      from (x, y) along the axis, forwards or (with `reverse`) backwards,
      until the edge of the board or a Sum or Block square.
     */
    method GetTypesInSum(x: int, y: int, axis: Axis, reverse: bool) returns (types: seq<Letter>)
      requires Linked() && CrossOk(layout, axis, !reverse, (x, y))
      ensures types == Letters(layout, Walk(layout, axis, !reverse, (x, y)))
    {
      ghost var w := Walk(layout, axis, !reverse, (x, y));
      ghost var k := 0;
      types := [];
      var p := (x, y);
      while true
        invariant 0 <= k <= |w| && p == Advance(axis, !reverse, (x, y), k)
        invariant types == Letters(layout, w[..k])
        decreases |w| - k
      {
        var more, kind := ScanKind(axis, !reverse, (x, y), k, p);
        if !more {
          break;
        }
        assert Letters(layout, w[..k + 1]) == Letters(layout, w[..k]) + [LetterOf(KindAt(layout, w[k]))] by {
          assert w[..k + 1] == w[..k] + [w[k]];
        }
        if kind == Even {
          types := types + [E];
        } else if kind == Odd {
          types := types + [O];
        } else {
          types := types + [P];
        }
        StepAdvance(axis, !reverse, (x, y), k);
        p := Step(axis, !reverse, p);
        k := k + 1;
      }
      assert w[..k] == w;
    }

    /**
      `GetNumbersAlreadyUsedInSum`: the digits on the squares met walking
      forwards from (x, y) until the edge or a Sum or Block square, in walking
      order, unset squares skipped.
     */
    method GetNumbersAlreadyUsedInSum(x: int, y: int, axis: Axis) returns (numbers: seq<int>)
      requires Mirrored() && CrossOk(layout, axis, true, (x, y))
      ensures numbers == UsedFrom(layout, values, axis, (x, y))
    {
      ghost var v := values;
      ghost var w := Walk(layout, axis, true, (x, y));
      ghost var k := 0;
      numbers := [];
      var p := (x, y);
      while true
        invariant 0 <= k <= |w| && p == Advance(axis, true, (x, y), k)
        invariant numbers == Placed(v, w[..k])
        decreases |w| - k
      {
        var more, kind := ScanKind(axis, true, (x, y), k, p);
        if !more {
          break;
        }
        var _, value := Look(p);
        PlacedStep(v, w, k);
        if value.Some? {
          numbers := numbers + [value.value];
        }
        StepAdvance(axis, true, (x, y), k);
        p := Step(axis, true, p);
        k := k + 1;
      }
      assert w[..k] == w;
    }

    /**
      One test of the forward or backward scan from `start`: its square p,
      k steps on, is still part of the scan when it is inside the board and
      neither a Sum nor a Block square.
     */
    method ScanKind(axis: Axis, forward: bool, start: Pos, ghost k: int, p: Pos) returns (more: bool, kind: ContainerType)
      requires Linked() && CrossOk(layout, axis, forward, start)
      requires 0 <= k <= |Walk(layout, axis, forward, start)| && p == Advance(axis, forward, start, k)
      ensures more <==> k < |Walk(layout, axis, forward, start)|
      ensures more ==> InGrid(layout, p) && kind == KindAt(layout, p)
    {
      assert k < |Walk(layout, axis, forward, start)| <==> InTravel(layout, axis, forward, p) && IsFillable(KindAt(layout, p));
      assert CrossOk(layout, axis, forward, p);
      if !Within(data.Length0, data.Length1, axis, forward, p) {
        return false, Block;
      }
      kind := data[p.0, p.1].kind;
      more := !(kind == Sum || kind == Block);
    }

    /** The kind of the square object at p, which the layout records. */
    function KindOf(p: Pos): (kind: ContainerType)
      requires Linked() && InGrid(layout, p)
      reads data
      ensures kind == KindAt(layout, p)
    {
      data[p.0, p.1].kind
    }

    /** The kind and digit of the square at p. */
    method Look(p: Pos) returns (kind: ContainerType, value: Option<int>)
      requires Mirrored() && InGrid(layout, p)
      ensures kind == KindAt(layout, p) && value == ValueAt(values, p)
    {
      var square := data[p.0, p.1];
      kind, value := square.kind, square.value;
    }

    /**
      One test of a checker's forward scan from the clue c: its square p,
      k + 1 steps after c, still belongs to the run when it is inside the
      board and neither a Sum nor a Block square, and then its digit is read.
     */
    method Peek(axis: Axis, c: Pos, ghost k: int, p: Pos) returns (more: bool, value: Option<int>)
      requires Mirrored() && InGrid(layout, c)
      requires 0 <= k <= |Run(layout, axis, c)| && p == Advance(axis, true, c, k + 1)
      ensures more <==> k < |Run(layout, axis, c)|
      ensures more ==> value == ValueAt(values, Run(layout, axis, c)[k])
    {
      RunStep(layout, axis, c, k);
      if !Within(data.Length0, data.Length1, axis, true, p) {
        return false, None;
      }
      var kind;
      kind, value := Look(p);
      more := !(kind == Sum || kind == Block);
    }

    /** The back-scan that opens each checker: from (x, y) towards the clue until a Sum square. */
    method BackToClue(axis: Axis, x: int, y: int) returns (c: Pos)
      requires Linked() && ReachesClue(layout, axis, (x, y))
      ensures c == ClueOf(layout, axis, (x, y))
    {
      c := (x, y);
      while data[c.0, c.1].kind != Sum
        invariant ReachesClue(layout, axis, c) && ClueOf(layout, axis, c) == ClueOf(layout, axis, (x, y))
        decreases Dist(layout, axis, false, c)
      {
        c := Step(axis, false, c);
      }
    }

    /**
      `CheckRepetionsX/Y`: true iff no digit occurs twice among the set squares
      of the run whose clue the back-scan from (x, y) reaches.
     */
    method CheckRepetions(axis: Axis, x: int, y: int) returns (ok: bool)
      requires Mirrored() && ReachesClue(layout, axis, (x, y))
      ensures ok == RepsOk(layout, values, axis, ClueOf(layout, axis, (x, y)))
    {
      var c := BackToClue(axis, x, y);
      ok := RepeatFree(axis, c);
    }

    /** The scan of `CheckRepetionsX/Y` along the run of the clue c: true iff no digit occurs twice on it. */
    method RepeatFree(axis: Axis, c: Pos) returns (ok: bool)
      requires Mirrored() && InGrid(layout, c)
      ensures ok == RepsOk(layout, values, axis, c)
    {
      ghost var v := values;
      ghost var w := Run(layout, axis, c);
      ghost var k := 0;
      var seen: set<int> := {};
      var p := Step(axis, true, c);
      while true
        invariant 0 <= k <= |w| && p == Advance(axis, true, c, k + 1)
        invariant Distinct(Placed(v, w[..k]))
        invariant forall d :: d in seen <==> d in Placed(v, w[..k])
        decreases |w| - k
      {
        var more, value := Peek(axis, c, k, p);
        if !more {
          break;
        }
        DistinctStep(v, w, k);
        PlacedStep(v, w, k);
        if value.Some? {
          var d := value.value;
          if d in seen {
            return false;
          }
          seen := seen + {d};
        }
        StepAdvance(axis, true, c, k + 1);
        p := Step(axis, true, p);
        k := k + 1;
      }
      assert w[..k] == w;
      return true;
    }

    /**
      `CheckSumX/Y`: false at the first unset square of the run whose clue the
      back-scan from (x, y) reaches; otherwise true iff the run's digits add up
      to the clue's sum for the axis (a missing sum gives false).
     */
    method CheckSum(axis: Axis, x: int, y: int) returns (ok: bool)
      requires Mirrored() && ReachesClue(layout, axis, (x, y))
      ensures ok == SumOk(layout, values, axis, ClueOf(layout, axis, (x, y)))
    {
      var c := BackToClue(axis, x, y);
      ok := SumMatches(axis, c);
    }

    /**
      The scan of `CheckSumX/Y` along the run of the clue c: false at the
      first unset square, otherwise true iff the digits add up to the clue's
      sum for the axis.
     */
    method SumMatches(axis: Axis, c: Pos) returns (ok: bool)
      requires Mirrored() && InGrid(layout, c)
      ensures ok == SumOk(layout, values, axis, c)
    {
      ghost var v := values;
      var compareSumTo := if axis == X then data[c.0, c.1].sumRight else data[c.0, c.1].sumLeft;
      assert compareSumTo == ClueSum(layout, axis, c);
      ghost var w := Run(layout, axis, c);
      ghost var k := 0;
      var sum := 0;
      var p := Step(axis, true, c);
      while true
        invariant 0 <= k <= |w| && p == Advance(axis, true, c, k + 1)
        invariant AllSet(v, w[..k]) && sum == Combinations.Sum(Placed(v, w[..k]))
        decreases |w| - k
      {
        var more, value := Peek(axis, c, k, p);
        if !more {
          break;
        }
        SumStep(v, w, k);
        if value.None? {
          return false;
        }
        sum := sum + value.value;
        StepAdvance(axis, true, c, k + 1);
        p := Step(axis, true, p);
        k := k + 1;
      }
      assert w[..k] == w;
      return compareSumTo == Some(sum);
    }

    /** Both checks of one clue, in the order `CheckAll` runs them. */
    method CheckClue(axis: Axis, c: Pos) returns (ok: bool)
      requires Mirrored() && InGrid(layout, c) && KindAt(layout, c) == Sum
      ensures ok == (SumOk(layout, values, axis, c) && RepsOk(layout, values, axis, c))
    {
      assert (c.0, c.1) == c;
      ok := CheckSum(axis, c.0, c.1);
      if ok {
        ok := CheckRepetions(axis, c.0, c.1);
      }
    }

    /** The clue at position k of the axis's list passes both of its checks on the digits v. */
    ghost predicate ClueOk(axis: Axis, v: Values, k: nat)
      requires k < |Locations(axis)|
    {
      SumOk(layout, v, axis, Locations(axis)[k]) && RepsOk(layout, v, axis, Locations(axis)[k])
    }

    /** Every clue of the axis's list passes both of its checks on the digits v. */
    ghost predicate ListOk(axis: Axis, v: Values) {
      forall k :: 0 <= k < |Locations(axis)| ==> ClueOk(axis, v, k)
    }

    /** The digits v solve the board: every rightward clue passes the X checks and every downward clue the Y checks. */
    ghost predicate AllSatisfied(v: Values) {
      ListOk(X, v) && ListOk(Y, v)
    }

    /** The loop of `CheckAll` over one clue list: true iff every clue of the list passes both checks. */
    method CheckList(axis: Axis) returns (ok: bool)
      requires Mirrored() && CluesOnBoard(axis)
      ensures ok == ListOk(axis, values)
    {
      var locs := Locations(axis);
      for k := 0 to |locs|
        invariant forall j :: 0 <= j < k ==> ClueOk(axis, values, j)
      {
        ok := CheckClue(axis, locs[k]);
        if !ok {
          assert !ClueOk(axis, values, k);
          return false;
        }
      }
      return true;
    }

    /**
      `CheckAll`: the board is solved iff every clue of LocationsRS passes the
      X sum and repetition checks and every clue of LocationsLS the Y checks.
      It changes no square, and leaves IsSolved equal to its answer.
     */
    method CheckAll() returns (ok: bool)
      requires Valid()
      modifies this`isSolved
      ensures ok == AllSatisfied(values) && isSolved == ok
    {
      isSolved := false;
      ok := CheckList(X);
      if !ok {
        return false;
      }
      ok := CheckList(Y);
      if !ok {
        return false;
      }
      isSolved := true;
      return true;
    }

    /**
      `GetCombinationsX/Y` for the clue at (x, y): every tuple of distinct
      digits that suits the kinds of the clue's run and adds up to its sum.
     */
    method GetCombinations(axis: Axis, x: int, y: int) returns (combos: seq<seq<int>>)
      requires Linked() && InGrid(layout, (x, y))
      ensures combos == Combinations.Combinations(Letters(layout, Run(layout, axis, (x, y))), [], ClueSum(layout, axis, (x, y)))
      ensures forall t :: t in combos <==>
        IsCombination(t, Letters(layout, Run(layout, axis, (x, y))), [], ClueSum(layout, axis, (x, y)))
    {
      var start := Step(axis, true, (x, y));
      var types := GetTypesInSum(start.0, start.1, axis, false);
      var sum := if axis == X then data[x, y].sumRight else data[x, y].sumLeft;
      combos := CartesianProduct(types, [], sum);
    }

    /**
      The move to the clue inside `CheckIfThereAreStillPossibleCombinationsX/Y`:
      from (x, y) towards the clue until a Sum square, also stopping at the
      left edge (X) or past the top row (Y); from a square that reaches its
      clue, it is the clue where it stops.
     */
    method MoveToClue(axis: Axis, x: int, y: int) returns (c: Pos)
      requires Linked() && ReachesClue(layout, axis, (x, y))
      ensures c == ClueOf(layout, axis, (x, y))
    {
      c := (x, y);
      while true
        invariant ReachesClue(layout, axis, c) && ClueOf(layout, axis, c) == ClueOf(layout, axis, (x, y))
        decreases Dist(layout, axis, false, c)
      {
        if axis == X && c.0 <= 0 {
          break;
        } else if axis == Y && c.1 >= data.Length1 {
          break;
        } else if data[c.0, c.1].kind == Sum {
          break;
        }
        c := Step(axis, false, c);
      }
    }

    /**
      `CheckIfThereAreStillPossibleCombinationsX/Y` at the square (x, y): the
      kinds between the clue and (x, y) (nearest first), the digits placed
      from (x, y) to the end of the run, and the clue sum less those digits
      admit at least one tuple.
     */
    method StillPossible(axis: Axis, x: int, y: int) returns (ok: bool)
      requires Mirrored() && ReachesClue(layout, axis, (x, y))
      ensures ok == CanStillComplete(layout, values, axis, (x, y))
    {
      var back := Step(axis, false, (x, y));
      var types := GetTypesInSum(back.0, back.1, axis, true);
      var excludeNumbers := GetNumbersAlreadyUsedInSum(x, y, axis);
      var c := MoveToClue(axis, x, y);
      var sum := if axis == X then data[c.0, c.1].sumRight else data[c.0, c.1].sumLeft;
      assert sum == ClueSum(layout, axis, c);
      sum := SubtractUsed(sum, excludeNumbers);
      var combos := CartesianProduct(types, excludeNumbers, sum);
      ok := |combos| > 0;
      assert types == KindsBefore(layout, axis, (x, y)) by {
        assert (back.0, back.1) == back;
      }
      assert excludeNumbers == UsedFrom(layout, values, axis, (x, y));
      assert sum == Remaining(ClueSum(layout, axis, ClueOf(layout, axis, (x, y))), excludeNumbers);
      if ok {
        assert IsCombination(combos[0], types, excludeNumbers, sum);
      } else {
        forall t
          ensures !IsCombination(t, types, excludeNumbers, sum)
        {
          assert t !in combos;
        }
      }
    }

    /**
      The crossing check the solver makes, for the crossing run along `axis`, after
      writing the square p: when the square before p on that run is its clue,
      `CheckSum` and then `CheckRepetions` of that clue; when it is fillable,
      the forward check at p; at a Block, nothing.
     */
    method CheckCrossing(axis: Axis, p: Pos) returns (pass: bool)
      requires Mirrored() && CrossReady(layout, axis, p)
      ensures pass == CrossingOk(layout, values, axis, p)
    {
      var q := Step(axis, false, p);
      assert (q.0, q.1) == q && (p.0, p.1) == p;
      assert InGrid(layout, q);
      var kind := data[q.0, q.1].kind;
      if kind == Sum {
        pass := CheckSum(axis, q.0, q.1);
        if pass {
          pass := CheckRepetions(axis, q.0, q.1);
        }
      } else if kind == Even || kind == Odd || kind == Parity {
        pass := StillPossible(axis, p.0, p.1);
      } else {
        pass := true;
      }
    }

    /**
      The pruning loop of the solver over the first `count` squares of the
      run of `clue`: true iff every crossing check passes; it stops at the
      first failure.
     */
    method CrossChecks(axis: Axis, clue: Pos, count: int) returns (pass: bool)
      requires Mirrored() && 0 <= count <= |Run(layout, axis, clue)|
      requires RunReady(layout, axis, clue)
      ensures pass <==> CrossingsOk(layout, values, axis, clue, count)
    {
      for i := 0 to count
        invariant CrossingsOk(layout, values, axis, clue, i)
      {
        var p := Advance(axis, true, clue, i + 1);
        assert p == Run(layout, axis, clue)[i];
        pass := CheckCrossing(Orthogonal(axis), p);
        CrossingsStep(layout, values, axis, clue, i);
        if !pass {
          return false;
        }
      }
      return true;
    }

    /**
      The insertion loop of the solver: the tuple's digits go, through the
      guarded setter, onto the squares of the clue's run in order, and no
      other square changes.
     */
    method WriteCombination(axis: Axis, clue: Pos, combination: seq<int>)
      requires Valid()
      requires |combination| == |Run(layout, axis, clue)|
      requires forall i :: 0 <= i < |combination| ==> Legal(KindAt(layout, Run(layout, axis, clue)[i]), combination[i])
      modifies this`values, Cells(data)
      ensures Valid()
      ensures forall i :: 0 <= i < |combination| ==> ValueAt(values, Run(layout, axis, clue)[i]) == Some(combination[i])
      ensures forall p :: p !in Run(layout, axis, clue) ==> ValueAt(values, p) == ValueAt(old(values), p)
    {
      ghost var run := Run(layout, axis, clue);
      for i := 0 to |combination|
        invariant Valid()
        invariant Written(values, old(values), run, combination, i)
      {
        var p := Advance(axis, true, clue, i + 1);
        assert p == run[i] && InGrid(layout, p);
        WrittenStep(layout, axis, clue, values, old(values), combination, i);
        Place(p, combination[i]);
      }
      assert run[..|combination|] == run;
    }

    /** One step of the insertion loop: the setter of the square at p accepts the digit d, and only that square changes. */
    method Place(p: Pos, d: int)
      requires Valid() && InGrid(layout, p) && Legal(KindAt(layout, p), d)
      modifies this`values, data[p.0, p.1]
      ensures Valid() && values == Put(old(values), p, Some(d))
    {
      var ok := data[p.0, p.1].SetValue(Some(d));
      assert ok;
      values := Put(values, p, Some(d));
    }

    /** Whether the square p belongs to the run of a clue the solver handles at `level` or later. */
    ghost predicate InRunFrom(axis: Axis, level: nat, p: Pos) {
      exists k :: level <= k < |Locations(axis)| && p in Run(layout, axis, Locations(axis)[k])
    }

    /** No square of this level's run belongs to the run of a later clue: the runs of distinct clues are disjoint. */
    lemma RunsApart(axis: Axis, level: nat)
      requires CluesOnBoard(axis) && DistinctClues(axis) && level < |Locations(axis)|
      ensures forall p :: p in Run(layout, axis, Locations(axis)[level]) ==> !InRunFrom(axis, level + 1, p)
    {
      var locs := Locations(axis);
      forall k | 0 <= k < |locs|
        ensures forall p :: p in Run(layout, axis, locs[k]) ==> ReachesClue(layout, axis, p) && ClueOf(layout, axis, p) == locs[k]
      {
        RunClues(layout, axis, locs[k]);
      }
      forall p | p in Run(layout, axis, locs[level])
        ensures !InRunFrom(axis, level + 1, p)
      {
        forall m | level + 1 <= m < |locs|
          ensures p !in Run(layout, axis, locs[m])
        {
          assert After(locs, level)[m - level - 1] == locs[m];
        }
      }
    }

    /** What the later levels leave alone keeps this level's run as it was written. */
    lemma RunKept(axis: Axis, level: nat, v: Values, w: Values, t: seq<int>)
      requires CluesOnBoard(axis) && DistinctClues(axis) && level < |Locations(axis)|
      requires Holds(v, Run(layout, axis, Locations(axis)[level]), t)
      requires forall p :: !InRunFrom(axis, level + 1, p) ==> ValueAt(w, p) == ValueAt(v, p)
      ensures Holds(w, Run(layout, axis, Locations(axis)[level]), t)
    {
      var r := Run(layout, axis, Locations(axis)[level]);
      RunsApart(axis, level);
      forall i | 0 <= i < |t|
        ensures ValueAt(w, r[i]) == Some(t[i])
      {
        assert r[i] in r;
        assert !InRunFrom(axis, level + 1, r[i]);
      }
    }

    /** The run the solver fills at `level`: the squares after the level's clue. */
    ghost function LevelRun(axis: Axis, level: nat): seq<Pos>
      requires level < |Locations(axis)|
    {
      Run(layout, axis, Locations(axis)[level])
    }

    /** The tuples the solver tries at `level`, in the generator's order. */
    ghost function Candidates(axis: Axis, level: nat): seq<seq<int>>
      requires level < |Locations(axis)|
    {
      var c := Locations(axis)[level];
      Combinations.Combinations(Letters(layout, Run(layout, axis, c)), [], ClueSum(layout, axis, c))
    }

    /** Some tuple of the level's clue is written, digit by digit, on the level's run in v. */
    ghost predicate SomeHeld(axis: Axis, level: nat, v: Values)
      requires level < |Locations(axis)|
    {
      exists t :: t in Candidates(axis, level) && Holds(v, LevelRun(axis, level), t)
    }

    /**
      Writing t onto the level's run of the digits v0 leads the search to a
      solution: at the last level the board then satisfies every clue; below
      it, the crossing checks of the run pass and the search from the next
      level does not fail.
     */
    ghost predicate SolvedBy(axis: Axis, level: nat, v0: Values, t: seq<int>)
      requires level < |Locations(axis)|
      decreases |Locations(axis)| - level, 0
    {
      && |t| == |LevelRun(axis, level)|
      && var w := Overwrite(v0, LevelRun(axis, level), t);
        if level == |Locations(axis)| - 1 then AllSatisfied(w)
        else
          && RunReady(layout, axis, Locations(axis)[level])
          && CrossingsOk(layout, w, axis, Locations(axis)[level], |t|)
          && !Fails(axis, level + 1, w)
    }

    /** For each tuple of ts, whether writing it onto the level's run of the digits v0 leads to a solution. */
    ghost function Leads(axis: Axis, level: nat, v0: Values, ts: seq<seq<int>>): (bs: seq<bool>)
      requires level < |Locations(axis)|
      ensures |bs| == |ts|
      decreases |Locations(axis)| - level, 1
    {
      seq(|ts|, i requires 0 <= i < |ts| => SolvedBy(axis, level, v0, ts[i]))
    }

    /** Verdict i of `Leads` is whether tuple i leads to a solution. */
    lemma LeadsAt(axis: Axis, level: nat, v0: Values, ts: seq<seq<int>>, i: nat)
      requires level < |Locations(axis)| && i < |ts|
      ensures Leads(axis, level, v0, ts)[i] == SolvedBy(axis, level, v0, ts[i])
    {
    }

    /** None of the first j tuples of ts, written onto the level's run of the digits v0, leads to a solution. */
    ghost predicate NoneSolvesFirst(axis: Axis, level: nat, v0: Values, ts: seq<seq<int>>, j: nat)
      requires level < |Locations(axis)| && j <= |ts|
      decreases |Locations(axis)| - level, 2
    {
      NoneBefore(Leads(axis, level, v0, ts), j)
    }

    /** The search from `level` over the digits v fails: no tuple of the level's clue leads to a solution. */
    ghost predicate Fails(axis: Axis, level: nat, v: Values)
      requires level < |Locations(axis)|
      decreases |Locations(axis)| - level, 3
    {
      NoneSolvesFirst(axis, level, v, Candidates(axis, level), |Candidates(axis, level)|)
    }

    /** `Fails` holds exactly when no tuple of the level's clue, written onto its run, leads to a solution. */
    lemma FailsAll(axis: Axis, level: nat, v: Values)
      requires level < |Locations(axis)|
      ensures Fails(axis, level, v) <==> forall t :: t in Candidates(axis, level) ==> !SolvedBy(axis, level, v, t)
    {
      var ts := Candidates(axis, level);
      NoneSolvesFirstAll(axis, level, v, ts, |ts|);
      assert forall t :: t in ts ==> exists i :: 0 <= i < |ts| && ts[i] == t;
    }

    /** The crossing checks the solver makes at `level` read no square of a later level's run. */
    ghost predicate ChecksBehind(axis: Axis, level: nat)
      requires level < |Locations(axis)|
    {
      forall i, q :: 0 <= i < |LevelRun(axis, level)| && q in CheckedSquares(layout, Orthogonal(axis), LevelRun(axis, level)[i]) ==>
        !InRunFrom(axis, level + 1, q)
    }

    /** `ChecksBehind` holds at every level from `level` on that makes crossing checks (all but the last). */
    ghost predicate AllChecksBehind(axis: Axis, level: nat) {
      forall k: nat {:trigger ChecksBehind(axis, k)} :: level <= k < |Locations(axis)| - 1 ==> ChecksBehind(axis, k)
    }

    /**
      On a loaded board every crossing check reads only squares of its own
      level's run and of earlier levels: the X solver fills rows bottom-up and
      its checks look down their columns; the Y solver fills columns right to
      left and its checks look right along their rows.
     */
    lemma LoadedChecksBehind(axis: Axis)
      requires Loaded()
      ensures AllChecksBehind(axis, 0)
    {
      LoadedClues();
      forall k: nat | k < |Locations(axis)| - 1
        ensures ChecksBehind(axis, k)
      {
        forall m | k < m < |Locations(axis)| ensures LaterPlaced(axis, k, m) {
          LaterClue(axis, k, m);
        }
        var r := LevelRun(axis, k);
        forall i, q | 0 <= i < |r| && q in CheckedSquares(layout, Orthogonal(axis), r[i])
          ensures !InRunFrom(axis, k + 1, q)
        {
          CheckBehind(axis, k, r[i], q);
        }
      }
    }

    /** The clue of level m sits on the same row or higher (X), or in the same column or further left (Y), than that of level k. */
    ghost predicate LaterPlaced(axis: Axis, k: nat, m: nat)
      requires k < m < |Locations(axis)|
    {
      && (axis == X ==> Locations(axis)[m].1 >= Locations(axis)[k].1)
      && (axis == Y ==> Locations(axis)[m].0 <= Locations(axis)[k].0)
    }

    /** The crossing check of the square p of the level's run reads no square of a later level's run. */
    lemma CheckBehind(axis: Axis, level: nat, p: Pos, q: Pos)
      requires CluesOnBoard(axis) && DistinctClues(axis) && level < |Locations(axis)|
      requires forall m :: level < m < |Locations(axis)| ==> LaterPlaced(axis, level, m)
      requires p in LevelRun(axis, level) && q in CheckedSquares(layout, Orthogonal(axis), p)
      ensures !InRunFrom(axis, level + 1, q)
    {
      var locs := Locations(axis);
      RunsApart(axis, level);
      CheckedPlace(layout, Orthogonal(axis), p, q);
      RunPlace(layout, axis, locs[level], p);
      forall m | level + 1 <= m < |locs|
        ensures q !in Run(layout, axis, locs[m])
      {
        assert LaterPlaced(axis, level, m);
        if q in Run(layout, axis, locs[m]) {
          RunPlace(layout, axis, locs[m], q);
        }
      }
    }

    /** A clue the solver meets later is on the same row or higher (X), or in the same column or further left (Y). */
    lemma LaterClue(axis: Axis, k: nat, m: nat)
      requires Loaded() && k < m < |Locations(axis)|
      ensures LaterPlaced(axis, k, m)
    {
      if axis == X {
        LaterRow(k, m);
      } else {
        LaterColumn(k, m);
      }
    }

    /** LocationsRS lists later clues on the same row or higher. */
    lemma LaterRow(k: nat, m: nat)
      requires Loaded() && k < m < |locationsRS|
      ensures locationsRS[m].1 >= locationsRS[k].1
    {
      ReversedReadingOrder(layout, RightClue);
      assert ReadBefore(locationsRS[m], locationsRS[k]);
    }

    /** LocationsLS lists later clues in the same column or further left. */
    lemma LaterColumn(k: nat, m: nat)
      requires Loaded() && k < m < |locationsLS|
      ensures locationsLS[m].0 <= locationsLS[k].0
    {
      SortedReversedOrder(layout, DownClue);
      assert ColumnsDescending(locationsLS);
    }

    /** `NoneSolvesFirst` holds exactly when no tuple before position j solves the board. */
    lemma NoneSolvesFirstAll(axis: Axis, level: nat, v0: Values, ts: seq<seq<int>>, j: nat)
      requires level < |Locations(axis)| && j <= |ts|
      ensures NoneSolvesFirst(axis, level, v0, ts, j) <==> forall i :: 0 <= i < j ==> !SolvedBy(axis, level, v0, ts[i])
    {
      NoneBeforeAll(Leads(axis, level, v0, ts), j);
      forall i | 0 <= i < j
        ensures Leads(axis, level, v0, ts)[i] == SolvedBy(axis, level, v0, ts[i])
      {
        LeadsAt(axis, level, v0, ts, i);
      }
    }

    /** With t written onto the level's run of v0, giving w, whether t leads to a solution is read off w. */
    lemma SolvedByWritten(axis: Axis, level: nat, v0: Values, w: Values, t: seq<int>)
      requires level < |Locations(axis)|
      requires Shaped(v0, layout.width, layout.height) && Shaped(w, layout.width, layout.height)
      requires Holds(w, LevelRun(axis, level), t)
      requires forall q :: q !in LevelRun(axis, level) ==> ValueAt(w, q) == ValueAt(v0, q)
      ensures SolvedBy(axis, level, v0, t) <==>
        if level == |Locations(axis)| - 1 then AllSatisfied(w)
        else
          && RunReady(layout, axis, Locations(axis)[level])
          && CrossingsOk(layout, w, axis, Locations(axis)[level], |t|)
          && !Fails(axis, level + 1, w)
    {
      OverwriteIs(v0, w, LevelRun(axis, level), t, layout.width, layout.height);
    }

    /** One more tuple: none of the first j + 1 leads to a solution when none of the first j does and tuple j does not. */
    lemma NoneSolvesStep(axis: Axis, level: nat, v0: Values, ts: seq<seq<int>>, j: nat)
      requires level < |Locations(axis)| && j < |ts|
      ensures NoneSolvesFirst(axis, level, v0, ts, j + 1) <==>
        NoneSolvesFirst(axis, level, v0, ts, j) && !SolvedBy(axis, level, v0, ts[j])
    {
      LeadsAt(axis, level, v0, ts, j);
    }

    /** When none of the first j - 1 tuples leads to a solution but not none of the first j, tuple j - 1 does. */
    lemma FirstLeads(axis: Axis, level: nat, v0: Values, ts: seq<seq<int>>, j: nat)
      requires level < |Locations(axis)| && 0 < j <= |ts|
      requires NoneSolvesFirst(axis, level, v0, ts, j - 1) && !NoneSolvesFirst(axis, level, v0, ts, j)
      ensures SolvedBy(axis, level, v0, ts[j - 1])
    {
      LeadsAt(axis, level, v0, ts, j - 1);
    }

    /** At the last level the squares the solver may still write are those of the level's own run. */
    lemma LastRun(axis: Axis, level: nat, q: Pos)
      requires level == |Locations(axis)| - 1
      ensures InRunFrom(axis, level, q) <==> q in LevelRun(axis, level)
    {
      if InRunFrom(axis, level, q) {
        var k :| level <= k < |Locations(axis)| && q in Run(layout, axis, Locations(axis)[k]);
        assert k == level;
      }
    }

    /** A square of a run from `level` on belongs to the level's own run or to a run from the next level on. */
    lemma RunFromSplit(axis: Axis, level: nat, q: Pos)
      requires level < |Locations(axis)|
      ensures InRunFrom(axis, level, q) <==> q in LevelRun(axis, level) || InRunFrom(axis, level + 1, q)
    {
      var locs := Locations(axis);
      if InRunFrom(axis, level, q) && q !in LevelRun(axis, level) {
        var k :| level <= k < |locs| && q in Run(layout, axis, locs[k]);
        assert level + 1 <= k < |locs| && q in Run(layout, axis, locs[k]);
      }
      if q in LevelRun(axis, level) {
        assert level <= level < |locs| && q in Run(layout, axis, locs[level]);
      }
      if InRunFrom(axis, level + 1, q) {
        var k :| level + 1 <= k < |locs| && q in Run(layout, axis, locs[k]);
        assert level <= k < |locs| && q in Run(layout, axis, locs[k]);
      }
    }

    /**
      Whether a tuple leads to a solution depends only on the squares off the
      runs from `level` on, as long as the crossing checks of those levels
      read no square of a later level.
     */
    lemma {:induction false} SolvedByOff(axis: Axis, level: nat, v1: Values, v2: Values, t: seq<int>)
      requires level < |Locations(axis)| && AllChecksBehind(axis, level)
      requires Shaped(v1, layout.width, layout.height) && Shaped(v2, layout.width, layout.height)
      requires forall p :: !InRunFrom(axis, level, p) ==> ValueAt(v1, p) == ValueAt(v2, p)
      ensures SolvedBy(axis, level, v1, t) == SolvedBy(axis, level, v2, t)
      decreases |Locations(axis)| - level, 0
    {
      var r := LevelRun(axis, level);
      if |t| == |r| {
        OverwriteSame(v1, v2, r, t, layout.width, layout.height);
        var o1 := Overwrite(v1, r, t);
        var o2 := Overwrite(v2, r, t);
        if level == |Locations(axis)| - 1 {
          forall q
            ensures ValueAt(o1, q) == ValueAt(o2, q)
          {
            LastRun(axis, level, q);
          }
          SameValues(o1, o2, layout.width, layout.height);
        } else {
          forall q | !InRunFrom(axis, level + 1, q)
            ensures ValueAt(o1, q) == ValueAt(o2, q)
          {
            RunFromSplit(axis, level, q);
          }
          var c := Locations(axis)[level];
          if RunReady(layout, axis, c) {
            assert ChecksBehind(axis, level);
            CrossingsAgree(layout, o1, o2, axis, c, |t|);
          }
          LeadsOff(axis, level + 1, o1, o2, Candidates(axis, level + 1));
          assert Fails(axis, level + 1, o1) == Fails(axis, level + 1, o2);
        }
      }
    }

    /** The same for the verdicts on every tuple of ts. */
    lemma LeadsOff(axis: Axis, level: nat, v1: Values, v2: Values, ts: seq<seq<int>>)
      requires level < |Locations(axis)| && AllChecksBehind(axis, level)
      requires Shaped(v1, layout.width, layout.height) && Shaped(v2, layout.width, layout.height)
      requires forall p :: !InRunFrom(axis, level, p) ==> ValueAt(v1, p) == ValueAt(v2, p)
      ensures Leads(axis, level, v1, ts) == Leads(axis, level, v2, ts)
      decreases |Locations(axis)| - level, 1
    {
      forall i | 0 <= i < |ts|
        ensures SolvedBy(axis, level, v1, ts[i]) == SolvedBy(axis, level, v2, ts[i])
      {
        SolvedByOff(axis, level, v1, v2, ts[i]);
      }
    }

    /**
      `SolveCombinationsUsingXAxisRun` / `...YAxisRun` at `level`: generate
      the tuples of the level's clue, then try them in the generator's order
      until the board is solved; `tried` counts the tuples tried. When the
      board was solved on entry nothing is tried and nothing changes.
      Otherwise every tuple is tried unless one solves the board, and the last
      tuple tried stays written on the run. The search is exhaustive: when the
      crossing checks of the levels from here on read no square of a later
      level (always so at the last level, and on every loaded board), the board
      ends solved exactly when the search from this level does not fail, and
      the tuple that solves it is the first one that leads to a solution. Only
      squares of this level's run and later ones are ever written, and at the
      last level the counter grows exactly when the board becomes solved.
     */
    method Solve(axis: Axis, level: nat) returns (ghost tried: nat)
      requires Valid() && Crossable(axis) && level < |Locations(axis)|
      modifies this, Cells(data)
      ensures Valid()
      ensures old(isSolved) ==> isSolved && combinationsTraversed == old(combinationsTraversed) && values == old(values)
      ensures isSolved && !old(isSolved) ==> AllSatisfied(values)
      ensures forall p :: !InRunFrom(axis, level, p) ==> ValueAt(values, p) == ValueAt(old(values), p)
      ensures combinationsTraversed >= old(combinationsTraversed)
      ensures level == |Locations(axis)| - 1 ==>
        combinationsTraversed == old(combinationsTraversed) + (if isSolved && !old(isSolved) then 1 else 0)
      ensures tried <= |Candidates(axis, level)|
      ensures old(isSolved) ==> tried == 0
      ensures !old(isSolved) && !isSolved ==> tried == |Candidates(axis, level)|
      ensures !old(isSolved) && isSolved ==> tried > 0
      ensures !old(isSolved) && tried > 0 ==> Holds(values, LevelRun(axis, level), Candidates(axis, level)[tried - 1])
      ensures AllChecksBehind(axis, level) && !old(isSolved) ==> (isSolved <==> !Fails(axis, level, old(values)))
      ensures AllChecksBehind(axis, level) && !old(isSolved) && isSolved ==>
        && NoneSolvesFirst(axis, level, old(values), Candidates(axis, level), tried - 1)
        && SolvedBy(axis, level, old(values), Candidates(axis, level)[tried - 1])
      decreases |Locations(axis)| - level, 5
    {
      var clue := Locations(axis)[level];
      var combinations := GetCombinations(axis, clue.0, clue.1);
      assert combinations == Candidates(axis, level);
      tried := TryCombinations(axis, level, combinations);
      if AllChecksBehind(axis, level) && !old(isSolved) && isSolved {
        FirstLeads(axis, level, old(values), combinations, tried);
        NoneSolvesFirstAll(axis, level, old(values), combinations, |combinations|);
      }
    }

    /** The loop of `Solve`: the tuples `combinations` of the level's clue, tried in order. */
    method TryCombinations(axis: Axis, level: nat, combinations: seq<seq<int>>) returns (ghost tried: nat)
      requires Valid() && Crossable(axis) && level < |Locations(axis)|
      requires combinations == Candidates(axis, level)
      modifies this, Cells(data)
      ensures Valid()
      ensures old(isSolved) ==> isSolved && combinationsTraversed == old(combinationsTraversed) && values == old(values)
      ensures old(isSolved) ==> tried == 0
      ensures !old(isSolved) && !isSolved ==> tried == |combinations|
      ensures !old(isSolved) ==> Searched(axis, level, combinations, tried, old(values), old(combinationsTraversed), values, isSolved, combinationsTraversed)
      decreases |Locations(axis)| - level, 4
    {
      if isSolved {
        return 0;
      }
      ghost var v0, n0 := values, combinationsTraversed;
      assert Searched(axis, level, combinations, 0, v0, n0, values, isSolved, combinationsTraversed);
      var j := 0;
      while j < |combinations| && !isSolved
        invariant 0 <= j <= |combinations|
        invariant Valid() && Shaped(v0, layout.width, layout.height)
        invariant Searched(axis, level, combinations, j, v0, n0, values, isSolved, combinationsTraversed)
        decreases |combinations| - j
      {
        TryNext(axis, level, combinations, j, v0, n0);
        j := j + 1;
      }
      tried := j;
    }

    /**
      What the loop of `Solve` knows after trying the first j tuples of ts,
      started from the digits v0 and the counter n0: a solution is on the board
      only when one was found; the last tuple tried is on the level's run; no
      square outside the runs from `level` on has changed; at the last level the
      counter went up only for the solution; and, when the crossing checks from
      `level` on look only behind them, the solution is the first tuple of ts
      that leads to one over v0.
     */
    ghost predicate Searched(axis: Axis, level: nat, ts: seq<seq<int>>, j: nat, v0: Values, n0: int, v: Values, solved: bool, n: int)
      requires level < |Locations(axis)|
    {
      && j <= |ts|
      && (solved ==> j > 0 && AllSatisfied(v))
      && (j > 0 ==> Holds(v, LevelRun(axis, level), ts[j - 1]))
      && (forall p :: !InRunFrom(axis, level, p) ==> ValueAt(v, p) == ValueAt(v0, p))
      && n >= n0
      && (level == |Locations(axis)| - 1 ==> n == n0 + (if solved then 1 else 0))
      && (AllChecksBehind(axis, level) ==> NoneSolvesFirst(axis, level, v0, ts, if solved && j > 0 then j - 1 else j))
      && (AllChecksBehind(axis, level) && solved ==> !NoneSolvesFirst(axis, level, v0, ts, j))
    }

    /** One turn of the loop of `Solve`: the tuple ts[j] is tried, and what the loop knows moves on by one tuple. */
    method TryNext(axis: Axis, level: nat, ts: seq<seq<int>>, j: nat, ghost v0: Values, ghost n0: int)
      requires Valid() && Crossable(axis) && level < |Locations(axis)| && ts == Candidates(axis, level)
      requires j < |ts| && !isSolved && Shaped(v0, layout.width, layout.height) && Searched(axis, level, ts, j, v0, n0, values, isSolved, combinationsTraversed)
      modifies this, Cells(data)
      ensures Valid() && Searched(axis, level, ts, j + 1, v0, n0, values, isSolved, combinationsTraversed)
      decreases |Locations(axis)| - level, 3
    {
      ghost var before := values;
      TryCombination(axis, level, ts[j]);
      if AllChecksBehind(axis, level) {
        SolvedByOff(axis, level, v0, before, ts[j]);
        NoneSolvesStep(axis, level, v0, ts, j);
      }
    }

    /**
      One pass of the solver's loop with the tuple `combination` of the level's
      clue: write it onto the clue's run, then judge the board.
     */
    method TryCombination(axis: Axis, level: nat, combination: seq<int>)
      requires Valid() && Crossable(axis) && level < |Locations(axis)| && !isSolved
      requires combination in Combinations.Combinations(
        Letters(layout, Run(layout, axis, Locations(axis)[level])), [], ClueSum(layout, axis, Locations(axis)[level]))
      modifies this, Cells(data)
      ensures Valid()
      ensures isSolved ==> AllSatisfied(values)
      ensures Holds(values, LevelRun(axis, level), combination)
      ensures forall p :: !InRunFrom(axis, level, p) ==> ValueAt(values, p) == ValueAt(old(values), p)
      ensures combinationsTraversed >= old(combinationsTraversed)
      ensures level == |Locations(axis)| - 1 ==> (isSolved <==> AllSatisfied(values))
      ensures AllChecksBehind(axis, level) ==> (isSolved <==> SolvedBy(axis, level, old(values), combination))
      ensures level == |Locations(axis)| - 1 ==>
        combinationsTraversed == old(combinationsTraversed) + (if isSolved then 1 else 0)
      decreases |Locations(axis)| - level, 2
    {
      var clue := Locations(axis)[level];
      CombinationFits(layout, axis, clue, combination);
      WriteCombination(axis, clue, combination);
      ghost var written := values;
      SolvedByWritten(axis, level, old(values), written, combination);
      Judge(axis, level, |combination|);
      RunKept(axis, level, written, values, combination);
    }

    /**
      The rest of a pass, once the tuple is on the board: at the last level
      run `CheckAll`, counting the tuple only when it succeeds; elsewhere run
      the crossing checks over the `count` squares of the run, recurse when
      they pass, and count the tuple.
     */
    method Judge(axis: Axis, level: nat, count: int)
      requires Valid() && Crossable(axis) && level < |Locations(axis)| && !isSolved
      requires count == |Run(layout, axis, Locations(axis)[level])|
      modifies this, Cells(data)
      ensures Valid()
      ensures isSolved ==> AllSatisfied(values)
      ensures forall p :: !InRunFrom(axis, level + 1, p) ==> ValueAt(values, p) == ValueAt(old(values), p)
      ensures combinationsTraversed >= old(combinationsTraversed)
      ensures level == |Locations(axis)| - 1 ==> values == old(values) && (isSolved <==> AllSatisfied(values))
      ensures level == |Locations(axis)| - 1 ==>
        combinationsTraversed == old(combinationsTraversed) + (if isSolved then 1 else 0)
      ensures level < |Locations(axis)| - 1 ==> combinationsTraversed > old(combinationsTraversed)
      ensures level < |Locations(axis)| - 1 && !CrossingsOk(layout, old(values), axis, Locations(axis)[level], count) ==>
        values == old(values) && !isSolved && combinationsTraversed == old(combinationsTraversed) + 1
      ensures level < |Locations(axis)| - 1 && AllChecksBehind(axis, level + 1) ==>
        (isSolved <==> CrossingsOk(layout, old(values), axis, Locations(axis)[level], count) && !Fails(axis, level + 1, old(values)))
      decreases |Locations(axis)| - level, 1
    {
      if level >= |Locations(axis)| - 1 {
        var solved := CheckAll();
        if solved {
          isSolved := true;
        } else {
          return;
        }
      } else {
        Descend(axis, level, count);
      }
      combinationsTraversed := combinationsTraversed + 1;
    }

    /**
      Below the last level: the crossing checks over the `count` squares of
      the level's run, and the next level when they all pass.
     */
    method Descend(axis: Axis, level: nat, count: int)
      requires Valid() && Crossable(axis) && level + 1 < |Locations(axis)| && !isSolved
      requires count == |Run(layout, axis, Locations(axis)[level])|
      modifies this, Cells(data)
      ensures Valid()
      ensures isSolved ==> AllSatisfied(values)
      ensures forall p :: !InRunFrom(axis, level + 1, p) ==> ValueAt(values, p) == ValueAt(old(values), p)
      ensures combinationsTraversed >= old(combinationsTraversed)
      ensures !CrossingsOk(layout, old(values), axis, Locations(axis)[level], count) ==>
        values == old(values) && isSolved == old(isSolved) && combinationsTraversed == old(combinationsTraversed)
      ensures CrossingsOk(layout, old(values), axis, Locations(axis)[level], count) && Candidates(axis, level + 1) != [] ==>
        SomeHeld(axis, level + 1, values)
      ensures AllChecksBehind(axis, level + 1) ==>
        (isSolved <==> CrossingsOk(layout, old(values), axis, Locations(axis)[level], count) && !Fails(axis, level + 1, old(values)))
      decreases |Locations(axis)| - level, 0
    {
      var pass := CrossChecks(axis, Locations(axis)[level], count);
      if pass {
        ghost var tried := Solve(axis, level + 1);
        if Candidates(axis, level + 1) != [] {
          assert Candidates(axis, level + 1)[tried - 1] in Candidates(axis, level + 1);
        }
      }
    }

    /**
      The inner loop of `GetAverageCombinationScoreX/Y` for the clue c: the
      weights of the fillable squares after c, in tenths, up to the first
      square that is not fillable or the edge of the board.
     */
    method RunScore(axis: Axis, c: Pos) returns (score: int)
      requires Linked() && InGrid(layout, Step(axis, true, c))
      ensures score == Weights(layout, Run(layout, axis, c))
    {
      ghost var w := Run(layout, axis, c);
      ghost var k := 0;
      score := 0;
      var i := 1;
      var p := Step(axis, true, c);
      while IsFillable(KindOf(p))
        invariant 0 <= k <= |w| && i == k + 1 && p == Advance(axis, true, c, k + 1) && InGrid(layout, p)
        invariant score == Weights(layout, w[..k])
        decreases |w| - k
      {
        WeighStep(layout, axis, c, k);
        score := score + Weight(KindOf(p));
        i := i + 1;
        p := Step(axis, true, p);
        k := k + 1;
        if !Within(data.Length0, data.Length1, axis, true, p) {
          break;
        }
      }
      RunStep(layout, axis, c, k);
      assert k == |w|;
      assert w[..k] == w;
    }

    /** `GetAverageCombinationScoreX/Y` before the division: the total weight of the axis's runs, in tenths. */
    method CombinationScore(axis: Axis) returns (score: int)
      requires Linked()
      requires forall k :: 0 <= k < |Locations(axis)| ==> InGrid(layout, Step(axis, true, Locations(axis)[k]))
      ensures score == RunWeights(layout, axis, Locations(axis))
    {
      var locs := Locations(axis);
      score := 0;
      for k := 0 to |locs|
        invariant score == RunWeights(layout, axis, locs[..k])
      {
        var s := RunScore(axis, locs[k]);
        RunWeightsStep(layout, axis, locs, k);
        score := score + s;
      }
      assert locs[..|locs|] == locs;
    }

    /** The axis the solver will take, as `SolveCombinations` computes it. */
    ghost function ChosenAxis(): Axis {
      ChooseAxis(RunWeights(layout, X, Locations(X)), |Locations(X)|, RunWeights(layout, Y, Locations(Y)), |Locations(Y)|)
    }

    /**
      `SolveCombinations`: score both axes, then run the solver from level 0
      along the axis whose clues have the lower average run weight (X on a tie).
      When the crossing checks look only behind them, as they do on every
      loaded board (`LoadedChecksBehind`), the board ends solved exactly when
      the search from level 0 does not fail.
     */
    method SolveCombinations()
      requires Valid() && Crossable(ChosenAxis()) && |Locations(X)| > 0
      requires forall k :: 0 <= k < |Locations(X)| ==> InGrid(layout, Step(X, true, Locations(X)[k]))
      requires forall k :: 0 <= k < |Locations(Y)| ==> InGrid(layout, Step(Y, true, Locations(Y)[k]))
      modifies this, Cells(data)
      ensures Valid()
      ensures old(isSolved) ==> isSolved && combinationsTraversed == old(combinationsTraversed)
      ensures isSolved && !old(isSolved) ==> AllSatisfied(values)
      ensures forall p :: !InRunFrom(ChosenAxis(), 0, p) ==> ValueAt(values, p) == ValueAt(old(values), p)
      ensures combinationsTraversed >= old(combinationsTraversed)
      ensures !old(isSolved) && Candidates(ChosenAxis(), 0) != [] ==>
        SomeHeld(ChosenAxis(), 0, values)
      ensures AllChecksBehind(ChosenAxis(), 0) && !old(isSolved) ==> (isSolved <==> !Fails(ChosenAxis(), 0, old(values)))
    {
      var scoreX := CombinationScore(X);
      var scoreY := CombinationScore(Y);
      var axis := ChooseAxis(scoreX, |locationsRS|, scoreY, |locationsLS|);
      ghost var tried := Solve(axis, 0);
      if !old(isSolved) && tried > 0 {
        assert Candidates(axis, 0)[tried - 1] in Candidates(axis, 0);
      }
    }
  }
}
