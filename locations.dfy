/**
  The three position lists of a board (`LocationsRS`, `LocationsLS`,
  `LocationsEOP` in Kakuro.cs). The reader of the board file appends a
  position whenever it creates a square of the right sort, reading rows
  top-down (y from Height-1 to 0) and each row left to right; afterwards the
  lists are reordered once, and the solver indexes them by recursion level.
 */
module Locations {
  import opened Containers
  import opened Grid

  /** Which squares a list collects. */
  datatype Selector =
    | RightClue       // LocationsRS: clue squares with a rightward sum ("RS" and "LRS" entries)
    | DownClue        // LocationsLS: clue squares with a downward sum ("LS" and "LRS" entries)
    | FillableSquare  // LocationsEOP: Even, Odd and Parity squares

  predicate Selects(s: Selector, c: Square) {
    match s
    case RightClue => c.kind == Sum && c.sumRight.Some?
    case DownClue => c.kind == Sum && c.sumLeft.Some?
    case FillableSquare => IsFillable(c.kind)
  }

  /** The squares of row y left of column n that s selects, left to right. */
  function RowPrefix(l: Layout, s: Selector, y: int, n: int): seq<Pos>
    requires 0 <= y < l.height && 0 <= n <= l.width
    decreases n
  {
    if n == 0 then []
    else RowPrefix(l, s, y, n - 1) + (if Selects(s, At(l, (n - 1, y))) then [(n - 1, y)] else [])
  }

  /** A row prefix holds exactly the selected squares left of column n, left to right. */
  lemma {:induction false} RowPrefixSpec(l: Layout, s: Selector, y: int, n: int)
    requires 0 <= y < l.height && 0 <= n <= l.width
    ensures forall p :: p in RowPrefix(l, s, y, n) <==> 0 <= p.0 < n && p.1 == y && Selects(s, At(l, p))
    ensures forall i, j :: 0 <= i < j < |RowPrefix(l, s, y, n)| ==> RowPrefix(l, s, y, n)[i].0 < RowPrefix(l, s, y, n)[j].0
    decreases n
  {
    if n > 0 {
      RowPrefixSpec(l, s, y, n - 1);
      var a := RowPrefix(l, s, y, n - 1);
      var r := RowPrefix(l, s, y, n);
      forall i, j | 0 <= i < j < |r|
        ensures r[i].0 < r[j].0
      {
        if j < |a| {
          assert r[i] == a[i] && r[j] == a[j];
        } else {
          assert r[i] == a[i] && a[i] in a;
        }
      }
    }
  }

  /** p is read from the board file before q: on a higher row, or further left on the same row. */
  predicate ReadBefore(p: Pos, q: Pos) {
    p.1 > q.1 || (p.1 == q.1 && p.0 < q.0)
  }

  predicate InReadingOrder(s: seq<Pos>) {
    forall i, j :: 0 <= i < j < |s| ==> ReadBefore(s[i], s[j])
  }

  /** What the reader has collected after the first k rows of the file (rows Height-1 down to Height-k). */
  function ScanRows(l: Layout, s: Selector, k: int): (r: seq<Pos>)
    requires 0 <= k <= l.height
    decreases k
  {
    if k == 0 then [] else ScanRows(l, s, k - 1) + RowPrefix(l, s, l.height - k, l.width)
  }

  /** The list in the order the reader appends to it. */
  function FileOrder(l: Layout, s: Selector): seq<Pos>
  {
    ScanRows(l, s, l.height)
  }

  /** The rows read so far hold exactly the selected squares of those rows, each once, in reading order. */
  lemma {:induction false} ScanRowsSpec(l: Layout, s: Selector, k: int)
    requires 0 <= k <= l.height
    ensures forall p :: p in ScanRows(l, s, k) <==>
      0 <= p.0 < l.width && l.height - k <= p.1 < l.height && Selects(s, At(l, p))
    ensures InReadingOrder(ScanRows(l, s, k))
    decreases k
  {
    if k > 0 {
      ScanRowsSpec(l, s, k - 1);
      RowPrefixSpec(l, s, l.height - k, l.width);
      var a := ScanRows(l, s, k - 1);
      var b := RowPrefix(l, s, l.height - k, l.width);
      assert ScanRows(l, s, k) == a + b;
      forall p: Pos
        ensures p in a + b <==> 0 <= p.0 < l.width && l.height - k <= p.1 < l.height && Selects(s, At(l, p))
      {
        assert p in a + b <==> p in a || p in b;
      }
      ConcatInOrder(a, b, l.height - k);
    }
  }

  /** Rows above row y, read in order, followed by row y read left to right, are still in reading order. */
  lemma ConcatInOrder(a: seq<Pos>, b: seq<Pos>, y: int)
    requires InReadingOrder(a) && (forall p :: p in a ==> p.1 > y)
    requires forall p :: p in b ==> p.1 == y
    requires forall i, j :: 0 <= i < j < |b| ==> b[i].0 < b[j].0
    ensures InReadingOrder(a + b)
  {
    forall i, j | 0 <= i < j < |a + b|
      ensures ReadBefore((a + b)[i], (a + b)[j])
    {
      if j < |a| {
        assert (a + b)[i] == a[i] && (a + b)[j] == a[j];
      } else if i >= |a| {
        assert (a + b)[i] == b[i - |a|] && (a + b)[j] == b[j - |a|];
        assert b[i - |a|] in b && b[j - |a|] in b;
      } else {
        assert (a + b)[i] == a[i] && a[i] in a;
        assert (a + b)[j] == b[j - |a|] && b[j - |a|] in b;
      }
    }
  }

  /** The whole file: the list holds exactly the board's selected squares, in strict reading order. */
  lemma FileOrderSpec(l: Layout, s: Selector)
    ensures forall p :: p in FileOrder(l, s) <==> InGrid(l, p) && Selects(s, At(l, p))
    ensures InReadingOrder(FileOrder(l, s))
  {
    ScanRowsSpec(l, s, l.height);
  }

  /** `ArrayList.Reverse`. */
  function Reversed<T>(s: seq<T>): (r: seq<T>)
    ensures |r| == |s|
    ensures forall i :: 0 <= i < |s| ==> r[i] == s[|s| - 1 - i]
  {
    if s == [] then [] else Reversed(s[1..]) + [s[0]]
  }

  /** The order `ArrayList.Sort` puts (int, int) tuples in: by x, then by y. */
  predicate ColumnLeq(p: Pos, q: Pos) {
    p.0 < q.0 || (p.0 == q.0 && p.1 <= q.1)
  }

  predicate SortedByColumn(s: seq<Pos>) {
    forall i, j :: 0 <= i < j < |s| ==> ColumnLeq(s[i], s[j])
  }

  /** Strictly descending by column, then by row: the order of LocationsLS. */
  predicate ColumnsDescending(s: seq<Pos>) {
    forall i, j :: 0 <= i < j < |s| ==> s[i].0 > s[j].0 || (s[i].0 == s[j].0 && s[i].1 > s[j].1)
  }

  predicate NoRepeats(s: seq<Pos>) {
    forall i, j :: 0 <= i < j < |s| ==> s[i] != s[j]
  }

  /** Inserts p into an ordered list, keeping it ordered. */
  function Insert(s: seq<Pos>, p: Pos): (r: seq<Pos>)
    requires SortedByColumn(s)
    ensures SortedByColumn(r)
    ensures multiset(r) == multiset(s) + multiset{p}
    ensures NoRepeats(s) && p !in s ==> NoRepeats(r)
  {
    if s == [] then [p]
    else if ColumnLeq(p, s[0]) then [p] + s
    else
      var rest := Insert(s[1..], p);
      InsertBehind(s, p, rest);
      [s[0]] + rest
  }

  /** The step of Insert that keeps the head of the list in front. */
  lemma InsertBehind(s: seq<Pos>, p: Pos, rest: seq<Pos>)
    requires s != [] && SortedByColumn(s) && !ColumnLeq(p, s[0])
    requires SortedByColumn(rest) && multiset(rest) == multiset(s[1..]) + multiset{p}
    requires NoRepeats(s[1..]) && p !in s[1..] ==> NoRepeats(rest)
    ensures SortedByColumn([s[0]] + rest)
    ensures multiset([s[0]] + rest) == multiset(s) + multiset{p}
    ensures NoRepeats(s) && p !in s ==> NoRepeats([s[0]] + rest)
  {
    assert s == [s[0]] + s[1..];
    forall q | q in rest
      ensures ColumnLeq(s[0], q) && (NoRepeats(s) && p !in s ==> q != s[0])
    {
      assert q in multiset(rest);
      if q != p {
        assert q in multiset(s[1..]);
        var k :| 0 <= k < |s[1..]| && s[1..][k] == q;
        assert s[k + 1] == q;
      }
    }
    var r := [s[0]] + rest;
    forall i, j | 0 <= i < j < |r|
      ensures ColumnLeq(r[i], r[j])
    {
      if i > 0 {
        assert r[i] == rest[i - 1] && r[j] == rest[j - 1];
      } else {
        assert r[j] == rest[j - 1] && rest[j - 1] in rest;
      }
    }
    if NoRepeats(s) && p !in s {
      assert NoRepeats(s[1..]) && p !in s[1..];
      forall i, j | 0 <= i < j < |r|
        ensures r[i] != r[j]
      {
        if i > 0 {
          assert r[i] == rest[i - 1] && r[j] == rest[j - 1];
        } else {
          assert r[j] == rest[j - 1] && rest[j - 1] in rest;
        }
      }
    }
  }

  /**
    `ArrayList.Sort` on the LocationsLS tuples, written as an insertion sort;
    the source's list holds no position twice, and on such a list every
    sorting algorithm gives this same result.
   */
  function SortByColumn(s: seq<Pos>): (r: seq<Pos>)
    ensures SortedByColumn(r)
    ensures multiset(r) == multiset(s)
    ensures NoRepeats(s) ==> NoRepeats(r)
  {
    if s == [] then []
    else
      var rest := SortByColumn(s[1..]);
      InsertFront(s, rest);
      Insert(rest, s[0])
  }

  /** Inserting the head of s into a sorted copy of its tail sorts a copy of s, repeating nothing when s repeats nothing. */
  lemma InsertFront(s: seq<Pos>, rest: seq<Pos>)
    requires s != [] && SortedByColumn(rest) && multiset(rest) == multiset(s[1..])
    requires NoRepeats(s[1..]) ==> NoRepeats(rest)
    ensures multiset(Insert(rest, s[0])) == multiset(s)
    ensures NoRepeats(s) ==> NoRepeats(Insert(rest, s[0]))
  {
    assert s == [s[0]] + s[1..];
    assert NoRepeats(s) ==> s[0] !in multiset(rest);
  }

}
