/**
  The combination generator of Kakuro.cs (`CartesianProduct` and
  `CheckRepetionsArray`): every digit tuple that fits a run's kinds, avoids the
  excluded digits, repeats no digit and adds up to the target.

  The generator works level by level: the partial tuples of length i are
  extended by every digit of the (i+1)-th kind's domain, in ascending order,
  and an extension survives when its new digit is not excluded, its digits are
  distinct, and its sum is below the target (or equal to it at the last level).
  `Stage` is that level-by-level computation as a function; `CartesianProduct`
  is the source's loop, proved equal to it; the lemmas characterise the result
  exactly (`CombinationsExact`) and fix its order (`CombinationsSorted`).
 */
module Combinations {
  import opened Optional

  /** The letters of a kind string: E(ven), O(dd) and P(arity, any digit). */
  datatype Letter = E | O | P

  /** The digit arrays `EOP[0..2]` the generator draws from, in their source order. */
  function Digits(k: Letter): (ds: seq<int>)
    ensures forall i :: 0 <= i < |ds| ==> 1 <= ds[i] <= 9
    ensures forall d :: d in ds <==>
      match k
      case E => d in {2, 4, 6, 8}
      case O => d in {1, 3, 5, 7, 9}
      case P => 1 <= d <= 9
  {
    match k
    case E => [2, 4, 6, 8]
    case O => [1, 3, 5, 7, 9]
    case P => [1, 2, 3, 4, 5, 6, 7, 8, 9]
  }

  /** Each digit array is in ascending order. */
  lemma DigitsAscending(k: Letter)
    ensures forall i, j :: 0 <= i < j < |Digits(k)| ==> Digits(k)[i] < Digits(k)[j]
  {
  }

  function Sum(s: seq<int>): int {
    if s == [] then 0 else s[0] + Sum(s[1..])
  }

  lemma {:induction false} SumAppend(a: seq<int>, b: seq<int>)
    ensures Sum(a + b) == Sum(a) + Sum(b)
  {
    if a == [] {
      assert a + b == b;
    } else {
      assert (a + b)[1..] == a[1..] + b;
      SumAppend(a[1..], b);
    }
  }

  predicate Distinct(s: seq<int>) {
    forall i, j :: 0 <= i < j < |s| ==> s[i] != s[j]
  }

  /** A digit already present makes the extended sequence repeat a digit. */
  lemma RepeatBreaksDistinct(s: seq<int>, v: int, rest: seq<int>)
    requires v in s
    ensures !Distinct(s + [v] + rest)
  {
    var i :| 0 <= i < |s| && s[i] == v;
    assert (s + [v] + rest)[i] == v == (s + [v] + rest)[|s|];
  }

  /** `CheckRepetionsArray`: true iff no value occurs twice (the dictionary is a set here). */
  method CheckRepetionsArray(a: seq<int>) returns (ok: bool)
    ensures ok <==> Distinct(a)
  {
    var seen: set<int> := {};
    for i := 0 to |a|
      invariant seen == set j | 0 <= j < i :: a[j]
      invariant Distinct(a[..i])
    {
      if a[i] in seen {
        assert a[..i + 1] + a[i + 1..] == a;
        RepeatBreaksDistinct(a[..i], a[i], a[i + 1..]);
        return false;
      }
      seen := seen + {a[i]};
    }
    assert a[..|a|] == a;
    return true;
  }

  /** The inner `for` over `excludeNumbers`: is d one of the excluded digits? */
  method IsExcluded(exclude: seq<int>, d: int) returns (used: bool)
    ensures used <==> d in exclude
  {
    used := false;
    for k := 0 to |exclude|
      invariant !used && d !in exclude[..k]
    {
      if d == exclude[k] {
        used := true;
        break;
      }
    }
    if !used {
      assert exclude[..|exclude|] == exclude;
    }
  }

  /** The running-sum loop of the generator. */
  method SumOf(c: seq<int>) returns (sum: int)
    ensures sum == Sum(c)
  {
    sum := 0;
    for j := 0 to |c|
      invariant sum == Sum(c[..j])
    {
      assert c[..j + 1] == c[..j] + [c[j]];
      SumAppend(c[..j], [c[j]]);
      sum := sum + c[j];
    }
    assert c[..|c|] == c;
  }

  /**
    The test a freshly extended partial tuple c must pass to be kept: its new
    digit is not excluded, it repeats no digit, and its sum is below the target
    (at the last level: equal to it). A null target keeps nothing.
   */
  predicate Keep(c: seq<int>, exclude: seq<int>, target: Option<int>, last: bool)
    requires |c| > 0
  {
    && c[|c| - 1] !in exclude
    && Distinct(c)
    && if last then target == Some(Sum(c)) else target.Some? && Sum(c) < target.value
  }

  /** The kept extensions of one partial tuple p by the digits ds, in the order of ds. */
  function ExtendOne(p: seq<int>, ds: seq<int>, exclude: seq<int>, target: Option<int>, last: bool): seq<seq<int>>
    decreases |ds|
  {
    if ds == [] then []
    else
      var c := p + [ds[|ds| - 1]];
      ExtendOne(p, ds[..|ds| - 1], exclude, target, last) + (if Keep(c, exclude, target, last) then [c] else [])
  }

  /** One level of the generator: every partial tuple of `olds`, in order, extended by ds. */
  function ExtendAll(olds: seq<seq<int>>, ds: seq<int>, exclude: seq<int>, target: Option<int>, last: bool): seq<seq<int>>
    decreases |olds|
  {
    if olds == [] then []
    else ExtendAll(olds[..|olds| - 1], ds, exclude, target, last) + ExtendOne(olds[|olds| - 1], ds, exclude, target, last)
  }

  /** The partial tuples that survive the first n levels. */
  function Stage(types: seq<Letter>, exclude: seq<int>, target: Option<int>, n: nat): seq<seq<int>>
    requires n <= |types|
  {
    if n == 0 then [[]]
    else ExtendAll(Stage(types, exclude, target, n - 1), Digits(types[n - 1]), exclude, target, n == |types|)
  }

  /** What `CartesianProduct(types, exclude, target)` returns. */
  function Combinations(types: seq<Letter>, exclude: seq<int>, target: Option<int>): seq<seq<int>> {
    if |types| == 0 then [] else Stage(types, exclude, target, |types|)
  }

  /**
    A tuple the generator is meant to produce: one digit per kind, each from its
    kind's domain, none excluded, no digit twice, and the digits add up to target.
   */
  ghost predicate IsCombination(c: seq<int>, types: seq<Letter>, exclude: seq<int>, target: Option<int>) {
    && |types| > 0
    && |c| == |types|
    && (forall i :: 0 <= i < |c| ==> c[i] in Digits(types[i]))
    && (forall i :: 0 <= i < |c| ==> c[i] !in exclude)
    && Distinct(c)
    && target == Some(Sum(c))
  }

  /** A partial tuple of length n that can still be kept at level n. */
  ghost predicate Viable(c: seq<int>, types: seq<Letter>, exclude: seq<int>, target: Option<int>, n: nat)
    requires n <= |types|
  {
    && |c| == n
    && (forall i :: 0 <= i < n ==> c[i] in Digits(types[i]) && c[i] !in exclude)
    && Distinct(c)
    && if n == |types| then target == Some(Sum(c)) else target.Some? && Sum(c) < target.value
  }

  lemma {:induction false} ExtendOneMembers(p: seq<int>, ds: seq<int>, exclude: seq<int>, target: Option<int>, last: bool, c: seq<int>)
    ensures c in ExtendOne(p, ds, exclude, target, last) <==>
      |c| == |p| + 1 && c[..|p|] == p && c[|p|] in ds && Keep(c, exclude, target, last)
  {
    if ds != [] {
      var d := ds[|ds| - 1];
      var front := ds[..|ds| - 1];
      assert ds == front + [d];
      ExtendOneMembers(p, front, exclude, target, last, c);
      if |c| == |p| + 1 && c[..|p|] == p {
        assert c == p + [c[|p|]];
      }
    }
  }

  lemma {:induction false} ExtendAllMembers(olds: seq<seq<int>>, ds: seq<int>, exclude: seq<int>, target: Option<int>, last: bool, c: seq<int>)
    ensures c in ExtendAll(olds, ds, exclude, target, last) <==>
      |c| > 0 && c[..|c| - 1] in olds && c[|c| - 1] in ds && Keep(c, exclude, target, last)
  {
    if olds != [] {
      var front := olds[..|olds| - 1];
      var p := olds[|olds| - 1];
      assert olds == front + [p];
      ExtendAllMembers(front, ds, exclude, target, last, c);
      ExtendOneMembers(p, ds, exclude, target, last, c);
      if |c| > 0 {
        var q := c[..|c| - 1];
        assert q in olds <==> q in front || q == p;
        assert q == p <==> |c| == |p| + 1 && c[..|p|] == p;
      }
    }
  }

  /** A kept extension of a viable partial tuple is viable one level further. */
  lemma ViableExtend(types: seq<Letter>, exclude: seq<int>, target: Option<int>, n: nat, c: seq<int>)
    requires 1 <= n <= |types|
    requires n == 1 ==> |c| == 1
    requires n > 1 ==> |c| > 0 && Viable(c[..|c| - 1], types, exclude, target, n - 1)
    requires c[|c| - 1] in Digits(types[n - 1])
    requires Keep(c, exclude, target, n == |types|)
    ensures Viable(c, types, exclude, target, n)
  {
    var p := c[..|c| - 1];
    assert |p| == n - 1;
    forall i | 0 <= i < n
      ensures c[i] in Digits(types[i]) && c[i] !in exclude
    {
      if i < n - 1 {
        assert c[i] == p[i];
      }
    }
  }

  /** The prefix of a viable tuple was viable one level earlier: its sum is still
      below the target because every digit is at least 1. */
  lemma ViablePrefix(types: seq<Letter>, exclude: seq<int>, target: Option<int>, n: nat, c: seq<int>)
    requires 1 <= n <= |types|
    requires Viable(c, types, exclude, target, n)
    ensures c[n - 1] in Digits(types[n - 1])
    ensures Keep(c, exclude, target, n == |types|)
    ensures n == 1 ==> c[..n - 1] == []
    ensures n > 1 ==> Viable(c[..n - 1], types, exclude, target, n - 1)
  {
    var p := c[..n - 1];
    PrefixSumBelow(c, n);
    assert forall i :: 0 <= i < n - 1 ==> p[i] == c[i];
    assert Distinct(p);
  }

  /** Dropping the last digit (at least 1) of a tuple lowers its sum. */
  lemma PrefixSumBelow(c: seq<int>, n: nat)
    requires 1 <= n == |c| && c[n - 1] >= 1
    ensures Sum(c[..n - 1]) < Sum(c)
  {
    assert c == c[..n - 1] + [c[n - 1]];
    SumAppend(c[..n - 1], [c[n - 1]]);
  }

  /** The members of level n are exactly the viable partial tuples of length n. */
  lemma StageMembers(types: seq<Letter>, exclude: seq<int>, target: Option<int>, n: nat, c: seq<int>)
    requires 1 <= n <= |types|
    ensures c in Stage(types, exclude, target, n) <==> Viable(c, types, exclude, target, n)
  {
    StageSound(types, exclude, target, n);
    StageComplete(types, exclude, target, n);
  }

  /** A member of level n is a member of level n - 1 extended by a kept digit of the n-th kind. */
  lemma StageMember(types: seq<Letter>, exclude: seq<int>, target: Option<int>, n: nat, c: seq<int>)
    requires 1 <= n <= |types|
    ensures c in Stage(types, exclude, target, n) <==>
      && |c| > 0
      && c[..|c| - 1] in Stage(types, exclude, target, n - 1)
      && c[|c| - 1] in Digits(types[n - 1])
      && Keep(c, exclude, target, n == |types|)
  {
    ExtendAllMembers(Stage(types, exclude, target, n - 1), Digits(types[n - 1]), exclude, target, n == |types|, c);
  }

  /** Every member of level n is viable. */
  ghost predicate StageViable(types: seq<Letter>, exclude: seq<int>, target: Option<int>, n: nat)
    requires n <= |types|
  {
    forall c :: c in Stage(types, exclude, target, n) ==> Viable(c, types, exclude, target, n)
  }

  /** Every viable partial tuple of length n is a member of level n. */
  ghost predicate ViableStaged(types: seq<Letter>, exclude: seq<int>, target: Option<int>, n: nat)
    requires n <= |types|
  {
    forall c :: Viable(c, types, exclude, target, n) ==> c in Stage(types, exclude, target, n)
  }

  lemma {:induction false} StageSound(types: seq<Letter>, exclude: seq<int>, target: Option<int>, n: nat)
    requires 1 <= n <= |types|
    ensures StageViable(types, exclude, target, n)
  {
    if n > 1 {
      StageSound(types, exclude, target, n - 1);
    }
    forall c | c in Stage(types, exclude, target, n)
      ensures Viable(c, types, exclude, target, n)
    {
      SoundStep(types, exclude, target, n, c);
    }
  }

  /** One level of soundness: a member of level n extends a viable member of level n - 1. */
  lemma SoundStep(types: seq<Letter>, exclude: seq<int>, target: Option<int>, n: nat, c: seq<int>)
    requires 1 <= n <= |types|
    requires n > 1 ==> StageViable(types, exclude, target, n - 1)
    requires c in Stage(types, exclude, target, n)
    ensures Viable(c, types, exclude, target, n)
  {
    StageMember(types, exclude, target, n, c);
    if n == 1 {
      assert c[..|c| - 1] in Stage(types, exclude, target, 0);
    }
    ViableExtend(types, exclude, target, n, c);
  }

  lemma {:induction false} StageComplete(types: seq<Letter>, exclude: seq<int>, target: Option<int>, n: nat)
    requires 1 <= n <= |types|
    ensures ViableStaged(types, exclude, target, n)
  {
    if n > 1 {
      StageComplete(types, exclude, target, n - 1);
    }
    forall c | Viable(c, types, exclude, target, n)
      ensures c in Stage(types, exclude, target, n)
    {
      CompleteStep(types, exclude, target, n, c);
    }
  }

  /** One level of completeness: the prefix of a viable tuple is a member of level n - 1, and the tuple is kept. */
  lemma CompleteStep(types: seq<Letter>, exclude: seq<int>, target: Option<int>, n: nat, c: seq<int>)
    requires 1 <= n <= |types|
    requires n > 1 ==> ViableStaged(types, exclude, target, n - 1)
    requires Viable(c, types, exclude, target, n)
    ensures c in Stage(types, exclude, target, n)
  {
    ViablePrefix(types, exclude, target, n, c);
    var p := c[..n - 1];
    if n == 1 {
      assert Stage(types, exclude, target, 0) == [[]];
      assert p in Stage(types, exclude, target, 0);
    } else {
      assert p in Stage(types, exclude, target, n - 1);
    }
    StageMember(types, exclude, target, n, c);
  }

  /**
    Soundness and completeness of the generator: a tuple is returned iff it is a
    combination. Completeness rests on every proper prefix of a combination
    having a sum below the target, so no prefix is ever pruned.
   */
  lemma CombinationsExact(types: seq<Letter>, exclude: seq<int>, target: Option<int>, c: seq<int>)
    ensures c in Combinations(types, exclude, target) <==> IsCombination(c, types, exclude, target)
  {
    if |types| > 0 {
      StageMembers(types, exclude, target, |types|, c);
    }
  }

  /** No kinds, or a null target, yield no combination at all. */
  lemma CombinationsEmpty(types: seq<Letter>, exclude: seq<int>, target: Option<int>)
    requires |types| == 0 || target.None?
    ensures Combinations(types, exclude, target) == []
  {
    var r := Combinations(types, exclude, target);
    if r != [] {
      CombinationsExact(types, exclude, target, r[0]);
    }
  }

  /** Lexicographic order of digit tuples. */
  ghost predicate LexLess(a: seq<int>, b: seq<int>) {
    exists k :: 0 <= k < |a| && k < |b| && a[..k] == b[..k] && a[k] < b[k]
  }

  ghost predicate StrictlyIncreasing(s: seq<seq<int>>) {
    forall i, j :: 0 <= i < j < |s| ==> LexLess(s[i], s[j])
  }

  lemma LexLessIrreflexive(a: seq<int>)
    ensures !LexLess(a, a)
  {
  }

  lemma IncreasingConcat(a: seq<seq<int>>, b: seq<seq<int>>)
    requires StrictlyIncreasing(a) && StrictlyIncreasing(b)
    requires forall x, y :: x in a && y in b ==> LexLess(x, y)
    ensures StrictlyIncreasing(a + b)
  {
    forall i, j | 0 <= i < j < |a + b|
      ensures LexLess((a + b)[i], (a + b)[j])
    {
      if j < |a| {
        assert (a + b)[i] == a[i] && (a + b)[j] == a[j];
      } else if i >= |a| {
        assert (a + b)[i] == b[i - |a|] && (a + b)[j] == b[j - |a|];
      } else {
        assert (a + b)[i] in a && (a + b)[j] in b;
      }
    }
  }

  lemma {:induction false} ExtendOneIncreasing(p: seq<int>, ds: seq<int>, exclude: seq<int>, target: Option<int>, last: bool)
    requires forall i, j :: 0 <= i < j < |ds| ==> ds[i] < ds[j]
    ensures StrictlyIncreasing(ExtendOne(p, ds, exclude, target, last))
  {
    if ds != [] {
      var d := ds[|ds| - 1];
      var front := ds[..|ds| - 1];
      ExtendOneIncreasing(p, front, exclude, target, last);
      var c := p + [d];
      forall x, y | x in ExtendOne(p, front, exclude, target, last) && y in (if Keep(c, exclude, target, last) then [c] else [])
        ensures LexLess(x, y)
      {
        ExtendOneMembers(p, front, exclude, target, last, x);
        assert y == c && c[..|p|] == p;
        var i :| 0 <= i < |front| && front[i] == x[|p|];
      }
      IncreasingConcat(ExtendOne(p, front, exclude, target, last), if Keep(c, exclude, target, last) then [c] else []);
    }
  }

  /** Tuples grown by one digit from two prefixes of equal length keep the order of the prefixes. */
  lemma ExtendedLess(q: seq<int>, p: seq<int>, x: seq<int>, y: seq<int>)
    requires LexLess(q, p) && |q| == |p|
    requires |x| == |q| + 1 && x[..|q|] == q
    requires |y| == |p| + 1 && y[..|p|] == p
    ensures LexLess(x, y)
  {
    var k :| 0 <= k < |q| && k < |p| && q[..k] == p[..k] && q[k] < p[k];
    assert x[..k] == q[..k] && y[..k] == p[..k];
    assert x[k] == q[k] && y[k] == p[k];
  }

  lemma {:induction false} ExtendAllIncreasing(olds: seq<seq<int>>, ds: seq<int>, exclude: seq<int>, target: Option<int>, last: bool, len: nat)
    requires StrictlyIncreasing(olds)
    requires forall q :: q in olds ==> |q| == len
    requires forall i, j :: 0 <= i < j < |ds| ==> ds[i] < ds[j]
    ensures StrictlyIncreasing(ExtendAll(olds, ds, exclude, target, last))
  {
    if olds != [] {
      var front := olds[..|olds| - 1];
      var p := olds[|olds| - 1];
      ExtendAllIncreasing(front, ds, exclude, target, last, len);
      ExtendOneIncreasing(p, ds, exclude, target, last);
      forall x, y | x in ExtendAll(front, ds, exclude, target, last) && y in ExtendOne(p, ds, exclude, target, last)
        ensures LexLess(x, y)
      {
        ExtendAllMembers(front, ds, exclude, target, last, x);
        ExtendOneMembers(p, ds, exclude, target, last, y);
        var q := x[..|x| - 1];
        var i :| 0 <= i < |front| && front[i] == q;
        assert olds[i] == q && LexLess(olds[i], olds[|olds| - 1]);
        assert q in olds && p in olds;
        ExtendedLess(q, p, x, y);
      }
      IncreasingConcat(ExtendAll(front, ds, exclude, target, last), ExtendOne(p, ds, exclude, target, last));
    }
  }

  /** Every member of level n has n digits. */
  lemma {:induction false} StageLengths(types: seq<Letter>, exclude: seq<int>, target: Option<int>, n: nat)
    requires n <= |types|
    ensures forall q :: q in Stage(types, exclude, target, n) ==> |q| == n
  {
    if n > 0 {
      StageLengths(types, exclude, target, n - 1);
      ExtendAllLengths(Stage(types, exclude, target, n - 1), Digits(types[n - 1]), exclude, target, n == |types|, n - 1);
    }
  }

  /** Extending tuples of length len gives tuples of length len + 1. */
  lemma {:induction false} ExtendAllLengths(olds: seq<seq<int>>, ds: seq<int>, exclude: seq<int>, target: Option<int>, last: bool, len: nat)
    requires forall q :: q in olds ==> |q| == len
    ensures forall c :: c in ExtendAll(olds, ds, exclude, target, last) ==> |c| == len + 1
    decreases |olds|
  {
    if olds != [] {
      assert olds[|olds| - 1] in olds;
      ExtendAllLengths(olds[..|olds| - 1], ds, exclude, target, last, len);
      ExtendOneLengths(olds[|olds| - 1], ds, exclude, target, last);
    }
  }

  /** Extending one tuple adds one digit. */
  lemma {:induction false} ExtendOneLengths(p: seq<int>, ds: seq<int>, exclude: seq<int>, target: Option<int>, last: bool)
    ensures forall c :: c in ExtendOne(p, ds, exclude, target, last) ==> |c| == |p| + 1
    decreases |ds|
  {
    if ds != [] {
      ExtendOneLengths(p, ds[..|ds| - 1], exclude, target, last);
    }
  }

  /** Each level lists its partial tuples in strictly increasing order. */
  lemma {:induction false} StageIncreasing(types: seq<Letter>, exclude: seq<int>, target: Option<int>, n: nat)
    requires n <= |types|
    ensures StrictlyIncreasing(Stage(types, exclude, target, n))
  {
    if n > 0 {
      StageIncreasing(types, exclude, target, n - 1);
      IncreasingStep(types, exclude, target, n);
    }
  }

  /** One level of the order: extending an increasing level, whose tuples all have n - 1 digits, keeps it increasing. */
  lemma IncreasingStep(types: seq<Letter>, exclude: seq<int>, target: Option<int>, n: nat)
    requires 1 <= n <= |types|
    requires StrictlyIncreasing(Stage(types, exclude, target, n - 1))
    ensures StrictlyIncreasing(Stage(types, exclude, target, n))
  {
    StageLengths(types, exclude, target, n - 1);
    DigitsAscending(types[n - 1]);
    ExtendAllIncreasing(Stage(types, exclude, target, n - 1), Digits(types[n - 1]), exclude, target, n == |types|, n - 1);
  }

  /**
    The generator's output is strictly increasing in lexicographic order of the
    ascending digit domains, hence free of duplicates.
   */
  lemma CombinationsSorted(types: seq<Letter>, exclude: seq<int>, target: Option<int>)
    ensures StrictlyIncreasing(Combinations(types, exclude, target))
    ensures forall i, j :: 0 <= i < j < |Combinations(types, exclude, target)| ==>
      Combinations(types, exclude, target)[i] != Combinations(types, exclude, target)[j]
  {
    var r := Combinations(types, exclude, target);
    if |types| > 0 {
      StageIncreasing(types, exclude, target, |types|);
    }
    forall i, j | 0 <= i < j < |r|
      ensures r[i] != r[j]
    {
      LexLessIrreflexive(r[i]);
    }
  }

  /** The first level of `CartesianProduct`: one single-digit tuple per kept digit. */
  method FirstLevel(digits: seq<int>, exclude: seq<int>, target: Option<int>, last: bool) returns (level: seq<seq<int>>)
    ensures level == ExtendOne([], digits, exclude, target, last)
  {
    level := [];
    for j := 0 to |digits|
      invariant level == ExtendOne([], digits[..j], exclude, target, last)
    {
      var c := [digits[j]];
      assert digits[..j + 1][..j] == digits[..j];
      assert [] + [digits[j]] == c && Sum(c) == digits[j] && Distinct(c);
      var used := IsExcluded(exclude, c[0]);
      if !used {
        if last {
          if Some(c[0]) == target {
            level := level + [c];
          }
        } else if target.Some? && c[0] < target.value {
          level := level + [c];
        }
      }
    }
    assert digits[..|digits|] == digits;
  }

  /** The inner loop of a later level: one partial tuple extended by every kept digit. */
  method ExtendPartial(item1: seq<int>, digits: seq<int>, exclude: seq<int>, target: Option<int>, last: bool)
    returns (extended: seq<seq<int>>)
    ensures extended == ExtendOne(item1, digits, exclude, target, last)
  {
    extended := [];
    for k := 0 to |digits|
      invariant extended == ExtendOne(item1, digits[..k], exclude, target, last)
    {
      var item2 := digits[k];
      assert digits[..k + 1][..k] == digits[..k];
      var used := IsExcluded(exclude, item2);
      if !used {
        var c := item1 + [item2];
        var distinct := CheckRepetionsArray(c);
        if distinct {
          var sum := SumOf(c);
          if last {
            if Some(sum) == target {
              extended := extended + [c];
            }
          } else if target.Some? && sum < target.value {
            extended := extended + [c];
          }
        }
      }
    }
    assert digits[..|digits|] == digits;
  }

  /** A later level of `CartesianProduct`: every partial tuple of the previous level, in order, extended. */
  method NextLevel(olds: seq<seq<int>>, digits: seq<int>, exclude: seq<int>, target: Option<int>, last: bool)
    returns (level: seq<seq<int>>)
    ensures level == ExtendAll(olds, digits, exclude, target, last)
  {
    level := [];
    for m := 0 to |olds|
      invariant level == ExtendAll(olds[..m], digits, exclude, target, last)
    {
      assert olds[..m + 1][..m] == olds[..m];
      var extended := ExtendPartial(olds[m], digits, exclude, target, last);
      level := level + extended;
    }
    assert olds[..|olds|] == olds;
  }

  /**
    `CartesianProduct`: the source's level-by-level loop. `oldCombos` holds the
    partial tuples of the previous level and `newCombos` those of the current
    one; between levels the new list becomes the old one and is cleared.
   */
  method CartesianProduct(types: seq<Letter>, exclude: seq<int>, target: Option<int>) returns (combos: seq<seq<int>>)
    ensures combos == Combinations(types, exclude, target)
    ensures forall c :: c in combos <==> IsCombination(c, types, exclude, target)
    ensures StrictlyIncreasing(combos)
  {
    var oldCombos: seq<seq<int>> := [];
    var newCombos: seq<seq<int>> := [];
    var i := 0;
    while i < |types|
      invariant 0 <= i <= |types|
      invariant i == 0 ==> newCombos == []
      invariant 0 < i < |types| ==> oldCombos == Stage(types, exclude, target, i) && newCombos == []
      invariant 0 < i == |types| ==> newCombos == Stage(types, exclude, target, i)
    {
      var digits := Digits(types[i]);
      var last := i == |types| - 1;
      if i == 0 {
        newCombos := FirstLevel(digits, exclude, target, last);
        ghost var start: seq<seq<int>> := [[]];
        assert start[..0] == [] && start[0] == [];
      } else {
        newCombos := NextLevel(oldCombos, digits, exclude, target, last);
      }
      if |types| != 1 && i != |types| - 1 {
        oldCombos := newCombos;
        newCombos := [];
      }
      i := i + 1;
    }
    combos := newCombos;
    forall c
      ensures c in combos <==> IsCombination(c, types, exclude, target)
    {
      CombinationsExact(types, exclude, target, c);
    }
    CombinationsSorted(types, exclude, target);
  }
}
