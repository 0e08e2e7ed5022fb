/**
  One square of a Kakuro board (Container.cs). A square has a fixed kind; a
  clue square carries up to two clue sums; a fillable square carries an
  optional digit that can only be changed through the guarded setter.
 */
module Containers {
  import opened Optional

  /** ContainerTypes (EnumTypes.cs): Parity stands for "any digit 1-9". */
  datatype ContainerType = Even | Odd | Parity | Sum | Block

  predicate IsFillable(t: ContainerType) {
    t == Even || t == Odd || t == Parity
  }

  /** The digits a square of kind t may hold; Sum and Block squares hold none. */
  predicate Legal(t: ContainerType, v: int) {
    match t
    case Even => v in {2, 4, 6, 8}
    case Odd => v in {1, 3, 5, 7, 9}
    case Parity => 1 <= v <= 9
    case Sum => false
    case Block => false
  }

  /**
    C#'s `n % 2` on int: division truncates toward zero, so the remainder
    differs from n by an even number, has the sign of n, and is below 2 in size.
   */
  function CsRemainder2(n: int): (r: int)
    ensures (n - r) % 2 == 0
    ensures -1 <= r <= 1 && (n > 0 ==> r >= 0) && (n < 0 ==> r <= 0)
    ensures r == 0 <==> n % 2 == 0
  {
    if n >= 0 then n % 2 else -((-n) % 2)
  }

  /**
    The guard of the `Value` setter for a non-null value v on a square of kind t:
    false where one of its four checks throws. It admits exactly the kind's digits.
   */
  function SetterAccepts(t: ContainerType, v: int): (ok: bool)
    ensures ok <==> Legal(t, v)
  {
    if t == Even && CsRemainder2(v) != 0 then false
    else if t == Odd && CsRemainder2(v) != 1 then false
    else if t == Sum || t == Block then false
    else if v < 1 || v > 9 then false
    else true
  }

  class Container {
    const kind: ContainerType
    const sumLeft: Option<int>
    const sumRight: Option<int>
    var value: Option<int>

    /** What every Container the source builds satisfies: the setter keeps the
        value legal for the kind, and only a Sum square carries clue sums. */
    ghost predicate Valid()
      reads this
    {
      && (value.Some? ==> Legal(kind, value.value))
      && (kind == Sum ==> (sumLeft.Some? || sumRight.Some?))
      && (sumLeft.Some? ==> kind == Sum && sumLeft.value >= 3)
      && (sumRight.Some? ==> kind == Sum && sumRight.value >= 3)
    }

    /**
      Field initialisation shared by the three public ways of building a
      Container: only a Sum square carries sums, and it carries at least one,
      each at least 3.
     */
    constructor (k: ContainerType, left: Option<int>, right: Option<int>)
      requires k == Sum ==> left.Some? || right.Some?
      requires left.Some? ==> k == Sum && left.value >= 3
      requires right.Some? ==> k == Sum && right.value >= 3
      ensures kind == k && sumLeft == left && sumRight == right && value == None
      ensures Valid()
    {
      kind, sumLeft, sumRight := k, left, right;
      value := None;
    }

    /**
      The `Value` setter. A non-null value that does not suit the kind makes the
      setter throw before anything is stored; `ok` is false exactly then, and
      the stored value is left as it was. Null is always accepted.
     */
    method SetValue(v: Option<int>) returns (ok: bool)
      requires Valid()
      modifies this
      ensures Valid()
      ensures ok <==> v.None? || Legal(kind, v.value)
      ensures value == if ok then v else old(value)
    {
      if v.Some? && !SetterAccepts(kind, v.value) {
        return false;
      }
      value := v;
      return true;
    }

    /** `Container(Type)`: an empty Even, Odd or Parity square; any other kind throws. */
    static method OfType(t: ContainerType) returns (r: Option<Container>)
      ensures r.Some? <==> IsFillable(t)
      ensures r.Some? ==> fresh(r.value) && r.value.Valid()
      ensures r.Some? ==> r.value.kind == t && r.value.value == None
      ensures r.Some? ==> r.value.sumLeft == None && r.value.sumRight == None
    {
      if t == Even || t == Odd || t == Parity {
        var c := new Container(t, None, None);
        var _ := c.SetValue(None);
        r := Some(c);
      } else {
        r := None;
      }
    }

    /**
      `Container(Type, Value)`: the kind is fixed first and the preset digit then
      goes through the setter, so a non-fillable kind or an illegal digit makes
      construction fail.
     */
    static method OfTypeAndValue(t: ContainerType, v: int) returns (r: Option<Container>)
      ensures r.Some? <==> IsFillable(t) && Legal(t, v)
      ensures r.Some? ==> fresh(r.value) && r.value.Valid()
      ensures r.Some? ==> r.value.kind == t && r.value.value == Some(v)
      ensures r.Some? ==> r.value.sumLeft == None && r.value.sumRight == None
    {
      if t == Even || t == Odd || t == Parity {
        var c := new Container(t, None, None);
        var ok := c.SetValue(Some(v));
        r := if ok then Some(c) else None;
      } else {
        r := None;
      }
    }

    /**
      `Container(SumLeft, SumRight)`: with no sum at all a Block; otherwise a Sum
      square, and construction fails when a present sum is below 3.
     */
    static method OfSums(left: Option<int>, right: Option<int>) returns (r: Option<Container>)
      ensures r.Some? <==> (left.Some? ==> left.value >= 3) && (right.Some? ==> right.value >= 3)
      ensures r.Some? ==> fresh(r.value) && r.value.Valid() && r.value.value == None
      ensures r.Some? ==> r.value.kind == (if left.None? && right.None? then Block else Sum)
      ensures r.Some? ==> r.value.sumLeft == left && r.value.sumRight == right
    {
      if left.None? && right.None? {
        var c := new Container(Block, None, None);
        r := Some(c);
      } else {
        if left.Some? && left.value < 3 {
          return None;
        } else if right.Some? && right.value < 3 {
          return None;
        }
        var c := new Container(Sum, left, right);
        r := Some(c);
      }
    }
  }

}
