/**
 * The two-sided union OneOf<TLeft, TRight>: exactly one side holds a value,
 * and the tag is decided by the constructor used, never by inspecting the
 * payload's type (the two sides may have the same type).
 */
module OneOfs {

  datatype OneOf<L, R> = Left(left: L) | Right(right: R) {

    /** OneOf.IsLeft */
    predicate IsLeft() { Left? }

    /** OneOf.IsRight */
    predicate IsRight() { Right? }

    /** The total case analysis: exactly one of the two branches decides the value. */
    function Match<X>(onLeft: L -> X, onRight: R -> X): (x: X)
      ensures IsLeft() ==> x == onLeft(left)
      ensures IsRight() ==> x == onRight(right)
    {
      match this
      case Left(l) => onLeft(l)
      case Right(r) => onRight(r)
    }

    /** A one-element sequence holding the Left payload when the tag is Left, else empty. */
    function LeftAsEnumerable(): (s: seq<L>)
      ensures |s| == (if IsLeft() then 1 else 0)
      ensures IsLeft() ==> s[0] == left
    {
      if Left? then [left] else []
    }

    /** A one-element sequence holding the Right payload when the tag is Right, else empty. */
    function RightAsEnumerable(): (s: seq<R>)
      ensures |s| == (if IsRight() then 1 else 0)
      ensures IsRight() ==> s[0] == right
    {
      if Right? then [right] else []
    }
  }

  /** Every union is on exactly one side. */
  lemma ExactlyOneSide<L, R>(x: OneOf<L, R>)
    ensures x.IsLeft() != x.IsRight()
    ensures |x.LeftAsEnumerable()| + |x.RightAsEnumerable()| == 1
  {
  }
}
