/**
 * OneOfExtensions: the sequence projections Lefts and Rights. Each keeps the
 * elements whose tag matches (Where) and unwraps them through
 * LeftAsEnumerable / RightAsEnumerable (SelectMany).
 */
module OneOfExtensions {
  import opened Linq
  import opened OneOfs

  /** The Where predicate of Lefts (`x => x.IsLeft`). */
  predicate IsLeftOf<L, R>(x: OneOf<L, R>) { x.IsLeft() }

  /** The SelectMany selector of Lefts (`x => x.LeftAsEnumerable()`). */
  function LeftOf<L, R>(x: OneOf<L, R>): seq<L> { x.LeftAsEnumerable() }

  /** The Where predicate of Rights (`x => x.IsRight`). */
  predicate IsRightOf<L, R>(x: OneOf<L, R>) { x.IsRight() }

  /** The SelectMany selector of Rights (`x => x.RightAsEnumerable()`). */
  function RightOf<L, R>(x: OneOf<L, R>): seq<R> { x.RightAsEnumerable() }

  /** OneOfExtensions.Lefts */
  function Lefts<L, R>(oneOfs: seq<OneOf<L, R>>): (lefts: seq<L>)
    ensures |lefts| <= |oneOfs|
    ensures (forall i :: 0 <= i < |oneOfs| ==> oneOfs[i].IsRight()) ==> lefts == []
    ensures |oneOfs| > 0 && oneOfs[0].IsLeft() ==> |lefts| > 0 && lefts[0] == oneOfs[0].left
  {
    SelectMany(Where(oneOfs, IsLeftOf<L, R>), LeftOf<L, R>)
  }

  /** OneOfExtensions.Rights */
  function Rights<L, R>(oneOfs: seq<OneOf<L, R>>): (rights: seq<R>)
    ensures |rights| <= |oneOfs|
    ensures (forall i :: 0 <= i < |oneOfs| ==> oneOfs[i].IsLeft()) ==> rights == []
    ensures |oneOfs| > 0 && oneOfs[0].IsRight() ==> |rights| > 0 && rights[0] == oneOfs[0].right
  {
    SelectMany(Where(oneOfs, IsRightOf<L, R>), RightOf<L, R>)
  }

  /**
   * Lefts, element by element: the payload of a leading Left followed by
   * the rest, and nothing for a leading Right. Together with `Lefts([]) ==
   * []` these equations determine Lefts completely: every Left payload, in
   * the original order, and nothing else.
   */
  lemma LeftsCons<L, R>(x: OneOf<L, R>, rest: seq<OneOf<L, R>>)
    ensures x.IsLeft() ==> Lefts([x] + rest) == [x.left] + Lefts(rest)
    ensures x.IsRight() ==> Lefts([x] + rest) == Lefts(rest)
  {
    WhereCons(x, rest, IsLeftOf<L, R>);
    if x.IsLeft() {
      SelectManyCons(x, Where(rest, IsLeftOf<L, R>), LeftOf<L, R>);
    } else {
      assert !IsLeftOf(x);
      assert Where([x] + rest, IsLeftOf<L, R>) == Where(rest, IsLeftOf<L, R>);
    }
  }

  /** Rights, element by element (the mirror image of LeftsCons). */
  lemma RightsCons<L, R>(x: OneOf<L, R>, rest: seq<OneOf<L, R>>)
    ensures x.IsRight() ==> Rights([x] + rest) == [x.right] + Rights(rest)
    ensures x.IsLeft() ==> Rights([x] + rest) == Rights(rest)
  {
    WhereCons(x, rest, IsRightOf<L, R>);
    if x.IsRight() {
      SelectManyCons(x, Where(rest, IsRightOf<L, R>), RightOf<L, R>);
    } else {
      assert !IsRightOf(x);
      assert Where([x] + rest, IsRightOf<L, R>) == Where(rest, IsRightOf<L, R>);
    }
  }

  /** Lefts distributes over concatenation. */
  lemma LeftsAppend<L, R>(a: seq<OneOf<L, R>>, b: seq<OneOf<L, R>>)
    ensures Lefts(a + b) == Lefts(a) + Lefts(b)
  {
    WhereAppend(a, b, IsLeftOf<L, R>);
    SelectManyAppend(Where(a, IsLeftOf<L, R>), Where(b, IsLeftOf<L, R>), LeftOf<L, R>);
  }

  /** Rights distributes over concatenation. */
  lemma RightsAppend<L, R>(a: seq<OneOf<L, R>>, b: seq<OneOf<L, R>>)
    ensures Rights(a + b) == Rights(a) + Rights(b)
  {
    WhereAppend(a, b, IsRightOf<L, R>);
    SelectManyAppend(Where(a, IsRightOf<L, R>), Where(b, IsRightOf<L, R>), RightOf<L, R>);
  }

  /** Every element lands in exactly one of the two projections. */
  lemma {:induction false} LeftsRightsLength<L, R>(oneOfs: seq<OneOf<L, R>>)
    ensures |Lefts(oneOfs)| + |Rights(oneOfs)| == |oneOfs|
    decreases |oneOfs|
  {
    if oneOfs != [] {
      var x, rest := oneOfs[0], oneOfs[1..];
      assert oneOfs == [x] + rest;
      LeftsCons(x, rest);
      RightsCons(x, rest);
      LeftsRightsLength(rest);
    }
  }

  /** A value is among the Lefts exactly when the input holds it on the Left side. */
  lemma {:induction false} LeftsMembership<L, R>(oneOfs: seq<OneOf<L, R>>, v: L)
    ensures v in Lefts(oneOfs) <==> Left(v) in oneOfs
    decreases |oneOfs|
  {
    if oneOfs != [] {
      var x, rest := oneOfs[0], oneOfs[1..];
      assert oneOfs == [x] + rest;
      LeftsCons(x, rest);
      LeftsMembership(rest, v);
    }
  }

  /** A value is among the Rights exactly when the input holds it on the Right side. */
  lemma {:induction false} RightsMembership<L, R>(oneOfs: seq<OneOf<L, R>>, v: R)
    ensures v in Rights(oneOfs) <==> Right(v) in oneOfs
    decreases |oneOfs|
  {
    if oneOfs != [] {
      var x, rest := oneOfs[0], oneOfs[1..];
      assert oneOfs == [x] + rest;
      RightsCons(x, rest);
      RightsMembership(rest, v);
    }
  }

  /** Lefts is empty exactly when every element is a Right (so all-Right input gives nothing). */
  lemma LeftsEmpty<L, R>(oneOfs: seq<OneOf<L, R>>)
    ensures Lefts(oneOfs) == [] <==> forall i :: 0 <= i < |oneOfs| ==> oneOfs[i].IsRight()
  {
    if Lefts(oneOfs) != [] {
      LeftsMembership(oneOfs, Lefts(oneOfs)[0]);
    } else {
      forall i | 0 <= i < |oneOfs| ensures oneOfs[i].IsRight() {
        if oneOfs[i].IsLeft() {
          LeftsMembership(oneOfs, oneOfs[i].left);
        }
      }
    }
  }

  /** Rights is empty exactly when every element is a Left (so all-Left input gives nothing). */
  lemma RightsEmpty<L, R>(oneOfs: seq<OneOf<L, R>>)
    ensures Rights(oneOfs) == [] <==> forall i :: 0 <= i < |oneOfs| ==> oneOfs[i].IsLeft()
  {
    if Rights(oneOfs) != [] {
      RightsMembership(oneOfs, Rights(oneOfs)[0]);
    } else {
      forall i | 0 <= i < |oneOfs| ensures oneOfs[i].IsLeft() {
        if oneOfs[i].IsRight() {
          RightsMembership(oneOfs, oneOfs[i].right);
        }
      }
    }
  }

  /** The tag of every element, in order. */
  function Sides<L, R>(oneOfs: seq<OneOf<L, R>>): (tags: seq<bool>)
    ensures |tags| == |oneOfs|
    ensures forall i :: 0 <= i < |oneOfs| ==> tags[i] == oneOfs[i].IsLeft()
  {
    seq(|oneOfs|, i requires 0 <= i < |oneOfs| => oneOfs[i].IsLeft())
  }

  /**
   * Rebuilds a sequence of unions from its tags and its two projections,
   * taking the next Left payload for a `true` tag and the next Right payload
   * for a `false` one.
   */
  function Interleave<L, R>(tags: seq<bool>, ls: seq<L>, rs: seq<R>): seq<OneOf<L, R>>
    decreases |tags|
  {
    if tags == [] then []
    else if tags[0] && ls != [] then [Left(ls[0])] + Interleave(tags[1..], ls[1..], rs)
    else if !tags[0] && rs != [] then [Right(rs[0])] + Interleave(tags[1..], ls, rs[1..])
    else []
  }

  /**
   * Lefts and Rights together lose nothing: interleaving them back along
   * the original tags gives the original sequence, and no payload is left
   * over, so each projection holds exactly its side's payloads in their
   * original relative order.
   */
  lemma {:induction false} LeftsRightsReconstruct<L, R>(oneOfs: seq<OneOf<L, R>>)
    ensures Interleave(Sides(oneOfs), Lefts(oneOfs), Rights(oneOfs)) == oneOfs
    ensures |Lefts(oneOfs)| + |Rights(oneOfs)| == |oneOfs|
    decreases |oneOfs|
  {
    if oneOfs != [] {
      var x, rest := oneOfs[0], oneOfs[1..];
      assert oneOfs == [x] + rest;
      LeftsCons(x, rest);
      RightsCons(x, rest);
      assert Sides(oneOfs)[1..] == Sides(rest);
      LeftsRightsReconstruct(rest);
    }
  }

  /**
   * Lefts and Rights are the only projections with that property: any two
   * sequences that interleave back to the input along its tags, with no
   * payload left over, are Lefts and Rights.
   */
  lemma ReconstructUnique<L, R>(oneOfs: seq<OneOf<L, R>>, ls: seq<L>, rs: seq<R>)
    requires Interleave(Sides(oneOfs), ls, rs) == oneOfs
    requires |ls| + |rs| == |oneOfs|
    ensures ls == Lefts(oneOfs) && rs == Rights(oneOfs)
  {
    ReconstructUniqueLefts(oneOfs, ls, rs);
    ReconstructUniqueRights(oneOfs, ls, rs);
  }

  /** The Left half of ReconstructUnique. */
  lemma {:induction false} ReconstructUniqueLefts<L, R>(oneOfs: seq<OneOf<L, R>>, ls: seq<L>, rs: seq<R>)
    requires Interleave(Sides(oneOfs), ls, rs) == oneOfs
    requires |ls| + |rs| == |oneOfs|
    ensures ls == Lefts(oneOfs)
    decreases |oneOfs|
  {
    if oneOfs == [] {
      assert Lefts(oneOfs) == [];
    } else {
      var x, rest := oneOfs[0], oneOfs[1..];
      assert oneOfs == [x] + rest;
      InterleaveHead(x, rest, ls, rs);
      LeftsCons(x, rest);
      if x.IsLeft() {
        var ls' := ls[1..];
        ReconstructUniqueLefts(rest, ls', rs);
        assert ls == [x.left] + ls';
      } else {
        ReconstructUniqueLefts(rest, ls, rs[1..]);
      }
    }
  }

  /** The Right half of ReconstructUnique. */
  lemma {:induction false} ReconstructUniqueRights<L, R>(oneOfs: seq<OneOf<L, R>>, ls: seq<L>, rs: seq<R>)
    requires Interleave(Sides(oneOfs), ls, rs) == oneOfs
    requires |ls| + |rs| == |oneOfs|
    ensures rs == Rights(oneOfs)
    decreases |oneOfs|
  {
    if oneOfs == [] {
      assert Rights(oneOfs) == [];
    } else {
      var x, rest := oneOfs[0], oneOfs[1..];
      assert oneOfs == [x] + rest;
      InterleaveHead(x, rest, ls, rs);
      RightsCons(x, rest);
      if x.IsRight() {
        var rs' := rs[1..];
        ReconstructUniqueRights(rest, ls, rs');
        assert rs == [x.right] + rs';
      } else {
        ReconstructUniqueRights(rest, ls[1..], rs);
      }
    }
  }

  /** One step of an interleave that rebuilds a sequence with a known head. */
  lemma InterleaveHead<L, R>(x: OneOf<L, R>, rest: seq<OneOf<L, R>>, ls: seq<L>, rs: seq<R>)
    requires Interleave(Sides([x] + rest), ls, rs) == [x] + rest
    ensures x.IsLeft() ==> ls != [] && ls[0] == x.left && Interleave(Sides(rest), ls[1..], rs) == rest
    ensures x.IsRight() ==> rs != [] && rs[0] == x.right && Interleave(Sides(rest), ls, rs[1..]) == rest
  {
    var tags := Sides([x] + rest);
    assert tags[0] == x.IsLeft();
    assert tags[1..] == Sides(rest);
    var out := Interleave(tags, ls, rs);
    assert out[0] == x && out[1..] == rest;
  }
}
