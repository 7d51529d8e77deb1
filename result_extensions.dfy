/**
 * ResultExtensions: the sequence-level combinators over Results.
 *
 * Successes and Failures are the Lefts and Rights of the batch. Flatten and
 * the two Reduce overloads follow the accumulate policy: every element is
 * looked at, and if any of them failed the answer is one Failure wrapping an
 * AggregateFault of all the faults, in order; otherwise it is the successes,
 * concatenated (Flatten) or handed to the projection (Reduce). `show` is the
 * faults' string form used for the aggregate's detail.
 */
module ResultExtensions {
  import opened Linq
  import opened OneOfs
  import opened OneOfExtensions
  import opened FaultTypes
  import opened Results

  /** ResultExtensions.Successes */
  function Successes<T>(results: seq<Result<T>>): (values: seq<T>)
    ensures |values| <= |results|
    ensures (forall i :: 0 <= i < |results| ==> results[i].IsRight()) ==> values == []
    ensures |results| > 0 && results[0].IsLeft() ==> |values| > 0 && values[0] == results[0].left
  {
    Lefts(results)
  }

  /** ResultExtensions.Failures */
  function Failures<T>(results: seq<Result<T>>): (faults: seq<Fault>)
    ensures |faults| <= |results|
    ensures (forall i :: 0 <= i < |results| ==> results[i].IsLeft()) ==> faults == []
    ensures |results| > 0 && results[0].IsRight() ==> |faults| > 0 && faults[0] == results[0].right
  {
    Rights(results)
  }

  /** The selector `x => x` of `SelectMany`: the inner sequence itself. */
  function Inner<T>(xs: seq<T>): seq<T> { xs }

  /** `SelectMany(x => x)`: the inner sequences concatenated in order. */
  function Concat<T>(xss: seq<seq<T>>): (xs: seq<T>)
    ensures (forall i :: 0 <= i < |xss| ==> xss[i] == []) ==> xs == []
    ensures |xss| > 0 ==> xss[0] <= xs
  {
    SelectMany(xss, Inner<T>)
  }

  /** ResultExtensions.Flatten */
  function Flatten<T>(results: seq<Result<seq<T>>>, show: Fault -> string): (r: Result<seq<T>>)
    ensures r.IsRight() <==> exists i :: 0 <= i < |results| && results[i].IsRight()
  {
    var failures := Failures(results);
    RightsEmpty(results);
    if |failures| > 0 then Failure(AggregateFault(failures, show))
    else Success(Concat(Successes(results)))
  }

  /** ResultExtensions.Reduce over a batch of Result<T>. */
  function Reduce<T, U>(results: seq<Result<T>>, projection: seq<T> -> U, show: Fault -> string): (r: Result<U>)
    ensures r.IsRight() <==> exists i :: 0 <= i < |results| && results[i].IsRight()
  {
    var failures := Failures(results);
    RightsEmpty(results);
    if |failures| > 0 then Failure(AggregateFault(failures, show))
    else Success(projection(Successes(results)))
  }

  /** ResultExtensions.Reduce over a batch of Result<IEnumerable<T>>. */
  function ReduceMany<T, U>(results: seq<Result<seq<T>>>, projection: seq<T> -> U, show: Fault -> string): (r: Result<U>)
    ensures r.IsRight() <==> exists i :: 0 <= i < |results| && results[i].IsRight()
  {
    var failures := Failures(results);
    RightsEmpty(results);
    if |failures| > 0 then Failure(AggregateFault(failures, show))
    else Success(projection(Concat(Successes(results))))
  }

  // ----- Successes and Failures -----------------------------------------

  /** Every result is counted once, as a success or as a failure. */
  lemma SuccessesFailuresLength<T>(results: seq<Result<T>>)
    ensures |Successes(results)| + |Failures(results)| == |results|
  {
    LeftsRightsLength(results);
  }

  /** Successes and Failures together lose nothing and add nothing: interleaving them along the tags rebuilds the batch, with no payload left over. */
  lemma SuccessesFailuresReconstruct<T>(results: seq<Result<T>>)
    ensures Interleave(Sides(results), Successes(results), Failures(results)) == results
    ensures |Successes(results)| + |Failures(results)| == |results|
  {
    LeftsRightsReconstruct(results);
  }

  /** Successes is empty exactly when every result failed; Failures exactly when every result succeeded. */
  lemma SuccessesFailuresEmpty<T>(results: seq<Result<T>>)
    ensures Successes(results) == [] <==> forall i :: 0 <= i < |results| ==> results[i].IsRight()
    ensures Failures(results) == [] <==> forall i :: 0 <= i < |results| ==> results[i].IsLeft()
  {
    LeftsEmpty(results);
    RightsEmpty(results);
  }

  /** The batch `[Success(1), Failure(e2), Success(3), Failure(e4)]` splits into `[1, 3]` and `[e2, e4]`. */
  lemma SuccessesFailuresExample(e2: Fault, e4: Fault)
    ensures Successes([Success(1), Failure(e2), Success(3), Failure(e4)]) == [1, 3]
    ensures Failures([Success(1), Failure(e2), Success(3), Failure(e4)]) == [e2, e4]
  {
    var s1, f2, s3, f4 := Success<int>(1), Failure<int>(e2), Success<int>(3), Failure<int>(e4);
    var front, back := [s1, f2], [s3, f4];
    assert [s1, f2, s3, f4] == front + back;
    assert Successes(front + back) == [1, 3] by {
      PairParts(s1, f2);
      PairParts(s3, f4);
      LeftsAppend(front, back);
    }
    assert Failures(front + back) == [e2, e4] by {
      PairParts(s1, f2);
      PairParts(s3, f4);
      RightsAppend(front, back);
    }
  }

  /** The projections of a two-element batch. */
  lemma PairParts<T>(x: Result<T>, y: Result<T>)
    ensures Successes([x, y]) == x.LeftAsEnumerable() + y.LeftAsEnumerable()
    ensures Failures([x, y]) == x.RightAsEnumerable() + y.RightAsEnumerable()
  {
    assert [x, y] == [x] + [y];
    SingleParts(x);
    SingleParts(y);
    LeftsAppend([x], [y]);
    RightsAppend([x], [y]);
  }

  /** The projections of a one-element batch. */
  lemma SingleParts<T>(r: Result<T>)
    ensures Successes([r]) == r.LeftAsEnumerable()
    ensures Failures([r]) == r.RightAsEnumerable()
  {
    var empty: seq<Result<T>> := [];
    assert [r] == [r] + empty;
    LeftsCons(r, empty);
    RightsCons(r, empty);
  }

  // ----- Concatenation ---------------------------------------------------

  /** Concatenation of a concatenation of batches. */
  lemma ConcatAppend<T>(a: seq<seq<T>>, b: seq<seq<T>>)
    ensures Concat(a + b) == Concat(a) + Concat(b)
  {
    SelectManyAppend(a, b, Inner<T>);
  }

  /** An empty inner sequence adds nothing to the concatenation. */
  lemma {:induction false} ConcatEmptyInner<T>(a: seq<seq<T>>, b: seq<seq<T>>)
    ensures Concat(a + [[]] + b) == Concat(a + b)
  {
    ConcatAppend(a + [[]], b);
    ConcatAppend(a, [[]]);
    ConcatAppend(a, b);
    SelectManyCons([], [], Inner<T>);
  }

  // ----- Flatten ---------------------------------------------------------

  /**
   * Flatten of a batch with at least one failure is one Failure wrapping an
   * AggregateFault of exactly the batch's faults, in order, even when there is
   * only one of them.
   */
  lemma FlattenFailure<T>(results: seq<Result<seq<T>>>, show: Fault -> string)
    requires exists i :: 0 <= i < |results| && results[i].IsRight()
    ensures Flatten(results, show) == Failure(AggregateFault(Failures(results), show))
    ensures Flatten(results, show).right.faults == Failures(results) != []
  {
  }

  /** A single failing element is still wrapped: the fault comes back inside a one-element aggregate, never bare. */
  lemma FlattenSingleFailure<T>(fault: Fault, show: Fault -> string)
    ensures Flatten<T>([Failure(fault)], show).right == AggregateFault([fault], show)
    ensures Flatten<T>([Failure(fault)], show).right != fault
  {
    RightsCons(Failure<seq<T>>(fault), []);
    AggregateIsNew([fault], show);
  }

  /** Flatten of an all-success batch is the in-order concatenation of the inner sequences. */
  lemma FlattenSuccess<T>(results: seq<Result<seq<T>>>, show: Fault -> string)
    requires forall i :: 0 <= i < |results| ==> results[i].IsLeft()
    ensures Flatten(results, show) == Success(Concat(Successes(results)))
  {
    RightsEmpty(results);
  }

  /** Flatten of an empty batch succeeds with the empty sequence. */
  lemma FlattenEmpty<T>(show: Fault -> string)
    ensures Flatten<T>([], show) == Success([])
  {
  }

  /**
   * Flatten works part by part: on a concatenation of batches the successes
   * concatenate and the aggregated faults are the first part's followed by
   * the second's.
   */
  lemma FlattenAppend<T>(a: seq<Result<seq<T>>>, b: seq<Result<seq<T>>>, show: Fault -> string)
    ensures Flatten(a + b, show).IsLeft() <==> Flatten(a, show).IsLeft() && Flatten(b, show).IsLeft()
    ensures Flatten(a + b, show).IsLeft() ==>
      Flatten(a + b, show).left == Flatten(a, show).left + Flatten(b, show).left
    ensures Flatten(a + b, show).IsRight() ==>
      Flatten(a + b, show).right.faults == Failures(a) + Failures(b)
  {
    LeftsAppend(a, b);
    RightsAppend(a, b);
    RightsEmpty(a);
    RightsEmpty(b);
    RightsEmpty(a + b);
    ConcatAppend(Successes(a), Successes(b));
  }

  /** A Success holding an empty sequence contributes nothing to Flatten. */
  lemma FlattenIgnoresEmptySuccess<T>(a: seq<Result<seq<T>>>, b: seq<Result<seq<T>>>, show: Fault -> string)
    ensures Flatten(a + [Success([])] + b, show) == Flatten(a + b, show)
  {
    var e := Success<seq<T>>([]);
    assert Failures(a + [e] + b) == Failures(a + b) by {
      InsertParts(a, e, b);
      RightsAppend(a, b);
    }
    assert Concat(Successes(a + [e] + b)) == Concat(Successes(a + b)) by {
      InsertParts(a, e, b);
      LeftsAppend(a, b);
      ConcatEmptyInner(Successes(a), Successes(b));
    }
    FlattenOfParts(a + [e] + b, a + b, show);
  }

  /** Flatten depends on a batch only through its faults and its concatenated successes. */
  lemma FlattenOfParts<T>(x: seq<Result<seq<T>>>, y: seq<Result<seq<T>>>, show: Fault -> string)
    requires Failures(x) == Failures(y) && Concat(Successes(x)) == Concat(Successes(y))
    ensures Flatten(x, show) == Flatten(y, show)
  {
  }

  /** The projections of a batch with one element inserted between two others. */
  lemma InsertParts<T>(a: seq<Result<T>>, x: Result<T>, b: seq<Result<T>>)
    ensures Successes(a + [x] + b) == Successes(a) + x.LeftAsEnumerable() + Successes(b)
    ensures Failures(a + [x] + b) == Failures(a) + x.RightAsEnumerable() + Failures(b)
  {
    SingleParts(x);
    LeftsAppend(a + [x], b);
    LeftsAppend(a, [x]);
    RightsAppend(a + [x], b);
    RightsAppend(a, [x]);
  }

  // ----- Reduce ----------------------------------------------------------

  /** Reduce of an all-success batch hands every success value, in order, to the projection. */
  lemma ReduceSuccess<T, U>(results: seq<Result<T>>, projection: seq<T> -> U, show: Fault -> string)
    requires forall i :: 0 <= i < |results| ==> results[i].IsLeft()
    ensures Reduce(results, projection, show) == Success(projection(Successes(results)))
  {
    RightsEmpty(results);
  }

  /** With any failure, Reduce is the aggregate failure, whatever the projection. */
  lemma ReduceFailure<T, U>(results: seq<Result<T>>, p: seq<T> -> U, q: seq<T> -> U, show: Fault -> string)
    requires exists i :: 0 <= i < |results| && results[i].IsRight()
    ensures Reduce(results, p, show) == Reduce(results, q, show) == Failure(AggregateFault(Failures(results), show))
  {
    RightsEmpty(results);
  }

  /** Reduce of an empty batch is the projection of the empty sequence. */
  lemma ReduceEmpty<T, U>(projection: seq<T> -> U, show: Fault -> string)
    ensures Reduce<T, U>([], projection, show) == Success(projection([]))
    ensures ReduceMany<T, U>([], projection, show) == Success(projection([]))
  {
  }

  /** With any failure, ReduceMany is the aggregate failure, whatever the projection. */
  lemma ReduceManyFailure<T, U>(results: seq<Result<seq<T>>>, p: seq<T> -> U, q: seq<T> -> U, show: Fault -> string)
    requires exists i :: 0 <= i < |results| && results[i].IsRight()
    ensures ReduceMany(results, p, show) == ReduceMany(results, q, show) == Failure(AggregateFault(Failures(results), show))
  {
    RightsEmpty(results);
  }

  /** ReduceMany is Flatten followed by the projection of its success. */
  lemma ReduceManyIsFlattenThenProject<T, U>(results: seq<Result<seq<T>>>, projection: seq<T> -> U, show: Fault -> string)
    ensures ReduceMany(results, projection, show)
      == match Flatten(results, show)
         case Left(xs) => Success(projection(xs))
         case Right(f) => Failure(f)
  {
  }

  /** Each Success(v) as Success([v]); failures unchanged. */
  function Singletons<T>(results: seq<Result<T>>): (wrapped: seq<Result<seq<T>>>)
    ensures |wrapped| == |results|
    ensures forall i :: 0 <= i < |results| ==>
      match results[i]
      case Left(v) => wrapped[i] == Success([v])
      case Right(f) => wrapped[i] == Failure(f)
  {
    seq(|results|, i requires 0 <= i < |results| =>
      match results[i]
      case Left(v) => Success([v])
      case Right(f) => Failure(f))
  }

  /** Wrapping each success as a singleton keeps the faults and, concatenated, the successes. */
  lemma {:induction false} SingletonsParts<T>(results: seq<Result<T>>)
    ensures Failures(Singletons(results)) == Failures(results)
    ensures Concat(Successes(Singletons(results))) == Successes(results)
    decreases |results|
  {
    if results != [] {
      var x, rest := results[0], results[1..];
      var w := Singletons(results);
      assert results == [x] + rest;
      assert w == [w[0]] + Singletons(rest);
      LeftsCons(x, rest);
      RightsCons(x, rest);
      LeftsCons(w[0], Singletons(rest));
      RightsCons(w[0], Singletons(rest));
      SingletonsParts(rest);
      if x.IsLeft() {
        ConcatAppend([[x.left]], Successes(Singletons(rest)));
        SelectManyCons([x.left], [], Inner<T>);
      }
    }
  }

  /** The two Reduce overloads agree: reducing a batch is reducing its successes as singleton sequences. */
  lemma ReduceIsReduceManyOfSingletons<T, U>(results: seq<Result<T>>, projection: seq<T> -> U, show: Fault -> string)
    ensures Reduce(results, projection, show) == ReduceMany(Singletons(results), projection, show)
  {
    SingletonsParts(results);
  }
}
