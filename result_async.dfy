/**
 * The asynchronous members of Result<TSuccess>: AsAsync, the two BindAsync
 * overloads, FailureAsync and SuccessAsync. Both binds follow the
 * short-circuit policy: a Failure is passed on and the continuation is not
 * run; a Success hands its value to the continuation, whose task is returned
 * as it is.
 */
module ResultAsync {
  import opened FaultTypes
  import opened Results

  /** Result.AsAsync: a completed task holding the receiver unchanged. */
  function AsAsync<T>(r: Result<T>): (t: Task<Result<T>>)
    ensures t.value == r
  {
    FromResult(r)
  }

  /** Result.FailureAsync: a completed task holding a Failure with this fault. */
  function FailureAsync<T>(fault: Fault): (t: Task<Result<T>>)
    ensures t.value.IsRight() && t.value.right == fault
  {
    FromResult(Failure(fault))
  }

  /** Result.SuccessAsync: a completed task holding a Success with this value. */
  function SuccessAsync<T>(value: T): (t: Task<Result<T>>)
    ensures t.value.IsLeft() && t.value.left == value
  {
    FromResult(Success(value))
  }

  /** Result.BindAsync with a Result-producing continuation. */
  function BindAsync<T, U>(r: Result<T>, successFunc: T -> Task<Result<U>>): (t: Task<Result<U>>)
    ensures r.IsLeft() ==> t == successFunc(r.left)
    ensures r.IsRight() ==> t.value.IsRight() && t.value.right == r.right
  {
    r.Match(successFunc, FailureAsync<U>)
  }

  /** Result.BindAsync with a continuation that reports an optional fault. */
  function BindMaybeAsync<T>(r: Result<T>, successFunc: T -> Task<Maybe<Fault>>): (t: Task<Maybe<Fault>>)
    ensures r.IsLeft() ==> t == successFunc(r.left)
    ensures r.IsRight() ==> t.value == Some(r.right)
  {
    r.Match(successFunc, SomeAsync<Fault>)
  }

  /** On a Failure the continuation does not matter: any two give the same task. */
  lemma BindAsyncIgnoresContinuationOnFailure<T, U>(fault: Fault, k1: T -> Task<Result<U>>, k2: T -> Task<Result<U>>)
    ensures BindAsync(Failure(fault), k1) == BindAsync(Failure(fault), k2) == FailureAsync(fault)
  {
  }

  /** On a Failure the Maybe-continuation does not matter; the same fault comes back as Some. */
  lemma BindMaybeAsyncIgnoresContinuationOnFailure<T>(fault: Fault, k1: T -> Task<Maybe<Fault>>, k2: T -> Task<Maybe<Fault>>)
    ensures BindMaybeAsync(Failure(fault), k1) == BindMaybeAsync(Failure(fault), k2) == SomeAsync(fault)
  {
  }

  /** The Maybe-bind reports no fault exactly when the receiver succeeded and so did the continuation. */
  lemma BindMaybeAsyncNone<T>(r: Result<T>, k: T -> Task<Maybe<Fault>>)
    ensures BindMaybeAsync(r, k).value.None? <==> r.IsLeft() && k(r.left).value.None?
  {
  }

  /** Binding a freshly made Success runs the continuation on its value. */
  lemma BindAsyncLeftIdentity<T, U>(value: T, k: T -> Task<Result<U>>)
    ensures BindAsync(SuccessAsync(value).value, k) == k(value)
  {
  }

  /** Binding SuccessAsync as the continuation gives back the receiver. */
  lemma BindAsyncRightIdentity<T>(r: Result<T>)
    ensures BindAsync(r, SuccessAsync<T>) == AsAsync(r)
  {
  }

  /** Awaiting two binds in turn is the same as binding their composition once. */
  lemma BindAsyncAssociative<T, U, V>(r: Result<T>, f: T -> Task<Result<U>>, g: U -> Task<Result<V>>)
    ensures BindAsync(BindAsync(r, f).value, g) == BindAsync(r, x => BindAsync(f(x).value, g))
  {
  }

  /** The outcome of a chain of binds and, per stage, whether its continuation ran. */
  datatype Trace<T> = Trace(result: Result<T>, invoked: seq<bool>)

  /**
   * `r.BindAsync(stages[0]).BindAsync(stages[1])...`, awaiting each stage
   * before the next; `invoked[i]` records whether stage i's continuation was
   * called, which happens exactly when it received a Success.
   */
  function RunChain<T>(r: Result<T>, stages: seq<T -> Task<Result<T>>>): (t: Trace<T>)
    ensures |t.invoked| == |stages|
    decreases |stages|
  {
    if stages == [] then Trace(r, [])
    else
      var rest := RunChain(BindAsync(r, stages[0]).value, stages[1..]);
      Trace(rest.result, [r.IsLeft()] + rest.invoked)
  }

  /** A chain started on a Failure ends with that Failure and calls no stage. */
  lemma {:induction false} RunChainOnFailure<T>(r: Result<T>, stages: seq<T -> Task<Result<T>>>)
    requires r.IsRight()
    ensures RunChain(r, stages).result == r
    ensures forall i :: 0 <= i < |stages| ==> !RunChain(r, stages).invoked[i]
    decreases |stages|
  {
    if stages != [] {
      RunChainOnFailure(BindAsync(r, stages[0]).value, stages[1..]);
    }
  }

  /** Once a stage is skipped every later stage is skipped too. */
  lemma {:induction false} RunChainSkipsRest<T>(r: Result<T>, stages: seq<T -> Task<Result<T>>>)
    ensures forall i, j :: 0 <= i < j < |stages| && RunChain(r, stages).invoked[j] ==> RunChain(r, stages).invoked[i]
    decreases |stages|
  {
    if stages != [] {
      var next := BindAsync(r, stages[0]).value;
      RunChainSkipsRest(next, stages[1..]);
      if r.IsRight() {
        RunChainOnFailure(r, stages);
      }
    }
  }

  /** A chain that ends in Success called every stage (each exactly once, in order). */
  lemma {:induction false} RunChainAllSucceed<T>(r: Result<T>, stages: seq<T -> Task<Result<T>>>)
    requires RunChain(r, stages).result.IsLeft()
    ensures forall i :: 0 <= i < |stages| ==> RunChain(r, stages).invoked[i]
    decreases |stages|
  {
    if stages != [] {
      if r.IsRight() {
        RunChainOnFailure(r, stages);
      } else {
        RunChainAllSucceed(BindAsync(r, stages[0]).value, stages[1..]);
      }
    }
  }

  /** Running `a + b` is running `a`, then running `b` on what `a` produced. */
  lemma {:induction false} RunChainAppend<T>(r: Result<T>, a: seq<T -> Task<Result<T>>>, b: seq<T -> Task<Result<T>>>)
    ensures RunChain(r, a + b).result == RunChain(RunChain(r, a).result, b).result
    ensures RunChain(r, a + b).invoked == RunChain(r, a).invoked + RunChain(RunChain(r, a).result, b).invoked
    decreases |a|
  {
    if a == [] {
      assert a + b == b;
    } else {
      assert (a + b)[0] == a[0];
      assert (a + b)[1..] == a[1..] + b;
      RunChainAppend(BindAsync(r, a[0]).value, a[1..], b);
    }
  }

  /** The first Failure of a chain is its final result, and no later stage runs. */
  lemma RunChainFirstFailureIsFinal<T>(r: Result<T>, a: seq<T -> Task<Result<T>>>, b: seq<T -> Task<Result<T>>>)
    requires RunChain(r, a).result.IsRight()
    ensures RunChain(r, a + b).result == RunChain(r, a).result
    ensures forall i :: |a| <= i < |a| + |b| ==> !RunChain(r, a + b).invoked[i]
  {
    RunChainAppend(r, a, b);
    RunChainOnFailure(RunChain(r, a).result, b);
  }

  /**
   * A stage whose flag is unset is never called: putting any other
   * continuation in its place leaves the whole trace, result and flags,
   * unchanged.
   */
  lemma RunChainSkippedStageIrrelevant<T>(r: Result<T>, a: seq<T -> Task<Result<T>>>, k: T -> Task<Result<T>>,
                                          k': T -> Task<Result<T>>, b: seq<T -> Task<Result<T>>>)
    requires !RunChain(r, a + [k] + b).invoked[|a|]
    ensures RunChain(r, a + [k] + b) == RunChain(r, a + [k'] + b)
  {
    var m := RunChain(r, a).result;
    assert a + [k] + b == a + ([k] + b);
    assert a + [k'] + b == a + ([k'] + b);
    RunChainAppend(r, a, [k] + b);
    RunChainAppend(r, a, [k'] + b);
    assert RunChain(m, [k] + b).invoked[0] == m.IsLeft();
    RunChainOnFailure(m, [k] + b);
    RunChainOnFailure(m, [k'] + b);
    assert RunChain(m, [k] + b).invoked == RunChain(m, [k'] + b).invoked;
  }
}
