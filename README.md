# Synonms.Functional combinators in Dafny

This project models the combinator layer of Synonms.Functional, a small C#
library of tagged containers: `OneOf<TLeft, TRight>` (exactly one of two
sides), `Result<TSuccess>` (a OneOf whose Left is the success value and whose
Right is a `Fault`) and `Maybe<T>`. It covers five pieces:

- the sequence projections `Lefts` / `Rights` (`linq.dfy`, `oneof_extensions.dfy`);
- the batch combinators `Successes`, `Failures`, `Flatten` and the two
  `Reduce` overloads, with their accumulate policy: every element is
  inspected, and any failure turns the whole answer into one Failure
  wrapping an `AggregateFault` of all faults in order (`result_extensions.dfy`);
- the `AggregateFault` constructor: its fixed code and title, its `Faults`,
  and a detail built by joining the faults' string forms with CR LF (`fault.dfy`);
- the short-circuit policy of `Result.BindAsync` (both overloads) with
  `AsAsync`, `SuccessAsync` and `FailureAsync` (`result_async.dfy`);
- function composition `Compose` (`func_extensions.dfy`).

The supporting types are in `oneof.dfy` and `result.dfy`. Everything is
pure, so the model is made of datatypes, functions and lemmas. Enumerables
are finite sequences. A task is modelled by the value it completes with:
the one-constructor datatype `Task<T> = FromResult(value)`, where awaiting
it is `.value`; pending, faulted and cancelled tasks are left out.
`MatchAsync` is the total `Match` with branches that return tasks.

Two things the combinators call are not visible, so they are parameters or
opaque values:

- `Fault.ToString`, which `string.Join` applies to each fault, is the
  parameter `show: Fault -> string` of `AggregateFault`, `Flatten`, `Reduce`
  and `ReduceMany`.
- `FaultSource` is a single-valued marker.

Two facts about the source's behaviour shape the model:

- An aggregate's code is the literal `AggregateFault` (from `nameof`) and
  its title is the literal `Aggregate errors`; only its detail is derived
  from the faults (AggregateFault.cs:8).
- A Result's success is the OneOf's Left side, because `Successes` is `Lefts`.

"The continuation is never invoked" is stated two ways. One is a lemma that
the bind's result does not depend on the continuation. The other is
`RunChain`, which records for each stage of a bind chain whether its
continuation was called.

## Model

| member | source | states |
|---|---|---|
| `OneOfs.OneOf.Match` | Synonms.Functional.Tests.Unit/OneOfTests.cs:98-120 | the total match returns the Left branch's value on a Left and the Right branch's on a Right |
| `OneOfs.OneOf.LeftAsEnumerable` | Synonms.Functional.Tests.Unit/OneOfTests.cs:147-167 | one element, the Left payload, exactly when the tag is Left; otherwise empty |
| `OneOfs.OneOf.RightAsEnumerable` | Synonms.Functional.Tests.Unit/OneOfTests.cs:169-191 | one element, the Right payload, exactly when the tag is Right; otherwise empty |
| `OneOfs.ExactlyOneSide` | Synonms.Functional.Tests.Unit/OneOfTests.cs:17-33 | every union is Left or Right and never both; the two enumerables hold one element between them |
| `Linq.Where` | Synonms.Functional/Extensions/OneOfExtensions.cs:9 | the filter is no longer than its input, keeps only elements of the input that satisfy the predicate, and keeps every such element |
| `Linq.SelectMany` | Synonms.Functional/Extensions/OneOfExtensions.cs:10 | the result is empty when every selected sequence is, starts with the first element's sequence, and is no longer than the input when each selected sequence has at most one element; `SelectManyAppend` gives its behaviour on concatenations |
| `Linq.WhereAppend` | Synonms.Functional/Extensions/OneOfExtensions.cs:9 | filtering a concatenation is concatenating the filtered parts |
| `Linq.SelectManyAppend` | Synonms.Functional/Extensions/OneOfExtensions.cs:10 | SelectMany of a concatenation is the concatenation of the parts' SelectMany |
| `OneOfExtensions.Lefts` | Synonms.Functional/Extensions/OneOfExtensions.cs:8-10 | Lefts is no longer than its input, is empty when every element is a Right, and starts with a leading Left's payload; `LeftsCons` with the empty case pins it down completely, as do `LeftsRightsReconstruct` with `ReconstructUnique` |
| `OneOfExtensions.Rights` | Synonms.Functional/Extensions/OneOfExtensions.cs:12-14 | Rights is no longer than its input, is empty when every element is a Left, and starts with a leading Right's payload; `RightsCons` with the empty case pins it down completely, as do `LeftsRightsReconstruct` with `ReconstructUnique` |
| `OneOfExtensions.LeftsCons` | Synonms.Functional/Extensions/OneOfExtensions.cs:8-10 | a leading Left contributes its payload ahead of the rest's Lefts; a leading Right contributes nothing |
| `OneOfExtensions.RightsCons` | Synonms.Functional/Extensions/OneOfExtensions.cs:12-14 | a leading Right contributes its payload ahead of the rest's Rights; a leading Left contributes nothing |
| `OneOfExtensions.LeftsAppend` | Synonms.Functional/Extensions/OneOfExtensions.cs:8-10 | `Lefts(a + b) == Lefts(a) + Lefts(b)` |
| `OneOfExtensions.RightsAppend` | Synonms.Functional/Extensions/OneOfExtensions.cs:12-14 | `Rights(a + b) == Rights(a) + Rights(b)` |
| `OneOfExtensions.LeftsRightsLength` | Synonms.Functional/Extensions/OneOfExtensions.cs:8-14 | the lengths of Lefts and Rights add up to the input length |
| `OneOfExtensions.LeftsMembership` | Synonms.Functional/Extensions/OneOfExtensions.cs:8-10 | a value is in Lefts exactly when the input holds it as a Left |
| `OneOfExtensions.RightsMembership` | Synonms.Functional/Extensions/OneOfExtensions.cs:12-14 | a value is in Rights exactly when the input holds it as a Right |
| `OneOfExtensions.LeftsEmpty` | Synonms.Functional.Tests.Unit/Extensions/OneOfExtensionsTests.cs:9-22 | Lefts is empty exactly when every element is a Right |
| `OneOfExtensions.RightsEmpty` | Synonms.Functional.Tests.Unit/Extensions/OneOfExtensionsTests.cs:44-57 | Rights is empty exactly when every element is a Left |
| `OneOfExtensions.LeftsRightsReconstruct` | Synonms.Functional/Extensions/OneOfExtensions.cs:8-14 | interleaving Lefts and Rights along the original tags rebuilds the input and their lengths add up to the input's, so no payload is left over and each projection holds exactly its side's payloads in original order |
| `OneOfExtensions.ReconstructUnique` | Synonms.Functional/Extensions/OneOfExtensions.cs:8-14 | any two sequences that interleave back to the input along its tags with no payload left over are exactly its Lefts and Rights, so the reconstruction determines both projections |
| `FaultTypes.AggregateFault` | Synonms.Functional/AggregateFault.cs:7-11 | the result is an aggregate with code `AggregateFault`, title `Aggregate errors`, the single source value, exactly the given faults, and detail the CR LF join of their string forms |
| `FaultTypes.Faults` | Synonms.Functional/AggregateFault.cs:13 | the property returns the batch the aggregate holds |
| `FaultTypes.ConstructedShape` | Synonms.Functional/AggregateFault.cs:7-8 | the constructor's aggregates have its shape, and an aggregate has that shape exactly when its code, title, source and detail are the constructor's |
| `FaultTypes.AggregateFaultsRoundTrip` | Synonms.Functional/AggregateFault.cs:10-13 | Faults gives back exactly the batch, same order and length |
| `FaultTypes.Join` | Synonms.Functional/AggregateFault.cs:8 | `string.Join` gives the empty string for no parts, the part itself for one, and always starts with the first part; `JoinAppend` and `JoinLength` fix the separators |
| `FaultTypes.JoinAppend` | Synonms.Functional/AggregateFault.cs:8 | joining two non-empty batches puts one separator between their joins |
| `FaultTypes.JoinLength` | Synonms.Functional/AggregateFault.cs:8 | a join of n parts is the parts' total length plus n - 1 separators |
| `FaultTypes.AggregateDetail` | Synonms.Functional/AggregateFault.cs:8 | the detail is empty for no faults, the fault's string for one, and first string, CR LF, rest's detail for more |
| `FaultTypes.AggregateDetailLength` | Synonms.Functional/AggregateFault.cs:8 | the detail's length is the strings' total length plus 2 per separator, n - 1 separators |
| `FaultTypes.AggregateDetailAppend` | Synonms.Functional/AggregateFault.cs:8 | the detail of an aggregate of `a + b` is the two details joined by one CR LF |
| `FaultTypes.AggregateIsNew` | Synonms.Functional/AggregateFault.cs:5-11 | an aggregate is never one of the faults it wraps |
| `Results.Success` | Synonms.Functional/Result.Async.cs:25 | a Success is a Left that holds the value |
| `Results.Failure` | Synonms.Functional/Result.Async.cs:22 | a Failure is a Right that holds the fault |
| `Results.SomeAsync` | Synonms.Functional/Result.Async.cs:19 | a completed task holding Some of the value |
| `ResultAsync.AsAsync` | Synonms.Functional/Result.Async.cs:8-9 | a completed task whose value is the receiver unchanged |
| `ResultAsync.FailureAsync` | Synonms.Functional/Result.Async.cs:21-22 | a completed task holding a Failure with the given fault |
| `ResultAsync.SuccessAsync` | Synonms.Functional/Result.Async.cs:24-25 | a completed task holding a Success with the given value |
| `ResultAsync.BindAsync` | Synonms.Functional/Result.Async.cs:11-14 | on a Success the continuation's task for the value is returned as is, success or failure; on a Failure the result is a Failure with the same fault |
| `ResultAsync.BindMaybeAsync` | Synonms.Functional/Result.Async.cs:16-19 | on a Success the continuation's Maybe is returned as is; on a Failure the result is Some of the same fault |
| `ResultAsync.BindAsyncIgnoresContinuationOnFailure` | Synonms.Functional/Result.Async.cs:14 | on a Failure any two continuations give the same task, the FailureAsync of the fault |
| `ResultAsync.BindMaybeAsyncIgnoresContinuationOnFailure` | Synonms.Functional/Result.Async.cs:19 | on a Failure any two continuations give the same task, Some of the fault |
| `ResultAsync.BindMaybeAsyncNone` | Synonms.Functional/Result.Async.cs:16-19 | the Maybe-bind yields None exactly when the receiver succeeded and the continuation yielded None |
| `ResultAsync.BindAsyncLeftIdentity` | Synonms.Functional/Result.Async.cs:11-14 | binding SuccessAsync(v) runs the continuation on v |
| `ResultAsync.BindAsyncRightIdentity` | Synonms.Functional/Result.Async.cs:11-14 | binding SuccessAsync as the continuation returns the receiver |
| `ResultAsync.BindAsyncAssociative` | Synonms.Functional/Result.Async.cs:11-14 | two awaited binds in turn equal one bind of the composed continuation |
| `ResultAsync.RunChain` | Synonms.Functional.Tests.Unit/ResultAsyncTests.cs:19-21 | a chain of binds records one invoked flag per stage |
| `ResultAsync.RunChainOnFailure` | Synonms.Functional.Tests.Unit/ResultAsyncTests.cs:33-54 | a chain started on a Failure ends with that Failure and calls no stage |
| `ResultAsync.RunChainSkipsRest` | Synonms.Functional.Tests.Unit/ResultAsyncTests.cs:33-54 | once a stage is skipped every later stage is skipped |
| `ResultAsync.RunChainAllSucceed` | Synonms.Functional.Tests.Unit/ResultAsyncTests.cs:12-31 | a chain that ends in Success has every stage's invoked flag set |
| `ResultAsync.RunChainAppend` | Synonms.Functional/Result.Async.cs:11-14 | running stages `a + b` is running `a`, then `b` on its outcome, with the invoked flags concatenated |
| `ResultAsync.RunChainSkippedStageIrrelevant` | Synonms.Functional/Result.Async.cs:11-14 | a stage whose flag is unset can be replaced by any continuation without changing the trace, so the flag means the continuation was not called |
| `ResultAsync.RunChainFirstFailureIsFinal` | Synonms.Functional.Tests.Unit/ResultAsyncTests.cs:33-54 | when a prefix of the chain ends in Failure, that Failure is the final result and no later stage runs |
| `ResultExtensions.Flatten` | Synonms.Functional/Extensions/ResultExtensions.cs:15-21 | Flatten fails exactly when some element of the batch failed |
| `ResultExtensions.Reduce` | Synonms.Functional/Extensions/ResultExtensions.cs:23-29 | Reduce fails exactly when some element of the batch failed |
| `ResultExtensions.ReduceMany` | Synonms.Functional/Extensions/ResultExtensions.cs:31-37 | the sequence-valued Reduce fails exactly when some element of the batch failed |
| `ResultExtensions.Successes` | Synonms.Functional/Extensions/ResultExtensions.cs:9-10 | no more successes than results, none when all failed, and a leading Success's value first; it is `Lefts` of the batch, so `LeftsCons` pins it down completely, as does `SuccessesFailuresReconstruct` |
| `ResultExtensions.Failures` | Synonms.Functional/Extensions/ResultExtensions.cs:12-13 | no more failures than results, none when all succeeded, and a leading Failure's fault first; it is `Rights` of the batch, so `RightsCons` pins it down completely, as does `SuccessesFailuresReconstruct` |
| `ResultExtensions.SuccessesFailuresLength` | Synonms.Functional/Extensions/ResultExtensions.cs:9-13 | the numbers of successes and failures add up to the batch size |
| `ResultExtensions.SuccessesFailuresReconstruct` | Synonms.Functional/Extensions/ResultExtensions.cs:9-13 | interleaving Successes and Failures along the tags rebuilds the batch and their lengths add up to the batch size: exactly the payloads, each in original relative order |
| `ResultExtensions.SuccessesFailuresEmpty` | Synonms.Functional.Tests.Unit/Extensions/ResultExtensionsTests.cs:52-146 | Successes is empty exactly when all failed; Failures is empty exactly when all succeeded |
| `ResultExtensions.SuccessesFailuresExample` | Synonms.Functional.Tests.Unit/Extensions/ResultExtensionsTests.cs:33-50 | `[Success(1), Failure(e2), Success(3), Failure(e4)]` has successes `[1, 3]` and failures `[e2, e4]` |
| `ResultExtensions.SingleParts` | Synonms.Functional/Extensions/ResultExtensions.cs:9-13 | a one-element batch projects to that element's LeftAsEnumerable and RightAsEnumerable |
| `ResultExtensions.Concat` | Synonms.Functional/Extensions/ResultExtensions.cs:20 | `SelectMany(x => x)` is empty when every inner sequence is and starts with the first inner sequence; `ConcatAppend` and `ConcatEmptyInner` give the rest |
| `ResultExtensions.ConcatAppend` | Synonms.Functional/Extensions/ResultExtensions.cs:20 | `SelectMany(x => x)` of a concatenation is the concatenation of the parts' |
| `ResultExtensions.ConcatEmptyInner` | Synonms.Functional/Extensions/ResultExtensions.cs:20 | an empty inner sequence adds nothing to the concatenation |
| `ResultExtensions.FlattenFailure` | Synonms.Functional/Extensions/ResultExtensions.cs:15-19 | with at least one failure, Flatten is one Failure of an AggregateFault of exactly Failures(batch), non-empty, in order |
| `ResultExtensions.FlattenSingleFailure` | Synonms.Functional/Extensions/ResultExtensions.cs:17-19 | a single failure is still wrapped in a one-element aggregate, never passed on bare |
| `ResultExtensions.FlattenSuccess` | Synonms.Functional/Extensions/ResultExtensions.cs:20 | with no failure, Flatten is Success of the in-order concatenation of the inner sequences |
| `ResultExtensions.FlattenEmpty` | Synonms.Functional/Extensions/ResultExtensions.cs:17-20 | Flatten of an empty batch is `Success([])` |
| `ResultExtensions.FlattenAppend` | Synonms.Functional/Extensions/ResultExtensions.cs:15-21 | Flatten of `a + b` succeeds iff both parts do, then with the parts' values concatenated; otherwise its aggregate holds a's faults followed by b's |
| `ResultExtensions.FlattenIgnoresEmptySuccess` | Synonms.Functional.Tests.Unit/Extensions/ResultExtensionsTests.cs:148-170 | a `Success([])` anywhere in the batch does not change Flatten |
| `ResultExtensions.ReduceSuccess` | Synonms.Functional/Extensions/ResultExtensions.cs:28 | with no failure, Reduce is Success of the projection of all success values in order |
| `ResultExtensions.ReduceFailure` | Synonms.Functional/Extensions/ResultExtensions.cs:25-27 | with any failure, Reduce is the aggregate failure of Failures(batch), whatever the projection |
| `ResultExtensions.ReduceEmpty` | Synonms.Functional/Extensions/ResultExtensions.cs:23-37 | both Reduce overloads on an empty batch give `Success(projection([]))` |
| `ResultExtensions.ReduceManyFailure` | Synonms.Functional/Extensions/ResultExtensions.cs:33-35 | with any failure, the sequence-valued Reduce is the aggregate failure, whatever the projection |
| `ResultExtensions.ReduceManyIsFlattenThenProject` | Synonms.Functional/Extensions/ResultExtensions.cs:31-37 | the sequence-valued Reduce is Flatten followed by the projection of its success |
| `ResultExtensions.SingletonsParts` | Synonms.Functional/Extensions/ResultExtensions.cs:23-37 | wrapping successes as singletons keeps the faults and, concatenated, the successes |
| `ResultExtensions.ReduceIsReduceManyOfSingletons` | Synonms.Functional/Extensions/ResultExtensions.cs:23-37 | the two Reduce overloads agree once each success is a one-element sequence |
| `FuncExtensions.Compose` | Synonms.Functional/Extensions/FuncExtensions.cs:7-10 | the composed function; `ComposeApplies` states that it runs `inFunc` and then `chainedFunc`, and `ComposeAllRuns` that a fluent chain runs its stages in order |
| `FuncExtensions.ComposeApplies` | Synonms.Functional/Extensions/FuncExtensions.cs:7-10 | `Compose(f, g)(x) == g(f(x))` for every x |
| `FuncExtensions.ComposeAssociative` | Synonms.Functional/Extensions/FuncExtensions.cs:9 | both groupings of three composed functions compute `h(g(f(x)))` |
| `FuncExtensions.ApplySnoc` | Synonms.Functional/Extensions/FuncExtensions.cs:9 | running one more stage at the end applies it to the others' output |
| `FuncExtensions.ComposeAllRuns` | Synonms.Functional.Tests.Unit/Extensions/FuncExtensionsTests.cs:70-81 | a fluent chain of Compose calls computes what running its stages in order computes |
| `FuncExtensions.InputsChain` | Synonms.Functional.Tests.Unit/Extensions/FuncExtensionsTests.cs:18-35 | every stage runs once; the first gets the original input, each later one its predecessor's output, and the result is the last stage's output |

## Left out

- `Task` scheduling, awaiting and deferred execution: a task is modelled by the value it completes with; pending, faulted and cancelled tasks are left out, so there is no concurrency in the model.
- Null collections and null elements: a null `oneOfs` or `results` makes `Where` throw `ArgumentNullException`, and a null inner sequence makes `SelectMany(x => x)` throw when enumerated; the model has no null, so these exceptions are not modelled.
- Lazy `IEnumerable` evaluation and the double enumeration of `results` in `Flatten`/`Reduce`: inputs are finite sequences that read the same every time.
- `Fault.ToString` and the contents of `FaultSource` are not part of this model. The string form is a parameter, and every source is the same value, so reference identity of sources is not modelled.
- Fault subclasses with extra fields (such as the tests' `TestFault` counter) are not modelled: a Fault is its code, title, detail and source.
- The `Maybe<T>` type and its extensions (`Collect`, `Reduce` over Maybe, `ToResult`, `ToResultAsync`, `BiBindAsync`, `Coalesce`) and their null/default collapse: only the two cases of `Maybe<Fault>` that `BindAsync` returns are modelled.
- `Maybe.SomeAsync` collapsing a null fault to None: faults are never null here.
- The explicit casts of OneOf, Result and Maybe, which throw on the wrong side: a runtime exception of types that are not part of this model.
- The synchronous `Result.Bind` and `Result.Match` (in `Result.cs`, not part of this model): `BindAsync` models the same short-circuit policy.
- `RunChain`, `ComposeAll`, `Apply`, `Inputs`: chains of binds and compositions are stated over one element type, while the tests chain different types at each stage.
- `ResultAsync.RunChain`: its invoked flag per stage stands for the tests' invocation counters; its contract only fixes the flag count, and the lemmas beside it say which flags are set.
