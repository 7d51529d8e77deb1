/**
 * Result<TSuccess> and the small containers the combinators return.
 *
 * A Result is a OneOf whose Left side is the success value and whose Right
 * side is the Fault. A task is modelled by the value it completes with, so
 * awaiting it is `.value`; pending, faulted and cancelled tasks are left out.
 */
module Results {
  import opened OneOfs
  import opened FaultTypes

  type Result<T> = OneOf<T, Fault>

  /** Result.Success */
  function Success<T>(value: T): (r: Result<T>)
    ensures r.IsLeft() && r.left == value
  {
    Left(value)
  }

  /** Result.Failure */
  function Failure<T>(fault: Fault): (r: Result<T>)
    ensures r.IsRight() && r.right == fault
  {
    Right(fault)
  }

  /** The optional container, reduced to its two cases. */
  datatype Maybe<T> = Some(value: T) | None

  /** A task, modelled by the value it completes with (`Task.FromResult`). */
  datatype Task<T> = FromResult(value: T)

  /** Maybe.SomeAsync: a completed task holding Some of the value. */
  function SomeAsync<T>(value: T): (t: Task<Maybe<T>>)
    ensures t.value.Some? && t.value.value == value
  {
    FromResult(Some(value))
  }
}
