/**
 * The structured failure payload and its aggregate form.
 *
 * A Fault carries a code, a title, a detail text and a provenance marker.
 * AggregateFault is the Fault that wraps an ordered batch of Faults; its code
 * and title are fixed and its detail is the contained faults' string forms
 * joined by CR LF.
 */
module FaultTypes {

  /**
   * Provenance marker. Its contents are not part of this model, so it has a
   * single value, the one a freshly constructed source takes.
   */
  datatype FaultSource = FaultSource

  /**
   * A Fault, or an aggregate of Faults. In the library an aggregate can only
   * be made by the AggregateFault constructor below; `Constructed` states
   * that shape, and every aggregate the combinators produce has it.
   */
  datatype Fault =
    | Fault(code: string, title: string, detail: string, source: FaultSource)
    | Aggregate(code: string, title: string, detail: string, source: FaultSource, faults: seq<Fault>)

  /** `string.Join`: the parts in order with `sep` between each neighbouring pair. */
  function Join(sep: string, parts: seq<string>): (joined: string)
    ensures parts == [] ==> joined == ""
    ensures |parts| > 0 ==> parts[0] <= joined
    ensures |parts| == 1 ==> joined == parts[0]
    decreases |parts|
  {
    if |parts| == 0 then ""
    else if |parts| == 1 then parts[0]
    else parts[0] + sep + Join(sep, parts[1..])
  }

  /** The string forms of the faults, one per fault, in order. */
  function Render(faults: seq<Fault>, show: Fault -> string): (texts: seq<string>)
    ensures |texts| == |faults|
    ensures forall i :: 0 <= i < |faults| ==> texts[i] == show(faults[i])
  {
    seq(|faults|, i requires 0 <= i < |faults| => show(faults[i]))
  }

  /**
   * The AggregateFault constructor. `show` stands for Fault.ToString, which
   * string.Join applies to every fault and which is not part of this model.
   */
  function AggregateFault(faults: seq<Fault>, show: Fault -> string): (f: Fault)
    ensures f.Aggregate?
    ensures f.code == "AggregateFault"
    ensures f.title == "Aggregate errors"
    ensures f.source == FaultSource
    ensures f.faults == faults
    ensures f.detail == Join("\r\n", Render(faults, show))
  {
    Aggregate("AggregateFault", "Aggregate errors", Join("\r\n", Render(faults, show)), FaultSource, faults)
  }

  /** AggregateFault.Faults */
  function Faults(aggregate: Fault): (faults: seq<Fault>)
    requires aggregate.Aggregate?
    ensures faults == aggregate.faults
  {
    aggregate.faults
  }

  /** An aggregate with the shape only the AggregateFault constructor gives (for the string form `show`). */
  predicate Constructed(f: Fault, show: Fault -> string)
  {
    f.Aggregate? && f == AggregateFault(f.faults, show)
  }

  /** The constructor's aggregates have that shape, and an aggregate has it exactly when its code, title, source and detail are the constructor's. */
  lemma ConstructedShape(faults: seq<Fault>, f: Fault, show: Fault -> string)
    ensures Constructed(AggregateFault(faults, show), show)
    ensures f.Aggregate? ==>
      (Constructed(f, show) <==>
        f.code == "AggregateFault" && f.title == "Aggregate errors" && f.source == FaultSource
        && f.detail == Join("\r\n", Render(f.faults, show)))
  {
  }

  /** The Faults property gives back exactly the batch the constructor was given. */
  lemma AggregateFaultsRoundTrip(faults: seq<Fault>, show: Fault -> string)
    ensures Faults(AggregateFault(faults, show)) == faults
    ensures |Faults(AggregateFault(faults, show))| == |faults|
  {
  }

  /** The total length of a batch of strings. */
  function TotalLength(parts: seq<string>): nat
    decreases |parts|
  {
    if parts == [] then 0 else |parts[0]| + TotalLength(parts[1..])
  }

  /** Joining two non-empty batches puts exactly one separator between them. */
  lemma {:induction false} JoinAppend(sep: string, a: seq<string>, b: seq<string>)
    requires |a| > 0 && |b| > 0
    ensures Join(sep, a + b) == Join(sep, a) + sep + Join(sep, b)
    decreases |a|
  {
    if |a| == 1 {
      assert (a + b)[1..] == b;
    } else {
      assert (a + b)[1..] == a[1..] + b;
      JoinAppend(sep, a[1..], b);
    }
  }

  /** A join of n parts adds n - 1 separators to the parts themselves. */
  lemma {:induction false} JoinLength(sep: string, parts: seq<string>)
    ensures |Join(sep, parts)| == TotalLength(parts) + (if parts == [] then 0 else (|parts| - 1) * |sep|)
    decreases |parts|
  {
    if |parts| == 1 {
      assert parts[1..] == [];
    } else if |parts| > 1 {
      JoinLength(sep, parts[1..]);
    }
  }

  /**
   * The detail of an aggregate: empty for no faults, the fault's own string
   * for one, and the first fault's string, CR LF, then the rest's detail for
   * more.
   */
  lemma AggregateDetail(faults: seq<Fault>, show: Fault -> string)
    ensures faults == [] ==> AggregateFault(faults, show).detail == ""
    ensures |faults| == 1 ==> AggregateFault(faults, show).detail == show(faults[0])
    ensures |faults| > 1 ==>
      AggregateFault(faults, show).detail == show(faults[0]) + "\r\n" + AggregateFault(faults[1..], show).detail
  {
    if |faults| > 1 {
      assert Render(faults, show)[1..] == Render(faults[1..], show);
    }
  }

  /** The detail's length: every fault's string plus two characters per separator. */
  lemma AggregateDetailLength(faults: seq<Fault>, show: Fault -> string)
    requires |faults| > 0
    ensures |AggregateFault(faults, show).detail| == TotalLength(Render(faults, show)) + 2 * (|faults| - 1)
  {
    JoinLength("\r\n", Render(faults, show));
  }

  /** An aggregate of two non-empty batches joins their details with one CR LF. */
  lemma AggregateDetailAppend(a: seq<Fault>, b: seq<Fault>, show: Fault -> string)
    requires |a| > 0 && |b| > 0
    ensures AggregateFault(a + b, show).detail
      == AggregateFault(a, show).detail + "\r\n" + AggregateFault(b, show).detail
  {
    assert Render(a + b, show) == Render(a, show) + Render(b, show);
    JoinAppend("\r\n", Render(a, show), Render(b, show));
  }

  /** An aggregate is never one of the faults it wraps, so wrapping always changes the fault. */
  lemma AggregateIsNew(faults: seq<Fault>, show: Fault -> string)
    ensures AggregateFault(faults, show) !in faults
  {
  }
}
