/**
 * FuncExtensions.Compose: `f.Compose(g)` is the function that feeds its
 * input to `f` and `f`'s output to `g`. Chains `f.Compose(g).Compose(h)...`
 * are studied over functions from one type to itself.
 */
module FuncExtensions {

  /** FuncExtensions.Compose */
  function Compose<A, B, C>(inFunc: A -> B, chainedFunc: B -> C): A -> C
  {
    x => chainedFunc(inFunc(x))
  }

  /** The composed function runs `inFunc` on the original input and `chainedFunc` on its output. */
  lemma ComposeApplies<A, B, C>(inFunc: A -> B, chainedFunc: B -> C, x: A)
    ensures Compose(inFunc, chainedFunc)(x) == chainedFunc(inFunc(x))
  {
  }

  /** Composition chains associatively, and both groupings run f, then g, then h. */
  lemma ComposeAssociative<A, B, C, D>(f: A -> B, g: B -> C, h: C -> D, x: A)
    ensures Compose(Compose(f, g), h)(x) == h(g(f(x)))
    ensures Compose(f, Compose(g, h))(x) == h(g(f(x)))
  {
  }

  /** `fs[0].Compose(fs[1]).Compose(fs[2])...`, grouped to the left as a fluent chain is. */
  function ComposeAll<T>(fs: seq<T -> T>): T -> T
    requires |fs| > 0
    decreases |fs|
  {
    if |fs| == 1 then fs[0] else Compose(ComposeAll(fs[..|fs| - 1]), fs[|fs| - 1])
  }

  /** Runs the stages one after another, front to back, on `x`. */
  function Apply<T>(fs: seq<T -> T>, x: T): T
    decreases |fs|
  {
    if fs == [] then x else Apply(fs[1..], fs[0](x))
  }

  /** The input each stage receives when the stages run front to back on `x`. */
  function Inputs<T>(fs: seq<T -> T>, x: T): seq<T>
    decreases |fs|
  {
    if fs == [] then [] else [x] + Inputs(fs[1..], fs[0](x))
  }

  /** Running one more stage at the end applies it to what the others produced. */
  lemma {:induction false} ApplySnoc<T>(fs: seq<T -> T>, f: T -> T, x: T)
    ensures Apply(fs + [f], x) == f(Apply(fs, x))
    decreases |fs|
  {
    if fs == [] {
      assert ([] + [f])[1..] == [];
    } else {
      assert (fs + [f])[1..] == fs[1..] + [f];
      ApplySnoc(fs[1..], f, fs[0](x));
    }
  }

  /** A composed chain computes exactly what running its stages in order computes. */
  lemma {:induction false} ComposeAllRuns<T>(fs: seq<T -> T>, x: T)
    requires |fs| > 0
    ensures ComposeAll(fs)(x) == Apply(fs, x)
    decreases |fs|
  {
    if |fs| == 1 {
      assert fs[1..] == [];
    } else {
      var init, last := fs[..|fs| - 1], fs[|fs| - 1];
      assert fs == init + [last];
      ComposeAllRuns(init, x);
      ApplySnoc(init, last, x);
    }
  }

  /**
   * Every stage of a chain runs once: the first receives the original input,
   * each later one receives exactly its predecessor's output, and the chain's
   * result is the last stage's output.
   */
  lemma {:induction false} InputsChain<T>(fs: seq<T -> T>, x: T)
    ensures |Inputs(fs, x)| == |fs|
    ensures fs != [] ==> Inputs(fs, x)[0] == x
    ensures forall i :: 0 <= i < |fs| - 1 ==> Inputs(fs, x)[i + 1] == fs[i](Inputs(fs, x)[i])
    ensures fs != [] ==> Apply(fs, x) == fs[|fs| - 1](Inputs(fs, x)[|fs| - 1])
    decreases |fs|
  {
    if fs != [] {
      var rest := fs[1..];
      InputsChain(rest, fs[0](x));
      if rest == [] {
        assert Apply(rest, fs[0](x)) == fs[0](x);
      } else {
        assert forall i :: 1 <= i < |fs| ==> fs[i] == rest[i - 1];
      }
    }
  }
}
