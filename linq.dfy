/**
 * The two System.Linq operators the combinator layer is written in, over
 * finite sequences: Enumerable.Where (filter, order kept) and
 * Enumerable.SelectMany (map each element to a sequence and concatenate).
 * Enumerables are modelled as finite sequences that read the same every time.
 */
module Linq {

  /** Enumerable.Where: the elements of `s` that satisfy `p`, in their original order. */
  function Where<T>(s: seq<T>, p: T -> bool): (r: seq<T>)
    ensures |r| <= |s|
    ensures forall i :: 0 <= i < |r| ==> r[i] in s && p(r[i])
    ensures forall i :: 0 <= i < |s| && p(s[i]) ==> s[i] in r
    decreases |s|
  {
    if s == [] then [] else (if p(s[0]) then [s[0]] else []) + Where(s[1..], p)
  }

  /** Enumerable.SelectMany: the sequences `f(x)` for every `x` of `s`, concatenated in order. */
  function SelectMany<T, U>(s: seq<T>, f: T -> seq<U>): (r: seq<U>)
    ensures (forall i :: 0 <= i < |s| ==> |f(s[i])| <= 1) ==> |r| <= |s|
    ensures (forall i :: 0 <= i < |s| ==> f(s[i]) == []) ==> r == []
    ensures |s| > 0 ==> f(s[0]) <= r
    decreases |s|
  {
    if s == [] then [] else f(s[0]) + SelectMany(s[1..], f)
  }

  /** One step of Where on a sequence with a known head. */
  lemma WhereCons<T>(x: T, s: seq<T>, p: T -> bool)
    ensures Where([x] + s, p) == (if p(x) then [x] else []) + Where(s, p)
  {
    assert ([x] + s)[1..] == s;
  }

  /** One step of SelectMany on a sequence with a known head. */
  lemma SelectManyCons<T, U>(x: T, s: seq<T>, f: T -> seq<U>)
    ensures SelectMany([x] + s, f) == f(x) + SelectMany(s, f)
  {
    assert ([x] + s)[1..] == s;
  }

  /** Filtering a concatenation filters each part. */
  lemma {:induction false} WhereAppend<T>(a: seq<T>, b: seq<T>, p: T -> bool)
    ensures Where(a + b, p) == Where(a, p) + Where(b, p)
    decreases |a|
  {
    if a == [] {
      assert a + b == b;
    } else {
      var head := if p(a[0]) then [a[0]] else [];
      calc {
        Where(a + b, p);
        { assert a + b == [a[0]] + (a[1..] + b); WhereCons(a[0], a[1..] + b, p); }
        head + Where(a[1..] + b, p);
        { WhereAppend(a[1..], b, p); }
        head + (Where(a[1..], p) + Where(b, p));
        (head + Where(a[1..], p)) + Where(b, p);
        { assert a == [a[0]] + a[1..]; WhereCons(a[0], a[1..], p); }
        Where(a, p) + Where(b, p);
      }
    }
  }

  /** Projecting a concatenation projects each part. */
  lemma {:induction false} SelectManyAppend<T, U>(a: seq<T>, b: seq<T>, f: T -> seq<U>)
    ensures SelectMany(a + b, f) == SelectMany(a, f) + SelectMany(b, f)
    decreases |a|
  {
    if a == [] {
      assert a + b == b;
    } else {
      assert a + b == [a[0]] + (a[1..] + b);
      assert a == [a[0]] + a[1..];
      SelectManyCons(a[0], a[1..] + b, f);
      SelectManyCons(a[0], a[1..], f);
      SelectManyAppend(a[1..], b, f);
    }
  }
}
