/** Optional values, used wherever the scripts would throw on malformed input. */
module Wrappers {

  datatype Option<+T> = None | Some(value: T)

  /** The list form of an optional value, as `?.let { yield(it) }` emits it. */
  function OptionToSeq<T>(o: Option<T>): (s: seq<T>)
    ensures |s| <= 1
    ensures o.None? ==> s == []
    ensures o.Some? ==> s == [o.value]
  {
    match o
    case None => []
    case Some(v) => [v]
  }

  /** `xs.map(f)` where `f` may fail: None as soon as one element fails, else every result in order. */
  function MapAll<A, B>(xs: seq<A>, f: A -> Option<B>): Option<seq<B>>
  {
    if xs == [] then Some([])
    else
      match MapAll(xs[..|xs| - 1], f)
      case None => None
      case Some(ys) => if f(xs[|xs| - 1]).Some? then Some(ys + [f(xs[|xs| - 1]).value]) else None
  }

  /** MapAll succeeds exactly when every element does, and then holds each element's result. */
  lemma {:induction false} MapAllPerElement<A, B>(xs: seq<A>, f: A -> Option<B>)
    ensures MapAll(xs, f).Some? <==> forall i :: 0 <= i < |xs| ==> f(xs[i]).Some?
    ensures MapAll(xs, f).Some? ==>
      |MapAll(xs, f).value| == |xs| && forall i :: 0 <= i < |xs| ==> MapAll(xs, f).value[i] == f(xs[i]).value
  {
    if xs != [] {
      var n := |xs| - 1;
      MapAllPerElement(xs[..n], f);
      assert forall i :: 0 <= i < n ==> xs[..n][i] == xs[i];
    }
  }

  /** One more element: MapAll of the longer prefix extends the shorter one, or fails. */
  lemma MapAllSnoc<A, B>(xs: seq<A>, i: nat, f: A -> Option<B>)
    requires i < |xs|
    ensures MapAll(xs[..i + 1], f) ==
      match MapAll(xs[..i], f)
      case None => None
      case Some(ys) => if f(xs[i]).Some? then Some(ys + [f(xs[i]).value]) else None
  {
    assert xs[..i + 1][..i] == xs[..i];
  }

  /** Once a prefix fails, the whole sequence fails. */
  lemma {:induction false} MapAllPrefixFails<A, B>(xs: seq<A>, n: nat, f: A -> Option<B>)
    requires n <= |xs| && MapAll(xs[..n], f).None?
    ensures MapAll(xs, f).None?
    decreases |xs| - n
  {
    if n < |xs| {
      MapAllSnoc(xs, n, f);
      MapAllPrefixFails(xs, n + 1, f);
    } else {
      assert xs[..n] == xs;
    }
  }
}
