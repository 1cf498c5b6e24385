/** Applying a partial step to every element in order, stopping at the first
    element it rejects: the shape of a loop whose body may raise. */
module Collect {
  import opened Wrappers

  /** The results of `f` on every element, or the index of the first element `f` rejects. */
  function MapUntilNone<T, U>(xs: seq<T>, f: T -> Option<U>): (r: Result<seq<U>, nat>)
    ensures r.Success? <==> forall i :: 0 <= i < |xs| ==> f(xs[i]).Some?
    ensures r.Success? ==> |r.value| == |xs|
    ensures r.Success? ==> forall i :: 0 <= i < |xs| ==> f(xs[i]) == Some(r.value[i])
    ensures r.Failure? ==>
      && r.error < |xs| && f(xs[r.error]).None?
      && forall j :: 0 <= j < r.error ==> f(xs[j]).Some?
    decreases |xs|
  {
    if |xs| == 0 then Success([])
    else
      var init := xs[..|xs| - 1];
      assert forall i :: 0 <= i < |init| ==> init[i] == xs[i];
      match MapUntilNone(init, f)
      case Failure(k) => Failure(k)
      case Success(ys) =>
        match f(xs[|xs| - 1])
        case None => Failure(|xs| - 1)
        case Some(y) => Success(ys + [y])
  }

  /** The loop form of `MapUntilNone`: append each result, return at the first rejection. */
  method CollectAll<T, U>(xs: seq<T>, f: T -> Option<U>) returns (r: Result<seq<U>, nat>)
    ensures r == MapUntilNone(xs, f)
  {
    var ys: seq<U> := [];
    var i := 0;
    while i < |xs|
      invariant 0 <= i <= |xs|
      invariant MapUntilNone(xs[..i], f) == Success(ys)
    {
      assert xs[..i + 1][..i] == xs[..i];
      match f(xs[i])
      case None =>
        return Failure(i);
      case Some(y) =>
        ys := ys + [y];
      i := i + 1;
    }
    assert xs[..i] == xs;
    return Success(ys);
  }
}
