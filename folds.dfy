// A loop over a sequence that threads a state through a step which may
// fail, stopping at the first failure: the shape of every `for` loop with
// `?` in the readers.
module Folds {
  import opened Wrappers

  function FoldEach<S, X>(start: S, step: (S, X) -> Result<S>, xs: seq<X>): Result<S>
  {
    if xs == [] then Ok(start)
    else
      var s :- FoldEach(start, step, xs[..|xs| - 1]);
      step(s, xs[|xs| - 1])
  }

  /** One more element is one more step. */
  lemma FoldEachNext<S, X>(start: S, step: (S, X) -> Result<S>, xs: seq<X>, i: nat, s: S)
    requires i < |xs| && FoldEach(start, step, xs[..i]) == Ok(s)
    ensures FoldEach(start, step, xs[..i + 1]) == step(s, xs[i])
  {
    assert xs[..i + 1][..i] == xs[..i];
  }

  /** Once the loop has failed, later elements keep the error. */
  lemma {:induction false} FoldEachErrLater<S, X>(start: S, step: (S, X) -> Result<S>, xs: seq<X>, m: nat, n: nat)
    requires m <= n <= |xs| && FoldEach(start, step, xs[..m]).Err?
    ensures FoldEach(start, step, xs[..n]) == FoldEach(start, step, xs[..m])
  {
    if m < n {
      FoldEachErrLater(start, step, xs, m, n - 1);
      assert xs[..n][..n - 1] == xs[..n - 1];
    }
  }

  /** A failing step ends the whole loop with its error. */
  lemma FoldEachStop<S, X>(start: S, step: (S, X) -> Result<S>, xs: seq<X>, i: nat, s: S)
    requires i < |xs| && FoldEach(start, step, xs[..i]) == Ok(s) && step(s, xs[i]).Err?
    ensures FoldEach(start, step, xs) == step(s, xs[i])
  {
    FoldEachNext(start, step, xs, i, s);
    FoldEachErrLater(start, step, xs, i + 1, |xs|);
    assert xs[..|xs|] == xs;
  }
}
