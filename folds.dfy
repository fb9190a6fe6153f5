/**
 * `Array.prototype.reduce` with a reducer that may throw, and what such a
 * fold computes when its reducer appends one token per element.
 */
module Folds {
  import opened Wrappers

  /** `xs.reduce(step, acc)`: a left fold that stops at the first thrown error. */
  function Reduce<A, X, E>(step: (A, X) -> Result<A, E>, acc: A, xs: seq<X>): (r: Result<A, E>)
    decreases |xs|
  {
    if xs == [] then Ok(acc)
    else
      match step(acc, xs[0])
      case Err(e) => Err(e)
      case Ok(next) => Reduce(step, next, xs[1..])
  }

  /** One step of a token-appending reducer: `[...acc, tok(x)]`, or `tok`'s error. */
  function Appended<X, T, E>(tok: X -> Result<T, E>, acc: seq<T>, x: X): (r: Result<seq<T>, E>)
    ensures r.Ok? <==> tok(x).Ok?
    ensures r.Ok? ==> |r.value| == |acc| + 1 && r.value[..|acc|] == acc && r.value[|acc|] == tok(x).value
    ensures r.Err? ==> r.error == tok(x).error
  {
    match tok(x)
    case Ok(t) => Ok(acc + [t])
    case Err(e) => Err(e)
  }

  /** `step` is the token-appending reducer of `tok`. */
  ghost predicate Appends<X(!new), T(!new), E>(step: (seq<T>, X) -> Result<seq<T>, E>, tok: X -> Result<T, E>) {
    forall acc: seq<T>, x: X :: step(acc, x) == Appended(tok, acc, x)
  }

  /** `tok` accepts every element. */
  predicate AllOk<X, T, E>(tok: X -> Result<T, E>, xs: seq<X>)
    decreases |xs|
  {
    xs == [] || (tok(xs[0]).Ok? && AllOk(tok, xs[1..]))
  }

  /** The tokens of accepted elements, one per element and in order. */
  function Values<X, T, E>(tok: X -> Result<T, E>, xs: seq<X>): (ts: seq<T>)
    requires AllOk(tok, xs)
    ensures |ts| == |xs|
    decreases |xs|
  {
    if xs == [] then [] else [tok(xs[0]).value] + Values(tok, xs[1..])
  }

  /** In an accepted list, each element is accepted and its token sits at its own index. */
  lemma {:induction false} ValuesAt<X, T, E>(tok: X -> Result<T, E>, xs: seq<X>, i: nat)
    requires i < |xs| && AllOk(tok, xs)
    ensures tok(xs[i]).Ok? && Values(tok, xs)[i] == tok(xs[i]).value
    decreases i
  {
    if i > 0 {
      assert xs[1..][i - 1] == xs[i];
      ValuesAt(tok, xs[1..], i - 1);
    }
  }

  /** A list whose elements are each accepted is accepted. */
  lemma {:induction false} AllOkOfEach<X, T, E>(tok: X -> Result<T, E>, xs: seq<X>)
    requires forall i | 0 <= i < |xs| :: tok(xs[i]).Ok?
    ensures AllOk(tok, xs)
    decreases |xs|
  {
    if xs != [] {
      var rest := xs[1..];
      forall i | 0 <= i < |rest| ensures tok(rest[i]).Ok? {
        assert rest[i] == xs[i + 1];
      }
      AllOkOfEach(tok, rest);
    }
  }

  /** A token-appending fold succeeds exactly when every element is accepted, and then appends their tokens in order. */
  lemma {:induction false} ReduceAppends<X(!new), T(!new), E>(step: (seq<T>, X) -> Result<seq<T>, E>, tok: X -> Result<T, E>, acc: seq<T>, xs: seq<X>)
    requires Appends(step, tok)
    ensures Reduce(step, acc, xs).Ok? <==> AllOk(tok, xs)
    ensures AllOk(tok, xs) ==> Reduce(step, acc, xs) == Ok(acc + Values(tok, xs))
    decreases |xs|
  {
    if xs == [] {
      assert acc + [] == acc;
    } else {
      var rest := xs[1..];
      var first := tok(xs[0]);
      assert step(acc, xs[0]) == Appended(tok, acc, xs[0]);
      if first.Ok? {
        var next := acc + [first.value];
        assert Reduce(step, acc, xs) == Reduce(step, next, rest);
        assert AllOk(tok, xs) == AllOk(tok, rest);
        ReduceAppends(step, tok, next, rest);
        if AllOk(tok, xs) {
          AppendValues(tok, acc, xs);
        }
      } else {
        assert Reduce(step, acc, xs) == Err(first.error);
        assert !AllOk(tok, xs);
      }
    }
  }

  /** Appending the first token, then the rest, appends all tokens. */
  lemma AppendValues<X, T, E>(tok: X -> Result<T, E>, acc: seq<T>, xs: seq<X>)
    requires xs != [] && AllOk(tok, xs)
    ensures acc + [tok(xs[0]).value] + Values(tok, xs[1..]) == acc + Values(tok, xs)
  {
    assert Values(tok, xs) == [tok(xs[0]).value] + Values(tok, xs[1..]);
  }

  /** A token-appending fold throws the error of the first rejected element: no later element is looked at. */
  lemma {:induction false} ReduceFirstError<X(!new), T(!new), E>(step: (seq<T>, X) -> Result<seq<T>, E>, tok: X -> Result<T, E>, acc: seq<T>, xs: seq<X>, k: nat)
    requires Appends(step, tok)
    requires k < |xs|
    requires forall i | 0 <= i < k :: tok(xs[i]).Ok?
    requires tok(xs[k]).Err?
    ensures Reduce(step, acc, xs) == Err(tok(xs[k]).error)
    decreases k
  {
    assert step(acc, xs[0]) == Appended(tok, acc, xs[0]);
    if k > 0 {
      var rest := xs[1..];
      forall i | 0 <= i < k - 1 ensures tok(rest[i]).Ok? {
        assert rest[i] == xs[i + 1];
      }
      assert rest[k - 1] == xs[k];
      var next := acc + [tok(xs[0]).value];
      assert Reduce(step, acc, xs) == Reduce(step, next, rest);
      ReduceFirstError(step, tok, next, rest, k - 1);
    }
  }
}
