/** A run of steps over a list of inputs that stops at the first failure. */
module Folds {
  import Sequences

  datatype Result<+T, +E> = Ok(value: T) | Threw(error: E) {
    predicate IsFailure() { Threw? }
    function PropagateFailure<U>(): Result<U, E>
      requires Threw?
    {
      Threw(error)
    }
    function Extract(): T
      requires Ok?
    {
      value
    }
  }

  function Fold<S, C, E>(step: (S, C) -> Result<S, E>, s: S, cs: seq<C>): Result<S, E> {
    if cs == [] then Ok(s)
    else
      match step(s, cs[0])
      case Threw(e) => Threw(e)
      case Ok(t) => Fold(step, t, cs[1..])
  }

  lemma FoldOne<S, C, E>(step: (S, C) -> Result<S, E>, s: S, c: C)
    ensures Fold(step, s, [c]) == step(s, c)
  {
    assert [c][1..] == [];
  }

  lemma {:induction false} FoldConcat<S, C, E>(step: (S, C) -> Result<S, E>, s: S, a: seq<C>, b: seq<C>)
    requires Fold(step, s, a).Ok?
    ensures Fold(step, s, a + b) == Fold(step, Fold(step, s, a).value, b)
    decreases |a|
  {
    if a == [] {
      Sequences.Units(b);
    } else {
      FoldConcat(step, step(s, a[0]).value, a[1..], b);
      assert (a + b)[1..] == a[1..] + b;
    }
  }

  lemma FoldThree<S, C, E>(
    step: (S, C) -> Result<S, E>, s: S, a: seq<C>, t: S, b: seq<C>, u: S, c: seq<C>)
    requires Fold(step, s, a) == Ok(t) && Fold(step, t, b) == Ok(u)
    ensures Fold(step, s, a + b + c) == Fold(step, u, c)
  {
    FoldConcat(step, s, a, b);
    FoldConcat(step, s, a + b, c);
  }
}
