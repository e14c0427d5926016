/**
 Runs of a labelled transition system.  A component gives its transitions as a partial
 function `step` from a state and a label to the next state; None means that the label
 cannot happen there.  All choices of the environment (which process moves, what was
 drawn, what the clock reads) sit in the label.
 */
module Machine {
  import opened Wrappers

  function Run<S, L>(step: (S, L) -> Option<S>, s: S, ls: seq<L>): Option<S>
    decreases |ls|
  {
    if ls == [] then Some(s)
    else
      match Run(step, s, ls[..|ls| - 1])
      case None => None
      case Some(m) => step(m, ls[|ls| - 1])
  }

  /** The number of labels of one kind in a run. */
  function Count<L>(kind: L -> bool, ls: seq<L>): nat
    decreases |ls|
  {
    if ls == [] then 0
    else Count(kind, ls[..|ls| - 1]) + (if kind(ls[|ls| - 1]) then 1 else 0)
  }

  lemma {:induction false} RunSnoc<S, L>(step: (S, L) -> Option<S>, s: S, ls: seq<L>, l: L)
    ensures Run(step, s, ls + [l]) == (match Run(step, s, ls) case None => None case Some(m) => step(m, l))
  {
    assert (ls + [l])[..|ls|] == ls;
  }

  /** A run can be cut anywhere. */
  lemma {:induction false} RunConcat<S, L>(step: (S, L) -> Option<S>, s: S, a: seq<L>, b: seq<L>)
    ensures Run(step, s, a + b) == (match Run(step, s, a) case None => None case Some(m) => Run(step, m, b))
    decreases |b|
  {
    if b == [] {
      assert a + b == a;
    } else {
      var b' := b[..|b| - 1];
      RunConcat(step, s, a, b');
      assert (a + b)[..|a + b| - 1] == a + b';
    }
  }
}
