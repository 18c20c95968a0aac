/** Runs of a labelled transition system, shared by the protocol models.

    A program with several processes is a step function: `step(s, e)` is the state after event `e`,
    or None when `e` cannot happen in `s` (a blocked call).  A run is a list of events. */
module Runs {

  datatype Option<+T> = None | Some(value: T)

  /** The state reached from `s` by the events `es`, or None when one of them is not possible. */
  function Play<S, E>(step: (S, E) -> Option<S>, s: S, es: seq<E>): Option<S>
    decreases |es|
  {
    if |es| == 0 then Some(s)
    else
      match step(s, es[0])
      case None => None
      case Some(t) => Play(step, t, es[1..])
  }

  /** A run can be extended at its end. */
  lemma {:induction false} PlayAppend<S, E>(step: (S, E) -> Option<S>, s: S, es: seq<E>, e: E)
    requires Play(step, s, es).Some?
    ensures Play(step, s, es + [e]) == step(Play(step, s, es).value, e)
    decreases |es|
  {
    if |es| == 0 {
      assert (es + [e])[1..] == [];
    } else {
      assert (es + [e])[1..] == es[1..] + [e];
      PlayAppend(step, step(s, es[0]).value, es[1..], e);
    }
  }

  /** What every step keeps holds at the end of every run. */
  lemma {:induction false} Invariant<S(!new), E(!new)>(
      step: (S, E) -> Option<S>, inv: S -> bool, s: S, es: seq<E>)
    requires inv(s)
    requires forall u, e {:trigger step(u, e)} :: inv(u) && step(u, e).Some? ==> inv(step(u, e).value)
    requires Play(step, s, es).Some?
    ensures inv(Play(step, s, es).value)
    decreases |es|
  {
    if |es| != 0 {
      Invariant(step, inv, step(s, es[0]).value, es[1..]);
    }
  }

  /** When every step lowers a rank, no run is longer than the rank it starts from. */
  lemma {:induction false} Bounded<S(!new), E(!new)>(
      step: (S, E) -> Option<S>, inv: S -> bool, rank: S -> nat, s: S, es: seq<E>)
    requires inv(s)
    requires forall u, e {:trigger step(u, e)} ::
               inv(u) && step(u, e).Some? ==> inv(step(u, e).value) && rank(step(u, e).value) < rank(u)
    requires Play(step, s, es).Some?
    ensures |es| + rank(Play(step, s, es).value) <= rank(s)
    decreases |es|
  {
    if |es| != 0 {
      Bounded(step, inv, rank, step(s, es[0]).value, es[1..]);
    }
  }

  /** An event of the kind `bad` happens in the run, seen in the state in front of it. */
  ghost predicate Occurs<S, E>(step: (S, E) -> Option<S>, bad: (S, E) -> bool, s: S, es: seq<E>)
    decreases |es|
  {
    |es| != 0 && (bad(s, es[0]) || (step(s, es[0]).Some? && Occurs(step, bad, step(s, es[0]).value, es[1..])))
  }

  /** When every step leaves a mark exactly for such an event, and keeps it, the mark tells at the end of
      a run whether one has happened. */
  lemma {:induction false} OccursIff<S(!new), E(!new)>(
      step: (S, E) -> Option<S>, inv: S -> bool, bad: (S, E) -> bool, mark: S -> bool, s: S, es: seq<E>)
    requires inv(s)
    requires forall u, e {:trigger step(u, e)} ::
               inv(u) && step(u, e).Some? ==>
                 inv(step(u, e).value) && (mark(step(u, e).value) <==> mark(u) || bad(u, e))
    requires Play(step, s, es).Some?
    ensures mark(Play(step, s, es).value) <==> mark(s) || Occurs(step, bad, s, es)
    decreases |es|
  {
    if |es| != 0 {
      OccursIff(step, inv, bad, mark, step(s, es[0]).value, es[1..]);
    }
  }
}
