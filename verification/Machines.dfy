/** Runs of a machine: `next` says what a step leads to, and nothing when the step cannot be taken. */
module Machines {
  import opened Options

  function After<S, T>(next: (S, T) -> Option<S>, s: S, steps: seq<T>): Option<S>
    decreases |steps|
  {
    if steps == [] then Some(s)
    else
      match next(s, steps[0])
      case None => None
      case Some(s') => After(next, s', steps[1..])
  }

  /** The last step of a run. */
  lemma {:induction false} LastStep<S, T>(next: (S, T) -> Option<S>, s: S, steps: seq<T>, t: T)
    ensures After(next, s, steps + [t])
         == match After(next, s, steps) case None => None case Some(now) => next(now, t)
    decreases |steps|
  {
    if steps == [] {
      assert [t][1..] == [];
    } else {
      assert (steps + [t])[1..] == steps[1..] + [t];
      match next(s, steps[0]) {
        case None =>
        case Some(s') => LastStep(next, s', steps[1..], t);
      }
    }
  }

  /** A run, one step further. */
  lemma Then<S, T>(next: (S, T) -> Option<S>, s: S, steps: seq<T>, now: S, t: T) returns (more: seq<T>, later: S)
    requires After(next, s, steps) == Some(now) && next(now, t).Some?
    ensures After(next, s, more) == Some(later) && next(now, t) == Some(later) && more == steps + [t]
  {
    LastStep(next, s, steps, t);
    more, later := steps + [t], next(now, t).value;
  }
}
