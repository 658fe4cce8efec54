/**
 * A pass of the writer walks a list of objects in order, one step per
 * object. A step that returns `-2` ends the pass early (its caller goes
 * on with the next pass); a step that raises ends the whole export.
 */
module Passes {
  import opened Sbml

  /** The state and status after the steps for `es[k..]`, starting from `st`. */
  function Pass<E>(step: (State, E) -> (State, Status), st: State, es: seq<E>, k: nat): (State, Status)
    requires k <= |es|
    decreases |es| - k
  {
    if k == |es| then (st, Running)
    else
      var (next, status) := step(st, es[k]);
      if status == Running then Pass(step, next, es, k + 1) else (next, status)
  }

  /** One step of a pass: the first element, then the rest unless it stopped. */
  lemma PassStep<E>(step: (State, E) -> (State, Status), st: State, es: seq<E>, k: nat)
    requires k < |es|
    ensures Pass(step, st, es, k) ==
      if step(st, es[k]).1 == Running then Pass(step, step(st, es[k]).0, es, k + 1) else step(st, es[k])
  {
  }

  /** `out(e)` for each `e` in `es[k..]`, concatenated. */
  function Concat<E, T>(out: E -> seq<T>, es: seq<E>, k: nat): seq<T>
    requires k <= |es|
    decreases |es| - k
  {
    if k == |es| then [] else out(es[k]) + Concat(out, es, k + 1)
  }

  /**
   * When no step stops and each step appends `out(e)` to a list of the
   * state, the pass runs to the end and appends the concatenation.
   */
  lemma {:induction false} PassAppends<E, T>(step: (State, E) -> (State, Status), field: State -> seq<T>,
                                             out: E -> seq<T>, st: State, es: seq<E>, k: nat)
    requires k <= |es|
    requires forall s: State, i :: k <= i < |es| ==>
      step(s, es[i]).1 == Running && field(step(s, es[i]).0) == field(s) + out(es[i])
    ensures Pass(step, st, es, k).1 == Running
    ensures field(Pass(step, st, es, k).0) == field(st) + Concat(out, es, k)
    decreases |es| - k
  {
    if k < |es| {
      var next := step(st, es[k]).0;
      PassAppends(step, field, out, next, es, k + 1);
      assert field(st) + out(es[k]) + Concat(out, es, k + 1) == field(st) + (out(es[k]) + Concat(out, es, k + 1));
    }
  }

  /** A property every step keeps holds after the whole pass. */
  lemma {:induction false} PassKeeps<E>(step: (State, E) -> (State, Status), inv: State -> bool,
                                        st: State, es: seq<E>, k: nat)
    requires k <= |es|
    requires forall s: State, e: E :: inv(s) ==> inv(step(s, e).0)
    requires inv(st)
    ensures inv(Pass(step, st, es, k).0)
    decreases |es| - k
  {
    if k < |es| {
      var (next, status) := step(st, es[k]);
      if status == Running {
        PassKeeps(step, inv, next, es, k + 1);
      }
    }
  }

  /**
   * When the steps before `es[j]` never stop and the step for `es[j]`
   * always raises, the pass raises.
   */
  lemma {:induction false} PassRaises<E>(step: (State, E) -> (State, Status), st: State, es: seq<E>, k: nat, j: nat)
    requires k <= j < |es|
    requires forall s: State, i :: k <= i < j ==> step(s, es[i]).1 == Running
    requires forall s: State :: step(s, es[j]).1 == Raised
    ensures Pass(step, st, es, k).1 == Raised
    decreases j - k
  {
    if k < j {
      PassRaises(step, step(st, es[k]).0, es, k + 1, j);
    }
  }

  /** When every step extends the state, so does the whole pass. */
  lemma {:induction false} PassExtends<E>(step: (State, E) -> (State, Status), st: State, es: seq<E>, k: nat)
    requires k <= |es|
    requires forall s: State, e: E :: Extends(s, step(s, e).0)
    ensures Extends(st, Pass(step, st, es, k).0)
    decreases |es| - k
  {
    if k < |es| {
      var (next, status) := step(st, es[k]);
      if status == Running {
        PassExtends(step, next, es, k + 1);
        ExtendsTrans(st, next, Pass(step, next, es, k + 1).0);
      }
    }
  }
}
