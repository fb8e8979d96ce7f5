/** Runs of a labelled transition system. A system is a function that, given a state
    and an action, returns the next state, or None when the action is not enabled. */
module Runs {
  import opened Prelude

  function Exec<S, A>(step: (S, A) -> Option<S>, s: S, acts: seq<A>): Option<S> {
    if |acts| == 0 then Some(s)
    else
      var t := step(s, acts[0]);
      if t.None? then None else Exec(step, t.value, acts[1..])
  }

  ghost predicate Preserved<S(!new), A(!new)>(step: (S, A) -> Option<S>, inv: S -> bool) {
    forall s, a :: inv(s) && step(s, a).Some? ==> inv(step(s, a).value)
  }

  /** A property that every step keeps holds at the end of every run. */
  lemma {:induction false} InvariantHolds<S(!new), A(!new)>(
    step: (S, A) -> Option<S>, inv: S -> bool, s: S, acts: seq<A>)
    requires inv(s) && Preserved(step, inv)
    ensures Exec(step, s, acts).Some? ==> inv(Exec(step, s, acts).value)
  {
    if |acts| == 0 {
    } else if step(s, acts[0]).Some? {
      InvariantHolds(step, inv, step(s, acts[0]).value, acts[1..]);
    }
  }

  lemma {:induction false} ExecAppend<S, A>(step: (S, A) -> Option<S>, s: S, first: seq<A>, more: seq<A>)
    ensures Exec(step, s, first + more) ==
            if Exec(step, s, first).None? then None
            else Exec(step, Exec(step, s, first).value, more)
  {
    if |first| == 0 {
      assert first + more == more;
    } else {
      assert (first + more)[1..] == first[1..] + more;
      if step(s, first[0]).Some? {
        ExecAppend(step, step(s, first[0]).value, first[1..], more);
      }
    }
  }

  lemma ExecCons<S, A>(step: (S, A) -> Option<S>, s: S, a: A, rest: seq<A>)
    requires step(s, a).Some?
    ensures Exec(step, s, [a] + rest) == Exec(step, step(s, a).value, rest)
  {
    assert ([a] + rest)[1..] == rest;
  }

  lemma ExecSnoc<S, A>(step: (S, A) -> Option<S>, s: S, acts: seq<A>)
    requires |acts| > 0
    ensures var before := Exec(step, s, acts[..|acts| - 1]);
            Exec(step, s, acts) == if before.None? then None else step(before.value, acts[|acts| - 1])
  {
    var last := |acts| - 1;
    assert acts[..last] + [acts[last]] == acts;
    ExecAppend(step, s, acts[..last], [acts[last]]);
    var before := Exec(step, s, acts[..last]);
    if before.Some? && step(before.value, acts[last]).Some? {
      assert Exec(step, step(before.value, acts[last]).value, [acts[last]][1..]) == step(before.value, acts[last]);
    }
  }

  /** If every allowed step from an invariant state lowers a natural-number measure,
      a run of allowed steps is no longer than the measure at its start. */
  lemma {:induction false} MeasureBoundsRun<S(!new), A(!new)>(
    step: (S, A) -> Option<S>, inv: S -> bool, allowed: A -> bool, measure: S -> nat, s: S, acts: seq<A>)
    requires inv(s) && Preserved(step, inv)
    requires forall t, a :: inv(t) && allowed(a) && step(t, a).Some? ==> measure(step(t, a).value) < measure(t)
    requires forall i :: 0 <= i < |acts| ==> allowed(acts[i])
    ensures Exec(step, s, acts).Some? ==> |acts| <= measure(s)
  {
    if |acts| == 0 {
    } else if step(s, acts[0]).Some? {
      var t := step(s, acts[0]).value;
      assert allowed(acts[0]);
      MeasureBoundsRun(step, inv, allowed, measure, t, acts[1..]);
    }
  }
}
