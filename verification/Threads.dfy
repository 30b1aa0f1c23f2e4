/** Systems of any number of threads whose atomic steps come in any order. */
module Threads {
  type Tid = nat

  /** The system after the actions, one after another. */
  function RunAll<S, A>(step: (S, A) -> S, s: S, actions: seq<A>): S
    decreases |actions|
  {
    if actions == [] then s else RunAll(step, step(s, actions[0]), actions[1..])
  }

  /** What every step keeps holds after every run. */
  lemma {:induction false} RunKeeps<S(!new), A(!new)>(step: (S, A) -> S, inv: S -> bool, s: S, actions: seq<A>)
    requires inv(s) && forall s, a :: inv(s) ==> inv(step(s, a))
    ensures inv(RunAll(step, s, actions))
    decreases |actions|
  {
    if actions != [] {
      RunKeeps(step, inv, step(s, actions[0]), actions[1..]);
    }
  }

  lemma {:induction false} RunMore<S, A>(step: (S, A) -> S, s: S, a: seq<A>, b: seq<A>)
    ensures RunAll(step, s, a + b) == RunAll(step, RunAll(step, s, a), b)
    decreases |a|
  {
    if a == [] {
      assert a + b == b;
    } else {
      assert (a + b)[1..] == a[1..] + b;
      RunMore(step, step(s, a[0]), a[1..], b);
    }
  }

  lemma Sizes(ts: set<Tid>, t: Tid)
    ensures |ts + {t}| == if t in ts then |ts| else |ts| + 1
    ensures |ts - {t}| == if t in ts then |ts| - 1 else |ts|
  {
    if t in ts {
      assert ts + {t} == ts;
    } else {
      assert ts - {t} == ts;
    }
  }

  lemma AloneInSet(ts: set<Tid>, t: Tid)
    requires t in ts && |ts| <= 1
    ensures ts == {t}
  {
    assert |ts - {t}| == |ts| - 1;
  }
}
