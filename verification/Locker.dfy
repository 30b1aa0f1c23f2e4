/** The reader/writer lock whose writer books the lock first and then waits for the readers to
    go. Every method of the lock is one step under the guard; the loops around them are the
    program counters of the threads. */
module Lockers {
  import opened Bytes
  import opened Threads

  const UINT_MAX: nat := WORDS - 1

  datatype LockState = LS_SCOPED | LS_SHARABLE | LS_NONE

  datatype Lock = Lock(scoped: nat, sharable: nat)

  function BookResult(l: Lock): LockState {
    if l.scoped != 0 then LS_SCOPED else if l.sharable == 0 then LS_NONE else LS_SHARABLE
  }

  function Book(l: Lock): Lock {
    if l.scoped == 0 then l.(scoped := 1) else l
  }

  predicate CanLock(l: Lock) { l.scoped == 0 && l.sharable == 0 }

  predicate CanShare(l: Lock) { l.scoped == 0 && l.sharable < UINT_MAX }

  /** Where a thread is: outside (perhaps trying to get in), in the loop that waits for the last
      reader after the booking, holding the lock alone, or holding it together with others. */
  datatype PC = Outside | Booked | Exclusive | Sharing

  datatype System = System(lock: Lock, threads: map<Tid, PC>)

  function At(s: System, t: Tid): PC {
    if t in s.threads then s.threads[t] else Outside
  }

  function Move(s: System, lock: Lock, t: Tid, pc: PC): System {
    System(lock, s.threads[t := pc])
  }

  /** The threads that hold the lock together. */
  ghost function Sharers(s: System): set<Tid> {
    set t | t in s.threads && s.threads[t] == Sharing
  }

  /** The threads that have booked the lock or hold it alone. */
  ghost function Writers(s: System): set<Tid> {
    set t | t in s.threads && (s.threads[t] == Booked || s.threads[t] == Exclusive)
  }

  ghost function Holders(s: System): set<Tid> {
    set t | t in s.threads && (s.threads[t] == Sharing || s.threads[t] == Exclusive)
  }

  /** The guarded steps. Where a thread only finds that it has to go on trying or waiting, the
      step changes nothing. */
  datatype Action =
    | DoBook(t: Tid)
    | DoCount(t: Tid)
    | DoGiveUp(t: Tid)
    | DoTryLock(t: Tid)
    | DoUnlock(t: Tid)
    | DoShare(t: Tid)
    | DoUnshare(t: Tid)

  function Step(s: System, a: Action): System {
    var l, pc := s.lock, At(s, a.t);
    if a.DoBook? && pc == Outside && BookResult(l) != LS_SCOPED then
      Move(s, Book(l), a.t, if BookResult(l) == LS_NONE then Exclusive else Booked)
    else if a.DoCount? && pc == Booked && l.sharable == 0 then
      Move(s, l, a.t, Exclusive)
    else if a.DoGiveUp? && pc == Booked then
      Move(s, l.(scoped := 0), a.t, Outside)
    else if a.DoTryLock? && pc == Outside && CanLock(l) then
      Move(s, l.(scoped := 1), a.t, Exclusive)
    else if a.DoUnlock? && pc == Exclusive then
      Move(s, l.(scoped := 0), a.t, Outside)
    else if a.DoShare? && pc == Outside && CanShare(l) then
      Move(s, l.(sharable := l.sharable + 1), a.t, Sharing)
    else if a.DoUnshare? && pc == Sharing && l.sharable > 0 then
      Move(s, l.(sharable := l.sharable - 1), a.t, Outside)
    else
      s
  }

  ghost predicate Inv(s: System) {
    && s.lock.scoped == |Writers(s)| <= 1
    && s.lock.sharable == |Sharers(s)|
    && (forall t :: t in s.threads && s.threads[t] == Exclusive ==> s.lock.sharable == 0)
  }

  lemma Moved(s: System, lock: Lock, t: Tid, pc: PC)
    ensures var m := Move(s, lock, t, pc);
            && Sharers(m) == (if pc == Sharing then Sharers(s) + {t} else Sharers(s) - {t})
            && Writers(m) == (if pc == Booked || pc == Exclusive then Writers(s) + {t} else Writers(s) - {t})
            && Holders(m) == (if pc == Sharing || pc == Exclusive then Holders(s) + {t} else Holders(s) - {t})
    ensures t in Sharers(s) <==> At(s, t) == Sharing
    ensures t in Writers(s) <==> At(s, t) == Booked || At(s, t) == Exclusive
    ensures t in Holders(s) <==> At(s, t) == Sharing || At(s, t) == Exclusive
  {
  }

  lemma StepCounts(s: System, a: Action)
    requires Inv(s)
    ensures var s' := Step(s, a);
            s'.lock.scoped == |Writers(s')| <= 1 && s'.lock.sharable == |Sharers(s')|
  {
    hide Sharers, Writers, Holders;
    var s' := Step(s, a);
    if s' != s {
      Moved(s, s'.lock, a.t, s'.threads[a.t]);
      Sizes(Sharers(s), a.t);
      Sizes(Writers(s), a.t);
    }
  }

  /** A step moves its own thread and no other. */
  lemma OthersStay(s: System, a: Action, u: Tid)
    requires u != a.t
    ensures At(Step(s, a), u) == At(s, u)
  {
  }

  /** Whoever shares the lock goes on sharing it until it unlocks, and whoever holds it alone goes on
      holding it until it unlocks, whatever all other threads do. */
  lemma {:induction false} HolderStays(s: System, actions: seq<Action>, t: Tid)
    requires At(s, t) == Sharing || At(s, t) == Exclusive
    requires forall a :: a in actions ==> a != (if At(s, t) == Sharing then DoUnshare(t) else DoUnlock(t))
    ensures At(Run(s, actions), t) == At(s, t)
    decreases |actions|
  {
    if actions != [] {
      assert actions[0] in actions && forall a :: a in actions[1..] ==> a in actions;
      if actions[0].t != t {
        OthersStay(s, actions[0], t);
      }
      HolderStays(Step(s, actions[0]), actions[1..], t);
    }
  }

  /** Whoever has booked the lock stays in the booking until it finds no reader left or gives up. */
  lemma {:induction false} BookerStays(s: System, actions: seq<Action>, t: Tid)
    requires At(s, t) == Booked && DoCount(t) !in actions && DoGiveUp(t) !in actions
    ensures At(Run(s, actions), t) == Booked
    decreases |actions|
  {
    if actions != [] {
      if actions[0].t != t {
        OthersStay(s, actions[0], t);
      }
      BookerStays(Step(s, actions[0]), actions[1..], t);
    }
  }

  lemma StepKeepsInv(s: System, a: Action)
    requires Inv(s)
    ensures Inv(Step(s, a))
  {
    StepCounts(s, a);
    forall t | t in Step(s, a).threads && Step(s, a).threads[t] == Exclusive
      ensures Step(s, a).lock.sharable == 0
    {
      ExclusiveStays(s, a, t);
    }
  }

  lemma ExclusiveStays(s: System, a: Action, t: Tid)
    requires Inv(s) && At(Step(s, a), t) == Exclusive
    ensures Step(s, a).lock.sharable == 0
  {
    if t != a.t && Step(s, a) != s {
      assert t in Writers(s);
      AloneInSet(Writers(s), t);
    }
  }

  const START := System(Lock(0, 0), map[])

  function Run(s: System, actions: seq<Action>): System {
    RunAll(Step, s, actions)
  }

  /** The invariant holds in every state that the threads can reach. */
  lemma ReachableInv(actions: seq<Action>)
    ensures Inv(Run(START, actions))
  {
    assert Writers(START) == {} && Sharers(START) == {};
    forall s, a | Inv(s)
      ensures Inv(Step(s, a))
    {
      StepKeepsInv(s, a);
    }
    RunKeeps(Step, s => Inv(s), START, actions);
  }

  /** In every run of any number of threads: whoever holds the lock alone is the only holder,
      the lock counts those who hold it together, and what `unlock` and `unlock_sharable`
      assert is true whenever a thread calls them. */
  lemma Exclusion(actions: seq<Action>, t: Tid)
    ensures var s := Run(START, actions);
            && (At(s, t) == Exclusive ==> Holders(s) == {t} && s.lock.sharable == 0)
            && (At(s, t) == Exclusive || At(s, t) == Booked ==> s.lock.scoped == 1)
            && (At(s, t) == Sharing ==> s.lock.sharable > 0)
            && s.lock.sharable == |Sharers(s)|
  {
    ReachableInv(actions);
    var s := Run(START, actions);
    if t in Writers(s) {
      AloneInSet(Writers(s), t);
    }
    if At(s, t) == Sharing {
      assert t in Sharers(s);
    }
    if At(s, t) == Exclusive {
      assert Sharers(s) == {};
      forall u | u in Holders(s)
        ensures u == t
      {
        assert u in Sharers(s) || u in Writers(s);
      }
      assert t in Holders(s);
    }
  }

  /** The step takes a reader out of the lock. */
  predicate Leaves(s: System, a: Action) {
    a.DoUnshare? && At(s, a.t) == Sharing && s.lock.sharable > 0
  }

  /** While a writer has booked the lock or holds it, nobody else gets in and the number of
      readers only falls, by one with every reader that leaves. */
  lemma BookedStep(s: System, a: Action, w: Tid)
    requires Inv(s) && w in Writers(s) && w in Writers(Step(s, a))
    ensures Holders(Step(s, a)) <= Holders(s) + {w}
    ensures Step(s, a).lock.sharable == s.lock.sharable - if Leaves(s, a) then 1 else 0
  {
    AloneInSet(Writers(s), w);
    var s' := Step(s, a);
    if s' != s {
      Moved(s, s'.lock, a.t, s'.threads[a.t]);
    }
  }

  /** The writer `w` stays in the lock or in the booking during the whole run. */
  ghost predicate Stays(s: System, actions: seq<Action>, w: Tid)
    decreases |actions|
  {
    w in Writers(s) && (actions != [] ==> Stays(Step(s, actions[0]), actions[1..], w))
  }

  function Departures(s: System, actions: seq<Action>): nat
    decreases |actions|
  {
    if actions == [] then 0
    else (if Leaves(s, actions[0]) then 1 else 0) + Departures(Step(s, actions[0]), actions[1..])
  }

  /** A booked writer is not overtaken: from the booking on no new holder enters, and the writer
      gets in as soon as, and not before, as many readers have left as there were. */
  lemma {:induction false} NotOvertaken(s: System, actions: seq<Action>, w: Tid)
    requires Inv(s) && Stays(s, actions, w)
    ensures var s' := Run(s, actions);
            && Holders(s') <= Holders(s) + {w}
            && s'.lock.sharable == s.lock.sharable - Departures(s, actions)
            && (At(s', w) == Booked ==>
                 (At(Step(s', DoCount(w)), w) == Exclusive <==> Departures(s, actions) == s.lock.sharable))
    decreases |actions|
  {
    if actions != [] {
      StepKeepsInv(s, actions[0]);
      BookedStep(s, actions[0], w);
      NotOvertaken(Step(s, actions[0]), actions[1..], w);
    }
  }

  /** The lock in the shared memory. `system` is the lock with the threads that use it; every
      method is one of its steps. */
  class SharedLocker {
    var scoped: nat
    var sharable: nat
    ghost var system: System

    ghost predicate Valid()
      reads this
    {
      system.lock == Lock(scoped, sharable) && Inv(system)
    }

    constructor ()
      ensures Valid() && system == START
    {
      scoped, sharable := 0, 0;
      system := START;
      ReachableInv([]);
    }

    /** Books the lock for a writer unless another one has it or has booked it. */
    method TryBookLock(ghost t: Tid) returns (r: LockState)
      requires Valid() && At(system, t) == Outside
      modifies this
      ensures Valid() && system == Step(old(system), DoBook(t))
      ensures r == LS_SCOPED <==> old(Writers(system)) != {}
      ensures r == LS_NONE <==> old(Writers(system)) == {} && old(Sharers(system)) == {}
      ensures Sharers(system) == old(Sharers(system))
      ensures Writers(system) == if r == LS_SCOPED then old(Writers(system)) else {t}
      ensures At(system, t) == match r case LS_NONE => Exclusive case LS_SHARABLE => Booked case LS_SCOPED => Outside
    {
      StepKeepsInv(system, DoBook(t));
      system := Step(system, DoBook(t));
      if scoped == 0 {
        scoped := 1;
        return if sharable == 0 then LS_NONE else LS_SHARABLE;
      }
      return LS_SCOPED;
    }

    /** Counts the readers that the writer still has to wait for; it is in when there are none. */
    method CountSharable(ghost t: Tid) returns (n: nat)
      requires Valid() && At(system, t) == Booked
      modifies this`system
      ensures Valid() && system == Step(old(system), DoCount(t))
      ensures n == |old(Sharers(system))| && (n == 0 <==> At(system, t) == Exclusive)
      ensures Sharers(system) == old(Sharers(system)) && Writers(system) == old(Writers(system))
    {
      StepKeepsInv(system, DoCount(t));
      system := Step(system, DoCount(t));
      n := sharable;
    }

    method TryLock(ghost t: Tid) returns (ok: bool)
      requires Valid() && At(system, t) == Outside
      modifies this
      ensures Valid() && system == Step(old(system), DoTryLock(t))
      ensures ok <==> old(Writers(system)) == {} && old(Sharers(system)) == {}
      ensures ok <==> At(system, t) == Exclusive
      ensures Sharers(system) == old(Sharers(system))
      ensures Writers(system) == if ok then {t} else old(Writers(system))
    {
      StepKeepsInv(system, DoTryLock(t));
      system := Step(system, DoTryLock(t));
      if scoped == 0 && sharable == 0 {
        scoped := 1;
        return true;
      }
      return false;
    }

    /** Gives back the lock, or the booking when the writer has waited for too long. */
    method Unlock(ghost t: Tid)
      requires Valid() && (At(system, t) == Exclusive || At(system, t) == Booked)
      modifies this
      ensures Valid() && system == Step(old(system), if old(At(system, t)) == Booked then DoGiveUp(t) else DoUnlock(t))
      ensures Writers(system) == {} && Sharers(system) == old(Sharers(system)) && At(system, t) == Outside
    {
      assert t in Writers(system);
      AloneInSet(Writers(system), t);
      assert scoped == 1;
      ghost var a := if At(system, t) == Booked then DoGiveUp(t) else DoUnlock(t);
      StepKeepsInv(system, a);
      Moved(system, Step(system, a).lock, t, Outside);
      system := Step(system, a);
      scoped := 0;
    }

    method TryLockSharable(ghost t: Tid) returns (ok: bool)
      requires Valid() && At(system, t) == Outside
      modifies this
      ensures Valid() && system == Step(old(system), DoShare(t))
      ensures ok <==> old(Writers(system)) == {} && |old(Sharers(system))| < UINT_MAX
      ensures ok <==> At(system, t) == Sharing
      ensures Writers(system) == old(Writers(system))
      ensures Sharers(system) == if ok then old(Sharers(system)) + {t} else old(Sharers(system))
    {
      StepKeepsInv(system, DoShare(t));
      system := Step(system, DoShare(t));
      if scoped == 0 && sharable < UINT_MAX {
        sharable := sharable + 1;
        return true;
      }
      return false;
    }

    method UnlockSharable(ghost t: Tid)
      requires Valid() && At(system, t) == Sharing
      modifies this
      ensures Valid() && system == Step(old(system), DoUnshare(t))
      ensures Sharers(system) == old(Sharers(system)) - {t} && Writers(system) == old(Writers(system))
    {
      assert t in Sharers(system);
      assert sharable > 0;
      StepKeepsInv(system, DoUnshare(t));
      Moved(system, Step(system, DoUnshare(t)).lock, t, Outside);
      system := Step(system, DoUnshare(t));
      sharable := sharable - 1;
    }
  }
}
