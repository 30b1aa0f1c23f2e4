/** The barrier that holds threads until some thread opens it, without time limits. Each step of
    a thread on the semaphore or on a counter is one step of the system. */
module Barriers {
  import opened Regions
  import opened Threads

  /** The fields of the barrier: the tokens of its semaphore, the number of threads that wait
      and the number of threads that have been let go. */
  datatype Fields = Fields(tokens: nat, counter1: nat, counter2: nat)

  /** Where a thread is: outside; past the loop of `knock` but not yet counted; counted and
      waiting for a token; with a token but not yet counted out; or at one of the three places
      in the loop of `open`, where it has the mutex. */
  datatype PC = Outside | Spun | Waiting | Woken | Opening | Taken | Marked

  datatype System = System(fields: Fields, mutex: Option<Tid>, threads: map<Tid, PC>)

  function At(s: System, t: Tid): PC {
    if t in s.threads then s.threads[t] else Outside
  }

  function Move(s: System, fields: Fields, mutex: Option<Tid>, t: Tid, pc: PC): System {
    System(fields, mutex, s.threads[t := pc])
  }

  datatype Action =
    | DoSpin(t: Tid)
    | DoKnock(t: Tid)
    | DoWait(t: Tid)
    | DoFinish(t: Tid)
    | DoOpen(t: Tid)
    | DoTake(t: Tid)
    | DoMark(t: Tid)
    | DoPost(t: Tid)

  /** A step that is not possible where the thread is, or for which it has to wait, does nothing. */
  function Step(s: System, a: Action): System {
    var f, pc := s.fields, At(s, a.t);
    if a.DoSpin? && pc == Outside && f.counter2 == 0 then
      Move(s, f, s.mutex, a.t, Spun)
    else if a.DoKnock? && pc == Spun && s.mutex == None then
      Move(s, f.(counter1 := f.counter1 + 1), None, a.t, Waiting)
    else if a.DoWait? && pc == Waiting && f.tokens > 0 then
      Move(s, f.(tokens := f.tokens - 1), s.mutex, a.t, Woken)
    else if a.DoFinish? && pc == Woken && s.mutex == None && f.counter2 > 0 then
      Move(s, f.(counter2 := f.counter2 - 1), None, a.t, Outside)
    else if a.DoOpen? && pc == Outside && s.mutex == None then
      Move(s, f, Some(a.t), a.t, Opening)
    else if a.DoTake? && pc == Opening then
      if f.counter1 > 0 then Move(s, f.(counter1 := f.counter1 - 1), s.mutex, a.t, Taken)
      else Move(s, f, None, a.t, Outside)
    else if a.DoMark? && pc == Taken then
      Move(s, f.(counter2 := f.counter2 + 1), s.mutex, a.t, Marked)
    else if a.DoPost? && pc == Marked then
      Move(s, f.(tokens := f.tokens + 1), s.mutex, a.t, Opening)
    else
      s
  }

  /** The threads at the place `pc`. */
  ghost function Those(s: System, pc: PC): set<Tid> {
    set t | t in s.threads && s.threads[t] == pc
  }

  predicate InOpen(pc: PC) { pc == Opening || pc == Taken || pc == Marked }

  /** Only the owner of the mutex is in the loop of `open`. */
  ghost predicate MutexOk(s: System) {
    && (forall t :: t in s.threads && InOpen(s.threads[t]) ==> s.mutex == Some(t))
    && (s.mutex.Some? ==> InOpen(At(s, s.mutex.value)))
  }

  /** Somebody is in the loop of `open` at the place `pc`. */
  function OpenerAt(s: System, pc: PC): nat {
    if s.mutex.Some? && At(s, s.mutex.value) == pc then 1 else 0
  }

  ghost predicate Inv(s: System) {
    && MutexOk(s)
    && |Those(s, Waiting)| + |Those(s, Woken)| == s.fields.counter1 + s.fields.counter2 + OpenerAt(s, Taken)
    && s.fields.tokens + |Those(s, Woken)| + OpenerAt(s, Marked) == s.fields.counter2
  }

  lemma Moved(s: System, fields: Fields, mutex: Option<Tid>, t: Tid, pc: PC, at: PC)
    requires at != Outside
    ensures Those(Move(s, fields, mutex, t, pc), at) == if at == pc then Those(s, at) + {t} else Those(s, at) - {t}
    ensures t in Those(s, at) <==> At(s, t) == at
  {
  }

  lemma MutexStays(s: System, a: Action)
    requires MutexOk(s)
    ensures MutexOk(Step(s, a))
  {
  }

  /** A step moves its own thread and no other. */
  lemma StepMoves(s: System, a: Action)
    requires Step(s, a) != s
    ensures var s' := Step(s, a);
            a.t in s'.threads && s' == Move(s, s'.fields, s'.mutex, a.t, s'.threads[a.t])
  {
  }

  lemma CountAfter(s: System, a: Action, at: PC)
    requires Step(s, a) != s && at != Outside
    ensures |Those(Step(s, a), at)| + (if At(s, a.t) == at then 1 else 0)
            == |Those(s, at)| + (if At(Step(s, a), a.t) == at then 1 else 0)
  {
    hide Those, Step;
    var s' := Step(s, a);
    StepMoves(s, a);
    Moved(s, s'.fields, s'.mutex, a.t, s'.threads[a.t], at);
    Sizes(Those(s, at), a.t);
  }

  lemma OpenerAfter(s: System, a: Action, at: PC)
    requires MutexOk(s) && Step(s, a) != s && InOpen(at)
    ensures OpenerAt(Step(s, a), at) + (if At(s, a.t) == at then 1 else 0)
            == OpenerAt(s, at) + (if At(Step(s, a), a.t) == at then 1 else 0)
  {
  }

  lemma StepKeepsInv(s: System, a: Action)
    requires Inv(s)
    ensures Inv(Step(s, a))
  {
    hide Those, MutexOk, OpenerAt;
    MutexStays(s, a);
    if Step(s, a) != s {
      CountAfter(s, a, Waiting);
      CountAfter(s, a, Woken);
      OpenerAfter(s, a, Taken);
      OpenerAfter(s, a, Marked);
    }
  }

  const START := System(Fields(0, 0, 0), None, map[])

  function Run(s: System, actions: seq<Action>): System {
    RunAll(Step, s, actions)
  }

  lemma StartInv()
    ensures Inv(START)
  {
    assert Those(START, Waiting) == {} && Those(START, Woken) == {};
  }

  /** The balance holds in every state that the threads can reach. */
  lemma ReachableInv(actions: seq<Action>)
    ensures Inv(Run(START, actions))
  {
    StartInv();
    forall s, a | Inv(s)
      ensures Inv(Step(s, a))
    {
      StepKeepsInv(s, a);
    }
    RunKeeps(Step, s => Inv(s), START, actions);
  }

  /** In every run of any number of threads: the tokens and the threads that have taken one are
      the threads counted as let go; the threads between `knock` and the end of `expect` are
      those that are counted; no counter falls below zero. */
  lemma Conservation(actions: seq<Action>, t: Tid)
    ensures var s := Run(START, actions);
            && (s.mutex == None ==>
                 && s.fields.tokens + |Those(s, Woken)| == s.fields.counter2
                 && |Those(s, Waiting)| + |Those(s, Woken)| == s.fields.counter1 + s.fields.counter2)
            && (At(s, t) == Woken ==> s.fields.counter2 > 0)
            && s.fields.tokens <= |Those(s, Waiting)|
  {
    ReachableInv(actions);
    var s := Run(START, actions);
    if At(s, t) == Woken {
      assert t in Those(s, Woken);
    }
  }

  /** When `open` returns there is exactly one token for every thread that still waits, so none
      of them is held at the barrier. */
  lemma OpenServesAll(actions: seq<Action>, t: Tid)
    ensures var s := Run(START, actions);
            var s' := Step(s, DoTake(t));
            At(s, t) == Opening && At(s', t) == Outside ==>
              && s'.mutex == None
              && s'.fields.tokens == |Those(s', Waiting)|
              && forall u :: At(s', u) == Waiting ==> At(Step(s', DoWait(u)), u) == Woken
  {
    ReachableInv(actions);
    var s := Run(START, actions);
    var s' := Step(s, DoTake(t));
    StepKeepsInv(s, DoTake(t));
    forall u | At(s', u) == Waiting
      ensures u in Those(s', Waiting)
    {
    }
  }

  /** A step moves its own thread and no other. */
  lemma OthersStay(s: System, a: Action, u: Tid)
    requires u != a.t
    ensures At(Step(s, a), u) == At(s, u)
  {
  }

  /** The steps by which the threads of a list come to wait. */
  function KnockActions(ts: seq<Tid>): seq<Action> {
    if ts == [] then [] else KnockActions(ts[..|ts| - 1]) + [DoSpin(ts[|ts| - 1]), DoKnock(ts[|ts| - 1])]
  }

  /** Any number of threads can wait at the same time, while nobody opens. */
  lemma {:induction false} AllMayWait(ts: seq<Tid>)
    requires forall i, j :: 0 <= i < j < |ts| ==> ts[i] != ts[j]
    ensures forall a :: a in KnockActions(ts) ==> a.DoSpin? || a.DoKnock?
    ensures var s := Run(START, KnockActions(ts));
            && s.fields == Fields(0, |ts|, 0) && s.mutex == None
            && forall t :: At(s, t) == if t in ts then Waiting else Outside
    decreases |ts|
  {
    if ts != [] {
      var last := |ts| - 1;
      var t, before := ts[last], ts[..last];
      AllMayWait(before);
      var s := Run(START, KnockActions(before));
      assert ts == before + [t] && t !in before;
      RunTwo(START, KnockActions(before), DoSpin(t), DoKnock(t));
      var s' := Step(Step(s, DoSpin(t)), DoKnock(t));
      forall u
        ensures At(s', u) == if u in ts then Waiting else Outside
      {
        if u != t {
          OthersStay(s, DoSpin(t), u);
          OthersStay(Step(s, DoSpin(t)), DoKnock(t), u);
        }
      }
    }
  }

  lemma RunTwo(s: System, actions: seq<Action>, a: Action, b: Action)
    ensures Run(s, actions + [a, b]) == Step(Step(Run(s, actions), a), b)
  {
    hide Step;
    RunMore(Step, s, actions, [a, b]);
    assert [a, b][1..] == [b];
    RunOne(Step(Run(s, actions), a), b);
  }

  /** The steps of a thread that lets `k` threads go, one after another. */
  function Rounds(t: Tid, k: nat): seq<Action> {
    if k == 0 then [] else Rounds(t, k - 1) + [DoTake(t), DoMark(t), DoPost(t)]
  }

  /** The steps of a thread that opens the barrier when `k` threads wait. */
  function OpenActions(t: Tid, k: nat): seq<Action> {
    [DoOpen(t)] + Rounds(t, k) + [DoTake(t)]
  }

  /** The barrier in the shared memory. `system` is the barrier with the threads that use it;
      every method is one of its steps or a sequence of them. */
  class SharedBarrier {
    var barrier: nat
    var counter1: nat
    var counter2: nat
    ghost var system: System

    ghost predicate Valid()
      reads this
    {
      system.fields == Fields(barrier, counter1, counter2) && Inv(system)
    }

    constructor ()
      ensures Valid() && system == START
    {
      barrier, counter1, counter2 := 0, 0, 0;
      system := START;
      StartInv();
    }

    /** Lets go everybody who waits; nobody else is between the lock and the unlock. */
    method Open(ghost t: Tid)
      requires Valid() && At(system, t) == Outside && system.mutex == None
      modifies this
      ensures Valid() && system == Run(old(system), OpenActions(t, old(counter1)))
      ensures system.mutex == None && At(system, t) == Outside
      ensures counter1 == 0 && barrier == |Those(system, Waiting)|
    {
      hide Those, Inv, MutexOk;
      ghost var actions := [DoOpen(t)];
      RunOne(system, DoOpen(t));
      StepKeepsInv(system, DoOpen(t));
      system := Step(system, DoOpen(t));
      ghost var k := 0;
      while counter1 > 0
        invariant k + counter1 == old(counter1)
        invariant Valid() && At(system, t) == Opening && system.mutex == Some(t)
        invariant actions == [DoOpen(t)] + Rounds(t, k) && system == Run(old(system), actions)
        decreases counter1
      {
        RunRound(old(system), actions, t);
        ghost var s := system;
        counter1 := counter1 - 1;
        StepKeepsInv(s, DoTake(t));
        counter2 := counter2 + 1;
        StepKeepsInv(Step(s, DoTake(t)), DoMark(t));
        barrier := barrier + 1;
        StepKeepsInv(Step(Step(s, DoTake(t)), DoMark(t)), DoPost(t));
        system := Step(Step(Step(s, DoTake(t)), DoMark(t)), DoPost(t));
        actions := actions + [DoTake(t), DoMark(t), DoPost(t)];
        k := k + 1;
        assert actions == [DoOpen(t)] + Rounds(t, k);
      }
      RunMore(Step, old(system), actions, [DoTake(t)]);
      RunOne(system, DoTake(t));
      StepKeepsInv(system, DoTake(t));
      system := Step(system, DoTake(t));
      NobodyOpens(system);
    }

    /** The loop of `knock` asks whether somebody is on the way out. */
    method CanKnock(ghost t: Tid) returns (ok: bool)
      requires Valid() && At(system, t) == Outside
      modifies this`system
      ensures Valid() && system == Step(old(system), DoSpin(t))
      ensures ok <==> At(system, t) == Spun
      ensures ok <==> counter2 == 0
      ensures system.mutex == None ==> (ok <==> system.fields.tokens == 0 && Those(system, Woken) == {})
      ensures Those(system, Waiting) == old(Those(system, Waiting)) && Those(system, Woken) == old(Those(system, Woken))
    {
      StepKeepsInv(system, DoSpin(t));
      system := Step(system, DoSpin(t));
      ok := counter2 == 0;
    }

    /** Announces the thread; meanwhile others may be on the way out again. */
    method Knock(ghost t: Tid)
      requires Valid() && At(system, t) == Spun && system.mutex == None
      modifies this
      ensures Valid() && system == Step(old(system), DoKnock(t))
      ensures Those(system, Waiting) == old(Those(system, Waiting)) + {t}
      ensures Those(system, Woken) == old(Those(system, Woken)) && barrier == old(barrier)
    {
      StepKeepsInv(system, DoKnock(t));
      system := Step(system, DoKnock(t));
      counter1 := counter1 + 1;
    }

    /** The semaphore lets the thread pass if there is a token. */
    method TryWait(ghost t: Tid) returns (ok: bool)
      requires Valid() && At(system, t) == Waiting
      modifies this
      ensures Valid() && system == Step(old(system), DoWait(t))
      ensures ok <==> At(system, t) == Woken
      ensures ok <==> old(barrier) > 0
      ensures Those(system, Waiting) == old(Those(system, Waiting)) - if ok then {t} else {}
      ensures Those(system, Woken) == old(Those(system, Woken)) + if ok then {t} else {}
      ensures system.mutex == None && counter1 == 0 ==> ok
    {
      assert t in Those(system, Waiting);
      StepKeepsInv(system, DoWait(t));
      system := Step(system, DoWait(t));
      ok := barrier > 0;
      if ok {
        barrier := barrier - 1;
      }
    }

    /** The end of `expect`: the thread counts itself out. */
    method Finish(ghost t: Tid)
      requires Valid() && At(system, t) == Woken && system.mutex == None
      modifies this
      ensures Valid() && system == Step(old(system), DoFinish(t))
      ensures Those(system, Woken) == old(Those(system, Woken)) - {t} && At(system, t) == Outside
      ensures Those(system, Waiting) == old(Those(system, Waiting)) && barrier == old(barrier)
    {
      assert t in Those(system, Woken);
      StepKeepsInv(system, DoFinish(t));
      system := Step(system, DoFinish(t));
      counter2 := counter2 - 1;
    }
  }

  lemma RunOne(s: System, a: Action)
    ensures Run(s, [a]) == Step(s, a)
  {
    assert [a][1..] == [];
    assert RunAll(Step, Step(s, a), []) == Step(s, a);
  }

  lemma RunRound(s: System, actions: seq<Action>, t: Tid)
    ensures Run(s, actions + [DoTake(t), DoMark(t), DoPost(t)]) ==
            Step(Step(Step(Run(s, actions), DoTake(t)), DoMark(t)), DoPost(t))
  {
    hide Step;
    var round := [DoTake(t), DoMark(t), DoPost(t)];
    RunMore(Step, s, actions, round);
    assert round[1..] == [DoMark(t), DoPost(t)] && round[1..][1..] == [DoPost(t)];
    RunOne(Step(Step(Run(s, actions), DoTake(t)), DoMark(t)), DoPost(t));
  }

  lemma NobodyOpens(s: System)
    requires Inv(s) && s.mutex == None && s.fields.counter1 == 0
    ensures s.fields.tokens == |Those(s, Waiting)|
  {
  }
}
