/** What each step of the queue of many readers comes to, in terms of the log, the records of the
    readers and the reference counters. */
module Outcomes {
  import opened Bytes
  import opened Geometry
  import opened Regions
  import opened Trimmings
  import opened Broadcasts

  /** A message that is not meant for the reader `id` of a smart queue. */
  predicate Foreign(smart: bool, id: word, msg: Msg) {
    smart && (msg.sid == id || msg.tag == WORDS - 1)
  }

  lemma FilterOne(smart: bool, id: word, msg: Msg)
    ensures Filter(smart, id, [msg]) == if Foreign(smart, id, msg) then [] else [msg]
  {
    assert [msg][..0] == [];
    assert Filter(smart, id, []) == [];
  }

  /** The messages that are meant for a reader are chosen one by one. */
  lemma {:induction false} FilterJoin(smart: bool, id: word, a: seq<Msg>, b: seq<Msg>)
    ensures Filter(smart, id, a + b) == Filter(smart, id, a) + Filter(smart, id, b)
    decreases |b|
  {
    if b == [] {
      assert a + b == a;
    } else {
      var last := |b| - 1;
      assert (a + b)[..|a| + last] == a + b[..last];
      FilterJoin(smart, id, a, b[..last]);
    }
  }

  /** There is room exactly for what the free regions of the ring can take. */
  lemma RoomIsFree(s: State, n: nat)
    requires RingOk(s) && 0 < n
    ensures Room(s, n) <==> n <= SumCapacities(FreeRegions(s.cap, s.head, Tail(s), s.cells == []))
  {
    hide Used, End, Span, FreeRegions;
    RingSlots(s);
    RoomIsCapacity(s.cap, s.head, Used(s.cap, s.head, s.cells), n);
  }

  /** `k` messages at the head are needed by nobody, and the next one is needed. */
  predicate Unneeded(cells: seq<Cell>, k: nat) {
    && k <= |cells|
    && (forall i :: 0 <= i < k ==> cells[i].refs == 0)
    && (k < |cells| ==> cells[k].refs > 0)
  }

  /** A collection takes these messages out and nothing else. */
  lemma CleanOutcome(s: State, k: nat)
    requires Inv(s) && Unneeded(s.cells, k)
    ensures Step(s, OpClean) == s.(head := Pos(s, s.base + k), base := s.base + k, cells := s.cells[k..])
  {
    hide RefsOk, ReadersOk, Used, End;
    assert Garbage(s.cells) == k;
  }

  /** Data is appended with the number of subscribers as its counter, or it is lost, or it is refused;
      in each case the unneeded messages are collected first. */
  lemma PushOutcome(s: State, msg: Msg, k: nat)
    requires Inv(s) && 0 < |msg.data| && Unneeded(s.cells, k)
    ensures var c := Step(s, OpClean);
            var t := Step(s, OpPush(msg));
            c.head < c.cap
            && if |msg.data| <= TwoCapacities(Slots(c)) then
                 t == c.(cells := s.cells[k..] + [Cell(msg, |s.readers|)], log := s.log + [msg])
               else if |msg.data| <= SumCapacities(Slots(c)) then
                 t == c.(lost := Some(msg))
               else
                 t == c
  {
    hide RefsOk, ReadersOk, Used, End, Slots;
    CleanOutcome(s, k);
  }

  /** A pop of a message that is meant for the reader: the reader has got it and goes on to the next
      one, and one reference is given back. In a plain queue every message is meant for it. */
  lemma PopOutcome(s: State, id: word)
    requires Inv(s) && id in s.readers && s.readers[id].next < |s.log|
    requires !Foreign(s.smart, id, s.log[s.readers[id].next])
    ensures var t, r := Step(s, OpPop(id)), s.readers[id];
            && id in t.readers && t == s.(cells := t.cells, readers := s.readers[id := t.readers[id]])
            && t.readers[id].start == r.start && t.readers[id].next == r.next + 1
            && t.readers[id].got == r.got + [s.log[r.next]]
            && |t.cells| == |s.cells|
            && (forall i :: 0 <= i < |s.cells| ==>
                 && t.cells[i].msg == s.cells[i].msg
                 && t.cells[i].refs == s.cells[i].refs - if s.base + i == r.next then 1 else 0)
            && (r.next + 1 < |s.log| ==> HeadOf(t, id) == Pos(t, r.next + 1))
  {
    hide Used, End, Span, Next, Filter, RefsOk, ReadersOk, Pos;
    NextIs(s, id);
    NeededRefs(s, id);
    PopKeepsCore(s, id);
    if s.readers[id].next + 1 < |s.log| {
      HeadIsThere(Pop(s, id), id);
    }
  }

  lemma HeadIsThere(s: State, id: word)
    requires Core(s) && HasNext(s, id)
    ensures HeadOf(s, id) == Pos(s, s.readers[id].next)
  {
    hide Used, End, Filter, RefsOk;
    assert ReaderOk(s, id);
    HeadIsPos(s, id);
  }

  lemma NextIs(s: State, id: word)
    requires Inv(s) && id in s.readers
    ensures s.base <= s.readers[id].next <= |s.log|
    ensures HasNext(s, id) <==> s.readers[id].next < |s.log|
    ensures HasNext(s, id) ==> NextMsg(s, id) == s.log[s.readers[id].next]
  {
    hide Used, End, Filter, RefsOk;
    assert ReaderOk(s, id);
  }

  /** A reader with nothing to read, or with a message that is not meant for it, pops nothing. */
  lemma NoPopOutcome(s: State, id: word)
    requires Inv(s)
    requires id in s.readers && s.readers[id].next < |s.log| ==> Foreign(s.smart, id, s.log[s.readers[id].next])
    ensures Step(s, OpPop(id)) == s
  {
    hide Used, End, Span, Filter, RefsOk;
    if id in s.readers {
      NextIs(s, id);
    }
  }

  /** The search of a reader goes on to the first message that is meant for it, passes those before it
      without getting them, and gives their references back. In a plain queue it goes nowhere. */
  lemma GetOutcome(s: State, id: word)
    requires Inv(s) && id in s.readers
    ensures var t, r := Step(s, OpGet(id)), s.readers[id];
            && id in t.readers && t == s.(cells := t.cells, readers := s.readers[id := t.readers[id]])
            && var k := t.readers[id].next;
               && r.next <= k <= |s.log| && t.readers[id].got == r.got && t.readers[id].start == r.start
               && (forall i :: r.next <= i < k ==> Foreign(s.smart, id, s.log[i]))
               && (k < |s.log| ==> !Foreign(s.smart, id, s.log[k]))
               && |t.cells| == |s.cells|
               && (forall i :: 0 <= i < |s.cells| ==>
                    && t.cells[i].msg == s.cells[i].msg
                    && t.cells[i].refs == s.cells[i].refs - if r.next <= s.base + i < k then 1 else 0)
  {
    hide Used, End, Span, Filter, RefsOk, ReadersOk;
    NextIs(s, id);
    if s.smart {
      SkipOutcome(s, id);
      SkipKeepsInv(s, id);
      SkipKeepsStart(s, id);
      NextIs(Skip(s, id), id);
    }
  }

  lemma {:induction false} SkipOutcome(s: State, id: word)
    requires Inv(s) && id in s.readers
    ensures var t, r := Skip(s, id), s.readers[id];
            && id in t.readers && |t.cells| == |s.cells|
            && r.next <= t.readers[id].next
            && forall i :: 0 <= i < |s.cells| ==>
                 && t.cells[i].msg == s.cells[i].msg
                 && t.cells[i].refs == s.cells[i].refs - if r.next <= s.base + i < t.readers[id].next then 1 else 0
    decreases |s.log| - s.readers[id].next
  {
    hide Used, End, Span, Filter, RefsOk, ReadersOk, Deliverable;
    if HasNext(s, id) && !Deliverable(s.smart, id, NextMsg(s, id)) {
      NeededRefs(s, id);
      PopKeepsCore(s, id);
      PopKeepsInv(s, id);
      PopFrame(s, id);
      SkipOutcome(Pop(s, id), id);
    }
  }

  lemma AttachOutcome(s: State, id: word)
    requires Inv(s) && !s.smart && id !in s.readers && |s.readers| + 1 < WORDS
    ensures Step(s, OpAttach(id)) ==
            s.(subs := s.subs + 1, readers := s.readers[id := Reader(None, |s.log|, |s.log|, [])])
  {
  }

  lemma DetachOutcome(s: State, id: word)
    requires Inv(s) && !s.smart && id in s.readers
    ensures Step(s, OpDetach(id)) == s.(subs := |s.readers| - 1, readers := s.readers - {id})
  {
    hide Core;
    assert id in s.readers.Keys;
  }

  /** A join appends CONNECT, for the former subscribers, and a reader that starts behind it. */
  lemma JoinOutcome(s: State, id: word, stamp: word, k: nat)
    requires Inv(s) && s.smart && id !in s.readers && |s.readers| + 1 < WORDS && Unneeded(s.cells, k)
    ensures var c := Step(s, OpClean);
            var t := Step(s, OpJoin(id, stamp));
            var msg := Msg(id, WORDS - 1, stamp, [0]);
            c.head < c.cap
            && if 1 <= SumCapacities(FreeRegions(c.cap, c.head, Tail(c), c.cells == [])) then
                 && t.head < t.cap
                 && t == c.(cells := s.cells[k..] + [Cell(msg, |s.readers|)], log := s.log + [msg], subs := |s.readers| + 1,
                            readers := s.readers[id := Reader(Some(Tail(t)), |s.log| + 1, |s.log| + 1, [])])
               else
                 t == s
  {
    hide RefsOk, ReadersOk, Used, End, FreeRegions, Span, Room;
    CleanOutcome(s, k);
    CleanKeepsCore(s);
    RoomIsFree(Clean(s), 1);
  }

  /** A leave appends DISCONNECT and takes the reader away. It leaves the counters exact if nothing
      that the reader has not read looks like a DISCONNECT of its own. */
  lemma LeaveOutcome(s: State, id: word, stamp: word)
    requires Inv(s) && s.smart && id in s.readers
    ensures var c := Step(s, OpClean);
            var t := Step(s, OpLeave(id, stamp));
            c.head < c.cap
            && if 1 <= SumCapacities(FreeRegions(c.cap, c.head, Tail(c), c.cells == [])) then
                 && t.readers == s.readers - {id} && t.subs == |s.readers| - 1
                 && t.log == s.log + [Msg(id, WORDS - 1, stamp, [1])]
                 && (Inv(t) <==> forall i :: s.readers[id].next <= i < |s.log| ==>
                      !(s.log[i].sid == id && s.log[i].tag == WORDS - 1 && s.log[i].data != [] && s.log[i].data[0] == 1))
               else
                 t == s
  {
    hide RefsOk, ReadersOk, Used, End, FreeRegions, Span, Room, Leave, Garbage;
    assert id in s.readers.Keys;
    CleanKeepsCore(s);
    RoomIsFree(Clean(s), 1);
    if CanLeave(s, id) {
      LeaveExactly(s, id, stamp);
    }
  }

  // ---- runs without data that bears the reserved tag ----

  predicate PlainData(op: Op) {
    op.OpPush? ==> op.msg.tag != WORDS - 1
  }

  /** No reader has anything to read that looks like a DISCONNECT of its own. */
  ghost predicate Unspoilt(s: State) {
    forall id :: id in s.readers ==> NoGoodbyeFor(s, id)
  }

  lemma StepStaysUnspoilt(s: State, op: Op)
    requires Inv(s) && s.smart && Unspoilt(s) && PlainData(op) && Allowed(s, op)
    ensures Unspoilt(Step(s, op)) && Step(s, op).smart
  {
    hide RefsOk, ReadersOk, Used, End, Span, Step, NoGoodbyeFor, Allowed;
    StepKeepsInv(s, op);
    forall id | id in Step(s, op).readers
      ensures NoGoodbyeFor(Step(s, op), id)
    {
      StaysUnspoiltFor(s, op, id);
    }
  }

  lemma StaysUnspoiltFor(s: State, op: Op, id: word)
    requires Inv(s) && s.smart && PlainData(op) && id in Step(s, op).readers
    requires id in s.readers ==> NoGoodbyeFor(s, id)
    requires Inv(Step(s, op))
    ensures NoGoodbyeFor(Step(s, op), id)
  {
    hide RefsOk, ReadersOk, Used, End, Span, Step, FreeRegions, Slots;
    var t := Step(s, op);
    StepKeepsInv(s, op);
    match op
    case OpPush(msg) =>
      if 0 < |msg.data| {
        GarbageIsUnneededRun(s);
        PushOutcome(s, msg, Garbage(s.cells));
        CleanOutcome(s, Garbage(s.cells));
      } else {
        EmptyPush(s, msg);
      }
    case OpClean =>
      GarbageIsUnneededRun(s);
      CleanOutcome(s, Garbage(s.cells));
    case OpGet(other) =>
      if other in s.readers { GetOutcome(s, other); } else { NobodyGets(s, other); }
    case OpPop(other) =>
      if other in s.readers && s.readers[other].next < |s.log| && !Foreign(s.smart, other, s.log[s.readers[other].next]) {
        PopOutcome(s, other);
      } else {
        NoPopOutcome(s, other);
      }
    case OpAttach(other) => NotPlain(s, op);
    case OpDetach(other) => NotPlain(s, op);
    case OpJoin(other, stamp) =>
      if other !in s.readers && |s.readers| + 1 < WORDS {
        GarbageIsUnneededRun(s);
        JoinOutcome(s, other, stamp, Garbage(s.cells));
        CleanOutcome(s, Garbage(s.cells));
      } else {
        NotPlain(s, op);
      }
    case OpLeave(other, stamp) =>
      if other in s.readers { LeaveOutcome(s, other, stamp); } else { NotPlain(s, op); }
  }

  lemma GarbageIsUnneededRun(s: State)
    ensures Unneeded(s.cells, Garbage(s.cells))
  {
  }

  lemma EmptyPush(s: State, msg: Msg)
    requires Inv(s) && |msg.data| == 0
    ensures Step(s, OpPush(msg)) == s
  {
  }

  lemma NobodyGets(s: State, id: word)
    requires Inv(s) && id !in s.readers
    ensures Step(s, OpGet(id)) == s
  {
  }

  /** Steps of a plain queue, and a join or leave of a reader that is there or is not, do nothing. */
  lemma NotPlain(s: State, op: Op)
    requires Inv(s) && s.smart
    requires op.OpAttach? || op.OpDetach? || (op.OpJoin? && (op.id in s.readers || |s.readers| + 1 >= WORDS))
             || (op.OpLeave? && op.id !in s.readers)
    ensures Step(s, op) == s
  {
    hide Core;
  }

  lemma {:induction false} RunStaysUnspoilt(s: State, ops: seq<Op>)
    requires Inv(s) && s.smart && Unspoilt(s) && AllAllowed(s, ops) && forall op :: op in ops ==> PlainData(op)
    ensures Unspoilt(Run(s, ops)) && Run(s, ops).smart
    decreases |ops|
  {
    hide Inv, Step, Allowed, Unspoilt, PlainData, Grown;
    if ops != [] {
      StepKeepsInv(s, ops[0]);
      StepStaysUnspoilt(s, ops[0]);
      RunStaysUnspoilt(Step(s, ops[0]), ops[1..]);
    }
  }

  /** In every run of a smart queue in which no data bears the reserved tag every reader may leave at
      any time: the drain goes on to its DISCONNECT, past all other messages, so that it has read
      everything, and afterwards the counters are exact for those that remain. */
  lemma LeaveIsAlwaysRight(cap: nat, ops: seq<Op>, id: word, stamp: word)
    requires 0 < cap < WORDS - 1 && AllAllowed(Init(true, cap), ops) && forall op :: op in ops ==> PlainData(op)
    ensures var s := Run(Init(true, cap), ops);
            && Allowed(s, OpLeave(id, stamp)) && Inv(Step(s, OpLeave(id, stamp)))
            && (CanLeave(s, id) ==>
                 && id !in Step(s, OpLeave(id, stamp)).readers
                 && Core(SayGoodbye(s, id, stamp))
                 && var d := Drain(SayGoodbye(s, id, stamp), id);
                    && id in d.readers && d.readers[id].next == |d.log| == |s.log| + 1
                    && d.log[|s.log|] == Msg(id, WORDS - 1, stamp, [1]))
  {
    hide AllAllowed, Run, RefsOk, ReadersOk, Used, End, Span, Drain, SayGoodbye, IsDisconnect, Room, Garbage, Leave;
    var s := Run(Init(true, cap), ops);
    RunStaysUnspoilt(Init(true, cap), ops);
    StepKeepsInv(s, OpLeave(id, stamp));
    if CanLeave(s, id) {
      LeaveExactly(s, id, stamp);
      GoodbyeKeepsCore(s, id, stamp);
      GoodbyeIsLast(s, id, stamp);
      GoodbyeDisconnects(s, id, stamp);
      DrainReadsAll(SayGoodbye(s, id, stamp), id);
    }
  }
}
