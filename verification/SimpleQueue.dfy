/** The queue of one reader: a first-in-first-out queue that refuses what does not fit. */
module SimpleQueues {
  import opened Bytes
  import opened Geometry
  import opened Layout
  import opened Regions
  import opened Trimmings
  import opened Rings
  import opened Partitions

  /** What matters of a queue: its capacity, the offset of its head and its messages. */
  datatype QState = QState(cap: nat, head: nat, cells: seq<Cell>) {

    ghost predicate Ok() {
      && head < cap
      && (forall c :: c in cells ==> 0 < c.Len())
      && Used(cap, head, cells) <= cap
    }

    function Tail(): nat
      requires head < cap
    {
      End(cap, head, cells)
    }

    predicate Room(n: nat)
      requires head < cap
    {
      Used(cap, head, cells) + Span(cap, Tail(), n) <= cap
    }

    function Push(c: Cell): QState
      requires head < cap
    {
      if Room(c.Len()) then this.(cells := cells + [c]) else this
    }

    function Pop(): QState
      requires head < cap
    {
      if cells == [] then this else QState(cap, Next(cap, head, cells[0].Len()), cells[1..])
    }

    /** Drops messages that are not younger than `limit` until `n` bytes fit. */
    function DropOld(n: nat, limit: nat): (q: QState)
      requires head < cap
      ensures q.head < q.cap
      decreases |cells|
    {
      if cells == [] || cells[0].msg.stamp > limit then this
      else
        var q := Pop();
        if q.Room(n) then q else q.DropOld(n, limit)
    }

    /** How many messages are dropped for `n` bytes. */
    function Drops(n: nat, limit: nat): (k: nat)
      requires head < cap
      ensures k <= |cells|
      decreases |cells|
    {
      if cells == [] || cells[0].msg.stamp > limit then 0
      else if Pop().Room(n) then 1
      else 1 + Pop().Drops(n, limit)
    }

    function KeepAliveDrops(n: nat, timeout: nat, now: nat): (k: nat)
      requires head < cap
      ensures k <= |cells|
    {
      if Room(n) || timeout == 0 then 0 else Drops(n, Limit(now, timeout))
    }

    predicate KeepAliveRoom(n: nat, timeout: nat, now: nat)
      requires head < cap
    {
      Room(n) || (timeout > 0 && DropOld(n, Limit(now, timeout)).Room(n))
    }

    /** The push with the keep-alive time `timeout` at the time `now`. */
    function KeepAlivePush(c: Cell, timeout: nat, now: nat): QState
      requires head < cap
    {
      if Room(c.Len()) || timeout == 0 then Push(c) else DropOld(c.Len(), Limit(now, timeout)).Push(c)
    }
  }

  /** The youngest time stamp of a message that may be dropped; a 64-bit difference. */
  function Limit(now: nat, timeout: nat): nat {
    (now - timeout) % SIZES
  }

  function Msgs(cells: seq<Cell>): (r: seq<Msg>)
    ensures |r| == |cells| && forall i :: 0 <= i < |cells| ==> r[i] == cells[i].msg
  {
    seq(|cells|, i requires 0 <= i < |cells| => cells[i].msg)
  }

  lemma PushKeepsOk(q: QState, c: Cell)
    requires q.Ok() && 0 < c.Len()
    ensures q.Push(c).Ok()
  {
    if q.Room(c.Len()) {
      UsedAppend(q.cap, q.head, q.cells, [c]);
      UsedOne(q.cap, q.Tail(), c);
    }
  }

  lemma PopKeepsOk(q: QState)
    requires q.Ok()
    ensures q.Pop().Ok() && q.Pop().Tail() == q.Tail()
  {
  }

  /** The keep-alive push drops a run of the oldest messages, all of them old enough, and no
      more of them than the new message needs. */
  lemma {:induction false} DropOldDrops(q: QState, n: nat, limit: nat)
    requires q.Ok() && !q.Room(n)
    ensures var r, k := q.DropOld(n, limit), q.Drops(n, limit);
            && r.Ok() && r.cap == q.cap && r.Tail() == q.Tail()
            && r.cells == q.cells[k..] && r.head == End(q.cap, q.head, q.cells[..k])
            && (forall j :: 0 <= j < k ==> q.cells[j].msg.stamp <= limit)
            && (forall j :: 0 <= j < k ==> !QState(q.cap, End(q.cap, q.head, q.cells[..j]), q.cells[j..]).Room(n))
            && (!r.Room(n) ==> r.cells == [] || r.cells[0].msg.stamp > limit)
    decreases |q.cells|
  {
    hide Used, Span, Next;
    if q.cells != [] && q.cells[0].msg.stamp <= limit {
      var p := q.Pop();
      PopKeepsOk(q);
      if !p.Room(n) {
        DropOldDrops(p, n, limit);
      }
      var k := q.Drops(n, limit);
      forall j | 0 <= j < k
        ensures q.cells[j].msg.stamp <= limit
        ensures !QState(q.cap, End(q.cap, q.head, q.cells[..j]), q.cells[j..]).Room(n)
      {
        DroppedAgain(q, j, n);
        if j > 0 {
          assert p.cells[j - 1].msg.stamp <= limit;
        }
      }
      assert q.cells[..k][1..] == p.cells[..k - 1];
    }
  }

  lemma DroppedAgain(q: QState, j: nat, n: nat)
    requires q.Ok() && j <= |q.cells|
    ensures j == 0 ==> QState(q.cap, End(q.cap, q.head, q.cells[..j]), q.cells[j..]) == q
    ensures j > 0 ==> QState(q.cap, End(q.cap, q.head, q.cells[..j]), q.cells[j..])
                      == QState(q.cap, End(q.cap, q.Pop().head, q.Pop().cells[..j - 1]), q.Pop().cells[j - 1..])
  {
    if j > 0 {
      assert q.cells[..j][1..] == q.Pop().cells[..j - 1];
    }
  }

  /** Whatever a keep-alive push returns: it drops a run of the oldest messages, all of them idle
      for at least `timeout`, only while the new message does not fit, and adds it if it does. */
  lemma KeepAliveOnlyOld(q: QState, c: Cell, timeout: nat, now: nat)
    requires q.Ok() && 0 < c.Len() && timeout <= now < SIZES
    ensures var r, k := q.KeepAlivePush(c, timeout, now), q.KeepAliveDrops(c.Len(), timeout, now);
            var rest := QState(q.cap, End(q.cap, q.head, q.cells[..k]), q.cells[k..]);
            && r.Ok()
            && r == (if rest.Room(c.Len()) then rest.(cells := rest.cells + [c]) else rest)
            && (forall j :: 0 <= j < k ==> q.cells[j].msg.stamp + timeout <= now)
            && (forall j :: 0 <= j < k ==>
                 !QState(q.cap, End(q.cap, q.head, q.cells[..j]), q.cells[j..]).Room(c.Len()))
            && (0 < timeout && !rest.Room(c.Len()) ==>
                 rest.cells == [] || rest.cells[0].msg.stamp + timeout > now)
  {
    if q.Room(c.Len()) || timeout == 0 {
      PushKeepsOk(q, c);
      assert q.cells[..0] == [] && q.cells[0..] == q.cells;
    } else {
      DropOldDrops(q, c.Len(), Limit(now, timeout));
      PushKeepsOk(q.DropOld(c.Len(), Limit(now, timeout)), c);
      LimitIsAge(now, timeout);
    }
  }

  lemma LimitIsAge(now: nat, timeout: nat)
    requires timeout <= now < SIZES
    ensures Limit(now, timeout) == now - timeout
  {
  }

  /** Before as much time has passed since the start of the clock as the keep-alive time the limit
      wraps around, and every message is old enough. */
  lemma LimitWraps(now: nat, timeout: word, stamp: word)
    requires now < timeout
    ensures Limit(now, timeout) == SIZES + now - timeout && stamp <= Limit(now, timeout)
  {
  }

  /** Then a push drops whatever it needs, however young, and accepts every payload that an empty ring
      with its head at the tail can take. */
  lemma EarlyPushAccepts(q: QState, c: Cell, timeout: word, now: nat)
    requires q.Ok() && 0 < c.Len() && now < timeout
    ensures q.KeepAliveRoom(c.Len(), timeout, now) <==> Span(q.cap, q.Tail(), c.Len()) <= q.cap
    ensures var r, k := q.KeepAlivePush(c, timeout, now), q.KeepAliveDrops(c.Len(), timeout, now);
            && r.Ok()
            && r.cells == q.cells[k..] + (if q.KeepAliveRoom(c.Len(), timeout, now) then [c] else [])
            && (forall j :: 0 <= j < k ==>
                 !QState(q.cap, End(q.cap, q.head, q.cells[..j]), q.cells[j..]).Room(c.Len()))
            && (!q.KeepAliveRoom(c.Len(), timeout, now) ==> k == |q.cells|)
  {
    hide Span, Next;
    var n, limit := c.Len(), Limit(now, timeout);
    if q.Room(n) {
      PushKeepsOk(q, c);
      assert q.cells[0..] == q.cells;
    } else {
      DropOldDrops(q, n, limit);
      PushKeepsOk(q.DropOld(n, limit), c);
      var r := q.DropOld(n, limit);
      if r.cells != [] {
        LimitWraps(now, timeout, r.cells[0].msg.stamp);
      }
    }
  }

  /** A push succeeds exactly if the payload is not larger than what the free regions can take. */
  lemma RoomIsFreeCapacity(q: QState, n: nat)
    requires q.Ok() && 0 < n
    ensures q.Room(n) <==> n <= SumCapacities(FreeRegions(q.cap, q.head, q.Tail(), q.cells == []))
  {
    EndIsUsed(q.cap, q.head, q.cells);
    UsedBound(q.cap, q.head, q.cells);
    RoomIsCapacity(q.cap, q.head, Used(q.cap, q.head, q.cells), n);
  }

  /** A push at the time `now` with a keep-alive time, which is zero if there is none; or a pop. */
  datatype Op = OpPush(msg: Msg, timeout: nat, now: nat) | OpPop

  function Step(q: QState, op: Op): (r: QState)
    requires q.head < q.cap
    ensures r.head < r.cap
  {
    match op
    case OpPush(msg, timeout, now) => q.KeepAlivePush(Cell(msg, 0), timeout, now)
    case OpPop => q.Pop()
  }

  /** The message whose push is accepted in a step. */
  function AcceptedIn(q: QState, op: Op): seq<Msg>
    requires q.head < q.cap
  {
    if op.OpPush? && q.KeepAliveRoom(|op.msg.data|, op.timeout, op.now) then [op.msg] else []
  }

  /** The messages that are popped or dropped in a step. */
  function RemovedIn(q: QState, op: Op): seq<Msg>
    requires q.head < q.cap
  {
    match op
    case OpPush(msg, timeout, now) => Msgs(q.cells[..q.KeepAliveDrops(|msg.data|, timeout, now)])
    case OpPop => if q.cells != [] then [q.cells[0].msg] else []
  }

  function Run(q: QState, ops: seq<Op>): (r: QState)
    requires q.head < q.cap
    ensures r.head < r.cap
    decreases |ops|
  {
    if ops == [] then q else Run(Step(q, ops[0]), ops[1..])
  }

  function Accepted(q: QState, ops: seq<Op>): seq<Msg>
    requires q.head < q.cap
    decreases |ops|
  {
    if ops == [] then [] else AcceptedIn(q, ops[0]) + Accepted(Step(q, ops[0]), ops[1..])
  }

  function Removed(q: QState, ops: seq<Op>): seq<Msg>
    requires q.head < q.cap
    decreases |ops|
  {
    if ops == [] then [] else RemovedIn(q, ops[0]) + Removed(Step(q, ops[0]), ops[1..])
  }

  lemma StepIsFifo(q: QState, op: Op)
    requires q.Ok() && (op.OpPush? ==> 0 < |op.msg.data|)
    ensures Step(q, op).Ok()
    ensures RemovedIn(q, op) + Msgs(Step(q, op).cells) == Msgs(q.cells) + AcceptedIn(q, op)
  {
    hide Used, Span, Next;
    match op
    case OpPop => PopKeepsOk(q);
    case OpPush(msg, timeout, now) =>
      var c := Cell(msg, 0);
      if q.Room(|msg.data|) || timeout == 0 {
        PushKeepsOk(q, c);
        assert q.cells[..0] == [];
      } else {
        DropOldDrops(q, |msg.data|, Limit(now, timeout));
        PushKeepsOk(q.DropOld(|msg.data|, Limit(now, timeout)), c);
        MsgsSplit(q.cells, q.Drops(|msg.data|, Limit(now, timeout)));
      }
  }

  lemma MsgsSplit(cells: seq<Cell>, k: nat)
    requires k <= |cells|
    ensures Msgs(cells) == Msgs(cells[..k]) + Msgs(cells[k..])
  {
  }

  /** A run of one step, and a run after another one. */
  lemma RunOne(q: QState, op: Op)
    requires q.head < q.cap
    ensures Run(q, [op]) == Step(q, op)
    ensures Accepted(q, [op]) == AcceptedIn(q, op) && Removed(q, [op]) == RemovedIn(q, op)
  {
    hide Step, AcceptedIn, RemovedIn;
    assert [op][1..] == [];
    var t := Step(q, op);
    assert Run(t, []) == t && Accepted(t, []) == [] && Removed(t, []) == [];
  }

  lemma {:induction false} RunJoin(q: QState, a: seq<Op>, b: seq<Op>)
    requires q.head < q.cap
    ensures Run(q, a + b) == Run(Run(q, a), b)
    ensures Accepted(q, a + b) == Accepted(q, a) + Accepted(Run(q, a), b)
    ensures Removed(q, a + b) == Removed(q, a) + Removed(Run(q, a), b)
    decreases |a|
  {
    hide Step, AcceptedIn, RemovedIn;
    if a == [] {
      assert a + b == b;
    } else {
      assert (a + b)[1..] == a[1..] + b;
      RunJoin(Step(q, a[0]), a[1..], b);
    }
  }

  /** Over every run, with or without keep-alive times, nothing is lost, repeated or reordered:
      what has been popped and dropped, followed by what is still in the ring, is what was there
      followed by what has been accepted. */
  lemma {:induction false} RunIsFifo(q: QState, ops: seq<Op>)
    requires q.Ok() && forall op :: op in ops && op.OpPush? ==> 0 < |op.msg.data|
    ensures Run(q, ops).Ok()
    ensures Removed(q, ops) + Msgs(Run(q, ops).cells) == Msgs(q.cells) + Accepted(q, ops)
    decreases |ops|
  {
    hide Used, Msgs, Step, RemovedIn, AcceptedIn;
    if ops != [] {
      var op, next := ops[0], Step(q, ops[0]);
      StepIsFifo(q, op);
      RunIsFifo(next, ops[1..]);
      var rest, removed, accepted := Msgs(Run(q, ops).cells), Removed(next, ops[1..]), Accepted(next, ops[1..]);
      assert removed + rest == Msgs(next.cells) + accepted;
      assert RemovedIn(q, op) + removed + rest == RemovedIn(q, op) + (removed + rest);
      assert Msgs(q.cells) + AcceptedIn(q, op) + accepted == Msgs(q.cells) + (AcceptedIn(q, op) + accepted);
    }
  }

  /** Where a message object finds the oldest message. */
  function FirstDesc(q: QState): Desc
    requires q.head < q.cap && q.cells != []
  {
    DescOf(q.cap, q.head, q.cells[0].Len())
  }

  /** A push drops no message. */
  predicate NothingDropped(q: QState, n: nat, timeout: nat, now: nat)
    requires q.head < q.cap && q.cells != []
  {
    timeout == 0 || q.Room(n) || q.cells[0].msg.stamp > Limit(now, timeout)
  }

  /** All messages are dropped, and the new one takes the very chunks that the oldest one had. */
  predicate SamePlace(q: QState, n: nat, timeout: nat, now: nat)
    requires q.head < q.cap && q.cells != []
  {
    var rest := q.DropOld(n, Limit(now, timeout));
    rest.cells == [] && rest.Room(n) && DescOf(q.cap, q.Tail(), n) == FirstDesc(q)
  }

  lemma ChunksDiffer(cap: nat, hd: nat, cells: seq<Cell>, k: nat)
    requires hd < cap && Used(cap, hd, cells) <= cap && 0 < k < |cells|
    requires forall c :: c in cells ==> 0 < c.Len()
    ensures DescOf(cap, hd, cells[0].Len()) != DescOf(cap, Start(cap, hd, cells, k), cells[k].Len())
  {
    hide Used;
    assert cells[..0] == [];
    assert Start(cap, hd, cells, 0) == hd;
    var f := FirstOffset(cap, hd);
    assert Owns(cap, hd, cells, Chunk(0), f);
    if f == FirstOffset(cap, Start(cap, hd, cells, k)) {
      assert Owns(cap, hd, cells, Chunk(k), f);
      var o := OneOwner(cap, hd, cells, f);
    }
  }

  /** Exactly when the oldest message is still the first one after a push, so that a pop removes what
      `get` has shown: with no keep-alive time, or room, or a message that is too young. */
  lemma FirstAfterPush(q: QState, c: Cell, timeout: nat, now: nat)
    requires q.Ok() && q.cells != [] && 0 < c.Len()
    ensures var r, k := q.KeepAlivePush(c, timeout, now), q.KeepAliveDrops(c.Len(), timeout, now);
            && r.Ok()
            && (k == 0 <==> NothingDropped(q, c.Len(), timeout, now))
            && (k == 0 ==> r.head == q.head && r.cells != [] && r.cells[0] == q.cells[0])
            && (k > 0 ==> r.cells == q.cells[k..] + if q.KeepAliveRoom(c.Len(), timeout, now) then [c] else [])
  {
    hide Used, Span;
    if q.Room(c.Len()) || timeout == 0 {
      PushKeepsOk(q, c);
    } else {
      DropOldDrops(q, c.Len(), Limit(now, timeout));
      PushKeepsOk(q.DropOld(c.Len(), Limit(now, timeout)), c);
    }
  }

  /** The chunks of the oldest message are those of the first one after a push if it is the same
      message, or else exactly if the new message takes its place. */
  lemma DescAfterPush(q: QState, c: Cell, timeout: nat, now: nat)
    requires q.Ok() && q.cells != [] && 0 < c.Len()
    ensures var r := q.KeepAlivePush(c, timeout, now);
            && r.Ok()
            && (r.cells != [] && FirstDesc(r) == FirstDesc(q) <==>
                NothingDropped(q, c.Len(), timeout, now) || SamePlace(q, c.Len(), timeout, now))
  {
    hide Used, Span, DescOf;
    if q.Room(c.Len()) || timeout == 0 {
      PushKeepsOk(q, c);
    } else {
      DropOldDrops(q, c.Len(), Limit(now, timeout));
      PushKeepsOk(q.DropOld(c.Len(), Limit(now, timeout)), c);
      var k := q.Drops(c.Len(), Limit(now, timeout));
      if 0 < k < |q.cells| {
        ChunksDiffer(q.cap, q.head, q.cells, k);
      }
    }
  }

  function Old(n: nat): Cell {
    Cell(Msg(1, 7, 0, seq(n, _ => 0)), 0)
  }

  /** A new queue of 100 bytes with a keep-alive time of 5: two messages of 20 bytes are pushed, the
      first is got, and at the time 10 another one is pushed, for which the first is dropped. A pop
      with the description that was got leaves the head where it is, at the second message, and
      counts one message less, so that the last one is never got. */
  lemma StalePop()
    ensures var q := QState(100, 0, []).Push(Old(20)).Push(Old(20));
            && q.Ok() && q.cells == [Old(20), Old(20)]
            && var r := q.KeepAlivePush(Old(20), 5, 10);
               && r.cells == [Old(20), Old(20)] && q.KeepAliveDrops(20, 5, 10) == 1
               && FirstDesc(r) != FirstDesc(q)
               && FirstDesc(q).end % r.cap == r.head != r.Pop().head
  {
    var q0, c := QState(100, 0, []), Old(20);
    var q1 := q0.Push(c);
    PushKeepsOk(q0, c);
    UsedOne(100, 0, c);
    assert q1 == QState(100, 0, [c]);
    var q := q1.Push(c);
    PushKeepsOk(q1, c);
    TwoUsed(100, 0, c, c);
    assert q == QState(100, 0, [c, c]);
    assert q.Pop() == QState(100, 44, [c]);
    UsedOne(100, 44, c);
    assert q.Pop().Room(20);
  }

  lemma TwoUsed(cap: nat, p: nat, c: Cell, d: Cell)
    requires p < cap
    ensures Used(cap, p, [c, d]) == Span(cap, p, c.Len()) + Span(cap, Next(cap, p, c.Len()), d.Len())
    ensures End(cap, p, [c, d]) == Next(cap, Next(cap, p, c.Len()), d.Len())
  {
    assert [c, d] == [c] + [d];
    UsedAppend(cap, p, [c], [d]);
    UsedOne(cap, p, c);
    UsedOne(cap, Next(cap, p, c.Len()), d);
  }

  /** The chunks may be the same although the message is another one: a message of 66 bytes in a ring
      of 100 gives way to one of the same size. */
  lemma SamePlaceOtherMessage()
    ensures var q := QState(100, 0, []).Push(Old(66));
            && q.Ok() && q.cells == [Old(66)]
            && !NothingDropped(q, 66, 5, 10) && q.KeepAliveDrops(66, 5, 10) == 1 && SamePlace(q, 66, 5, 10)
  {
    var q0, c := QState(100, 0, []), Old(66);
    PushKeepsOk(q0, c);
    UsedOne(100, 0, c);
    assert q0.Push(c) == QState(100, 0, [c]);
    assert q0.Push(c).Pop() == QState(100, 90, []);
  }

  class SimpleQueue {
    const ring: Ring
    var timeout: word
    /** The description of the message that `Get` has found last. */
    var messageDesc: Option<Desc>
    /** How many messages have been popped and dropped, and how many had been when `Get` found it. */
    ghost var removed: nat
    ghost var shown: nat

    ghost predicate Valid()
      reads this, ring, ring.mem
    {
      ring.Valid()
    }

    /** The message that `Get` has shown is still the first one. */
    ghost predicate Fresh()
      requires Valid()
      reads this, ring, ring.mem
    {
      Usable() && (messageDesc.Some? ==> shown == removed)
    }

    /** The description that `Get` has left is that of the message at the head. */
    ghost predicate Usable()
      requires Valid()
      reads this, ring, ring.mem
    {
      messageDesc.Some? ==>
        ring.cells != [] && messageDesc.value == DescOf(ring.cap, ring.head, ring.cells[0].Len())
    }

    ghost function State(): QState
      reads this, ring
    {
      QState(ring.cap, ring.head, ring.cells)
    }

    constructor (size: nat)
      requires 0 < size < WORDS - 1
      ensures Valid() && fresh(ring) && fresh(ring.mem) && Fresh()
      ensures State() == QState(size, 0, []) && timeout == 0
    {
      ring := new Ring(size);
      timeout := 0;
      messageDesc := None;
      removed, shown := 0, 0;
    }

    method DoPush(tag: word, data: seq<byte>, sid: word, clock: nat -> word) returns (ok: bool)
      requires Valid() && 0 < |data|
      modifies ring, ring.mem
      ensures Valid()
      ensures State() == old(State()).Push(Cell(Msg(sid, tag, clock(0), data), 0)) && ok == old(State()).Room(|data|)
      ensures SameArc(old(ring.mem[..]), ring.mem[..], old(ring.head), old(Used(ring.cap, ring.head, ring.cells)))
    {
      hide Holds, Used, End, Span, MessageAt, DescOf, TwoCapacities, SumCapacities, InFree, TrimmedRegions;
      ring.Untrimmed(|data|);
      var desc := ring.MakeMessage(data, sid, clock, UNLIMITED);
      if desc.Some? {
        ghost var c := Cell(Msg(sid, 0, clock(0), data), 0);
        ring.SetPending(desc.value, TAG_OFFSET, tag, c, true);
        ring.Commit(desc.value.end, WithField(c, TAG_OFFSET, tag), true);
        return true;
      }
      return false;
    }

    method PopMessage(desc: Desc)
      requires Valid() && ring.cells != [] && desc == DescOf(ring.cap, ring.head, ring.cells[0].Len())
      modifies ring, ring.mem, this`removed
      ensures Valid() && State() == old(State()).Pop() && removed == old(removed) + 1
    {
      removed := removed + 1;
      var counter := LoadWord(ring.mem, desc.chain[0] + COUNTER_OFFSET);
      ring.SetCounter(desc, if counter == 0 then WORDS - 1 else counter - 1, 0);
      ring.DropFirst(desc.end);
    }

    /** Drops the oldest message if there is one and it is not younger than `limit`. */
    method DropOldest(limit: nat) returns (dropped: bool)
      requires Valid()
      modifies ring, ring.mem, this`removed
      ensures removed == old(removed) + if dropped then 1 else 0
      ensures Valid() && dropped == (old(ring.cells) != [] && old(ring.cells)[0].msg.stamp <= limit)
      ensures State() == if dropped then old(State()).Pop() else old(State())
    {
      hide Used, End, Span, Next, Holds;
      if ring.count == 0 {
        return false;
      }
      var desc := ring.GetFirst(ring.head, false);
      MessageShows(ring.mem[..], ring.head, ring.cells[0]);
      var ts := LoadWord(ring.mem, desc.value.chain[0] + TS_OFFSET);
      if ts > limit {
        return false;
      }
      PopMessage(desc.value);
      return true;
    }

    /** Pushes a message; drops messages that are idle for too long if there is no room. */
    method Push(tag: word, data: seq<byte>, sid: word, clock: nat -> word, now: nat) returns (ok: bool)
      requires Valid() && 0 < |data|
      modifies ring, ring.mem, this`removed
      ensures Valid()
      ensures State() == old(State()).KeepAlivePush(Cell(Msg(sid, tag, clock(0), data), 0), timeout, now)
      ensures ok == old(State()).KeepAliveRoom(|data|, timeout, now)
      ensures var q, op := old(State()), OpPush(Msg(sid, tag, clock(0), data), timeout, now);
              State() == Step(q, op) && AcceptedIn(q, op) == if ok then [op.msg] else []
      ensures removed == old(removed) + old(State()).KeepAliveDrops(|data|, timeout, now)
      ensures old(messageDesc.None?) ==> Fresh()
      ensures old(Fresh() && messageDesc.Some?) ==>
        && (Fresh() <==> old(NothingDropped(State(), |data|, timeout, now)))
        && (Usable() <==> old(NothingDropped(State(), |data|, timeout, now) || SamePlace(State(), |data|, timeout, now)))
    {
      hide Used, End, Span, Next, Holds, SameArc, DescOf, NothingDropped, SamePlace, Limit;
      ghost var c := Cell(Msg(sid, tag, clock(0), data), 0);
      if ring.cells != [] {
        FirstAfterPush(State(), c, timeout, now);
        DescAfterPush(State(), c, timeout, now);
      }
      ok := DoPush(tag, data, sid, clock);
      if !ok && timeout > 0 {
        ok := PushAgain(tag, data, sid, clock, Limit(now, timeout));
      }
    }

    /** Drops the oldest message and pushes again, until there is room or no message is old enough. */
    method PushAgain(tag: word, data: seq<byte>, sid: word, clock: nat -> word, limit: nat) returns (ok: bool)
      requires Valid() && 0 < |data| && !State().Room(|data|)
      modifies ring, ring.mem, this`removed
      ensures Valid() && ok == old(State()).DropOld(|data|, limit).Room(|data|)
      ensures State() == old(State()).DropOld(|data|, limit).Push(Cell(Msg(sid, tag, clock(0), data), 0))
      ensures removed == old(removed) + old(State()).Drops(|data|, limit)
    {
      hide Used, End, Span, Next, Holds, SameArc, DescOf;
      ghost var c := Cell(Msg(sid, tag, clock(0), data), 0);
      ok := false;
      while !ok
        invariant Valid()
        invariant !ok ==> !State().Room(|data|)
                          && State().DropOld(|data|, limit) == old(State()).DropOld(|data|, limit)
        invariant !ok ==> removed + State().Drops(|data|, limit) == old(removed) + old(State()).Drops(|data|, limit)
        invariant ok ==> State() == old(State()).DropOld(|data|, limit).Push(c)
                         && old(State()).DropOld(|data|, limit).Room(|data|)
                         && removed == old(removed) + old(State()).Drops(|data|, limit)
        decreases !ok, |ring.cells|
      {
        var dropped := DropOldest(limit);
        if !dropped {
          return false;
        }
        ok := DoPush(tag, data, sid, clock);
      }
    }

    /** Finds the oldest message. */
    method Get() returns (r: Option<Desc>)
      requires Valid()
      modifies this`messageDesc, this`shown
      ensures r.None? <==> ring.cells == []
      ensures r.Some? ==> Shows(ring.mem[..], r.value, ring.cells[0].msg) && messageDesc == r
      ensures r.None? ==> messageDesc == old(messageDesc)
      ensures r.Some? || old(Fresh()) ==> Fresh()
    {
      hide Holds, Used, End, Span, Next, MessageAt, DescOf, Shows;
      if ring.count > 0 {
        messageDesc := ring.GetFirst(ring.head, false);
        MessageShows(ring.mem[..], ring.head, ring.cells[0]);
        shown := removed;
        return messageDesc;
      }
      return None;
    }

    /** Removes the oldest message, which is the one that `Get` has shown if that is still fresh. */
    method Pop() returns (ok: bool)
      requires Valid() && Usable()
      modifies this`messageDesc, this`removed, ring, ring.mem
      ensures Valid() && Fresh() && removed == old(removed) + if ok then 1 else 0
      ensures old(Fresh() && messageDesc.Some?) ==> ok && removed == old(shown) + 1
      ensures ok == (old(ring.cells) != []) && State() == Step(old(State()), OpPop)
    {
      if ring.count > 0 {
        if messageDesc.None? {
          messageDesc := ring.GetFirst(ring.head, false);
        }
        PopMessage(messageDesc.value);
        messageDesc := None;
        return true;
      }
      return false;
    }
  }
}
