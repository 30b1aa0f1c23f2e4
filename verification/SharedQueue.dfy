/** The shared queue itself: the header fields in the shared memory, and the objects of the
    processes, each with its own head and its own count of popped messages. */
module SharedQueues {
  import opened Bytes
  import opened Geometry
  import opened Layout
  import opened Messages
  import opened Regions
  import opened Trimmings
  import opened Rings
  import opened Broadcasts
  import opened Outcomes

  /** The head of a reader that has none of its own. */
  const NPOS: word := WORDS - 1

  /** The difference of two counters that wrap around is the number of messages between them. */
  lemma CountersDiffer(pushed: nat, popped: nat)
    requires popped <= pushed < popped + WORDS
    ensures (pushed % WORDS - popped % WORDS) % WORDS == pushed - popped
  {
  }

  lemma CounterGoesOn(n: nat)
    ensures (n % WORDS + 1) % WORDS == (n + 1) % WORDS
  {
  }

  lemma GarbageIs(cells: seq<Cell>, k: nat)
    requires k <= |cells| && forall i :: 0 <= i < k ==> cells[i].refs == 0
    requires k < |cells| ==> cells[k].refs > 0
    ensures Garbage(cells) == k
  {
  }

  lemma CollectIsClean(s: State, k: nat)
    requires s.head < s.cap && k == Garbage(s.cells)
    ensures Clean(s) == Collect(s, k)
  {
  }

  /** The fields in the shared memory; `spec` is the state of the whole system. */
  class Shared {
    const ring: Ring
    const smart: bool
    var subs: word
    var counter: word
    var freeSpace: nat
    ghost var spec: State

    ghost predicate Agrees()
      reads this, ring, ring.mem
    {
      && ring.Valid()
      && spec.smart == smart
      && spec.cap == ring.cap
      && spec.head == ring.head
      && spec.cells == ring.cells
      && subs == spec.subs
      && counter == |spec.log| % WORDS
      && (smart ==> freeSpace + TotalSizes(spec.cap, spec.head, spec.cells) == spec.cap)
    }

    ghost predicate Valid()
      reads this, ring, ring.mem
    {
      Agrees() && Inv(spec)
    }

    constructor (size: nat, smart: bool)
      requires 0 < size < WORDS - 1
      ensures Valid() && fresh(ring) && fresh(ring.mem)
      ensures spec == Init(smart, size)
    {
      ring := new Ring(size);
      this.smart := smart;
      subs, counter, freeSpace := 0, 0, size;
      spec := Init(smart, size);
    }
  }

  /** The object of one process. */
  class Endpoint {
    const shared: Shared
    const id: word
    var mHead: word
    var mCounter: word
    var messageDesc: Option<Desc>

    /** Attaches a reader to a plain queue; right when no message in it is still needed. */
    constructor Attach(shared: Shared, id: word)
      requires shared.Valid() && !shared.smart && id !in shared.spec.readers && shared.subs + 1 < WORDS
      modifies shared`subs, shared`spec
      ensures this.shared == shared && this.id == id && messageDesc == None
      ensures shared.Agrees() && Attached() && shared.spec == Step(old(shared.spec), OpAttach(id))
      ensures shared.Valid() <==> NoneNeeded(old(shared.spec).cells)
    {
      this.shared := shared;
      this.id := id;
      mHead, mCounter, messageDesc := NPOS, shared.counter, None;
      new;
      Subscribe();
    }

    /** Counts the reader of a plain queue among the subscribers. */
    method Subscribe()
      requires shared.Valid() && !shared.smart && id !in shared.spec.readers && shared.subs + 1 < WORDS
      requires mHead == NPOS && mCounter == shared.counter
      modifies shared`subs, shared`spec
      ensures shared.Agrees() && Attached() && shared.spec == Step(old(shared.spec), OpAttach(id))
      ensures shared.Valid() <==> NoneNeeded(old(shared.spec).cells)
    {
      hide Holds, Used, End, Span, Core, NoneNeeded, TotalSizes;
      AttachStep(shared.spec, id);
      shared.subs := shared.subs + 1;
      shared.spec := Broadcasts.Attach(shared.spec, id);
    }

    /** The private fields are those of the reader `id`. */
    ghost predicate Attached()
      reads this, shared, shared.ring, shared.ring.mem
    {
      && shared.Agrees()
      && id in shared.spec.readers
      && mHead == (match shared.spec.readers[id].mhead case None => NPOS case Some(h) => h)
      && mCounter == shared.spec.readers[id].next % WORDS
    }

    /** The description that `Get` has left is that of the next message. */
    ghost predicate Fresh()
      requires Attached() && Core(shared.spec)
      reads this, shared, shared.ring, shared.ring.mem
    {
      messageDesc.Some? ==>
        && HasNext(shared.spec, id)
        && messageDesc.value == NextDesc(shared.spec, id)
        && Deliverable(shared.spec.smart, id, NextMsg(shared.spec, id))
    }

    function Head(): nat
      reads this, shared, shared.ring
    {
      if mHead != NPOS then mHead else shared.ring.head
    }

    function Count(): nat
      reads this, shared
    {
      (shared.counter - mCounter) % WORDS
    }

    /** Collects the messages that no reader needs, on behalf of whoever pushes. */
    method CleanMessages() returns (number: nat, size: nat)
      requires shared.Agrees() && Core(shared.spec) && Count() < WORDS - 1
      modifies this`mHead, this`mCounter, shared`spec, shared`freeSpace, shared.ring
      ensures shared.Agrees() && shared.spec == Clean(old(shared.spec))
      ensures mHead == old(mHead) && mCounter == old(mCounter)
      ensures number == Garbage(old(shared.spec.cells))
      ensures size == TotalSizes(shared.ring.cap, old(shared.spec.head), old(shared.spec.cells)[..number])
    {
      hide RingHolds, Used, End, Span, RefsOk, ReadersOk, Garbage, TotalSizes, Collected, Clean;
      ghost var s := shared.spec;
      number, size := DropGarbage(s);
      CollectIsClean(s, number);
      CollectedAll(s, number, shared.ring.head, shared.ring.cells);
      if shared.smart && number > 0 {
        shared.freeSpace := shared.freeSpace + size;
      }
      shared.spec := Clean(s);
    }

    /** Drops the messages at the head of the ring that no reader needs. */
    method DropGarbage(ghost s: State) returns (number: nat, size: nat)
      requires shared.ring.Valid() && RingOk(s) && Count() < WORDS - 1
      requires s.cap == shared.ring.cap && s.head == shared.ring.head && s.cells == shared.ring.cells
      modifies this`mHead, this`mCounter, shared.ring
      ensures shared.ring.Valid() && mHead == old(mHead) && mCounter == old(mCounter)
      ensures number == Garbage(s.cells) && Collected(s, number, shared.ring.head, shared.ring.cells)
      ensures size == TotalSizes(s.cap, s.head, s.cells[..number]) && (number == 0 ==> size == 0)
    {
      hide RingHolds, Used, End, Span, MessageAt, DescOf, RefsOk, ReadersOk, Garbage, TotalSizes, TotalSize, Collected, Next;
      var ring := shared.ring;
      number, size := 0, 0;
      CollectNone(s);
      var cnt := ring.count;
      if cnt > 0 {
        var head, counter := mHead, mCounter;
        mHead := NPOS;
        mCounter := (mCounter - 1) % WORDS;
        while cnt > 0
          invariant cnt == ring.count == |ring.cells| && mHead == NPOS && Count() != 0
          invariant number + cnt == |s.cells|
          invariant ring.Valid() && Collected(s, number, ring.head, ring.cells)
          invariant forall i :: 0 <= i < number ==> s.cells[i].refs == 0
          invariant size == TotalSizes(s.cap, s.head, s.cells[..number])
        {
          var desc := ring.GetFirst(Head(), Count() == 0);
          CollectOne(s, number, ring.head, ring.cells);
          var refs := FirstRefs(ring, desc.value);
          if refs > 0 {
            break;
          }
          var total := MessageSize(ring, desc.value);
          ring.DropFirst(desc.value.end);
          cnt := cnt - 1;
          number := number + 1;
          size := size + total;
        }
        mHead, mCounter := head, counter;
      }
      GarbageIs(s.cells, number);
    }

    /** Pushes a message: collects garbage, places the message, counts its readers. A service message
        may take all free regions; data has to leave the reserve. */
    method DoPush(tag: word, data: seq<byte>, sid: word, clock: nat -> word, special: bool) returns (ok: bool)
      requires shared.Agrees() && Core(shared.spec) && Count() < WORDS - 1 && 0 < |data|
      modifies this`mHead, this`mCounter, shared, shared.ring, shared.ring.mem
      ensures mHead == old(mHead) && mCounter == old(mCounter)
      ensures ok == (|data| <= SumCapacities(SlotsFor(Clean(old(shared.spec)), special)))
      ensures shared.spec == if special then Broadcasts.Push(old(shared.spec), Msg(sid, tag, clock(0), data))
                             else DataPush(old(shared.spec), Msg(sid, tag, clock(0), data))
      ensures special ==> ok == Room(Clean(old(shared.spec)), |data|)
      ensures special || !Scatters(old(shared.spec), |data|) ==> shared.Agrees()
      ensures !special && Scatters(old(shared.spec), |data|) ==> Strewn(Clean(old(shared.spec)), |data|)
      ensures var c := Clean(old(shared.spec));
              SameArc(old(shared.ring.mem[..]), shared.ring.mem[..], c.head, Used(c.cap, c.head, c.cells))
    {
      hide RingHolds, Used, End, Span, MessageAt, DescOf, RefsOk, ReadersOk, Garbage, TotalSizes, TotalSize, WithField;
      hide SlotsFor, Slots, Strewn, SumCapacities, TwoCapacities, Room, Clean, SameArc;
      ghost var s, msg := shared.spec, Msg(sid, tag, clock(0), data);
      CleanKeepsCore(s);
      var number, size := CleanMessages();
      ok := Place(tag, data, sid, clock, special);
      PushedFor(s, msg, special);
    }

    /** Places a message behind those in the ring and stores the number of its readers. */
    method Place(tag: word, data: seq<byte>, sid: word, clock: nat -> word, special: bool) returns (ok: bool)
      requires shared.Agrees() && Core(shared.spec) && 0 < |data|
      modifies shared, shared.ring, shared.ring.mem
      ensures ok == (|data| <= SumCapacities(SlotsFor(old(shared.spec), special)))
      ensures |data| <= TwoCapacities(SlotsFor(old(shared.spec), special)) ==>
        ok && shared.Agrees() && shared.spec == Append(old(shared.spec), Msg(sid, tag, clock(0), data))
      ensures !ok ==> shared.Agrees() && shared.spec == old(shared.spec)
      ensures ok && |data| > TwoCapacities(SlotsFor(old(shared.spec), special)) ==>
        && shared.spec == old(shared.spec).(lost := Some(Msg(sid, tag, clock(0), data)))
        && (!special ==> Strewn(old(shared.spec), |data|))
      ensures var s := old(shared.spec);
              SameArc(old(shared.ring.mem[..]), shared.ring.mem[..], s.head, Used(s.cap, s.head, s.cells))
    {
      hide RingHolds, Used, End, Span, MessageAt, DescOf, RefsOk, ReadersOk, TotalSizes, TotalSize, TrimmedRegions;
      hide SumCapacities, TwoCapacities, DescIn, InFree, Broadcasts.Slots, SameArc, Room, Strewn;
      var ring := shared.ring;
      ghost var s, msg, m0 := shared.spec, Msg(sid, tag, clock(0), data), ring.mem[..];
      var avail := if shared.smart && !special then (shared.freeSpace - RESERVE * shared.subs) % SIZES else UNLIMITED;
      SlotsOfRing(shared, special);
      ghost var readable := |data| <= TwoCapacities(SlotsFor(s, special));
      var desc := ring.MakeMessage(data, sid, clock, avail);
      if desc.Some? {
        ghost var m1 := ring.mem[..];
        FitsIsRoom(shared, |data|);
        Finish(desc.value, tag, msg, readable);
        StableTwice(m0, m1, ring.mem[..], s.head, Used(s.cap, s.head, s.cells));
        if !readable && !special {
          IsStrewn(this, s, |data|);
        }
        return true;
      }
      return false;
    }

    /** Enters a placed message in the books: the number of its readers, the counter of pushed
        messages, the free space, its tag, the tail and the count. */
    method Finish(desc: Desc, tag: word, ghost msg: Msg, ghost readable: bool)
      requires shared.Agrees() && Core(shared.spec) && 0 < |msg.data| && msg.tag == tag && shared.ring.Placed(desc)
      requires readable ==>
        && Room(shared.spec, |msg.data|)
        && desc == DescOf(shared.ring.cap, shared.ring.tail, |msg.data|)
        && MessageAt(shared.ring.mem[..], shared.ring.cap, shared.ring.tail, Cell(msg.(tag := 0), 0))
      modifies shared`counter, shared`freeSpace, shared`spec, shared.ring, shared.ring.mem
      ensures readable ==> shared.Agrees() && shared.spec == Append(old(shared.spec), msg)
      ensures !readable ==> shared.spec == old(shared.spec).(lost := Some(msg))
      ensures !readable ==> shared.ring.Scattered() && shared.ring.tail == desc.end % shared.ring.cap
      ensures !readable ==> shared.ring.head == old(shared.ring.head) && shared.ring.cells == old(shared.ring.cells)
      ensures var s := old(shared.spec);
              SameArc(old(shared.ring.mem[..]), shared.ring.mem[..], s.head, Used(s.cap, s.head, s.cells))
    {
      hide RingHolds, Used, End, Span, MessageAt, DescOf, RefsOk, ReadersOk, TotalSizes, TotalSize, InFree, SameArc, Room;
      var ring := shared.ring;
      ghost var s, m0 := shared.spec, ring.mem[..];
      FitsIsRoom(shared, |msg.data|);
      Enroll(desc, msg, readable);
      ghost var m1 := ring.mem[..];
      ring.SetPending(desc, TAG_OFFSET, tag, Cell(msg.(tag := 0), shared.subs), readable);
      StableTwice(m0, m1, ring.mem[..], s.head, Used(s.cap, s.head, s.cells));
      ring.Commit(desc.end, Cell(msg, shared.subs), readable);
      if readable {
        AppendSizes(s, msg);
      }
      shared.spec := if readable then Append(s, msg) else s.(lost := Some(msg));
    }

    /** Stores the number of readers of a placed message, and counts it. */
    method Enroll(desc: Desc, ghost msg: Msg, ghost readable: bool)
      requires shared.Agrees() && RingOk(shared.spec) && shared.ring.Placed(desc)
      requires readable ==>
        && Room(shared.spec, |msg.data|)
        && desc == DescOf(shared.ring.cap, shared.ring.tail, |msg.data|)
        && MessageAt(shared.ring.mem[..], shared.ring.cap, shared.ring.tail, Cell(msg.(tag := 0), 0))
      modifies shared`counter, shared`freeSpace, shared.ring.mem
      ensures shared.ring.Valid() && shared.ring.Placed(desc)
      ensures shared.ring.Stable(old(shared.ring.mem[..]))
      ensures shared.counter == (old(shared.counter) + 1) % WORDS
      ensures readable ==>
        MessageAt(shared.ring.mem[..], shared.ring.cap, shared.ring.tail, Cell(msg.(tag := 0), shared.subs))
      ensures readable && shared.smart ==>
        shared.freeSpace + TotalSizes(shared.spec.cap, shared.spec.head, shared.spec.cells)
        + TotalSize(shared.spec.cap, Tail(shared.spec), |msg.data|) == shared.spec.cap
    {
      hide RingHolds, Used, End, Span, MessageAt, DescOf, TotalSizes, TotalSize, InFree, SameArc, Room;
      FitsIsRoom(shared, |msg.data|);
      shared.ring.SetPending(desc, COUNTER_OFFSET, shared.subs, Cell(msg.(tag := 0), 0), readable);
      shared.counter := (shared.counter + 1) % WORDS;
      if shared.smart {
        TakeSpace(desc, Cell(msg.(tag := 0), shared.subs), readable);
      }
    }

    /** Takes the size of a placed message from the free space. */
    method TakeSpace(desc: Desc, ghost c: Cell, ghost readable: bool)
      requires shared.ring.Valid() && shared.ring.Placed(desc) && RingOk(shared.spec)
      requires shared.spec.cap == shared.ring.cap && shared.ring.tail == Tail(shared.spec)
      requires shared.freeSpace + TotalSizes(shared.spec.cap, shared.spec.head, shared.spec.cells) == shared.spec.cap
      requires readable ==>
        && c.refs == shared.spec.subs && Room(shared.spec, c.Len())
        && desc == DescOf(shared.ring.cap, shared.ring.tail, c.Len())
        && MessageAt(shared.ring.mem[..], shared.ring.cap, shared.ring.tail, c)
      modifies shared`freeSpace
      ensures readable ==>
        shared.freeSpace + TotalSizes(shared.spec.cap, shared.spec.head, shared.spec.cells)
        + TotalSize(shared.spec.cap, Tail(shared.spec), c.Len()) == shared.spec.cap
    {
      hide RingHolds, Used, End, Span, MessageAt, DescOf, TotalSizes, TotalSize, InFree, Room;
      var size := PendingSize(shared.ring, desc, c, readable);
      if readable {
        AppendSizes(shared.spec, c.msg);
      }
      shared.freeSpace := (shared.freeSpace - size) % WORDS;
    }

    /** The messages of `s` are still in the ring, but the tail is behind a message of `n` bytes whose
        last chunk stands where no reader looks for it. */
    ghost predicate Strewn(s: State, n: nat)
      requires s.head < s.cap
      reads shared, shared.ring, shared.ring.mem
    {
      && shared.ring.Scattered()
      && shared.ring.cap == s.cap && shared.ring.head == s.head && shared.ring.cells == s.cells
      && 0 < n <= SumCapacities(Slots(s))
      && shared.ring.tail == DescIn(Slots(s), n).end % s.cap
    }

    /** Pops the message `desc`, which is the next one of this reader. */
    method PopMessage(desc: Desc)
      requires Attached() && Core(shared.spec) && HasNext(shared.spec, id) && desc == NextDesc(shared.spec, id)
      modifies this`mHead, this`mCounter, shared`spec, shared.ring`cells, shared.ring.mem
      ensures HeadOf(old(shared.spec), id) < old(shared.spec).cap
      ensures shared.spec == Broadcasts.Pop(old(shared.spec), id)
      ensures Attached() && Core(shared.spec)
    {
      hide Holds, Used, End, Span, MessageAt, RefsOk, ReadersOk, TotalSizes, TotalSize, Filter, DescOf, Pos;
      ghost var s := shared.spec;
      PopKeepsCore(s, id);
      PopFrame(s, id);
      NextEnds(s, id);
      CounterGoesOn(s.readers[id].next);
      Release(desc);
      mHead := desc.end % shared.ring.cap;
      mCounter := (mCounter + 1) % WORDS;
    }

    /** Gives back the reference that this reader has to its next message. */
    method Release(desc: Desc)
      requires shared.Agrees() && Core(shared.spec) && HasNext(shared.spec, id) && desc == NextDesc(shared.spec, id)
      modifies shared`spec, shared.ring`cells, shared.ring.mem
      ensures HeadOf(old(shared.spec), id) < old(shared.spec).cap
      ensures shared.Agrees() && shared.spec == Broadcasts.Pop(old(shared.spec), id)
    {
      hide Holds, Used, End, Span, MessageAt, RefsOk, ReadersOk, TotalSizes, TotalSize, Deliverable, Filter;
      ghost var s := shared.spec;
      ghost var i := s.readers[id].next - s.base;
      PopKeepsCore(s, id);
      PopSizes(s, id);
      NeededRefs(s, id);
      var refs := RefsAt(shared.ring, desc, i);
      shared.ring.SetCounter(desc, refs - 1, i);
      shared.spec := Broadcasts.Pop(s, id);
    }

    /** What `base_shared_queue::get_message` finds: the next message, whatever it is. */
    method GetMessage() returns (r: Option<Desc>)
      requires Attached() && Core(shared.spec) && HasNext(shared.spec, id) && Count() > 0
      ensures r == Some(NextDesc(shared.spec, id))
      ensures Shows(shared.ring.mem[..], r.value, NextMsg(shared.spec, id))
      ensures MessageAt(shared.ring.mem[..], shared.ring.cap, Pos(shared.spec, shared.spec.readers[id].next),
                        shared.spec.cells[shared.spec.readers[id].next - shared.spec.base])
    {
      hide Holds, Used, End, Span, MessageAt, RefsOk, TotalSizes, Filter;
      ghost var s := shared.spec;
      ghost var i := s.readers[id].next - s.base;
      assert ReaderOk(s, id);
      HeadIsPos(s, id);
      r := shared.ring.GetMessage(Head(), Count() == 0, i);
      MessageShows(shared.ring.mem[..], Pos(s, s.readers[id].next), s.cells[i]);
    }

    /** Pushes data on behalf of this reader. */
    method Push(tag: word, data: seq<byte>, clock: nat -> word) returns (ok: bool)
      requires shared.Valid() && Attached() && 0 < |data|
      modifies this`mHead, this`mCounter, shared, shared.ring, shared.ring.mem
      ensures ok == (|data| <= SumCapacities(Slots(Clean(old(shared.spec)))))
      ensures shared.spec == Step(old(shared.spec), OpPush(Msg(id, tag, clock(0), data)))
      ensures !Scatters(old(shared.spec), |data|) ==> shared.Valid() && Attached() && (old(Fresh()) ==> Fresh())
      ensures Scatters(old(shared.spec), |data|) ==> Strewn(Clean(old(shared.spec)), |data|)
    {
      hide RingHolds, Used, End, Span, MessageAt, DescOf, Garbage, TotalSizes, TotalSize, Filter, PendingOn, Room;
      hide Slots, Scatters, Strewn, SumCapacities, Clean, DataPush, RefsOk, ReadersOk, Pos;
      ghost var s, msg := shared.spec, Msg(id, tag, clock(0), data);
      CountIsPending(this);
      PushStep(s, msg);
      DataPushReaders(s, msg);
      ok := DoPush(tag, data, id, clock, false);
      if HasNext(s, id) {
        StaysAfterDataPush(s, msg, id);
      }
    }

    /** Finds the next message of a reader of a plain queue. */
    method Get() returns (r: Option<Desc>)
      requires shared.Valid() && Attached() && !shared.smart
      modifies this`messageDesc
      ensures Attached() && (r.Some? || old(Fresh()) ==> Fresh())
      ensures shared.spec == Step(old(shared.spec), OpGet(id))
      ensures r.Some? <==> HasNext(shared.spec, id)
      ensures r.Some? ==> Shows(shared.ring.mem[..], r.value, NextMsg(shared.spec, id)) && messageDesc == r
    {
      hide RingHolds, Used, End, Span, MessageAt, DescOf, RefsOk, TotalSizes, ReadersOk, Shows;
      CountIsPending(this);
      if Count() > 0 {
        messageDesc := GetMessage();
        return messageDesc;
      }
      return None;
    }

    /** Removes the next message of a reader of a plain queue. */
    method Pop() returns (ok: bool)
      requires shared.Valid() && Attached() && Fresh() && !shared.smart
      modifies this, shared`spec, shared.ring`cells, shared.ring.mem
      ensures shared.Valid() && Attached() && Fresh()
      ensures ok == HasNext(old(shared.spec), id)
      ensures shared.spec == Step(old(shared.spec), OpPop(id))
    {
      hide RingHolds, Used, End, Span, MessageAt, DescOf, RefsOk, ReadersOk, TotalSizes, Shows, Filter;
      CountIsPending(this);
      if Count() > 0 {
        if messageDesc.None? {
          messageDesc := GetMessage();
        }
        PopStep(shared.spec, id);
        StepPop(shared.spec, id);
        PopMessage(messageDesc.value);
        messageDesc := None;
        return true;
      }
      StepPop(shared.spec, id);
      return false;
    }

    /** Goes from a plain queue without reading anything; right when there is nothing to read. */
    method Detach()
      requires shared.Valid() && Attached() && !shared.smart
      modifies shared`subs, shared`spec
      ensures shared.Agrees() && shared.spec == Step(old(shared.spec), OpDetach(id))
      ensures shared.Valid() <==> old(shared.spec.readers[id].next == |shared.spec.log|)
    {
      hide RingHolds, Used, End, Span, RefsOk, ReadersOk, TotalSizes, Filter;
      DetachStep(shared.spec, id);
      shared.subs := shared.subs - 1;
      shared.spec := Broadcasts.Detach(shared.spec, id);
    }

    /** Finds the next message that is meant for the reader of a smart queue; pops the others. */
    method SmartGetMessage() returns (r: Option<Desc>)
      requires shared.Valid() && Attached() && shared.smart && HasNext(shared.spec, id) && Count() > 0
      modifies this`mHead, this`mCounter, shared`spec, shared.ring`cells, shared.ring.mem
      ensures shared.Valid() && Attached() && shared.spec == Skip(old(shared.spec), id)
      ensures r.Some? <==> HasNext(shared.spec, id)
      ensures r.Some? ==>
        && r.value == NextDesc(shared.spec, id)
        && Deliverable(shared.spec.smart, id, NextMsg(shared.spec, id))
        && Shows(shared.ring.mem[..], r.value, NextMsg(shared.spec, id))
    {
      hide RingHolds, MessageAt, Inv, RefsOk, ReadersOk, TotalSizes, Shows, Skip, Pos, NextDesc, Deliverable, Broadcasts.Pop;
      ghost var s := shared.spec;
      var more := true;
      InvIsCore(s);
      while more
        invariant shared.Valid() && Attached() && Core(shared.spec)
        invariant Skip(shared.spec, id) == Skip(s, id)
        invariant more == (Count() > 0) == HasNext(shared.spec, id)
        decreases |shared.spec.log| - shared.spec.readers[id].next
      {
        var desc := GetMessage();
        SkipOne(shared.spec, id);
        var own, service := Kind(shared.ring, desc.value, NextMsg(shared.spec, id), id);
        if !own && !service {
          return desc;
        }
        PopStep(shared.spec, id);
        PopFrame(shared.spec, id);
        PopMessage(desc.value);
        CountIsPending(this);
        more := Count() > 0;
      }
      SkipNone(shared.spec, id);
      r := None;
    }

    /** Finds the next message that is meant for the reader of a smart queue. */
    method SmartGet() returns (r: Option<Desc>)
      requires shared.Valid() && Attached() && shared.smart
      modifies this, shared`spec, shared.ring`cells, shared.ring.mem
      ensures shared.Valid() && Attached() && shared.spec == Step(old(shared.spec), OpGet(id))
      ensures r.Some? <==> HasNext(shared.spec, id)
      ensures r.Some? ==> Shows(shared.ring.mem[..], r.value, NextMsg(shared.spec, id)) && messageDesc == r
      ensures r.Some? || old(messageDesc).None? || old(Count()) > 0 ==> Fresh()
    {
      hide RingHolds, Used, End, Span, MessageAt, DescOf, RefsOk, ReadersOk, TotalSizes, Shows, Filter, IsDisconnect;
      CountIsPending(this);
      StepGet(shared.spec, id);
      if Count() > 0 {
        messageDesc := SmartGetMessage();
        return messageDesc;
      }
      SkipNone(shared.spec, id);
      return None;
    }

    /** Removes the next message that is meant for the reader of a smart queue. There has to be
        one unless there is nothing to read at all. */
    method SmartPop() returns (ok: bool)
      requires shared.Valid() && Attached() && Fresh() && shared.smart
      requires HasNext(shared.spec, id) && messageDesc.None? ==> HasNext(Skip(shared.spec, id), id)
      modifies this, shared`spec, shared.ring`cells, shared.ring.mem
      ensures shared.Valid() && Attached() && Fresh()
      ensures ok == HasNext(old(shared.spec), id)
      ensures var k := Step(old(shared.spec), OpGet(id));
              Inv(k) && shared.spec == Step(k, OpPop(id))
    {
      hide RingHolds, Used, End, Span, MessageAt, DescOf, RefsOk, ReadersOk, TotalSizes, Shows, Filter, IsDisconnect, NextDesc;
      CountIsPending(this);
      StepGet(shared.spec, id);
      SkipStep(shared.spec, id);
      if Count() > 0 {
        if messageDesc.None? {
          messageDesc := SmartGetMessage();
        } else {
          SkipOne(shared.spec, id);
        }
        PopStep(shared.spec, id);
        StepPop(shared.spec, id);
        PopMessage(messageDesc.value);
        messageDesc := None;
        return true;
      }
      SkipNone(shared.spec, id);
      StepPop(shared.spec, id);
      return false;
    }

    /** Joins a smart queue that has room for the CONNECT message. */
    constructor Join(shared: Shared, id: word, stamp: word)
      requires shared.Valid() && shared.smart && id !in shared.spec.readers && shared.subs + 1 < WORDS
      requires ServiceFits(shared.spec)
      modifies shared, shared.ring, shared.ring.mem
      ensures this.shared == shared && this.id == id && messageDesc == None
      ensures shared.Valid() && Attached() && shared.spec == Step(old(shared.spec), OpJoin(id, stamp))
    {
      hide Inv, Holds, Used, End, Span, Step, ServiceFits, TotalSizes;
      this.shared := shared;
      this.id := id;
      mHead, mCounter, messageDesc := NPOS, shared.counter, None;
      new;
      var ok := Enter(stamp);
    }

    /** One attempt to join a smart queue; without room for the CONNECT message it only collects. */
    method Enter(stamp: word) returns (ok: bool)
      requires shared.Valid() && shared.smart && mCounter == shared.counter
      requires id !in shared.spec.readers && shared.subs + 1 < WORDS
      modifies this`mHead, this`mCounter, shared, shared.ring, shared.ring.mem
      ensures shared.Valid() && ok == ServiceFits(old(shared.spec))
      ensures ok ==> Attached() && shared.spec == Step(old(shared.spec), OpJoin(id, stamp))
      ensures !ok ==> shared.spec == Step(old(shared.spec), OpClean) && mHead == old(mHead) && mCounter == old(mCounter)
    {
      hide Holds, Used, End, Span, RefsOk, ReadersOk, TotalSizes, Filter, Room, Garbage, ServiceFits;
      ghost var s := shared.spec;
      CleanStep(s);
      ServiceRoom(s);
      ok := DoPush(SERVICE_TAG, [CODE_CONNECT], id, (k: nat) => stamp, true);
      if ok {
        JoinStep(s, id, stamp);
        FitsIsRoom(shared, 0);
        mHead := shared.ring.tail;
        mCounter := shared.counter;
        shared.subs := shared.subs + 1;
        shared.spec := Broadcasts.Join(s, id, stamp);
      }
    }

    /** One attempt to leave a smart queue; without room for the DISCONNECT message it only
        collects. The others are all right exactly if no such message was waiting before. */
    method Leave(stamp: word) returns (ok: bool)
      requires shared.Valid() && Attached() && shared.smart
      modifies this, shared, shared.ring, shared.ring.mem
      ensures shared.Agrees() && ok == ServiceFits(old(shared.spec))
      ensures ok ==> shared.spec == Step(old(shared.spec), OpLeave(id, stamp))
      ensures ok ==> (shared.Valid() <==> old(NoGoodbyeFor(shared.spec, id)))
      ensures !ok ==> shared.Valid() && Attached() && shared.spec == Step(old(shared.spec), OpClean)
    {
      hide RingHolds, Used, End, Span, RefsOk, ReadersOk, TotalSizes, Room, Garbage, Broadcasts.Leave, NoGoodbyeFor, Filter, ServiceFits;
      ghost var s := shared.spec;
      InvIsCore(s);
      ServiceRoom(s);
      CountIsPending(this);
      HasSubs(s, id);
      CleanStep(s);
      ok := DoPush(SERVICE_TAG, [CODE_DISCONNECT], id, (k: nat) => stamp, true);
      if ok {
        LeaveStep(s, id, stamp);
        SignOff(s, stamp);
      }
    }

    /** The reader has pushed its DISCONNECT message; it is no subscriber any more, and drains. */
    method SignOff(ghost s: State, ghost stamp: word)
      requires Inv(s) && CanLeave(s, id) && Attached() && shared.smart
      requires shared.spec == Broadcasts.Push(s, ServiceMsg(id, stamp, CODE_DISCONNECT))
      modifies this`mHead, this`mCounter, shared, shared.ring`cells, shared.ring.mem
      ensures shared.Agrees() && shared.spec == Broadcasts.Leave(s, id, stamp)
    {
      hide RingHolds, Used, End, Span, RefsOk, ReadersOk, TotalSizes, Room, Garbage, Drain, IsDisconnect, Broadcasts.Push;
      GoodbyeDisconnects(s, id, stamp);
      GoodbyeKeepsCore(s, id, stamp);
      GoodbyeIsLast(s, id, stamp);
      shared.subs := shared.subs - 1;
      shared.spec := SayGoodbye(s, id, stamp);
      DrainGoodbye();
      shared.spec := shared.spec.(readers := shared.spec.readers - {id});
    }

    /** Pops up to the own DISCONNECT message. */
    method DrainGoodbye()
      requires Attached() && Core(shared.spec) && shared.smart && HasNext(shared.spec, id)
      requires IsDisconnect(shared.spec.log[|shared.spec.log| - 1], id)
      modifies this`mHead, this`mCounter, shared`spec, shared.ring`cells, shared.ring.mem
      ensures Attached() && Core(old(shared.spec)) && shared.spec == Drain(old(shared.spec), id)
    {
      hide RingHolds, Used, End, Span, MessageAt, DescOf, RefsOk, ReadersOk, TotalSizes, Shows, IsDisconnect, Room, Garbage, Pos, Drain, Broadcasts.Pop;
      ghost var g := shared.spec;
      var own := false;
      while !own
        invariant Attached() && Core(shared.spec) && shared.smart
        invariant !own ==> HasNext(shared.spec, id) && Drain(shared.spec, id) == Drain(g, id)
        invariant own ==> shared.spec == Drain(g, id)
        invariant shared.spec.log == g.log
        decreases !own, |shared.spec.log| - shared.spec.readers[id].next
      {
        CountIsPending(this);
        var desc := GetMessage();
        DrainOne(shared.spec, id);
        own := IsOwnGoodbye(shared.ring, desc.value, id, Pos(shared.spec, shared.spec.readers[id].next),
                            shared.spec.cells[shared.spec.readers[id].next - shared.spec.base]);
        PopKeepsCore(shared.spec, id);
        PopFrame(shared.spec, id);
        PopMessage(desc.value);
      }
    }
  }

  /** The first `k` messages of the ring are collected. */
  ghost predicate Collected(s: State, k: nat, hd: nat, cells: seq<Cell>)
    requires k <= |s.cells| && s.head < s.cap
  {
    hd == End(s.cap, s.head, s.cells[..k]) && cells == s.cells[k..]
  }

  /** The description of the next message of a reader. */
  ghost function NextDesc(s: State, id: word): Desc
    requires RingOk(s) && HasNext(s, id)
  {
    DescOf(s.cap, Pos(s, s.readers[id].next), |NextMsg(s, id).data|)
  }

  lemma CollectOne(s: State, k: nat, hd: nat, cells: seq<Cell>)
    requires RingOk(s) && k <= |s.cells| && Collected(s, k, hd, cells) && cells != []
    ensures hd < s.cap && k < |s.cells| && cells[0] == s.cells[k] && Next(s.cap, hd, cells[0].Len()) < s.cap
    ensures Collected(s, k + 1, Next(s.cap, hd, cells[0].Len()), cells[1..])
    ensures TotalSizes(s.cap, s.head, s.cells[..k + 1]) ==
            TotalSizes(s.cap, s.head, s.cells[..k]) + TotalSize(s.cap, hd, cells[0].Len())
  {
    hide Used, Span, TotalSize;
    assert s.cells[..k + 1] == s.cells[..k] + [s.cells[k]];
    UsedAppend(s.cap, s.head, s.cells[..k], [s.cells[k]]);
    UsedOne(s.cap, hd, s.cells[k]);
    TotalSizesAppend(s.cap, s.head, s.cells[..k], [s.cells[k]]);
    TotalSizesOne(s.cap, hd, s.cells[k]);
  }

  /** What the collected messages have taken is free again. */
  lemma CollectedAll(s: State, k: nat, hd: nat, cells: seq<Cell>)
    requires RingOk(s) && k <= |s.cells| && Collected(s, k, hd, cells)
    ensures var c := Collect(s, k);
            && c.head == hd && c.cells == cells && c.log == s.log && c.subs == s.subs && c.cap == s.cap && c.smart == s.smart
            && TotalSizes(s.cap, s.head, s.cells) == TotalSizes(s.cap, s.head, s.cells[..k]) + TotalSizes(c.cap, c.head, c.cells)
  {
    assert s.cells == s.cells[..k] + s.cells[k..];
    TotalSizesAppend(s.cap, s.head, s.cells[..k], s.cells[k..]);
  }

  lemma CollectNone(s: State)
    requires s.head < s.cap
    ensures Collected(s, 0, s.head, s.cells)
    ensures TotalSizes(s.cap, s.head, s.cells[..0]) == 0
  {
  }

  method FirstRefs(ring: Ring, desc: Desc) returns (refs: word)
    requires ring.Valid() && ring.cells != [] && desc == DescOf(ring.cap, ring.head, ring.cells[0].Len())
    ensures refs == ring.cells[0].refs
  {
    hide Holds, Used, Span, WordAt;
    ReadableAt(ring.mem[..], ring.head, ring.tail, ring.cells, 0);
    refs := LoadWord(ring.mem, desc.chain[0] + COUNTER_OFFSET);
  }

  method MessageSize(ring: Ring, desc: Desc) returns (size: nat)
    requires ring.Valid() && ring.cells != [] && desc == DescOf(ring.cap, ring.head, ring.cells[0].Len())
    ensures size == TotalSize(ring.cap, ring.head, ring.cells[0].Len())
  {
    hide Holds, Used, MessageAt, Span;
    ReadableAt(ring.mem[..], ring.head, ring.tail, ring.cells, 0);
    MessageShows(ring.mem[..], ring.head, ring.cells[0]);
    size := ChainSize(ring.mem, desc.chain, 0);
  }

  method PendingSize(ring: Ring, desc: Desc, ghost c: Cell, ghost readable: bool) returns (size: nat)
    requires ring.Valid() && ring.Placed(desc)
    requires readable ==> MessageAt(ring.mem[..], ring.cap, ring.tail, c) && desc == DescOf(ring.cap, ring.tail, c.Len())
    ensures readable ==> size == TotalSize(ring.cap, ring.tail, c.Len())
  {
    hide Holds, Used, MessageAt, Span, HeaderAt;
    if readable {
      MessageShows(ring.mem[..], ring.tail, c);
    }
    size := ChainSize(ring.mem, desc.chain, 0);
  }

  /** The free regions for a service message or for data. */
  function SlotsFor(s: State, special: bool): seq<Region>
    requires s.head < s.cap
  {
    if special then TrimmedRegions(s.cap, s.head, Tail(s), s.cells == [], UNLIMITED) else Slots(s)
  }

  lemma IsStrewn(e: Endpoint, s: State, n: nat)
    requires RingOk(s) && 0 < n <= SumCapacities(Slots(s)) && e.shared.ring.Scattered()
    requires e.shared.ring.cap == s.cap && e.shared.ring.head == s.head && e.shared.ring.cells == s.cells
    requires e.shared.ring.tail == DescIn(Slots(s), n).end % s.cap
    ensures e.Strewn(s, n)
  {
  }

  /** The regions that the writer of the ring comes across are those of the specification. */
  lemma SlotsOfRing(shared: Shared, special: bool)
    requires shared.Agrees() && RingOk(shared.spec)
    ensures var s := shared.spec;
            var avail := if shared.smart && !special then (shared.freeSpace - RESERVE * shared.subs) % SIZES else UNLIMITED;
            shared.ring.Slots(avail) == SlotsFor(s, special)
  {
    hide Holds, Used, End, TotalSizes, TrimmedRegions;
  }

  lemma StableTwice(m0: seq<byte>, m1: seq<byte>, m2: seq<byte>, p: nat, len: nat)
    requires |m0| == |m1| == |m2| && SameArc(m0, m1, p, len) && SameArc(m1, m2, p, len)
    ensures SameArc(m0, m2, p, len)
  {
  }

  lemma DataPushReaders(s: State, msg: Msg)
    requires s.head < s.cap
    ensures DataPush(s, msg).readers == s.readers && DataPush(s, msg).smart == s.smart
  {
  }

  /** What has been placed for data or for a service message is the push of the specification. */
  lemma PushedFor(s: State, msg: Msg, special: bool)
    requires RingOk(s) && 0 < |msg.data|
    ensures var c := Clean(s);
            && RingOk(c)
            && (special ==>
                 && TwoCapacities(SlotsFor(c, true)) == SumCapacities(SlotsFor(c, true))
                 && (|msg.data| <= SumCapacities(SlotsFor(c, true)) <==> Room(c, |msg.data|))
                 && Broadcasts.Push(s, msg) == if Room(c, |msg.data|) then Append(c, msg) else c)
            && (!special ==>
                 && SlotsFor(c, false) == Slots(c)
                 && (|msg.data| <= TwoCapacities(Slots(c)) ==>
                      |msg.data| <= SumCapacities(Slots(c)) && DataPush(s, msg) == Append(c, msg))
                 && (|msg.data| > TwoCapacities(Slots(c)) && |msg.data| <= SumCapacities(Slots(c)) ==>
                      DataPush(s, msg) == c.(lost := Some(msg)))
                 && (|msg.data| > SumCapacities(Slots(c)) ==> DataPush(s, msg) == c)
                 && (Scatters(s, |msg.data|) <==> TwoCapacities(Slots(c)) < |msg.data| <= SumCapacities(Slots(c))))
  {
    hide Garbage, TrimmedRegions, Used, End, Span;
    CollectRing(s, Garbage(s.cells));
    var c := Clean(s);
    if special {
      RingSlots(c);
      NothingTrimmed(c.cap, c.head, Used(c.cap, c.head, c.cells), UNLIMITED, |msg.data|);
    } else if |msg.data| <= TwoCapacities(Slots(c)) {
      ReadableHasRoom(c, |msg.data|);
    }
  }

  lemma AppendSizes(s: State, msg: Msg)
    requires RingOk(s) && Room(s, |msg.data|)
    ensures var a := Append(s, msg);
            && TotalSizes(a.cap, a.head, a.cells) ==
               TotalSizes(s.cap, s.head, s.cells) + TotalSize(s.cap, Tail(s), |msg.data|)
            && TotalSizes(a.cap, a.head, a.cells) <= s.cap
  {
    hide TotalSizes, Used, TotalSize;
    TotalSizesAppend(s.cap, s.head, s.cells, [Cell(msg, s.subs)]);
    TotalSizesOne(s.cap, Tail(s), Cell(msg, s.subs));
    TotalSizesInUsed(s.cap, s.head, s.cells);
  }

  lemma PopSizes(s: State, id: word)
    requires s.head < s.cap && HasNext(s, id) && HeadOf(s, id) < s.cap
    ensures var p := Pop(s, id);
            TotalSizes(p.cap, p.head, p.cells) == TotalSizes(s.cap, s.head, s.cells)
  {
    TotalSizesSameSizes(s.cap, s.head, s.cells, Pop(s, id).cells);
  }

  lemma SpanFits(s: State, k: nat)
    requires RingOk(s) && s.base <= k < s.base + |s.cells|
    ensures Span(s.cap, Pos(s, k), s.cells[k - s.base].Len()) <= s.cap
  {
    hide Span;
    var i := k - s.base;
    assert s.cells == s.cells[..i] + [s.cells[i]] + s.cells[i + 1..];
    Around(s.cap, s.head, s.cells[..i], s.cells[i], s.cells[i + 1..]);
  }

  /** The position behind a message, modulo the capacity, is the reader's new head. */
  lemma NextEnds(s: State, id: word)
    requires Core(s) && HasNext(s, id) && HeadOf(s, id) == Pos(s, s.readers[id].next)
    ensures Pop(s, id).readers[id].mhead == Some(NextDesc(s, id).end % s.cap)
  {
    hide Used, Span, Pos, RefsOk, ReadersOk;
    SpanFits(s, s.readers[id].next);
    EndIsNext(s.cap, HeadOf(s, id), |NextMsg(s, id).data|);
  }

  lemma FitsIsRoom(shared: Shared, n: nat)
    requires shared.Agrees()
    ensures shared.ring.tail == Tail(shared.spec)
    ensures shared.ring.Fits(n) <==> Room(shared.spec, n)
  {
    hide Holds, Used, End, Span, TotalSizes;
  }

  method RefsAt(ring: Ring, desc: Desc, ghost i: nat) returns (refs: word)
    requires ring.Valid() && i < |ring.cells|
    requires desc == DescOf(ring.cap, End(ring.cap, ring.head, ring.cells[..i]), ring.cells[i].Len())
    ensures refs == ring.cells[i].refs
  {
    hide Used, Holds, End, Span;
    ReadableAt(ring.mem[..], ring.head, ring.tail, ring.cells, i);
    refs := LoadWord(ring.mem, desc.chain[0] + COUNTER_OFFSET);
  }

  /** The count of a reader is the number of messages that it has not popped, even after the
      counters of pushed and popped messages have wrapped around. */
  lemma CountIsPending(e: Endpoint)
    requires e.Attached() && Core(e.shared.spec)
    ensures e.Count() == |e.shared.spec.log| - e.shared.spec.readers[e.id].next < WORDS - 1
    ensures e.Count() > 0 <==> HasNext(e.shared.spec, e.id)
  {
    hide Holds, Used, End, Span, MessageAt, RefsOk, TotalSizes, Filter;
    var s := e.shared.spec;
    assert ReaderOk(s, e.id);
    UsedBound(s.cap, s.head, s.cells);
    CountersDiffer(|s.log|, s.readers[e.id].next);
  }

  lemma HasSubs(s: State, id: word)
    requires Inv(s) && id in s.readers
    ensures s.subs > 0
  {
    assert id in s.readers.Keys;
  }

  lemma SkipOne(s: State, id: word)
    requires Core(s) && HasNext(s, id)
    ensures HeadOf(s, id) < s.cap && Core(Pop(s, id))
    ensures var msg := NextMsg(s, id);
            Skip(s, id) == if s.smart && (msg.sid == id || msg.tag == SERVICE_TAG) then Skip(Pop(s, id), id) else s
    ensures Deliverable(s.smart, id, NextMsg(s, id)) <==>
            !(s.smart && (NextMsg(s, id).sid == id || NextMsg(s, id).tag == SERVICE_TAG))
  {
    hide RefsOk, ReadersOk, Pop, Used, End, Span;
    PopKeepsCore(s, id);
    PopFrame(s, id);
  }

  lemma SkipNone(s: State, id: word)
    requires Core(s) && id in s.readers && !HasNext(s, id)
    ensures Skip(s, id) == s
  {
  }

  lemma DrainOne(s: State, id: word)
    requires Core(s) && HasNext(s, id)
    ensures HeadOf(s, id) < s.cap && Core(Pop(s, id)) && id in Pop(s, id).readers
    ensures IsDisconnect(NextMsg(s, id), id) <==> var m := NextMsg(s, id);
              m.sid == id && m.tag == WORDS - 1 && m.data != [] && m.data[0] == 1
    ensures Drain(s, id) == if IsDisconnect(NextMsg(s, id), id) then Pop(s, id) else Drain(Pop(s, id), id)
    ensures IsDisconnect(s.log[|s.log| - 1], id) && !IsDisconnect(NextMsg(s, id), id) ==> HasNext(Pop(s, id), id)
  {
    hide RefsOk, ReadersOk, Pop, Used, End, Span, IsDisconnect;
    DisconnectIs(NextMsg(s, id), id);
    PopKeepsCore(s, id);
    PopFrame(s, id);
  }

  /** After a collection the free regions can take a service message. */
  ghost predicate ServiceFits(s: State)
    requires Inv(s)
  {
    var c := Step(s, OpClean);
    c.head < c.cap && 1 <= SumCapacities(FreeRegions(c.cap, c.head, Tail(c), c.cells == []))
  }

  lemma ServiceRoom(s: State)
    requires Inv(s)
    ensures Clean(s) == Step(s, OpClean)
    ensures ServiceFits(s) <==> Room(Clean(s), 1)
  {
    hide RefsOk, ReadersOk, Used, End, FreeRegions, Span, Room, Garbage;
    CleanKeepsCore(s);
    RoomIsFree(Clean(s), 1);
  }

  lemma DisconnectIs(msg: Msg, id: word)
    ensures IsDisconnect(msg, id) <==> msg.sid == id && msg.tag == WORDS - 1 && msg.data != [] && msg.data[0] == 1
  {
  }

  lemma StepGet(s: State, id: word)
    requires Inv(s) && s.smart && id in s.readers
    ensures Step(s, OpGet(id)) == Skip(s, id)
  {
    hide Core;
  }

  lemma StepPop(s: State, id: word)
    requires Inv(s) && id in s.readers
    ensures HasNext(s, id) && Deliverable(s.smart, id, NextMsg(s, id)) ==>
              HeadOf(s, id) < s.cap && Step(s, OpPop(id)) == Pop(s, id)
    ensures !HasNext(s, id) ==> Step(s, OpPop(id)) == s
  {
    hide RefsOk, ReadersOk, Used, Deliverable;
    if HasNext(s, id) {
      PopKeepsCore(s, id);
    }
  }

  /** Whose message `desc` is, and whether it is a service message. */
  method Kind(ring: Ring, desc: Desc, ghost msg: Msg, id: word) returns (own: bool, service: bool)
    requires ring.mem.Length == ring.cap && Shows(ring.mem[..], desc, msg)
    ensures own == (msg.sid == id) && service == (msg.tag == SERVICE_TAG)
  {
    var sid := LoadWord(ring.mem, desc.chain[0] + SID_OFFSET);
    var tag := LoadWord(ring.mem, desc.chain[0] + TAG_OFFSET);
    own, service := sid == id, tag == SERVICE_TAG;
  }

  method IsOwnGoodbye(ring: Ring, desc: Desc, id: word, ghost p: nat, ghost c: Cell) returns (own: bool)
    requires ring.mem.Length == ring.cap && p < ring.cap
    requires MessageAt(ring.mem[..], ring.cap, p, c) && desc == DescOf(ring.cap, p, c.Len())
    ensures c.msg.data != []
    ensures own <==> c.msg.sid == id && c.msg.tag == WORDS - 1 && c.msg.data[0] == 1
  {
    var mine, service := false, false;
    MessageShows(ring.mem[..], p, c);
    mine, service := Kind(ring, desc, c.msg, id);
    FirstByte(ring.mem[..], p, c);
    own := mine && service && ring.mem[desc.chain[0] + HEADER] == CODE_DISCONNECT;
  }

  lemma FirstByte(m: seq<byte>, p: nat, c: Cell)
    requires p < |m| && MessageAt(m, |m|, p, c)
    ensures FirstOffset(|m|, p) + HEADER < |m| && m[FirstOffset(|m|, p) + HEADER] == c.msg.data[0]
  {
    var k := FirstLength(|m|, p, c.Len());
    var f := FirstOffset(|m|, p) + HEADER;
    assert m[f..f + k][0] == c.msg.data[..k][0];
  }

  /** Whatever another participant does: the private fields of a reader still fit the shared state,
      and the message that it has cached still shows the same tag and the same bytes. */
  twostate lemma CachedMessageStays(e: Endpoint, op: Op)
    requires old(e.Attached()) && Inv(old(e.shared.spec)) && !IsBy(op, e.id)
    requires e.shared.Valid() && e.shared.spec == Step(old(e.shared.spec), op) && unchanged(e)
    ensures e.Attached() && (old(e.Fresh()) ==> e.Fresh())
    ensures old(e.Fresh()) && e.messageDesc.Some? ==>
              && NextMsg(e.shared.spec, e.id) == old(NextMsg(e.shared.spec, e.id))
              && Shows(e.shared.ring.mem[..], e.messageDesc.value, NextMsg(e.shared.spec, e.id))
  {
    hide Used, Span, End, Filter, RefsOk, ReadersOk, Holds, MessageAt, Shows, Step, TotalSizes, Deliverable;
    var s, t := old(e.shared.spec), e.shared.spec;
    InvIsCore(s);
    InvIsCore(t);
    StepKeepsInv(s, op);
    ReaderStays(s, op, e.id);
    if old(e.Fresh()) && e.messageDesc.Some? {
      NextMessageStays(s, op, e.id);
      NextShows(e);
    }
  }

  lemma NextShows(e: Endpoint)
    requires e.Attached() && Core(e.shared.spec) && HasNext(e.shared.spec, e.id)
    ensures Shows(e.shared.ring.mem[..], NextDesc(e.shared.spec, e.id), NextMsg(e.shared.spec, e.id))
  {
    hide Holds, Used, Span, End, MessageAt, RefsOk, ReadersOk, TotalSizes, Filter, Shows;
    var s := e.shared.spec;
    var i := s.readers[e.id].next - s.base;
    ReadableAt(e.shared.ring.mem[..], e.shared.ring.head, e.shared.ring.tail, s.cells, i);
    MessageShows(e.shared.ring.mem[..], Pos(s, s.readers[e.id].next), s.cells[i]);
  }
}
