/** The protocol of a ring with many readers, as steps over one shared state. Every reader has
    its own head and its own count of popped messages; every message in the ring has a counter
    of the readers that still need it; whoever pushes collects the messages nobody needs. */
module Broadcasts {
  import opened Bytes
  import opened Geometry
  import opened Regions
  import opened Trimmings

  /** A reader: its head (none before its first pop), the number of the first message that it
      was meant to get, the number of its next message, and the messages it was given. */
  datatype Reader = Reader(mhead: Option<nat>, start: nat, next: nat, got: seq<Msg>)

  /** `log` is every message that was pushed and stands where a reader looks for it; the first `base`
      of them are collected, the others are in the ring. `lost` is a message that was pushed and
      stands elsewhere. A smart queue lets readers come and go at any time. */
  datatype State = State(smart: bool, cap: nat, head: nat, base: nat, cells: seq<Cell>, log: seq<Msg>,
                         subs: word, readers: map<word, Reader>, lost: Option<Msg>)

  const SERVICE_TAG: word := WORDS - 1
  const CODE_CONNECT: byte := 0
  const CODE_DISCONNECT: byte := 1

  function ServiceMsg(sid: word, stamp: word, code: byte): Msg {
    Msg(sid, SERVICE_TAG, stamp, [code])
  }

  /** A smart queue gives its reader no service messages and none of the reader's own. */
  predicate Deliverable(smart: bool, id: word, msg: Msg) {
    smart ==> msg.sid != id && msg.tag != SERVICE_TAG
  }

  /** The messages that are meant for the reader `id`, in their order. */
  function Filter(smart: bool, id: word, msgs: seq<Msg>): seq<Msg>
    decreases |msgs|
  {
    if msgs == [] then []
    else
      var last := msgs[|msgs| - 1];
      Filter(smart, id, msgs[..|msgs| - 1]) + if Deliverable(smart, id, last) then [last] else []
  }

  /** The readers that have not popped the message with the number `k`. */
  ghost function PendingOn(readers: map<word, Reader>, k: nat): set<word> {
    set r | r in readers && readers[r].next <= k
  }

  /** The offset of the message with the number `k`. */
  ghost function Pos(s: State, k: nat): (q: nat)
    requires s.head < s.cap && s.base <= k <= s.base + |s.cells|
    ensures q < s.cap
  {
    End(s.cap, s.head, s.cells[..k - s.base])
  }

  /** Where the reader `id` reads. */
  function HeadOf(s: State, id: word): nat
    requires id in s.readers
  {
    match s.readers[id].mhead
    case None => s.head
    case Some(h) => h
  }

  ghost predicate NoneNeeded(cells: seq<Cell>) {
    forall i :: 0 <= i < |cells| ==> cells[i].refs == 0
  }

  ghost predicate RingOk(s: State) {
    && s.head < s.cap < WORDS - 1
    && (forall c :: c in s.cells ==> 0 < c.Len())
    && Used(s.cap, s.head, s.cells) <= s.cap
    && |s.log| == s.base + |s.cells|
    && (forall i :: 0 <= i < |s.cells| ==> s.cells[i].msg == s.log[s.base + i])
  }

  /** Every counter is the number of the readers that still need the message. */
  ghost predicate RefsOk(s: State) {
    forall i :: 0 <= i < |s.cells| ==> s.cells[i].refs == |PendingOn(s.readers, s.base + i)|
  }

  ghost predicate ReaderOk(s: State, id: word)
    requires RingOk(s) && id in s.readers
  {
    var r := s.readers[id];
    && s.base <= r.next <= |s.log|
    && r.start <= r.next
    && r.got == Filter(s.smart, id, s.log[r.start..r.next])
    && match r.mhead
       case Some(h) => h == Pos(s, r.next)
       case None => r.next == s.base || (r.next == |s.log| && NoneNeeded(s.cells))
  }

  ghost predicate ReadersOk(s: State)
    requires RingOk(s)
  {
    forall id :: id in s.readers ==> ReaderOk(s, id)
  }

  /** What holds even while a reader leaves. */
  ghost predicate Core(s: State) {
    RingOk(s) && RefsOk(s) && ReadersOk(s)
  }

  ghost predicate Inv(s: State) {
    Core(s) && s.subs == |s.readers| && s.lost.None?
  }

  // ---- the steps -------------------------------------------------------------------------

  /** The number of messages before the first one that is still needed. */
  function Garbage(cells: seq<Cell>): (k: nat)
    ensures k <= |cells|
    ensures forall i :: 0 <= i < k ==> cells[i].refs == 0
    ensures k < |cells| ==> cells[k].refs > 0
    decreases |cells|
  {
    if cells == [] || cells[0].refs > 0 then 0
    else
      var k := 1 + Garbage(cells[1..]);
      assert forall i :: 0 < i < k ==> cells[i] == cells[1..][i - 1];
      k
  }

  /** The first `k` messages are taken out of the ring. */
  function Collect(s: State, k: nat): (r: State)
    requires s.head < s.cap && k <= |s.cells|
    ensures r.head < r.cap
  {
    s.(head := End(s.cap, s.head, s.cells[..k]), base := s.base + k, cells := s.cells[k..])
  }

  function Clean(s: State): (r: State)
    requires s.head < s.cap
    ensures r.head < r.cap
  {
    Collect(s, Garbage(s.cells))
  }

  function Tail(s: State): nat
    requires s.head < s.cap
  {
    End(s.cap, s.head, s.cells)
  }

  predicate Room(s: State, n: nat)
    requires s.head < s.cap
  {
    Used(s.cap, s.head, s.cells) + Span(s.cap, Tail(s), n) <= s.cap
  }

  function Append(s: State, msg: Msg): State {
    s.(cells := s.cells + [Cell(msg, s.subs)], log := s.log + [msg])
  }

  function Push(s: State, msg: Msg): (r: State)
    requires s.head < s.cap
    ensures r.head < r.cap
  {
    var c := Clean(s);
    if Room(c, |msg.data|) then Append(c, msg) else c
  }

  /** The bytes that are reserved for the service messages of a subscriber. */
  const RESERVE: nat := 2 * (HEADER + 1)

  /** What a smart queue makes available for data; a 64-bit difference. */
  function Available(s: State): nat
    requires s.head < s.cap
  {
    (s.cap - TotalSizes(s.cap, s.head, s.cells) - RESERVE * s.subs) % SIZES
  }

  /** The free regions for data. */
  function Slots(s: State): seq<Region>
    requires s.head < s.cap
  {
    TrimmedRegions(s.cap, s.head, Tail(s), s.cells == [], if s.smart then Available(s) else UNLIMITED)
  }

  /** Data that is pushed is refused, or it is placed where readers look for it, or it is lost. */
  function DataPush(s: State, msg: Msg): (r: State)
    requires s.head < s.cap
    ensures r.head < r.cap
  {
    var c := Clean(s);
    if |msg.data| <= TwoCapacities(Slots(c)) then Append(c, msg)
    else if |msg.data| <= SumCapacities(Slots(c)) then c.(lost := Some(msg))
    else c
  }

  /** A third region takes the rest of the data. */
  predicate Scatters(s: State, n: nat)
    requires s.head < s.cap
  {
    TwoCapacities(Slots(Clean(s))) < n <= SumCapacities(Slots(Clean(s)))
  }

  predicate HasNext(s: State, id: word) {
    id in s.readers && s.base <= s.readers[id].next < s.base + |s.cells|
  }

  /** The message that the reader `id` reads next. */
  function NextMsg(s: State, id: word): Msg
    requires HasNext(s, id)
  {
    s.cells[s.readers[id].next - s.base].msg
  }

  /** The reader `id` pops its next message. */
  function Pop(s: State, id: word): (r: State)
    requires s.head < s.cap && HasNext(s, id) && HeadOf(s, id) < s.cap
    ensures r.head < r.cap
  {
    var rd := s.readers[id];
    var i := rd.next - s.base;
    var c := s.cells[i];
    var got := if Deliverable(s.smart, id, c.msg) then rd.got + [c.msg] else rd.got;
    var rd' := Reader(Some(Next(s.cap, HeadOf(s, id), c.Len())), rd.start, rd.next + 1, got);
    s.(cells := s.cells[i := c.(refs := if c.refs == 0 then WORDS - 1 else c.refs - 1)], readers := s.readers[id := rd'])
  }

  /** A reader of a plain queue is attached: its head is the common one until its first pop. */
  function Attach(s: State, id: word): State
    requires s.subs + 1 < WORDS
  {
    s.(subs := s.subs + 1, readers := s.readers[id := Reader(None, |s.log|, |s.log|, [])])
  }

  /** A reader of a plain queue goes without reading anything. */
  function Detach(s: State, id: word): State
    requires s.subs > 0
  {
    s.(subs := s.subs - 1, readers := s.readers - {id})
  }

  predicate CanJoin(s: State, id: word)
    requires s.head < s.cap
  {
    id !in s.readers && s.subs + 1 < WORDS && Room(Clean(s), 1)
  }

  /** A reader joins a smart queue at the current tail, behind its CONNECT message. */
  function Join(s: State, id: word, stamp: word): State
    requires s.head < s.cap && CanJoin(s, id)
  {
    var p := Push(s, ServiceMsg(id, stamp, CODE_CONNECT));
    p.(subs := p.subs + 1, readers := p.readers[id := Reader(Some(Tail(p)), |p.log|, |p.log|, [])])
  }

  predicate IsDisconnect(msg: Msg, id: word) {
    msg.sid == id && msg.tag == SERVICE_TAG && msg.data != [] && msg.data[0] == CODE_DISCONNECT
  }

  // ---- lemmas about single steps -----------------------------------------------------------

  lemma PosAfterCollect(s: State, k: nat, n: nat)
    requires RingOk(s) && k <= |s.cells| && s.base + k <= n <= s.base + |s.cells|
    ensures Pos(Collect(s, k), n) == Pos(s, n)
  {
    hide Used, Span;
    var i := n - s.base;
    assert s.cells[..i] == s.cells[..k] + s.cells[k..][..i - k];
    UsedAppend(s.cap, s.head, s.cells[..k], s.cells[k..][..i - k]);
  }

  lemma CollectRing(s: State, k: nat)
    requires RingOk(s) && k <= |s.cells|
    ensures RingOk(Collect(s, k))
  {
    hide Span, Next;
    assert s.cells == s.cells[..k] + s.cells[k..];
    UsedAppend(s.cap, s.head, s.cells[..k], s.cells[k..]);
  }

  /** A message that is in the ring and that a reader needs has a positive counter. */
  lemma NeededRefs(s: State, id: word)
    requires RingOk(s) && RefsOk(s) && HasNext(s, id)
    ensures s.cells[s.readers[id].next - s.base].refs > 0
  {
    assert id in PendingOn(s.readers, s.readers[id].next);
  }

  /** Garbage collection never reaches a message that some reader has not popped. */
  lemma GarbageIsUnneeded(s: State, id: word)
    requires Core(s) && id in s.readers
    ensures s.base + Garbage(s.cells) <= s.readers[id].next
  {
    assert ReaderOk(s, id);
    if HasNext(s, id) {
      NeededRefs(s, id);
    }
  }

  lemma CleanReader(s: State, id: word)
    requires Core(s) && id in s.readers
    ensures RingOk(Clean(s)) && ReaderOk(Clean(s), id)
  {
    hide Used, End, Span, PendingOn, Filter, Garbage;
    var k := Garbage(s.cells);
    CollectRing(s, k);
    assert ReaderOk(s, id);
    GarbageIsUnneeded(s, id);
    PosAfterCollect(s, k, s.readers[id].next);
    if HasNext(s, id) {
      NeededRefs(s, id);
    }
  }

  lemma CleanKeepsCore(s: State)
    requires Core(s)
    ensures Core(Clean(s))
    ensures Clean(s).cells != [] ==> Clean(s).cells[0].refs > 0
  {
    hide Used, End, Span, ReaderOk, Filter, Garbage, PendingOn;
    CollectRing(s, Garbage(s.cells));
    forall id | id in s.readers
      ensures ReaderOk(Clean(s), id)
    {
      CleanReader(s, id);
    }
  }

  lemma AppendRing(s: State, msg: Msg)
    requires RingOk(s) && 0 < |msg.data| && Room(s, |msg.data|)
    ensures RingOk(Append(s, msg))
  {
    UsedAppend(s.cap, s.head, s.cells, [Cell(msg, s.subs)]);
    UsedOne(s.cap, Tail(s), Cell(msg, s.subs));
  }

  lemma PosAfterAppend(s: State, msg: Msg, n: nat)
    requires RingOk(s) && s.base <= n <= |s.log|
    ensures Pos(Append(s, msg), n) == Pos(s, n)
  {
    assert (s.cells + [Cell(msg, s.subs)])[..n - s.base] == s.cells[..n - s.base];
  }

  lemma AppendReader(s: State, msg: Msg, id: word)
    requires RingOk(s) && ReadersOk(s) && id in s.readers && 0 < |msg.data| && Room(s, |msg.data|)
    requires s.cells != [] ==> s.cells[0].refs > 0
    ensures RingOk(Append(s, msg)) && ReaderOk(Append(s, msg), id)
  {
    hide Used, End, Span, PendingOn, Filter, Room;
    AppendRing(s, msg);
    assert ReaderOk(s, id);
    var r := s.readers[id];
    PosAfterAppend(s, msg, r.next);
    assert (s.log + [msg])[r.start..r.next] == s.log[r.start..r.next];
  }

  lemma AppendKeepsInv(s: State, msg: Msg)
    requires Inv(s) && 0 < |msg.data| && Room(s, |msg.data|)
    requires s.cells != [] ==> s.cells[0].refs > 0
    ensures Inv(Append(s, msg))
  {
    hide Used, End, Span, ReaderOk, Filter, Room;
    AppendRing(s, msg);
    forall id | id in s.readers
      ensures ReaderOk(Append(s, msg), id)
    {
      AppendReader(s, msg, id);
    }
    assert PendingOn(s.readers, |s.log|) == s.readers.Keys by {
      forall id | id in s.readers
        ensures s.readers[id].next <= |s.log|
      {
        assert ReaderOk(s, id);
        NextInLog(s, id);
      }
    }
  }

  lemma NextInLog(s: State, id: word)
    requires RingOk(s) && id in s.readers && ReaderOk(s, id)
    ensures s.base <= s.readers[id].next <= |s.log|
  {
  }

  lemma RingSlots(s: State)
    requires RingOk(s)
    ensures var used := Used(s.cap, s.head, s.cells);
            && used <= s.cap && Tail(s) == Wrap(s.cap, s.head + used) && (s.cells == [] <==> used == 0)
            && TotalSizes(s.cap, s.head, s.cells) <= s.cap
            && (s.smart ==> Slots(s) == TrimmedRegions(s.cap, s.head, Tail(s), used == 0, Available(s)))
            && (!s.smart ==> Slots(s) == TrimmedRegions(s.cap, s.head, Tail(s), used == 0, UNLIMITED))
  {
    hide TrimmedRegions, Span, TotalSizes;
    EndIsUsed(s.cap, s.head, s.cells);
    UsedBound(s.cap, s.head, s.cells);
    TotalSizesInUsed(s.cap, s.head, s.cells);
  }

  /** Data that the first two regions can take fits behind the messages of the ring. */
  lemma ReadableHasRoom(s: State, n: nat)
    requires RingOk(s) && 0 < n <= TwoCapacities(Slots(s))
    ensures Room(s, n) && n <= SumCapacities(Slots(s))
  {
    hide TrimmedRegions, Span, Used, End;
    RingSlots(s);
    TwoAreReadable(s.cap, s.head, Used(s.cap, s.head, s.cells), if s.smart then Available(s) else UNLIMITED, n);
  }

  /** A plain queue takes data exactly if there is room, and never loses any. So does a smart queue
      when the reserve exceeds the free space and the difference wraps around. */
  lemma NothingScattered(s: State, n: nat)
    requires RingOk(s) && 0 < n
    requires s.smart ==> s.cap - TotalSizes(s.cap, s.head, s.cells) < RESERVE * s.subs
    ensures TwoCapacities(Slots(s)) == SumCapacities(Slots(s))
    ensures Room(s, n) <==> n <= SumCapacities(Slots(s))
  {
    hide TrimmedRegions, Span, Used, End, TotalSizes, SumCapacities, TwoCapacities, Wrap;
    RingSlots(s);
    NothingTrimmed(s.cap, s.head, Used(s.cap, s.head, s.cells), if s.smart then Available(s) else UNLIMITED, n);
  }

  lemma PlainPush(s: State, msg: Msg)
    requires RingOk(s) && !s.smart && 0 < |msg.data|
    ensures DataPush(s, msg) == Push(s, msg) && !Scatters(s, |msg.data|)
  {
    hide Slots, Garbage, Room;
    CollectRing(s, Garbage(s.cells));
    NothingScattered(Clean(s), |msg.data|);
  }

  /** What a smart queue can take and have read is given by its free regions, in numbers. */
  lemma SlotsInNumbers(s: State)
    requires RingOk(s) && s.smart
    ensures var tl, empty := Tail(s), s.cells == [];
            var first, avail := FirstFree(s.cap, s.head, tl, empty), Available(s);
            && TwoCapacities(Slots(s)) == StaticCapacity(Min(first, avail)) +
               (if (empty || s.head < tl) && first < avail then StaticCapacity(Min(s.head, avail - first)) else 0)
            && ((empty || s.head < tl) && first < avail < first + s.head ==>
                 && 2 < |Slots(s)|
                 && Slots(s)[2] == Region(avail - first, Min(s.head - (avail - first), first))
                 && SumCapacities(Slots(s)) >= TwoCapacities(Slots(s)) + StaticCapacity(Slots(s)[2].second))
  {
    hide TrimmedRegions, Used, End, TotalSizes;
    RingSlots(s);
    var used := Used(s.cap, s.head, s.cells);
    TwoInNumbers(s.cap, s.head, used, Available(s));
    FirstRegions(s.cap, s.head, used, Available(s));
    if 2 < |Slots(s)| {
      SumOf(Slots(s), 2);
      assert Slots(s)[2..][0] == Slots(s)[2];
    }
  }

  /** Data that is placed where readers look for it is pushed as in a queue without trimming. */
  lemma DataPushIsPush(s: State, msg: Msg)
    requires RingOk(s) && 0 < |msg.data| <= TwoCapacities(Slots(Clean(s)))
    ensures DataPush(s, msg) == Push(s, msg)
  {
    hide Slots, Garbage, Room;
    CollectRing(s, Garbage(s.cells));
    ReadableHasRoom(Clean(s), |msg.data|);
  }

  lemma PushKeepsInv(s: State, msg: Msg)
    requires Inv(s) && 0 < |msg.data|
    ensures Inv(Push(s, msg))
  {
    hide Used, End, Span, Filter, RefsOk, ReadersOk;
    CleanKeepsCore(s);
    if Room(Clean(s), |msg.data|) {
      AppendKeepsInv(Clean(s), msg);
    }
  }

  /** The head of a reader that has something to read is the offset of its next message. */
  lemma HeadIsPos(s: State, id: word)
    requires RingOk(s) && id in s.readers && ReaderOk(s, id) && HasNext(s, id)
    ensures HeadOf(s, id) == Pos(s, s.readers[id].next)
  {
  }

  lemma PosNext(s: State, n: nat)
    requires RingOk(s) && s.base <= n < |s.log|
    ensures Pos(s, n + 1) == Next(s.cap, Pos(s, n), s.cells[n - s.base].Len())
  {
    hide Used, Span;
    var i := n - s.base;
    assert s.cells[..i + 1] == s.cells[..i] + [s.cells[i]];
    UsedAppend(s.cap, s.head, s.cells[..i], [s.cells[i]]);
    UsedOne(s.cap, Pos(s, n), s.cells[i]);
  }

  lemma PopRing(s: State, id: word)
    requires RingOk(s) && HasNext(s, id) && HeadOf(s, id) < s.cap
    ensures RingOk(Pop(s, id))
    ensures forall n :: s.base <= n <= |s.log| ==> Pos(Pop(s, id), n) == Pos(s, n)
  {
    hide Used, End, Span;
    var p := Pop(s, id);
    UsedSameSizes(s.cap, s.head, s.cells, p.cells);
    forall n | s.base <= n <= |s.log|
      ensures Pos(p, n) == Pos(s, n)
    {
      UsedSameSizes(s.cap, s.head, s.cells[..n - s.base], p.cells[..n - s.base]);
    }
  }

  lemma PendingAfterPop(readers: map<word, Reader>, id: word, rd: Reader, k: nat)
    requires id in readers && rd.next == readers[id].next + 1
    ensures |PendingOn(readers[id := rd], k)| == |PendingOn(readers, k)| - if k == readers[id].next then 1 else 0
  {
    var a, b := PendingOn(readers, k), PendingOn(readers[id := rd], k);
    if k == readers[id].next {
      assert a == b + {id} && id !in b;
    } else {
      assert a == b;
    }
  }

  lemma PopRefs(s: State, id: word)
    requires RingOk(s) && RefsOk(s) && HasNext(s, id) && HeadOf(s, id) < s.cap
    ensures RefsOk(Pop(s, id))
  {
    hide PendingOn, Next, Filter;
    var p := Pop(s, id);
    NeededRefs(s, id);
    forall i | 0 <= i < |p.cells|
      ensures p.cells[i].refs == |PendingOn(p.readers, s.base + i)|
    {
      PendingAfterPop(s.readers, id, p.readers[id], s.base + i);
    }
  }

  lemma PopOther(s: State, id: word, other: word)
    requires Core(s) && HasNext(s, id) && HeadOf(s, id) < s.cap && other in s.readers && other != id
    requires RingOk(Pop(s, id)) && forall n :: s.base <= n <= |s.log| ==> Pos(Pop(s, id), n) == Pos(s, n)
    ensures ReaderOk(Pop(s, id), other)
  {
    hide PendingOn, Next, Filter, Pos;
    assert ReaderOk(s, other);
    NeededRefs(s, id);
  }

  lemma PopOwn(s: State, id: word)
    requires Core(s) && HasNext(s, id) && HeadOf(s, id) < s.cap
    requires RingOk(Pop(s, id)) && forall n :: s.base <= n <= |s.log| ==> Pos(Pop(s, id), n) == Pos(s, n)
    ensures ReaderOk(Pop(s, id), id)
  {
    hide PendingOn, Next, Pos, Used, Span, End, RefsOk, Filter, Deliverable;
    assert ReaderOk(s, id);
    HeadIsPos(s, id);
    var r := s.readers[id];
    PosNext(s, r.next);
    FilterMore(s.smart, id, s.log, r.start, r.next);
  }

  lemma FilterMore(smart: bool, id: word, log: seq<Msg>, start: nat, next: nat)
    requires start <= next < |log|
    ensures Filter(smart, id, log[start..next + 1]) ==
            Filter(smart, id, log[start..next]) + if Deliverable(smart, id, log[next]) then [log[next]] else []
  {
    var msgs := log[start..next + 1];
    assert msgs[..|msgs| - 1] == log[start..next];
  }

  lemma PopKeepsCore(s: State, id: word)
    requires Core(s) && HasNext(s, id)
    ensures HeadOf(s, id) == Pos(s, s.readers[id].next)
    ensures Core(Pop(s, id))
    ensures Pop(s, id).readers.Keys == s.readers.Keys
  {
    hide PendingOn, Next, Filter, Pos, ReaderOk;
    assert ReaderOk(s, id);
    HeadIsPos(s, id);
    PopRing(s, id);
    PopRefs(s, id);
    PopOwn(s, id);
    forall other | other in s.readers && other != id
      ensures ReaderOk(Pop(s, id), other)
    {
      PopOther(s, id, other);
    }
  }

  lemma PopKeepsInv(s: State, id: word)
    requires Inv(s) && HasNext(s, id)
    ensures Inv(Pop(s, id))
  {
    hide Core;
    PopKeepsCore(s, id);
    assert |Pop(s, id).readers| == |Pop(s, id).readers.Keys| == |s.readers.Keys|;
  }

  // ---- readers of a plain queue come and go -------------------------------------------------

  lemma PendingAfterAdd(readers: map<word, Reader>, id: word, rd: Reader, k: nat)
    requires id !in readers && k < rd.next
    ensures PendingOn(readers[id := rd], k) == PendingOn(readers, k)
  {
  }

  function AddReader(s: State, id: word, rd: Reader): State
    requires s.subs + 1 < WORDS
  {
    s.(subs := s.subs + 1, readers := s.readers[id := rd])
  }

  /** A new reader counts for none of the messages in the ring. It keeps the invariant exactly if
      its head is the tail of the ring, or if it has none and no message is still needed. */
  lemma NewReader(s: State, id: word, mhead: Option<nat>)
    requires Inv(s) && id !in s.readers && s.subs + 1 < WORDS
    ensures Inv(AddReader(s, id, Reader(mhead, |s.log|, |s.log|, []))) <==>
            if mhead.None? then NoneNeeded(s.cells) else mhead.value == Tail(s)
  {
    hide Used, Span, End, Filter, ReaderOk, PendingOn;
    var rd := Reader(mhead, |s.log|, |s.log|, []);
    var a := AddReader(s, id, rd);
    assert a.readers.Keys == s.readers.Keys + {id};
    forall i | 0 <= i < |s.cells|
      ensures s.cells[i].refs == |PendingOn(a.readers, s.base + i)|
    {
      PendingAfterAdd(s.readers, id, rd, s.base + i);
    }
    NewReaderOk(a, id);
    forall r | r in s.readers
      ensures ReaderOk(a, r)
    {
      assert ReaderOk(s, r);
      SameReader(s, a, r);
    }
  }

  /** What other readers do does not matter to a reader as long as the ring stays. */
  lemma SameReader(s: State, a: State, id: word)
    requires RingOk(s) && a == s.(subs := a.subs, readers := a.readers)
    requires id in s.readers && id in a.readers && s.readers[id] == a.readers[id]
    ensures ReaderOk(a, id) <==> ReaderOk(s, id)
  {
    hide Used, Span, Filter;
  }

  lemma NewReaderOk(a: State, id: word)
    requires RingOk(a) && id in a.readers && a.readers[id] == Reader(a.readers[id].mhead, |a.log|, |a.log|, [])
    ensures ReaderOk(a, id) <==>
            if a.readers[id].mhead.None? then NoneNeeded(a.cells) else a.readers[id].mhead.value == Tail(a)
  {
    hide Used, Span;
    FilterNone(a.smart, id, a.log);
    assert a.cells[..|a.cells|] == a.cells;
  }

  /** The reader `id` has a message to read and has its head at the offset of that message. */
  ghost predicate ReadsRight(s: State, id: word) {
    s.head < s.cap && HasNext(s, id) && HeadOf(s, id) == Pos(s, s.readers[id].next)
  }

  /** A reader without a head of its own waits for its first message. When the message comes, the
      reader has its head at it exactly if no message in the ring was needed just before. */
  lemma FirstMessageIsFound(s: State, id: word, msg: Msg)
    requires RingOk(s) && id in s.readers && s.readers[id].mhead.None? && s.readers[id].next == |s.log|
    requires 0 < |msg.data| && Room(Clean(s), |msg.data|)
    ensures var p := Push(s, msg);
            && HasNext(p, id) && p.log == s.log + [msg] && NextMsg(p, id) == msg
            && (ReadsRight(p, id) <==> NoneNeeded(s.cells))
  {
    hide Used, Span, Filter;
    var c, p := Clean(s), Push(s, msg);
    CollectRing(s, Garbage(s.cells));
    PosAfterAppend(c, msg, |c.log|);
    assert c.cells[..|c.cells|] == c.cells;
    if !NoneNeeded(s.cells) {
      assert c.cells != [];
      TailIsNotHead(c, |msg.data|);
    }
  }

  /** Where there are messages and room for another one, the tail is not the head. */
  lemma TailIsNotHead(s: State, n: nat)
    requires RingOk(s) && s.cells != [] && 0 < n && Room(s, n)
    ensures Tail(s) != s.head
  {
    EndIsUsed(s.cap, s.head, s.cells);
    UsedBound(s.cap, s.head, s.cells);
  }

  /** Attaching a reader to a plain queue keeps the invariant, and lets the reader find the message
      that is pushed next, exactly if no message in the ring is still needed. */
  lemma AttachWhenNoneNeeded(s: State, id: word, msg: Msg)
    requires Inv(s) && id !in s.readers && s.subs + 1 < WORDS
    ensures Inv(Attach(s, id)) <==> NoneNeeded(s.cells)
    ensures 0 < |msg.data| && Room(Clean(s), |msg.data|) ==>
              (ReadsRight(Push(Attach(s, id), msg), id) <==> NoneNeeded(s.cells))
  {
    hide Used, Span, Filter, RefsOk, ReadersOk, Pos;
    NewReader(s, id, None);
    if 0 < |msg.data| && Room(Clean(s), |msg.data|) {
      assert Clean(Attach(s, id)) == Attach(Clean(s), id);
      FirstMessageIsFound(Attach(s, id), id, msg);
    }
  }

  /** If a message is still needed when a reader is attached, then after the next push the reader
      has its head at that older message, which is not the one it was attached for. */
  lemma AttachedTooEarly(s: State, id: word, msg: Msg)
    requires Inv(s) && id !in s.readers && s.subs + 1 < WORDS && !NoneNeeded(s.cells)
    requires 0 < |msg.data| && Room(Clean(s), |msg.data|)
    ensures var p := Push(Attach(s, id), msg);
            && HasNext(p, id) && p.base < p.readers[id].next
            && HeadOf(p, id) == Pos(p, p.base) != Pos(p, p.readers[id].next)
  {
    hide Used, Span, Filter, RefsOk, ReadersOk;
    assert Clean(Attach(s, id)) == Attach(Clean(s), id);
    FirstMessageIsFound(Attach(s, id), id, msg);
    assert Garbage(s.cells) < |s.cells|;
  }

  lemma FilterNone(smart: bool, id: word, log: seq<Msg>)
    ensures Filter(smart, id, log[|log|..|log|]) == []
  {
  }

  lemma PendingAfterRemove(readers: map<word, Reader>, id: word, k: nat)
    requires id in readers
    ensures |PendingOn(readers - {id}, k)| == |PendingOn(readers, k)| - if readers[id].next <= k then 1 else 0
  {
    var a, b := PendingOn(readers, k), PendingOn(readers - {id}, k);
    assert forall r :: r in readers - {id} <==> r in readers && r != id;
    if readers[id].next <= k {
      assert a == b + {id} && id !in b;
    } else {
      assert a == b;
    }
  }

  /** Taking a reader out leaves the counters right exactly if it has nothing left to read. */
  lemma RemoveReader(s: State, id: word)
    requires Core(s) && id in s.readers
    ensures Core(s.(readers := s.readers - {id})) <==> s.readers[id].next == |s.log|
    ensures |s.readers - {id}| == |s.readers| - 1
  {
    hide Used, Span, End, Filter, PendingOn, ReaderOk;
    var d := s.(readers := s.readers - {id});
    assert d.readers.Keys == s.readers.Keys - {id};
    assert ReaderOk(s, id);
    NextInLog(s, id);
    forall i | 0 <= i < |s.cells|
      ensures |PendingOn(d.readers, s.base + i)| ==
              s.cells[i].refs - if s.readers[id].next <= s.base + i then 1 else 0
    {
      PendingAfterRemove(s.readers, id, s.base + i);
    }
    forall r | r in d.readers
      ensures ReaderOk(d, r)
    {
      assert ReaderOk(s, r);
      SameReader(s, d, r);
    }
    if s.readers[id].next < |s.log| {
      var i := |s.cells| - 1;
      assert d.cells[i].refs != |PendingOn(d.readers, s.base + i)|;
    }
  }

  lemma DetachWhenAllRead(s: State, id: word)
    requires Inv(s) && id in s.readers
    ensures s.subs > 0
    ensures Inv(Detach(s, id)) <==> s.readers[id].next == |s.log|
  {
    hide Core;
    assert id in s.readers.Keys;
    RemoveReader(s, id);
    CoreIgnoresSubs(s.(readers := s.readers - {id}), s.subs - 1);
  }

  lemma CoreIgnoresSubs(s: State, subs: word)
    ensures Core(s) <==> Core(s.(subs := subs))
  {
    hide Used, Span, Filter, PendingOn, ReaderOk;
    if RingOk(s) {
      forall id | id in s.readers
        ensures ReaderOk(s, id) <==> ReaderOk(s.(subs := subs), id)
      {
        SameReader(s, s.(subs := subs), id);
      }
    }
  }

  // ---- readers of a smart queue come and go -------------------------------------------------

  lemma JoinKeepsInv(s: State, id: word, stamp: word)
    requires Inv(s) && CanJoin(s, id)
    ensures Inv(Join(s, id, stamp))
  {
    hide Used, Span, Filter, Room, RefsOk, ReadersOk;
    var p := Push(s, ServiceMsg(id, stamp, CODE_CONNECT));
    PushKeepsInv(s, ServiceMsg(id, stamp, CODE_CONNECT));
    assert p.readers == s.readers;
    NewReader(p, id, Some(Tail(p)));
  }

  /** The reader `id` has no DISCONNECT of its own to read. */
  ghost predicate NoGoodbyeFor(s: State, id: word)
    requires id in s.readers
  {
    forall i :: s.readers[id].next <= i < |s.log| ==>
      !(s.log[i].sid == id && s.log[i].tag == WORDS - 1 && s.log[i].data != [] && s.log[i].data[0] == 1)
  }

  /** The leaving reader pops its messages up to its own DISCONNECT. */
  ghost function Drain(s: State, id: word): (r: State)
    requires Core(s) && id in s.readers
    decreases |s.log| - s.readers[id].next
  {
    if !HasNext(s, id) then s
    else
      PopKeepsCore(s, id);
      if IsDisconnect(NextMsg(s, id), id) then Pop(s, id) else Drain(Pop(s, id), id)
  }

  predicate CanLeave(s: State, id: word)
    requires s.head < s.cap
  {
    id in s.readers && s.subs > 0 && Room(Clean(s), 1)
  }

  /** The state in which a reader that leaves starts to drain. */
  function SayGoodbye(s: State, id: word, stamp: word): State
    requires s.head < s.cap && CanLeave(s, id)
  {
    var p := Push(s, ServiceMsg(id, stamp, CODE_DISCONNECT));
    p.(subs := p.subs - 1)
  }

  /** A reader leaves a smart queue. */
  ghost function Leave(s: State, id: word, stamp: word): State
    requires Inv(s) && CanLeave(s, id)
  {
    GoodbyeKeepsCore(s, id, stamp);
    var d := Drain(SayGoodbye(s, id, stamp), id);
    d.(readers := d.readers - {id})
  }

  lemma GoodbyeKeepsCore(s: State, id: word, stamp: word)
    requires Inv(s) && CanLeave(s, id)
    ensures Core(SayGoodbye(s, id, stamp))
    ensures SayGoodbye(s, id, stamp).readers == s.readers
  {
    hide Used, Span, Filter, Room, RefsOk, ReadersOk;
    var p := Push(s, ServiceMsg(id, stamp, CODE_DISCONNECT));
    PushKeepsInv(s, ServiceMsg(id, stamp, CODE_DISCONNECT));
    CoreIgnoresSubs(p, p.subs - 1);
  }

  lemma PopFrame(s: State, id: word)
    requires s.head < s.cap && HasNext(s, id) && HeadOf(s, id) < s.cap
    ensures var p := Pop(s, id);
            && p == s.(cells := p.cells, readers := p.readers) && |p.cells| == |s.cells|
            && p.readers == s.readers[id := p.readers[id]]
            && p.readers[id].next == s.readers[id].next + 1
            && p.readers[id].start == s.readers[id].start
  {
  }

  /** Where the log ends with the reader's own DISCONNECT, the drain stops; and then the reader has
      read everything exactly if it had no other DISCONNECT of its own to read. */
  lemma {:induction false} DrainReadsAll(s: State, id: word)
    requires Core(s) && HasNext(s, id)
    requires IsDisconnect(s.log[|s.log| - 1], id)
    ensures var d := Drain(s, id);
            && Core(d) && d == s.(cells := d.cells, readers := d.readers) && |d.cells| == |s.cells|
            && id in d.readers && d.readers == s.readers[id := d.readers[id]]
            && (d.readers[id].next == |s.log| <==>
                forall i :: s.readers[id].next <= i < |s.log| - 1 ==> !IsDisconnect(s.log[i], id))
    decreases |s.log| - s.readers[id].next
  {
    hide Used, Span, End, Filter, PendingOn, ReaderOk, IsDisconnect, Pop;
    PopKeepsCore(s, id);
    PopFrame(s, id);
    var next := s.readers[id].next;
    assert NextMsg(s, id) == s.log[next];
    if !IsDisconnect(s.log[next], id) {
      DrainReadsAll(Pop(s, id), id);
    }
  }

  lemma GoodbyeIsLast(s: State, id: word, stamp: word)
    requires Inv(s) && CanLeave(s, id)
    ensures var g := SayGoodbye(s, id, stamp);
            && g.log == s.log + [ServiceMsg(id, stamp, CODE_DISCONNECT)] && g.readers == s.readers
            && Core(g) && HasNext(g, id) && g.subs == s.subs - 1
            && g.smart == s.smart && g.cap == s.cap && s.base <= g.base && g.lost == s.lost
  {
    hide Used, Span, End, Filter, Room, RefsOk, PendingOn;
    GoodbyeKeepsCore(s, id, stamp);
    assert ReaderOk(s, id);
    GarbageIsUnneeded(s, id);
    CleanKeepsCore(s);
  }

  /** A reader leaves and the drain ends. Again every counter is the number of the readers that
      still need the message, without the one that has left, exactly if the reader had no other
      DISCONNECT of its own to read: data that bears the reserved tag would be taken for one. */
  lemma LeaveExactly(s: State, id: word, stamp: word)
    requires Inv(s) && CanLeave(s, id)
    ensures var l := Leave(s, id, stamp);
            && RingOk(l) && (Inv(l) <==> NoGoodbyeFor(s, id))
            && l.readers == s.readers - {id} && l.subs == |l.readers|
            && l.log == s.log + [ServiceMsg(id, stamp, CODE_DISCONNECT)]
            && l.smart == s.smart && l.cap == s.cap && s.base <= l.base
  {
    hide RefsOk, ReadersOk, Used, Span, End, Drain, SayGoodbye, IsDisconnect;
    var g := SayGoodbye(s, id, stamp);
    GoodbyeIsLast(s, id, stamp);
    GoodbyeDisconnects(s, id, stamp);
    DrainReadsAll(g, id);
    var d := Drain(g, id);
    RemoveReader(d, id);
    assert d.readers - {id} == s.readers - {id};
    assert d.readers.Keys == s.readers.Keys;
    assert |d.readers| == |d.readers.Keys| == |s.readers|;
  }

  lemma GoodbyeDisconnects(s: State, id: word, stamp: word)
    requires id in s.readers
    ensures var log := s.log + [ServiceMsg(id, stamp, CODE_DISCONNECT)];
            && IsDisconnect(log[|s.log|], id)
            && (NoGoodbyeFor(s, id) <==>
                forall i :: s.readers[id].next <= i < |s.log| ==> !IsDisconnect(log[i], id))
  {
    var log := s.log + [ServiceMsg(id, stamp, CODE_DISCONNECT)];
    assert forall i :: 0 <= i < |s.log| ==> log[i] == s.log[i];
  }

  // ---- runs ----------------------------------------------------------------------------------

  /** The reader `id` of a smart queue looks for a message that it is given, and pops the others. */
  ghost function Skip(s: State, id: word): State
    requires Core(s) && id in s.readers
    decreases |s.log| - s.readers[id].next
  {
    if !HasNext(s, id) || Deliverable(s.smart, id, NextMsg(s, id)) then s
    else
      PopKeepsCore(s, id);
      Skip(Pop(s, id), id)
  }

  /** The skipping ends at the first message that is meant for the reader, or at the end of the
      log; what it passes is not given to the reader and loses one reference. */
  lemma {:induction false} SkipKeepsInv(s: State, id: word)
    requires Inv(s) && id in s.readers
    ensures var k := Skip(s, id);
            && Inv(k) && k == s.(cells := k.cells, readers := k.readers)
            && id in k.readers && k.readers == s.readers[id := k.readers[id]]
            && s.readers[id].next <= k.readers[id].next
            && k.readers[id].got == s.readers[id].got
            && (HasNext(k, id) ==> Deliverable(k.smart, id, NextMsg(k, id)))
            && (forall i :: s.readers[id].next <= i < k.readers[id].next ==> !Deliverable(s.smart, id, s.log[i]))
    decreases |s.log| - s.readers[id].next
  {
    hide Used, Span, End, Filter, PendingOn, ReaderOk, Deliverable;
    if HasNext(s, id) && !Deliverable(s.smart, id, NextMsg(s, id)) {
      PopKeepsCore(s, id);
      PopKeepsInv(s, id);
      PopFrame(s, id);
      SkipKeepsInv(Pop(s, id), id);
    }
  }

  datatype Op =
    | OpPush(msg: Msg)
    | OpClean
    | OpGet(id: word)
    | OpPop(id: word)
    | OpAttach(id: word)
    | OpDetach(id: word)
    | OpJoin(id: word, stamp: word)
    | OpLeave(id: word, stamp: word)

  /** One atomic step of the system. A step for which somebody has to wait, or which nobody can
      make where it is, does nothing. */
  ghost function Step(s: State, op: Op): State
    requires Inv(s)
  {
    match op
    case OpPush(msg) =>
      if 0 < |msg.data| then DataPush(s, msg) else s
    case OpClean =>
      Clean(s)
    case OpGet(id) =>
      if s.smart && id in s.readers then Skip(s, id) else s
    case OpPop(id) =>
      if HasNext(s, id) && Deliverable(s.smart, id, NextMsg(s, id)) then PopKeepsCore(s, id); Pop(s, id) else s
    case OpAttach(id) =>
      if CanAttach(s, id) then Attach(s, id) else s
    case OpDetach(id) =>
      if CanDetach(s, id) then Detach(s, id) else s
    case OpJoin(id, stamp) =>
      if s.smart && CanJoin(s, id) then Join(s, id, stamp) else s
    case OpLeave(id, stamp) =>
      if s.smart && CanLeave(s, id) then Leave(s, id, stamp) else s
  }

  predicate CanAttach(s: State, id: word) {
    !s.smart && id !in s.readers && s.subs + 1 < WORDS
  }

  predicate CanDetach(s: State, id: word) {
    !s.smart && id in s.readers && s.subs > 0
  }

  /** What the participants have to see to, because the source does not: data does not need a third
      region, a plain reader comes when no message is needed and goes when it has read everything,
      and a smart reader has no DISCONNECT of its own to read when it goes. */
  ghost predicate Allowed(s: State, op: Op)
    requires s.head < s.cap
  {
    match op
    case OpPush(msg) => !Scatters(s, |msg.data|)
    case OpAttach(id) => CanAttach(s, id) ==> NoneNeeded(s.cells)
    case OpDetach(id) => CanDetach(s, id) ==> s.readers[id].next == |s.log|
    case OpLeave(id, stamp) => s.smart && CanLeave(s, id) ==> NoGoodbyeFor(s, id)
    case _ => true
  }

  ghost predicate Grown(s: State, t: State) {
    t.smart == s.smart && t.cap == s.cap && s.log <= t.log && s.base <= t.base
  }

  /** A step keeps the invariant exactly if it is one of those that are allowed; and all steps
      leave what is in the log. */
  lemma StepKeepsInv(s: State, op: Op)
    requires Inv(s)
    ensures Grown(s, Step(s, op))
    ensures Inv(Step(s, op)) <==> Allowed(s, op)
  {
    hide Inv, Core, Used, Span, End, Filter, Deliverable, Room, Grown, NoGoodbyeFor, NoneNeeded;
    GrownSelf(s);
    InvIsCore(s);
    match op
    case OpPush(msg) => if 0 < |msg.data| { PushStep(s, msg); } else { EmptyScattersNot(s); }
    case OpClean => CleanStep(s);
    case OpGet(id) => if s.smart && id in s.readers { SkipStep(s, id); }
    case OpPop(id) => if HasNext(s, id) { PopStep(s, id); }
    case OpAttach(id) => if CanAttach(s, id) { AttachStep(s, id); }
    case OpDetach(id) => if CanDetach(s, id) { DetachStep(s, id); }
    case OpJoin(id, stamp) => if CanJoin(s, id) { JoinStep(s, id, stamp); }
    case OpLeave(id, stamp) => if s.smart && CanLeave(s, id) { LeaveStep(s, id, stamp); }
  }

  lemma EmptyScattersNot(s: State)
    requires s.head < s.cap
    ensures !Scatters(s, 0)
  {
  }

  lemma InvIsCore(s: State)
    requires Inv(s)
    ensures Core(s) && s.head < s.cap
  {
  }

  lemma GrownSelf(s: State)
    ensures Grown(s, s)
  {
  }

  lemma CleanStep(s: State)
    requires Inv(s)
    ensures Inv(Clean(s)) && Grown(s, Clean(s))
  {
    hide RefsOk, ReadersOk, Used, Garbage;
    CleanKeepsCore(s);
  }

  lemma PopStep(s: State, id: word)
    requires Inv(s) && HasNext(s, id)
    ensures HeadOf(s, id) < s.cap
    ensures Inv(Pop(s, id)) && Grown(s, Pop(s, id))
  {
    hide RefsOk, ReadersOk, Used, Span, End, Pop;
    PopKeepsCore(s, id);
    PopKeepsInv(s, id);
    PopFrame(s, id);
  }

  lemma SkipStep(s: State, id: word)
    requires Inv(s) && id in s.readers
    ensures Inv(Skip(s, id)) && Grown(s, Skip(s, id))
  {
    hide Core, Skip;
    SkipKeepsInv(s, id);
  }

  lemma AttachStep(s: State, id: word)
    requires Inv(s) && id !in s.readers && s.subs + 1 < WORDS
    ensures Inv(Attach(s, id)) <==> NoneNeeded(s.cells)
    ensures Grown(s, Attach(s, id))
  {
    hide Core;
    NewReader(s, id, None);
  }

  lemma DetachStep(s: State, id: word)
    requires Inv(s) && id in s.readers
    ensures s.subs > 0 && Grown(s, Detach(s, id))
    ensures Inv(Detach(s, id)) <==> s.readers[id].next == |s.log|
  {
    hide Core;
    DetachWhenAllRead(s, id);
  }

  lemma PushStep(s: State, msg: Msg)
    requires Inv(s) && 0 < |msg.data|
    ensures Inv(DataPush(s, msg)) <==> !Scatters(s, |msg.data|)
    ensures Grown(s, DataPush(s, msg))
  {
    hide Used, Span, End, Filter, PendingOn, ReaderOk, Room, RefsOk, ReadersOk, Slots, Garbage;
    CleanKeepsCore(s);
    if |msg.data| <= TwoCapacities(Slots(Clean(s))) {
      DataPushIsPush(s, msg);
      PushKeepsInv(s, msg);
      ReadableHasRoom(Clean(s), |msg.data|);
    }
  }

  lemma JoinStep(s: State, id: word, stamp: word)
    requires Inv(s) && CanJoin(s, id)
    ensures Inv(Join(s, id, stamp)) && Grown(s, Join(s, id, stamp))
  {
    hide Used, Span, End, Filter, PendingOn, ReaderOk, Room, RefsOk, ReadersOk;
    JoinKeepsInv(s, id, stamp);
  }

  lemma LeaveStep(s: State, id: word, stamp: word)
    requires Inv(s) && CanLeave(s, id)
    ensures Inv(Leave(s, id, stamp)) <==> NoGoodbyeFor(s, id)
    ensures Grown(s, Leave(s, id, stamp))
  {
    hide Used, Span, End, Filter, PendingOn, ReaderOk, Room, Leave, RefsOk, ReadersOk, NoGoodbyeFor;
    LeaveExactly(s, id, stamp);
  }

  /** Every step of the run is allowed when its turn comes. */
  ghost predicate AllAllowed(s: State, ops: seq<Op>)
    requires Inv(s)
    decreases |ops|
  {
    ops != [] ==>
      && Allowed(s, ops[0])
      && (StepKeepsInv(s, ops[0]); AllAllowed(Step(s, ops[0]), ops[1..]))
  }

  ghost function Run(s: State, ops: seq<Op>): (r: State)
    requires Inv(s) && AllAllowed(s, ops)
    ensures Inv(r) && Grown(s, r)
    decreases |ops|
  {
    if ops == [] then s
    else
      StepKeepsInv(s, ops[0]);
      Run(Step(s, ops[0]), ops[1..])
  }

  ghost function Init(smart: bool, cap: nat): (s: State)
    requires 0 < cap < WORDS - 1
    ensures Inv(s)
  {
    State(smart, cap, 0, 0, [], [], 0, map[], None)
  }

  lemma {:induction false} RunLast(s: State, ops: seq<Op>)
    requires Inv(s) && AllAllowed(s, ops) && ops != []
    ensures var last := |ops| - 1;
            && AllAllowed(s, ops[..last])
            && Allowed(Run(s, ops[..last]), ops[last])
            && Run(s, ops) == Step(Run(s, ops[..last]), ops[last])
    decreases |ops|
  {
    hide Inv, Allowed, Step, Grown;
    var last := |ops| - 1;
    StepKeepsInv(s, ops[0]);
    if last == 0 {
      assert ops[..last] == [];
      assert Run(s, ops) == Run(Step(s, ops[0]), ops[1..]);
    } else {
      RunLast(Step(s, ops[0]), ops[1..]);
      assert ops[1..][..last - 1] == ops[..last][1..];
    }
  }

  /** A run goes on with every allowed step. */
  lemma {:induction false} RunExtends(s: State, ops: seq<Op>, op: Op)
    requires Inv(s) && AllAllowed(s, ops) && Allowed(Run(s, ops), op)
    ensures AllAllowed(s, ops + [op]) && Run(s, ops + [op]) == Step(Run(s, ops), op)
    decreases |ops|
  {
    hide Inv, Allowed, Step, Grown;
    if ops == [] {
      assert ops + [op] == [op] && [op][1..] == [];
      StepKeepsInv(s, op);
      assert Run(Step(s, op), []) == Step(s, op);
    } else {
      StepKeepsInv(s, ops[0]);
      assert (ops + [op])[1..] == ops[1..] + [op];
      RunExtends(Step(s, ops[0]), ops[1..], op);
    }
  }

  /** The prefix of a run is a run. */
  lemma {:induction false} RunPrefix(s: State, ops: seq<Op>, k: nat)
    requires Inv(s) && AllAllowed(s, ops) && k <= |ops|
    ensures AllAllowed(s, ops[..k])
    decreases |ops|
  {
    hide Inv, Allowed, Step, Grown;
    if k < |ops| {
      RunLast(s, ops);
      assert ops[..|ops| - 1][..k] == ops[..k];
      RunPrefix(s, ops[..|ops| - 1], k);
    } else {
      assert ops[..k] == ops;
    }
  }

  /** A reader that comes starts at the end of the log, with nothing; and as long as it is there no
      step changes where it has started. */
  lemma StartOfReader(s: State, op: Op, id: word)
    requires Inv(s) && id in Step(s, op).readers
    ensures var r := Step(s, op).readers[id];
            if id in s.readers then r.start == s.readers[id].start
            else (op.OpAttach? || op.OpJoin?) && op.id == id && r.start == |Step(s, op).log|
  {
    hide Used, Span, End, Filter, RefsOk, ReadersOk, Deliverable, Room, Leave, Pop, Garbage;
    match op
    case OpPush(msg) =>
    case OpClean =>
    case OpGet(other) => if s.smart && other in s.readers { SkipKeepsStart(s, other); SkipKeepsInv(s, other); }
    case OpPop(other) => if HasNext(s, other) { PopKeepsCore(s, other); PopFrame(s, other); }
    case OpAttach(other) =>
    case OpDetach(other) =>
    case OpJoin(other, stamp) =>
    case OpLeave(other, stamp) => if s.smart && CanLeave(s, other) { LeaveExactly(s, other, stamp); }
  }

  lemma {:induction false} SkipKeepsStart(s: State, id: word)
    requires Core(s) && id in s.readers
    ensures id in Skip(s, id).readers && Skip(s, id).readers[id].start == s.readers[id].start
    decreases |s.log| - s.readers[id].next
  {
    hide Used, Span, End, RefsOk, ReadersOk, Deliverable, Pop;
    if HasNext(s, id) && !Deliverable(s.smart, id, NextMsg(s, id)) {
      PopKeepsCore(s, id);
      PopFrame(s, id);
      SkipKeepsStart(Pop(s, id), id);
    }
  }

  /** The reader `id` came with the step `k` of the run and has stayed since. */
  ghost predicate CameAt(s: State, ops: seq<Op>, id: word, k: nat)
    requires Inv(s) && AllAllowed(s, ops)
  {
    && k < |ops|
    && (ops[k].OpAttach? || ops[k].OpJoin?) && ops[k].id == id
    && AllAllowed(s, ops[..k]) && id !in Run(s, ops[..k]).readers
    && forall m :: k < m <= |ops| ==> AllAllowed(s, ops[..m]) && id in Run(s, ops[..m]).readers
  }

  lemma {:induction false} ReaderCame(s: State, ops: seq<Op>, id: word) returns (k: nat)
    requires Inv(s) && AllAllowed(s, ops) && id !in s.readers && id in Run(s, ops).readers
    ensures CameAt(s, ops, id, k)
    ensures Run(s, ops).readers[id].start == |Run(s, ops[..k + 1]).log|
    decreases |ops|
  {
    hide Inv, Allowed, Step, Grown, AllAllowed;
    var last := |ops| - 1;
    RunLast(s, ops);
    StartOfReader(Run(s, ops[..last]), ops[last], id);
    if id in Run(s, ops[..last]).readers {
      k := ReaderCame(s, ops[..last], id);
      forall m | 0 <= m <= last
        ensures ops[..last][..m] == ops[..m]
      {
      }
      forall m | k < m <= |ops|
        ensures AllAllowed(s, ops[..m]) && id in Run(s, ops[..m]).readers
      {
        if m == |ops| {
          assert ops[..m] == ops;
        } else {
          assert ops[..last][..m] == ops[..m];
        }
      }
    } else {
      k := last;
      assert ops[..k + 1] == ops;
    }
  }

  /** A plain queue gives its readers everything. */
  lemma {:induction false} FilterAll(id: word, msgs: seq<Msg>)
    ensures Filter(false, id, msgs) == msgs
    decreases |msgs|
  {
    if msgs != [] {
      FilterAll(id, msgs[..|msgs| - 1]);
    }
  }

  /** In every run, whatever the order of the steps of pushers and readers: a reader came with one
      step of the run; it has got exactly those messages meant for it that were pushed from then
      on and that it has passed, each once and in their order, in a plain queue all of them; and
      it reads on at the offset of its next message. */
  lemma EveryReaderGetsTheLog(smart: bool, cap: nat, ops: seq<Op>, id: word) returns (k: nat)
    requires 0 < cap < WORDS - 1 && AllAllowed(Init(smart, cap), ops) && id in Run(Init(smart, cap), ops).readers
    ensures CameAt(Init(smart, cap), ops, id, k)
    ensures var s := Run(Init(smart, cap), ops);
            var r := s.readers[id];
            var start := |Run(Init(smart, cap), ops[..k + 1]).log|;
            && start <= r.next <= |s.log|
            && r.got == Filter(smart, id, s.log[start..r.next])
            && (!smart ==> r.got == s.log[start..r.next])
            && (HasNext(s, id) <==> r.next < |s.log|)
            && (HasNext(s, id) ==> HeadOf(s, id) == Pos(s, r.next) && NextMsg(s, id) == s.log[r.next])
  {
    hide AllAllowed, Run, Used, End, RefsOk, CameAt;
    var s0 := Init(smart, cap);
    k := ReaderCame(s0, ops, id);
    var s := Run(s0, ops);
    assert ReaderOk(s, id);
    FilterAll(id, s.log[s.readers[id].start..s.readers[id].next]);
    if HasNext(s, id) {
      HeadIsPos(s, id);
    }
    CameInTime(s0, ops, id, k);
  }

  lemma CameInTime(s: State, ops: seq<Op>, id: word, k: nat)
    requires Inv(s) && AllAllowed(s, ops) && CameAt(s, ops, id, k)
    ensures k < |ops| && AllAllowed(s, ops[..k + 1])
  {
  }

  ghost predicate Counted(s: State) {
    forall i :: 0 <= i < |s.cells| ==> s.cells[i].refs == |set r | r in s.readers && s.readers[r].next <= s.base + i|
  }

  ghost predicate CountersExact(s: State) {
    && Counted(s)
    && s.subs == |s.readers|
    && (forall id :: id in s.readers ==> s.base <= s.readers[id].next)
    && (forall id :: HasNext(s, id) ==> s.cells[s.readers[id].next - s.base].refs > 0)
  }

  lemma RefsCount(s: State)
    requires RefsOk(s)
    ensures Counted(s)
  {
    forall i | 0 <= i < |s.cells|
      ensures s.cells[i].refs == |set r | r in s.readers && s.readers[r].next <= s.base + i|
    {
      assert PendingOn(s.readers, s.base + i) == set r | r in s.readers && s.readers[r].next <= s.base + i;
    }
  }

  lemma InvCounts(s: State)
    requires Inv(s)
    ensures CountersExact(s)
  {
    hide Used, Span, End, Filter, PendingOn, RefsOk, Counted;
    RefsCount(s);
    forall id | id in s.readers
      ensures s.base <= s.readers[id].next
      ensures HasNext(s, id) ==> s.cells[s.readers[id].next - s.base].refs > 0
    {
      assert ReaderOk(s, id);
      if HasNext(s, id) {
        NeededRefs(s, id);
      }
    }
  }

  /** In every run the counter of a message in the ring is the number of the readers that have
      not popped it; so it never falls below zero, and no message is collected before every
      reader that it was pushed for has popped it. */
  lemma EveryCounterIsExact(smart: bool, cap: nat, ops: seq<Op>)
    requires 0 < cap < WORDS - 1 && AllAllowed(Init(smart, cap), ops)
    ensures CountersExact(Run(Init(smart, cap), ops))
  {
    InvCounts(Run(Init(smart, cap), ops));
  }

  /** The step is one of the reader `id`. */
  predicate IsBy(op: Op, id: word) {
    (op.OpGet? || op.OpPop? || op.OpDetach? || op.OpLeave?) && op.id == id
  }

  /** The message that a reader reads next is at the same place of the ring in both states. */
  ghost predicate NextStays(s: State, t: State, id: word)
    requires RingOk(s) && RingOk(t) && HasNext(s, id)
  {
    && HasNext(t, id) && t.readers[id] == s.readers[id]
    && NextMsg(t, id) == NextMsg(s, id)
    && Pos(t, t.readers[id].next) == Pos(s, s.readers[id].next)
  }

  lemma StaysAfterPush(s: State, msg: Msg, id: word)
    requires Core(s) && HasNext(s, id) && 0 < |msg.data| && RingOk(Push(s, msg))
    ensures NextStays(s, Push(s, msg), id)
  {
    hide Used, Span, End, Filter, PendingOn, Room;
    var next := s.readers[id].next;
    CleanKeepsCore(s);
    GarbageIsUnneeded(s, id);
    PosAfterCollect(s, Garbage(s.cells), next);
    if Room(Clean(s), |msg.data|) {
      PosAfterAppend(Clean(s), msg, next);
    }
  }

  lemma StaysAfterDataPush(s: State, msg: Msg, id: word)
    requires Inv(s) && HasNext(s, id) && 0 < |msg.data|
    ensures RingOk(DataPush(s, msg)) && NextStays(s, DataPush(s, msg), id)
  {
    hide Used, Span, End, Filter, PendingOn, Room, Slots, Garbage, RefsOk, ReadersOk, Pos, Clean, Push;
    StaysAfterClean(s, id);
    if |msg.data| <= TwoCapacities(Slots(Clean(s))) {
      DataPushIsPush(s, msg);
      PushKeepsInv(s, msg);
      StaysAfterPush(s, msg, id);
    } else {
      StaysInLost(Clean(s), Some(msg), id);
      StaysInLost(Clean(s), Clean(s).lost, id);
    }
  }

  /** That a message is lost does not concern those before it. */
  lemma StaysInLost(s: State, lost: Option<Msg>, id: word)
    requires RingOk(s)
    ensures var t := s.(lost := lost);
            RingOk(t) && (HasNext(s, id) ==> NextStays(s, t, id))
            && forall r :: RingOk(r) && HasNext(r, id) && NextStays(r, s, id) ==> NextStays(r, t, id)
  {
    hide Used, Span, End;
  }

  lemma StaysAfterClean(s: State, id: word)
    requires Core(s) && HasNext(s, id)
    ensures RingOk(Clean(s)) && NextStays(s, Clean(s), id)
  {
    hide Used, Span, End, Filter, PendingOn;
    CollectRing(s, Garbage(s.cells));
    GarbageIsUnneeded(s, id);
    PosAfterCollect(s, Garbage(s.cells), s.readers[id].next);
  }

  lemma StaysAfterPop(s: State, other: word, id: word)
    requires Core(s) && HasNext(s, id) && HasNext(s, other) && other != id && HeadOf(s, other) < s.cap
    ensures RingOk(Pop(s, other)) && NextStays(s, Pop(s, other), id)
  {
    hide Used, Span, End, Filter, PendingOn, RefsOk;
    PopRing(s, other);
  }

  lemma StaysTrans(s: State, t: State, u: State, id: word)
    requires RingOk(s) && RingOk(t) && RingOk(u) && HasNext(s, id)
    requires NextStays(s, t, id) && NextStays(t, u, id)
    ensures NextStays(s, u, id)
  {
  }

  lemma {:induction false} StaysAfterSkip(s: State, other: word, id: word)
    requires Core(s) && HasNext(s, id) && other in s.readers && other != id && RingOk(Skip(s, other))
    ensures NextStays(s, Skip(s, other), id)
    decreases |s.log| - s.readers[other].next
  {
    hide Used, Span, End, Filter, PendingOn, RefsOk, Pos, Deliverable;
    if HasNext(s, other) && !Deliverable(s.smart, other, NextMsg(s, other)) {
      PopKeepsCore(s, other);
      StaysAfterPop(s, other, id);
      PopFrame(s, other);
      StaysAfterSkip(Pop(s, other), other, id);
      StaysTrans(s, Pop(s, other), Skip(s, other), id);
    }
  }

  lemma {:induction false} StaysAfterDrain(s: State, other: word, id: word)
    requires Core(s) && HasNext(s, id) && other in s.readers && other != id && RingOk(Drain(s, other))
    ensures NextStays(s, Drain(s, other), id)
    decreases |s.log| - s.readers[other].next
  {
    hide Used, Span, End, Filter, PendingOn, RefsOk, Pos, IsDisconnect;
    if HasNext(s, other) {
      PopKeepsCore(s, other);
      StaysAfterPop(s, other, id);
      PopFrame(s, other);
      if !IsDisconnect(NextMsg(s, other), other) {
        StaysAfterDrain(Pop(s, other), other, id);
        StaysTrans(s, Pop(s, other), Drain(s, other), id);
      }
    }
  }

  lemma StaysAfterLeave(s: State, other: word, stamp: word, id: word)
    requires Inv(s) && s.smart && HasNext(s, id) && CanLeave(s, other) && other != id && RingOk(Leave(s, other, stamp))
    ensures NextStays(s, Leave(s, other, stamp), id)
  {
    hide Used, Span, End, Filter, PendingOn, RefsOk, ReadersOk, Pos, Room, Drain, IsDisconnect, Garbage;
    var p := Push(s, ServiceMsg(other, stamp, CODE_DISCONNECT));
    var g := SayGoodbye(s, other, stamp);
    GoodbyeKeepsCore(s, other, stamp);
    StaysAfterPush(s, ServiceMsg(other, stamp, CODE_DISCONNECT), id);
    StaysIgnoresReaders(p, g, id);
    StaysTrans(s, p, g, id);
    GoodbyeIsLast(s, other, stamp);
    GoodbyeDisconnects(s, other, stamp);
    DrainReadsAll(g, other);
    StaysAfterDrain(g, other, id);
    StaysTrans(s, g, Drain(g, other), id);
    StaysIgnoresReaders(Drain(g, other), Leave(s, other, stamp), id);
    StaysTrans(s, Drain(g, other), Leave(s, other, stamp), id);
  }

  lemma StaysIgnoresReaders(s: State, t: State, id: word)
    requires RingOk(s) && RingOk(t) && HasNext(s, id)
    requires t == s.(subs := t.subs, readers := t.readers) && id in t.readers && t.readers[id] == s.readers[id]
    ensures NextStays(s, t, id)
  {
  }

  lemma StaysAfterJoin(s: State, other: word, stamp: word, id: word)
    requires Inv(s) && HasNext(s, id) && CanJoin(s, other) && RingOk(Join(s, other, stamp))
    ensures NextStays(s, Join(s, other, stamp), id)
  {
    hide Used, Span, End, Filter, PendingOn, RefsOk, ReadersOk, Pos, Room, Push, Join;
    var msg := ServiceMsg(other, stamp, CODE_CONNECT);
    PushKeepsInv(s, msg);
    StaysAfterPush(s, msg, id);
    JoinFrame(s, other, stamp, id);
    StaysIgnoresReaders(Push(s, msg), Join(s, other, stamp), id);
    StaysTrans(s, Push(s, msg), Join(s, other, stamp), id);
  }

  /** No step of another participant changes the record of a reader. */
  lemma ReaderStays(s: State, op: Op, id: word)
    requires Inv(s) && id in s.readers && !IsBy(op, id)
    ensures var t := Step(s, op);
            id in t.readers && t.readers[id] == s.readers[id]
  {
    hide Used, Span, End, Filter, RefsOk, ReadersOk, Deliverable, Room, Skip, Leave, IsDisconnect;
    match op
    case OpPush(msg) =>
    case OpClean =>
    case OpGet(other) => if s.smart && other in s.readers { SkipKeepsInv(s, other); }
    case OpPop(other) => if HasNext(s, other) { PopKeepsCore(s, other); PopFrame(s, other); }
    case OpAttach(other) =>
    case OpDetach(other) =>
    case OpJoin(other, stamp) => if s.smart && CanJoin(s, other) { JoinFrame(s, other, stamp, id); }
    case OpLeave(other, stamp) => if s.smart && CanLeave(s, other) { LeaveExactly(s, other, stamp); }
  }

  /** What `get` has found for a reader is still there when the reader pops it: no step of
      another participant moves the message, takes it out, or changes which one is next. */
  lemma NextMessageStays(s: State, op: Op, id: word)
    requires Inv(s) && HasNext(s, id) && !IsBy(op, id)
    ensures RingOk(Step(s, op)) && NextStays(s, Step(s, op), id)
  {
    hide Used, Span, End, Filter, RefsOk, ReadersOk, Deliverable, Room, NextStays, Push, Pop, Skip, Leave;
    StepKeepsInv(s, op);
    match op
    case OpPush(msg) =>
      if 0 < |msg.data| { StaysAfterDataPush(s, msg, id); } else { StaysSelf(s, id); }
    case OpClean =>
      StaysAfterClean(s, id);
    case OpGet(other) =>
      if s.smart && other in s.readers { SkipStep(s, other); StaysAfterSkip(s, other, id); } else { StaysSelf(s, id); }
    case OpPop(other) =>
      if HasNext(s, other) && Deliverable(s.smart, other, NextMsg(s, other)) {
        PopKeepsCore(s, other);
        StaysAfterPop(s, other, id);
      } else {
        StaysSelf(s, id);
      }
    case OpAttach(other) => StaysIgnoresReaders(s, Step(s, op), id);
    case OpDetach(other) => StaysIgnoresReaders(s, Step(s, op), id);
    case OpJoin(other, stamp) =>
      if s.smart && CanJoin(s, other) { JoinStep(s, other, stamp); StaysAfterJoin(s, other, stamp, id); } else { StaysSelf(s, id); }
    case OpLeave(other, stamp) =>
      if s.smart && CanLeave(s, other) { LeaveExactly(s, other, stamp); StaysAfterLeave(s, other, stamp, id); } else { StaysSelf(s, id); }
  }

  lemma StaysSelf(s: State, id: word)
    requires RingOk(s) && HasNext(s, id)
    ensures NextStays(s, s, id)
  {
  }

  lemma JoinFrame(s: State, other: word, stamp: word, id: word)
    requires s.head < s.cap && CanJoin(s, other) && id in s.readers
    ensures var p, j := Push(s, ServiceMsg(other, stamp, CODE_CONNECT)), Join(s, other, stamp);
            && j == p.(subs := j.subs, readers := j.readers)
            && id in p.readers && id in j.readers && j.readers[id] == p.readers[id]
  {
    hide Used, Span, End, Room;
  }

  // ---- what the source lets happen ---------------------------------------------------------

  /** A new queue of 1000 bytes takes a payload of one byte. */
  lemma OneByteFits(s: State)
    requires s.cap == 1000 && s.head + 100 < 1000 && s.cells == []
    ensures Clean(s) == s && Room(s, 1) && Next(1000, s.head, 1) == s.head + 25
  {
  }

  /** A reader that is attached, does not read the message that is pushed, and goes: the counter of
      the message is one, and there is no reader. */
  lemma DetachedTooEarly()
    ensures var msg := Msg(9, 7, 0, [5]);
            var s := DataPush(Attach(Init(false, 1000), 1), msg);
            && Inv(s) && CanDetach(s, 1) && !Inv(Detach(s, 1))
            && Detach(s, 1).cells == [Cell(msg, 1)] && Detach(s, 1).readers == map[]
  {
    hide Slots, DataPush;
    var msg := Msg(9, 7, 0, [5]);
    var a := Attach(Init(false, 1000), 1);
    OneByteFits(a);
    AttachWhenNoneNeeded(Init(false, 1000), 1, msg);
    PlainPush(a, msg);
    PushKeepsInv(a, msg);
    DetachWhenAllRead(Push(a, msg), 1);
  }

  /** A reader that is attached while another one has not read a message: the next message finds
      it with its head at the former message. */
  lemma AttachedTwice()
    ensures var first, second := Msg(9, 7, 0, [5]), Msg(9, 7, 0, [6]);
            var s := DataPush(Attach(Init(false, 1000), 1), first);
            && Inv(s) && CanAttach(s, 2)
            && var p := DataPush(Attach(s, 2), second);
               HasNext(p, 2) && NextMsg(p, 2) == second && !ReadsRight(p, 2)
  {
    hide Slots, DataPush;
    var first, second := Msg(9, 7, 0, [5]), Msg(9, 7, 0, [6]);
    var a := Attach(Init(false, 1000), 1);
    OneByteFits(a);
    AttachWhenNoneNeeded(Init(false, 1000), 1, first);
    PlainPush(a, first);
    PushKeepsInv(a, first);
    var s := Push(a, first);
    assert s.cells == [Cell(first, 1)];
    UsedOne(1000, 0, Cell(first, 1));
    FirstMessageIsFound(Attach(s, 2), 2, second);
    PlainPush(Attach(s, 2), second);
  }

  /** A reader that joins, pushes data that looks like its own DISCONNECT, and leaves: it goes with
      the real one unread. */
  lemma LeftTooEarly()
    ensures var j := Join(Init(true, 1000), 1, 0);
            var s := DataPush(j, Msg(1, SERVICE_TAG, 0, [CODE_DISCONNECT]));
            && CanJoin(Init(true, 1000), 1) && Inv(s) && CanLeave(s, 1) && !Inv(Leave(s, 1, 0))
  {
    hide Used, Span, End, Next, Room, RefsOk, ReadersOk, Leave, Garbage, Slots, DataPush;
    var s0, fake := Init(true, 1000), Msg(1, SERVICE_TAG, 0, [CODE_DISCONNECT]);
    OneByteFits(s0);
    JoinKeepsInv(s0, 1, 0);
    var j := Join(s0, 1, 0);
    assert j.cells == [Cell(ServiceMsg(1, 0, CODE_CONNECT), 0)];
    OneUnneeded(j);
    var c := Clean(j);
    OneByteFits(c);
    PushKeepsInv(j, fake);
    CollectRing(j, Garbage(j.cells));
    EmptyTakes(c);
    DataPushIsPush(j, fake);
    var s := Push(j, fake);
    assert s == Append(c, fake) && s.log[1] == fake && s.readers[1].next == 1;
    OneNeeded(s);
    assert !NoGoodbyeFor(s, 1);
    LeaveExactly(s, 1, 0);
  }

  /** A smart queue of 1000 bytes with one subscriber and no message takes a payload of one byte. */
  lemma EmptyTakes(s: State)
    requires RingOk(s) && s.smart && s.cap == 1000 && s.head == 25 && s.cells == [] && s.subs == 1
    ensures 1 <= TwoCapacities(Slots(s))
  {
    SlotsInNumbers(s);
  }

  /** `k` attempts to push a service message that find no room. */
  function Attempts(s: State, k: nat): (r: State)
    requires s.head < s.cap
    ensures r.head < r.cap
    decreases k
  {
    if k == 0 then s else Attempts(Clean(s), k - 1)
  }

  /** Joining and leaving keep the lock, so nobody pops meanwhile: where the first attempt finds no
      room, all further ones find the queue as the first one has left it, and no room either. */
  lemma {:induction false} AttemptsAreInVain(s: State, id: word, k: nat)
    requires s.head < s.cap && k > 0
    ensures Attempts(s, k) == Clean(s)
    ensures CanJoin(Attempts(s, k), id) <==> CanJoin(s, id)
    ensures CanLeave(Attempts(s, k), id) <==> CanLeave(s, id)
    decreases k
  {
    CleanTwice(s);
    if k > 1 {
      AttemptsAreInVain(Clean(s), id, k - 1);
    }
  }

  lemma CleanTwice(s: State)
    requires s.head < s.cap
    ensures Clean(Clean(s)) == Clean(s)
  {
    var c := Clean(s);
    assert Garbage(c.cells) == 0;
    assert c.cells[..0] == [] && c.cells[0..] == c.cells;
  }

  lemma OneUnneeded(s: State)
    requires s.head == 0 && s.cap == 1000 && |s.cells| == 1 && s.cells[0].refs == 0 && s.cells[0].Len() == 1
    ensures Clean(s) == s.(head := 25, base := s.base + 1, cells := [])
  {
    assert s.cells == [s.cells[0]] && s.cells[..1] == s.cells;
    UsedOne(1000, 0, s.cells[0]);
    assert Garbage(s.cells) == 1;
  }

  lemma OneNeeded(s: State)
    requires s.head == 25 && s.cap == 1000 && |s.cells| == 1 && s.cells[0].refs > 0 && s.cells[0].Len() == 1
    ensures Clean(s) == s && Room(s, 1)
  {
    assert s.cells == [s.cells[0]] && s.cells[..0] == [] && s.cells[0..] == s.cells;
    UsedOne(1000, 25, s.cells[0]);
  }
}
