/** A run of a smart queue of 1000 bytes at whose end data is pushed that no reader can read. */
module ScatteredRuns {
  import opened Bytes
  import opened Geometry
  import opened Regions
  import opened Trimmings
  import opened Broadcasts

  function Data(sid: word, n: nat): Msg {
    Msg(sid, 7, 0, seq(n, _ => 0))
  }

  function Connect(sid: word): Msg {
    ServiceMsg(sid, 0, CODE_CONNECT)
  }

  /** The second CONNECT message, data of 426 bytes and data of 376 bytes, with their counters. */
  function Cells(a: word, b: word, c: word): (r: seq<Cell>)
    ensures |r| == 3
  {
    [Cell(Connect(2), a), Cell(Data(1, 426), b), Cell(Data(1, 376), c)]
  }

  function Log(): (r: seq<Msg>)
    ensures |r| == 4
  {
    [Connect(1), Connect(2), Data(1, 426), Data(1, 376)]
  }

  function Joined(): State {
    State(true, 1000, 0, 0, [Cell(Connect(1), 0)], Log()[..1], 1, map[1 := Reader(Some(25), 1, 1, [])], None)
  }

  function WithReaders(cells: seq<Cell>, log: seq<Msg>, r1: Reader, r2: Reader): State {
    State(true, 1000, 25, 1, cells, log, 2, map[1 := r1, 2 := r2], None)
  }

  const FIRST := Reader(Some(25), 1, 1, [])
  const SECOND := Reader(Some(50), 2, 2, [])

  lemma Places()
    ensures Span(1000, 0, 1) == Span(1000, 25, 1) == 25 && Span(1000, 50, 426) == 450 && Span(1000, 500, 376) == 400
    ensures Next(1000, 0, 1) == 25 && Next(1000, 25, 1) == 50
    ensures Next(1000, 50, 426) == 500 && Next(1000, 500, 376) == 900
    ensures TotalSize(1000, 25, 1) == 25 && TotalSize(1000, 50, 426) == 450 && TotalSize(1000, 500, 376) == 400
  {
  }

  lemma OneMore(p: nat, cells: seq<Cell>, c: Cell)
    requires p < 1000
    ensures Used(1000, p, cells + [c]) == Used(1000, p, cells) + Span(1000, End(1000, p, cells), c.Len())
    ensures End(1000, p, cells + [c]) == Next(1000, End(1000, p, cells), c.Len())
    ensures TotalSizes(1000, p, cells + [c]) == TotalSizes(1000, p, cells) + TotalSize(1000, End(1000, p, cells), c.Len())
  {
    UsedAppend(1000, p, cells, [c]);
    UsedOne(1000, End(1000, p, cells), c);
    TotalSizesAppend(1000, p, cells, [c]);
    TotalSizesOne(1000, End(1000, p, cells), c);
  }

  lemma NoneUsed(p: nat)
    requires p < 1000
    ensures Used(1000, p, []) == 0 && End(1000, p, []) == p && TotalSizes(1000, p, []) == 0
  {
  }

  lemma Ends(a: word, b: word, c: word)
    ensures var cells := Cells(a, b, c);
            && Used(1000, 25, cells[..1]) == 25 && End(1000, 25, cells[..1]) == 50 && TotalSizes(1000, 25, cells[..1]) == 25
            && Used(1000, 25, cells[..2]) == 475 && End(1000, 25, cells[..2]) == 500 && TotalSizes(1000, 25, cells[..2]) == 475
            && Used(1000, 25, cells) == 875 && End(1000, 25, cells) == 900 && TotalSizes(1000, 25, cells) == 875
  {
    hide Span, Next, TotalSize;
    var cells := Cells(a, b, c);
    Places();
    assert cells[..0] == [];
    assert cells[..1] == [] + [cells[0]];
    OneMore(25, [], cells[0]);
    assert cells[..2] == cells[..1] + [cells[1]];
    OneMore(25, cells[..1], cells[1]);
    assert cells == cells[..2] + [cells[2]];
    OneMore(25, cells[..2], cells[2]);
  }

  lemma NoGarbage(s: State)
    requires s.head < s.cap && s.cells != [] && s.cells[0].refs > 0
    ensures Clean(s) == s
  {
    assert s.cells[..0] == [] && s.cells[0..] == s.cells;
  }

  lemma FirstJoins()
    ensures Step(Init(true, 1000), OpJoin(1, 0)) == Joined() && Inv(Joined())
  {
    hide RefsOk, ReadersOk, Span, Used;
    var s0 := Init(true, 1000);
    Places();
    OneMore(0, [], Cell(Connect(1), 0));
    assert [] + [Cell(Connect(1), 0)] == [Cell(Connect(1), 0)];
    NoneUsed(0);
    assert Clean(s0) == s0 && Room(s0, 1);
    JoinKeepsInv(s0, 1, 0);
  }

  lemma SecondJoins()
    requires Inv(Joined())
    ensures var s := WithReaders([Cell(Connect(2), 1)], Log()[..2], FIRST, SECOND);
            Step(Joined(), OpJoin(2, 0)) == s && Inv(s)
  {
    hide RefsOk, ReadersOk, Span, Used, Next, End, TotalSizes, TotalSize, Garbage, Core, Clean;
    var s := Joined();
    Places();
    OneUnneeded(s);
    var c := Clean(s);
    OneMore(25, [], Cell(Connect(2), 1));
    assert [] + [Cell(Connect(2), 1)] == [Cell(Connect(2), 1)];
    NoneUsed(25);
    assert Room(c, 1);
    JoinKeepsInv(s, 2, 0);
    assert map[1 := FIRST][2 := SECOND] == map[1 := FIRST, 2 := SECOND];
    assert Log()[..1] + [Connect(2)] == Log()[..2];
  }

  /** A push that the two readers have still to read. */
  lemma Pushed(cells: seq<Cell>, log: seq<Msg>, n: nat)
    requires 0 < n && cells != [] && cells[0].refs > 0
    requires var s := WithReaders(cells, log, FIRST, SECOND); Inv(s) && n <= TwoCapacities(Slots(s))
    ensures var s := WithReaders(cells, log, FIRST, SECOND);
            var t := WithReaders(cells + [Cell(Data(1, n), 2)], log + [Data(1, n)], FIRST, SECOND);
            Step(s, OpPush(Data(1, n))) == t && Inv(t)
  {
    hide RefsOk, ReadersOk, Slots, Used;
    var s := WithReaders(cells, log, FIRST, SECOND);
    NoGarbage(s);
    PushStep(s, Data(1, n));
  }

  lemma FirstPush()
    requires Inv(WithReaders([Cell(Connect(2), 1)], Log()[..2], FIRST, SECOND))
    ensures var s := WithReaders([Cell(Connect(2), 1)], Log()[..2], FIRST, SECOND);
            var t := WithReaders(Cells(1, 2, 2)[..2], Log()[..3], FIRST, SECOND);
            Step(s, OpPush(Data(1, 426))) == t && Inv(t)
  {
    hide RefsOk, ReadersOk, Slots, Used, End, TotalSizes;
    var s := WithReaders([Cell(Connect(2), 1)], Log()[..2], FIRST, SECOND);
    assert Cells(1, 2, 2)[..1] == s.cells;
    Ends(1, 2, 2);
    SlotsInNumbers(s);
    Pushed(s.cells, s.log, 426);
    assert Cells(1, 2, 2)[..2] == s.cells + [Cell(Data(1, 426), 2)];
    assert Log()[..3] == s.log + [Data(1, 426)];
  }

  lemma SecondPush()
    requires Inv(WithReaders(Cells(1, 2, 2)[..2], Log()[..3], FIRST, SECOND))
    ensures var s := WithReaders(Cells(1, 2, 2)[..2], Log()[..3], FIRST, SECOND);
            var t := WithReaders(Cells(1, 2, 2), Log(), FIRST, SECOND);
            Step(s, OpPush(Data(1, 376))) == t && Inv(t)
  {
    hide RefsOk, ReadersOk, Slots, Used, End, TotalSizes;
    var s := WithReaders(Cells(1, 2, 2)[..2], Log()[..3], FIRST, SECOND);
    Ends(1, 2, 2);
    SlotsInNumbers(s);
    Pushed(s.cells, s.log, 376);
    assert Cells(1, 2, 2) == s.cells + [Cell(Data(1, 376), 2)];
    assert Log() == s.log + [Data(1, 376)];
  }

  /** The first reader looks for data and finds none that is not its own. */
  lemma FirstGets()
    requires Inv(WithReaders(Cells(1, 2, 2), Log(), FIRST, SECOND))
    ensures var s := WithReaders(Cells(1, 2, 2), Log(), FIRST, SECOND);
            var t := WithReaders(Cells(0, 1, 1), Log(), Reader(Some(900), 1, 4, []), SECOND);
            Step(s, OpGet(1)) == t && Inv(t)
  {
    hide RefsOk, ReadersOk, Used, End, Next, Span;
    Places();
    var s := WithReaders(Cells(1, 2, 2), Log(), FIRST, SECOND);
    var s1 := WithReaders(Cells(0, 2, 2), Log(), Reader(Some(50), 1, 2, []), SECOND);
    var s2 := WithReaders(Cells(0, 1, 2), Log(), Reader(Some(500), 1, 3, []), SECOND);
    var t := WithReaders(Cells(0, 1, 1), Log(), Reader(Some(900), 1, 4, []), SECOND);
    PopKeepsInv(s, 1);
    assert Pop(s, 1) == s1;
    PopKeepsInv(s1, 1);
    assert Pop(s1, 1) == s2;
    PopKeepsInv(s2, 1);
    assert Pop(s2, 1) == t;
    assert Skip(t, 1) == t;
    assert Skip(s2, 1) == Skip(t, 1);
    assert Skip(s1, 1) == Skip(s2, 1);
  }

  lemma SecondPops()
    requires Inv(WithReaders(Cells(0, 1, 1), Log(), Reader(Some(900), 1, 4, []), SECOND))
    ensures var s := WithReaders(Cells(0, 1, 1), Log(), Reader(Some(900), 1, 4, []), SECOND);
            var t := WithReaders(Cells(0, 0, 1), Log(), Reader(Some(900), 1, 4, []), Reader(Some(500), 2, 3, [Data(1, 426)]));
            Step(s, OpGet(2)) == s && Step(s, OpPop(2)) == t && Inv(t)
  {
    hide RefsOk, ReadersOk, Used, End, Next, Span;
    Places();
    var s := WithReaders(Cells(0, 1, 1), Log(), Reader(Some(900), 1, 4, []), SECOND);
    PopKeepsInv(s, 2);
    assert [] + [Data(1, 426)] == [Data(1, 426)];
  }

  /** The head is at 500, the tail at 900, and 500 bytes are available: 100 of them at the tail, 400
      at the start of the ring, and then 100 more, which have been counted already. */
  lemma ThirdRegion(r1: Reader, r2: Reader)
    requires Inv(WithReaders(Cells(0, 0, 1), Log(), r1, r2))
    ensures var s := WithReaders(Cells(0, 0, 1), Log(), r1, r2);
            && Clean(s).head == 500 && Tail(Clean(s)) == 900 && Available(Clean(s)) == 500
            && |Slots(Clean(s))| > 2 && Slots(Clean(s))[..3] == [Region(900, 100), Region(0, 400), Region(400, 100)]
            && ChainIn(Slots(Clean(s)), 470) == [900, 0, 400]
            && Room(Clean(s), 470) && Scatters(s, 470)
  {
    hide RefsOk, ReadersOk, TrimmedRegions, Used, End, TotalSizes, Slots, Available;
    var s := WithReaders(Cells(0, 0, 1), Log(), r1, r2);
    var c := Clean(s);
    Ends(0, 0, 1);
    assert Garbage(s.cells) == 2;
    assert c.cells == s.cells[2..] == [Cell(Data(1, 376), 1)];
    CleanKeepsCore(s);
    OneLeft(c);
    SlotsAre(c);
  }

  lemma OneLeft(c: State)
    requires c.smart && c.cap == 1000 && c.head == 500 && c.subs == 2 && c.cells == [Cell(Data(1, 376), 1)]
    ensures Used(1000, 500, c.cells) == 400 && Tail(c) == 900 && Available(c) == 500 && Room(c, 470)
  {
    Places();
    OneMore(500, [], Cell(Data(1, 376), 1));
    assert [] + [Cell(Data(1, 376), 1)] == c.cells;
    assert Used(1000, 500, []) == 0 && End(1000, 500, []) == 500 && TotalSizes(1000, 500, []) == 0;
  }

  lemma SlotsAre(c: State)
    requires RingOk(c) && c.smart && c.cap == 1000 && c.head == 500 && c.cells != []
    requires Used(1000, 500, c.cells) == 400 && Tail(c) == 900 && Available(c) == 500
    ensures |Slots(c)| > 2 && Slots(c)[..3] == [Region(900, 100), Region(0, 400), Region(400, 100)]
    ensures TwoCapacities(Slots(c)) == 452 && SumCapacities(Slots(c)) >= 528
    ensures ChainIn(Slots(c), 470) == [900, 0, 400]
  {
    hide TrimmedRegions, Used, End, TotalSizes, Available;
    RingSlots(c);
    SlotsInNumbers(c);
    FirstRegions(1000, 500, 400, 500);
    ThreeChunks(Slots(c));
  }

  lemma ThreeChunks(rs: seq<Region>)
    requires |rs| > 2 && rs[0] == Region(900, 100) && rs[1] == Region(0, 400) && rs[2] == Region(400, 100)
    ensures ChainIn(rs, 470) == [900, 0, 400]
  {
    OneFilled(rs, 470);
    OneFilled(rs[1..], 394);
    assert rs[1..][1..] == rs[2..];
    assert ChainIn(rs[2..], 18) == [400] + ChainIn(rs[2..][1..], 0);
  }

  /** A run that starts with the step from `s` to `t`. */
  lemma RunFirst(s: State, op: Op, t: State, ops: seq<Op>)
    requires Inv(s) && Inv(t) && Step(s, op) == t && AllAllowed(t, ops)
    ensures AllAllowed(s, [op] + ops) && Run(s, [op] + ops) == Run(t, ops)
  {
    hide Inv, Step, Allowed, Grown;
    StepKeepsInv(s, op);
    assert ([op] + ops)[1..] == ops;
  }

  /** The steps before the data is lost. */
  const BEFORE: seq<Op> := [OpJoin(1, 0)] + ([OpJoin(2, 0)] + ([OpPush(Data(1, 426))] + ([OpPush(Data(1, 376))]
                           + ([OpGet(1)] + ([OpGet(2)] + ([OpPop(2)] + []))))))

  lemma RunBefore()
    ensures AllAllowed(Init(true, 1000), BEFORE)
    ensures var s := WithReaders(Cells(0, 0, 1), Log(), Reader(Some(900), 1, 4, []), Reader(Some(500), 2, 3, [Data(1, 426)]));
            Inv(s) && Run(Init(true, 1000), BEFORE) == s
  {
    hide Inv, Step, WithReaders, AllAllowed, Run, Joined, Cells, Log, Data;
    var s0, s1 := Init(true, 1000), Joined();
    var s2 := WithReaders([Cell(Connect(2), 1)], Log()[..2], FIRST, SECOND);
    var s3 := WithReaders(Cells(1, 2, 2)[..2], Log()[..3], FIRST, SECOND);
    var s4 := WithReaders(Cells(1, 2, 2), Log(), FIRST, SECOND);
    var s5 := WithReaders(Cells(0, 1, 1), Log(), Reader(Some(900), 1, 4, []), SECOND);
    var s6 := WithReaders(Cells(0, 0, 1), Log(), Reader(Some(900), 1, 4, []), Reader(Some(500), 2, 3, [Data(1, 426)]));
    FirstJoins();
    SecondJoins();
    FirstPush();
    SecondPush();
    FirstGets();
    SecondPops();
    RunNone(s6);
    RunFirst(s5, OpPop(2), s6, []);
    RunFirst(s5, OpGet(2), s5, [OpPop(2)] + []);
    RunFirst(s4, OpGet(1), s5, [OpGet(2)] + ([OpPop(2)] + []));
    RunFirst(s3, OpPush(Data(1, 376)), s4, [OpGet(1)] + ([OpGet(2)] + ([OpPop(2)] + [])));
    RunFirst(s2, OpPush(Data(1, 426)), s3, [OpPush(Data(1, 376))] + ([OpGet(1)] + ([OpGet(2)] + ([OpPop(2)] + []))));
    RunFirst(s1, OpJoin(2, 0), s2, [OpPush(Data(1, 426))] + ([OpPush(Data(1, 376))] + ([OpGet(1)] + ([OpGet(2)] + ([OpPop(2)] + [])))));
    RunFirst(s0, OpJoin(1, 0), s1, [OpJoin(2, 0)] + ([OpPush(Data(1, 426))] + ([OpPush(Data(1, 376))] + ([OpGet(1)] + ([OpGet(2)] + ([OpPop(2)] + []))))));
  }

  /** The run: every step of it is allowed, and at its end 470 bytes are pushed, for which there is
      room; they are placed at 900, 0 and 400, where no reader looks for the last of them. */
  lemma DataIsLost()
    ensures AllAllowed(Init(true, 1000), BEFORE)
    ensures var s := Run(Init(true, 1000), BEFORE);
            var t := Step(s, OpPush(Data(1, 470)));
            && Room(Clean(s), 470) && t.lost == Some(Data(1, 470)) && t.log == s.log
            && !Allowed(s, OpPush(Data(1, 470)))
            && ChainIn(Slots(Clean(s)), 470) == [900, 0, 400]
            && forall k: nat :: BusyRegion(1000, 900, 442, k).first != 400
  {
    hide Inv, Step, Slots, Allowed, Room, Clean, WithReaders, AllAllowed, Run;
    RunBefore();
    AtTheEnd(Reader(Some(900), 1, 4, []), Reader(Some(500), 2, 3, [Data(1, 426)]));
  }

  lemma RunNone(s: State)
    requires Inv(s)
    ensures AllAllowed(s, []) && Run(s, []) == s
  {
  }

  lemma AtTheEnd(r1: Reader, r2: Reader)
    requires Inv(WithReaders(Cells(0, 0, 1), Log(), r1, r2))
    ensures var s := WithReaders(Cells(0, 0, 1), Log(), r1, r2);
            var t := Step(s, OpPush(Data(1, 470)));
            && Room(Clean(s), 470) && t.lost == Some(Data(1, 470)) && t.log == s.log
            && !Allowed(s, OpPush(Data(1, 470)))
            && ChainIn(Slots(Clean(s)), 470) == [900, 0, 400]
            && forall k: nat :: BusyRegion(1000, 900, 442, k).first != 400
  {
    hide Inv, Slots, Room, Garbage;
    ThirdRegion(r1, r2);
    forall k: nat
      ensures BusyRegion(1000, 900, 442, k).first != 400
    {
      NeverVisited(1000, 900, 442, k);
    }
  }
}
