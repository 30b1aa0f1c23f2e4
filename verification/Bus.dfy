/** The bus of one endpoint: a chain of queues that grows when a message does not fit in the
    newest queue and shrinks when the oldest one is exhausted. */
module Buses {
  import opened Bytes
  import opened Geometry
  import opened Regions
  import opened SimpleQueues

  /** The specification of a bus; capacities are 32-bit numbers. */
  datatype Specification = Specification(minCapacity: word, maxCapacity: word, capacityFactor: word)

  datatype Connector = Connector(id: nat, queue: QState)

  /** The chain, the newest connector first, and the numbers of the oldest and the newest one. */
  datatype BusState = BusState(spec: Specification, chain: seq<Connector>, inputId: nat, outputId: nat) {
    function Output(): QState
      requires chain != []
    {
      chain[0].queue
    }

    function Input(): QState
      requires chain != []
    {
      chain[|chain| - 1].queue
    }
  }

  /** The messages of a chain, the oldest first. */
  function Contents(chain: seq<Connector>): seq<Msg>
    decreases |chain|
  {
    if chain == [] then [] else Contents(chain[1..]) + Msgs(chain[0].queue.cells)
  }

  /** The capacity that follows `size`, in the 32-bit arithmetic of the source. */
  function GrownCapacity(spec: Specification, size: nat): nat {
    var grown := Product(spec.capacityFactor, size);
    Min(if spec.minCapacity < grown then grown else spec.minCapacity, spec.maxCapacity)
  }

  function Product(factor: word, size: nat): nat {
    size * ((factor + 100) % WORDS) % WORDS / 100
  }

  /** A new connector, if its shared memory can be created and it is larger than the newest one. */
  function MakeConnector(b: BusState, id: nat, creatable: set<nat>): Option<Connector> {
    var newest := if b.chain != [] then b.Output().cap else 0;
    var cap := GrownCapacity(b.spec, newest);
    if (b.chain == [] || b.spec.capacityFactor > 0) && cap > newest && id in creatable
    then Some(Connector(id, QState(cap, 0, [])))
    else None
  }

  function CanAdd(b: BusState): bool {
    (b.outputId + 1) % WORDS != b.inputId
  }

  function AddConnector(b: BusState, creatable: set<nat>): Option<BusState> {
    match MakeConnector(b, (b.outputId + 1) % WORDS, creatable)
    case None => None
    case Some(c) => Some(BusState(b.spec, [c] + b.chain, b.inputId, (b.outputId + 1) % WORDS))
  }

  /** A push to the newest queue. */
  function PushOutput(b: BusState, msg: Msg): BusState
    requires b.chain != [] && b.Output().head < b.Output().cap
  {
    b.(chain := b.chain[0 := b.chain[0].(queue := b.Output().Push(Cell(msg, 0)))])
  }

  /** The numbers and the capacities of the connectors rise from the oldest to the newest. */
  ghost predicate ChainOk(chain: seq<Connector>, newest: nat, max: nat) {
    && (forall k :: 0 <= k < |chain| ==>
         && chain[k].id == newest - k
         && chain[k].queue.Ok()
         && chain[k].id < chain[k].queue.cap <= max)
    && (forall j, k :: 0 <= j < k < |chain| ==> chain[j].queue.cap > chain[k].queue.cap)
  }

  ghost predicate BusOk(b: BusState) {
    && b.spec.maxCapacity < WORDS - 1
    && b.chain != []
    && b.inputId + |b.chain| == b.outputId + 1 <= b.spec.maxCapacity
    && ChainOk(b.chain, b.outputId, b.spec.maxCapacity)
  }

  /** Grows the chain until the message fits in the newest queue or there is no larger one. */
  function Push(b: BusState, msg: Msg, creatable: set<nat>): BusState
    requires b.chain != [] && b.Output().head < b.Output().cap
    decreases b.spec.maxCapacity - b.Output().cap
  {
    if b.Output().Room(|msg.data|) then PushOutput(b, msg)
    else if !CanAdd(b) then b
    else
      match AddConnector(b, creatable)
      case None => b
      case Some(g) => Push(g, msg, creatable)
  }

  /** Whether a message of `n` bytes fits in the newest queue, after growth if need be. */
  function Accepts(b: BusState, n: nat, creatable: set<nat>): bool
    requires b.chain != [] && b.Output().head < b.Output().cap
    decreases b.spec.maxCapacity - b.Output().cap
  {
    b.Output().Room(n) ||
    (CanAdd(b) && AddConnector(b, creatable).Some? && Accepts(AddConnector(b, creatable).value, n, creatable))
  }

  function RemoveConnector(b: BusState): BusState
    requires b.chain != []
  {
    b.(chain := b.chain[..|b.chain| - 1], inputId := (b.inputId + 1) % WORDS)
  }

  /** Removes the exhausted connectors before the oldest message. */
  function Advance(b: BusState): (r: BusState)
    requires b.chain != []
    ensures 0 < |r.chain| <= |b.chain| && r.chain == b.chain[..|r.chain|]
    decreases |b.chain|
  {
    // BusOk makes the second condition imply the third
    if b.Input().cells == [] && b.inputId != b.outputId && |b.chain| > 1 then Advance(RemoveConnector(b)) else b
  }

  function PopInput(b: BusState): BusState
    requires b.chain != [] && b.Input().head < b.Input().cap
  {
    var last := |b.chain| - 1;
    b.(chain := b.chain[last := b.chain[last].(queue := b.Input().Pop())])
  }

  lemma {:induction false} ContentsJoin(a: seq<Connector>, c: seq<Connector>)
    ensures Contents(a + c) == Contents(c) + Contents(a)
    decreases |a|
  {
    if a == [] {
      assert a + c == c;
    } else {
      assert (a + c)[1..] == a[1..] + c;
      ContentsJoin(a[1..], c);
    }
  }

  lemma ContentsOne(c: Connector)
    ensures Contents([c]) == Msgs(c.queue.cells)
  {
    assert [c][1..] == [];
  }

  lemma ContentsLast(chain: seq<Connector>)
    requires chain != []
    ensures Contents(chain) == Msgs(chain[|chain| - 1].queue.cells) + Contents(chain[..|chain| - 1])
  {
    var last := |chain| - 1;
    assert chain == chain[..last] + [chain[last]];
    ContentsJoin(chain[..last], [chain[last]]);
    ContentsOne(chain[last]);
  }

  lemma FreshIsOk(cap: nat)
    requires 0 < cap
    ensures QState(cap, 0, []).Ok()
  {
  }

  lemma ChainGrows(chain: seq<Connector>, c: Connector, newest: nat, max: nat)
    requires ChainOk(chain, newest, max) && chain != []
    requires c.id == newest + 1 <= chain[0].queue.cap < c.queue.cap <= max && c.queue.Ok()
    ensures ChainOk([c] + chain, newest + 1, max)
  {
    hide QState.Ok;
    var grown := [c] + chain;
    assert forall k :: 0 < k < |grown| ==> grown[k] == chain[k - 1];
  }

  lemma ChainKeepsOk(chain: seq<Connector>, k: nat, q: QState, newest: nat, max: nat)
    requires ChainOk(chain, newest, max) && k < |chain|
    requires q.Ok() && q.cap == chain[k].queue.cap
    ensures ChainOk(chain[k := chain[k].(queue := q)], newest, max)
  {
    hide QState.Ok;
  }

  lemma GrowKeepsOk(b: BusState, creatable: set<nat>)
    requires BusOk(b) && AddConnector(b, creatable).Some?
    ensures var g := AddConnector(b, creatable).value;
            BusOk(g) && Contents(g.chain) == Contents(b.chain) && g.outputId == b.outputId + 1
  {
    hide QState.Ok, Used, End;
    var g := AddConnector(b, creatable).value;
    assert b.chain[0].id == b.outputId;
    FreshIsOk(g.chain[0].queue.cap);
    ChainGrows(b.chain, g.chain[0], b.outputId, b.spec.maxCapacity);
    assert g.chain[1..] == b.chain;
  }

  lemma OutputKeepsOk(b: BusState, msg: Msg)
    requires BusOk(b) && 0 < |msg.data| && b.Output().Room(|msg.data|)
    ensures BusOk(PushOutput(b, msg))
    ensures Contents(PushOutput(b, msg).chain) == Contents(b.chain) + [msg]
  {
    PushKeepsOk(b.Output(), Cell(msg, 0));
    ChainKeepsOk(b.chain, 0, b.Output().Push(Cell(msg, 0)), b.outputId, b.spec.maxCapacity);
    assert Msgs(b.Output().cells + [Cell(msg, 0)]) == Msgs(b.Output().cells) + [msg];
  }

  /** A push adds the message behind all others or changes nothing that a reader can see. */
  lemma {:induction false} PushIsEnqueue(b: BusState, msg: Msg, creatable: set<nat>)
    requires BusOk(b) && 0 < |msg.data|
    ensures var p := Push(b, msg, creatable);
            && BusOk(p) && p.spec == b.spec
            && Contents(p.chain) == Contents(b.chain) + if Accepts(b, |msg.data|, creatable) then [msg] else []
    decreases b.spec.maxCapacity - b.Output().cap
  {
    if b.Output().Room(|msg.data|) {
      OutputKeepsOk(b, msg);
    } else if CanAdd(b) && AddConnector(b, creatable).Some? {
      GrowKeepsOk(b, creatable);
      PushIsEnqueue(AddConnector(b, creatable).value, msg, creatable);
    }
  }

  /** Nothing but a full chain hinders the growth: the numbers of the connectors never meet. */
  lemma CanAlwaysAdd(b: BusState)
    requires BusOk(b)
    ensures CanAdd(b) && (b.outputId + 1) % WORDS == b.outputId + 1
    ensures b.inputId != b.outputId <==> |b.chain| > 1
  {
  }

  /** Removing exhausted connectors loses nothing; if the oldest queue of the rest is empty, it is
      the only one and there is no message at all. */
  lemma {:induction false} AdvanceKeepsOk(b: BusState)
    requires BusOk(b)
    ensures var a := Advance(b);
            && BusOk(a) && a.spec == b.spec && a.outputId == b.outputId
            && Contents(a.chain) == Contents(b.chain)
            && (a.Input().cells == [] ==> |a.chain| == 1 && Contents(b.chain) == [])
            && (a.Input().cells != [] ==> Contents(b.chain) != [] && Contents(b.chain)[0] == a.Input().cells[0].msg)
    decreases |b.chain|
  {
    hide Used, End, Next;
    ContentsLast(b.chain);
    if b.Input().cells == [] {
      if |b.chain| > 1 {
        CanAlwaysAdd(b);
        AdvanceKeepsOk(RemoveConnector(b));
      } else {
        assert Contents(b.chain[..0]) == [];
      }
    }
  }

  lemma InputKeepsOk(b: BusState)
    requires BusOk(b) && b.Input().cells != []
    ensures BusOk(PopInput(b)) && Contents(b.chain) != [] && Contents(PopInput(b).chain) == Contents(b.chain)[1..]
  {
    hide Used, End, Next;
    var last := |b.chain| - 1;
    PopKeepsOk(b.Input());
    ChainKeepsOk(b.chain, last, b.Input().Pop(), b.outputId, b.spec.maxCapacity);
    ContentsLast(b.chain);
    ContentsLast(PopInput(b).chain);
    assert PopInput(b).chain[..last] == b.chain[..last];
    assert Msgs(b.Input().Pop().cells) == Msgs(b.Input().cells)[1..];
  }

  /** `r` is the chain `b` with new, empty queues in front, none of them large enough for `n` bytes
      but perhaps the last. */
  ghost predicate GrownFor(b: BusState, r: BusState, n: nat) {
    && b.outputId <= r.outputId && b.spec == r.spec && b.inputId == r.inputId
    && |r.chain| == |b.chain| + (r.outputId - b.outputId)
    && r.chain[r.outputId - b.outputId..] == b.chain
    && (forall k :: 0 <= k < r.outputId - b.outputId ==> r.chain[k].queue.head == 0 && r.chain[k].queue.cells == [])
    && (forall k :: 1 <= k < r.outputId - b.outputId ==> n + HEADER > r.chain[k].queue.cap)
  }

  /** A push grows the chain as little as possible and leaves the older queues as they are; then it
      puts the message to the newest one if it fits. */
  lemma {:induction false} PushGrowsForIt(b: BusState, msg: Msg, creatable: set<nat>) returns (r: BusState)
    requires BusOk(b) && 0 < |msg.data|
    ensures BusOk(r) && GrownFor(b, r, |msg.data|)
    ensures r.outputId > b.outputId ==> !b.Output().Room(|msg.data|)
    ensures Accepts(b, |msg.data|, creatable) <==> r.Output().Room(|msg.data|)
    ensures Push(b, msg, creatable) ==
            if r.Output().Room(|msg.data|)
            then r.(chain := [r.chain[0].(queue := r.Output().(cells := r.Output().cells + [Cell(msg, 0)]))] + r.chain[1..])
            else r
    decreases b.spec.maxCapacity - b.Output().cap
  {
    hide Used, End, Span, Contents;
    r := b;
    if b.Output().Room(|msg.data|) {
      assert b.chain[0..] == b.chain;
    } else if CanAdd(b) && AddConnector(b, creatable).Some? {
      GrowKeepsOk(b, creatable);
      var g := AddConnector(b, creatable).value;
      r := PushGrowsForIt(g, msg, creatable);
      GrownFurther(b, g, r, creatable, |msg.data|);
    }
  }

  lemma GrownFurther(b: BusState, g: BusState, r: BusState, creatable: set<nat>, n: nat)
    requires BusOk(b) && AddConnector(b, creatable) == Some(g) && BusOk(g) && GrownFor(g, r, n) && 0 < n
    requires r.outputId > g.outputId ==> !g.Output().Room(n)
    ensures GrownFor(b, r, n)
  {
    hide Used, End, Span;
    CanAlwaysAdd(b);
    var k := r.outputId - g.outputId;
    assert g.chain == [g.chain[0]] + b.chain;
    assert r.chain[k..] == g.chain && r.chain[k] == g.chain[0] && r.chain[k..][1..] == r.chain[k + 1..];
    FreshRoom(g.Output().cap, n);
  }

  /** A refused message fits nowhere: the newest queue has no room and no larger one can follow. */
  lemma {:induction false} RefusedMeansFull(b: BusState, msg: Msg, creatable: set<nat>)
    requires BusOk(b) && 0 < |msg.data| && !Accepts(b, |msg.data|, creatable)
    ensures var p := Push(b, msg, creatable);
            && p.chain != [] && p.Output().head < p.Output().cap && !p.Output().Room(|msg.data|)
            && MakeConnector(p, p.outputId + 1, creatable).None?
    decreases b.spec.maxCapacity - b.Output().cap
  {
    CanAlwaysAdd(b);
    if AddConnector(b, creatable).Some? {
      GrowKeepsOk(b, creatable);
      RefusedMeansFull(AddConnector(b, creatable).value, msg, creatable);
    }
  }

  lemma FreshRoom(cap: nat, n: nat)
    requires 0 < cap && 0 < n
    ensures QState(cap, 0, []).Room(n) <==> n + HEADER <= cap
  {
    RoomIsFreeCapacity(QState(cap, 0, []), n);
  }

  /** The capacity of the newest queue once no larger one can be made. */
  function Largest(b: BusState, creatable: set<nat>): nat
    requires b.chain != []
    decreases b.spec.maxCapacity - b.Output().cap
  {
    match AddConnector(b, creatable)
    case None => b.Output().cap
    case Some(g) => Largest(g, creatable)
  }

  /** A bus takes exactly the messages that fit in its newest queue or in a new queue of the
      largest capacity that it can reach. */
  lemma {:induction false} AcceptsUpToTheLargest(b: BusState, n: nat, creatable: set<nat>)
    requires BusOk(b) && 0 < n
    ensures b.Output().cap <= Largest(b, creatable) <= b.spec.maxCapacity
    ensures Accepts(b, n, creatable) <==>
            b.Output().Room(n) || (AddConnector(b, creatable).Some? && n + HEADER <= Largest(b, creatable))
    decreases b.spec.maxCapacity - b.Output().cap
  {
    CanAlwaysAdd(b);
    if AddConnector(b, creatable).Some? {
      GrowKeepsOk(b, creatable);
      var g := AddConnector(b, creatable).value;
      FreshRoom(g.Output().cap, n);
      AcceptsUpToTheLargest(g, n, creatable);
    }
  }

  /** A queue of `cap` bytes can be followed by a larger one: it is not the largest one, and the
      growth is not eaten up by rounding or by the 32-bit product. */
  predicate CanGrow(spec: Specification, cap: nat) {
    && 0 < spec.capacityFactor
    && cap < spec.maxCapacity
    && (cap < spec.minCapacity
        || MakesUp(spec.capacityFactor, cap))
  }

  /** The factor makes up for what rounding and the wrapped product take away. */
  predicate MakesUp(factor: word, cap: nat) {
    factor + 100 < WORDS && cap * factor >= 100 + WORDS * (cap * (factor + 100) / WORDS)
  }

  lemma MulLess(a: nat, b: nat, c: nat)
    requires a <= b
    ensures a * c <= b * c
  {
  }

  lemma MulMore(a: nat, b: nat, c: nat)
    ensures a * (b + c) == a * b + a * c
  {
  }

  /** The wrapped product exceeds the capacity exactly if the surplus makes up for what is lost. */
  lemma WrappedGrows(product: nat, surplus: nat, cap: nat)
    requires product == surplus + 100 * cap
    ensures product % WORDS / 100 > cap <==> surplus >= 100 + WORDS * (product / WORDS)
  {
  }

  lemma SmallFactorShrinks(cap: nat, f: nat)
    requires f < 100
    ensures cap * f % WORDS / 100 <= cap
  {
    MulLess(f, 100, cap);
    assert cap * f % WORDS <= cap * f;
  }

  lemma ProductIsLarger(factor: word, cap: nat)
    ensures Product(factor, cap) > cap <==> MakesUp(factor, cap)
  {
    var f: nat := (factor + 100) % WORDS;
    if factor + 100 < WORDS {
      assert f == factor + 100;
      MulMore(cap, factor, 100);
      WrappedGrows(cap * f, cap * factor, cap);
    } else {
      assert f == factor + 100 - WORDS;
      SmallFactorShrinks(cap, f);
    }
  }

  lemma GrownIsLarger(spec: Specification, cap: nat)
    requires 0 < spec.capacityFactor
    ensures GrownCapacity(spec, cap) > cap <==> CanGrow(spec, cap)
  {
    hide Product, MakesUp;
    ProductIsLarger(spec.capacityFactor, cap);
  }

  /** A connector is added exactly if the capacity can grow and the system makes the memory. */
  lemma AddsExactly(b: BusState, creatable: set<nat>)
    requires BusOk(b)
    ensures AddConnector(b, creatable).Some? <==> CanGrow(b.spec, b.Output().cap) && b.outputId + 1 in creatable
    ensures AddConnector(b, creatable).Some? ==>
              AddConnector(b, creatable).value.Output().cap == GrownCapacity(b.spec, b.Output().cap)
  {
    CanAlwaysAdd(b);
    if 0 < b.spec.capacityFactor {
      GrownIsLarger(b.spec, b.Output().cap);
    }
  }

  /** The product of the source in numbers: `p` is what is left of it after `m` wraps, and `q` that
      without its last two decimal digits. */
  lemma ProductInNumbers(factor: word, size: nat, m: nat, p: int, q: nat)
    requires p == size * (factor + 100) - WORDS * m && 0 <= p < WORDS
    requires 100 * q <= p < 100 * q + 100
    ensures Product(factor, size) == q
  {
    var f: nat := (factor + 100) % WORDS;
    if factor + 100 < WORDS {
      assert f == factor + 100;
      WrapsTo(size * f, m, p);
    } else {
      assert f == factor + 100 - WORDS;
      MulMore(size, f, WORDS);
      assert size * (factor + 100) == size * f + size * WORDS;
      WrapsTo(size * f, m - size, p);
    }
  }

  lemma WrapsTo(x: nat, m: int, p: int)
    requires p == x - WORDS * m && 0 <= p < WORDS
    ensures x % WORDS == p
  {
  }

  /** The connector that is added: its number, and its capacity, which is the product, but not less
      than the least and not more than the largest capacity of the specification. */
  lemma AddedConnector(b: BusState, creatable: set<nat>, m: nat, p: int, q: nat)
    requires BusOk(b) && AddConnector(b, creatable).Some?
    requires p == b.Output().cap * (b.spec.capacityFactor + 100) - WORDS * m && 0 <= p < WORDS
    requires 100 * q <= p < 100 * q + 100
    ensures var cap := if q < b.spec.minCapacity then b.spec.minCapacity else q;
            AddConnector(b, creatable).value ==
              b.(chain := [Connector(b.outputId + 1, QState(Min(cap, b.spec.maxCapacity), 0, []))] + b.chain,
                 outputId := b.outputId + 1)
  {
    hide Product;
    CanAlwaysAdd(b);
    ProductInNumbers(b.spec.capacityFactor, b.Output().cap, m, p, q);
  }

  /** With a factor of 200 a bus triples its capacity: it takes 2500 bytes in a queue of 3000. */
  lemma TriplesTheCapacity()
    ensures var b := Created(Specification(1000, 100_000, 200));
            && BusOk(b) && AddConnector(b, {1}).Some? && AddConnector(b, {1}).value.Output().cap == 3000
            && b.Output().head < b.Output().cap && Accepts(b, 2500, {1})
  {
    var b := Created(Specification(1000, 100_000, 200));
    FreshIsOk(1000);
    assert BusOk(b);
    AddsExactly(b, {1});
    AddedConnector(b, {1}, 0, 300_000, 3000);
    GrowKeepsOk(b, {1});
    FreshRoom(3000, 2500);
  }

  /** The capacity after `k` more queues. */
  function CapAfter(spec: Specification, cap: nat, k: nat): nat
    decreases k
  {
    if k == 0 then cap else CapAfter(spec, GrownCapacity(spec, cap), k - 1)
  }

  /** The growth from `cap` has not come to the largest capacity within `k` more queues. */
  ghost predicate Below(spec: Specification, cap: nat, k: nat) {
    forall i :: 0 <= i <= k ==> CapAfter(spec, cap, i) < spec.maxCapacity
  }

  /** Wherever the growth from `cap` is below the largest capacity, the next queue is larger and
      its memory can be made; `id` is the number of the queue of `cap` bytes. */
  ghost predicate NeverStuck(spec: Specification, cap: nat, id: nat, creatable: set<nat>) {
    forall k: nat :: Below(spec, cap, k) ==> CanGrow(spec, CapAfter(spec, cap, k)) && id + 1 + k in creatable
  }

  lemma BelowNext(spec: Specification, cap: nat, k: nat)
    requires cap < spec.maxCapacity
    ensures Below(spec, GrownCapacity(spec, cap), k) <==> Below(spec, cap, k + 1)
    ensures Below(spec, cap, 0)
  {
    hide GrownCapacity;
    var next := GrownCapacity(spec, cap);
    assert CapAfter(spec, cap, 0) == cap;
    forall i: nat
      ensures CapAfter(spec, cap, i + 1) == CapAfter(spec, next, i)
    {
    }
    if Below(spec, cap, k + 1) {
      forall i | 0 <= i <= k
        ensures CapAfter(spec, next, i) < spec.maxCapacity
      {
        assert CapAfter(spec, cap, i + 1) == CapAfter(spec, next, i);
      }
    }
    if Below(spec, next, k) {
      forall i | 0 <= i <= k + 1
        ensures CapAfter(spec, cap, i) < spec.maxCapacity
      {
        if i > 0 {
          assert CapAfter(spec, cap, i) == CapAfter(spec, next, i - 1);
        }
      }
    }
  }

  lemma NeverStuckNext(spec: Specification, cap: nat, id: nat, creatable: set<nat>)
    requires cap < spec.maxCapacity
    ensures NeverStuck(spec, cap, id, creatable) <==>
            && CanGrow(spec, cap) && id + 1 in creatable
            && NeverStuck(spec, GrownCapacity(spec, cap), id + 1, creatable)
  {
    var next := GrownCapacity(spec, cap);
    BelowNext(spec, cap, 0);
    assert CapAfter(spec, cap, 0) == cap;
    if NeverStuck(spec, cap, id, creatable) {
      forall k: nat | Below(spec, next, k)
        ensures CanGrow(spec, CapAfter(spec, next, k)) && id + 1 + 1 + k in creatable
      {
        BelowNext(spec, cap, k);
        assert CapAfter(spec, cap, k + 1) == CapAfter(spec, next, k);
      }
    }
    if CanGrow(spec, cap) && id + 1 in creatable && NeverStuck(spec, next, id + 1, creatable) {
      forall k: nat | Below(spec, cap, k)
        ensures CanGrow(spec, CapAfter(spec, cap, k)) && id + 1 + k in creatable
      {
        if k > 0 {
          BelowNext(spec, cap, k - 1);
          assert CapAfter(spec, cap, k) == CapAfter(spec, next, k - 1);
        }
      }
    }
  }

  /** A bus can grow to the largest capacity of its specification exactly if it is never stuck. */
  lemma {:induction false} ReachesTheMaximum(b: BusState, creatable: set<nat>)
    requires BusOk(b)
    ensures Largest(b, creatable) == b.spec.maxCapacity <==>
            NeverStuck(b.spec, b.Output().cap, b.outputId, creatable)
    decreases b.spec.maxCapacity - b.Output().cap
  {
    var cap := b.Output().cap;
    AddsExactly(b, creatable);
    if cap < b.spec.maxCapacity {
      NeverStuckNext(b.spec, cap, b.outputId, creatable);
      if AddConnector(b, creatable).Some? {
        GrowKeepsOk(b, creatable);
        ReachesTheMaximum(AddConnector(b, creatable).value, creatable);
      }
    } else {
      forall k: nat
        ensures !Below(b.spec, cap, k)
      {
        assert CapAfter(b.spec, cap, 0) == cap;
      }
    }
  }

  lemma NoWrapGrows(spec: Specification, cap: nat)
    requires 0 < cap < spec.maxCapacity && spec.maxCapacity * (spec.capacityFactor + 100) < WORDS
    requires 100 <= cap * spec.capacityFactor
    ensures CanGrow(spec, cap)
  {
    var f := spec.capacityFactor + 100;
    MulLess(cap, spec.maxCapacity, f);
    MulLess(1, spec.maxCapacity, f);
    assert cap * f / WORDS == 0;
  }

  /** A capacity that is large enough for rounding, and a largest capacity that is small enough for
      the product, let the bus grow to the end if the system makes the memory. */
  lemma {:induction false} SmallMaximumIsReached(b: BusState, creatable: set<nat>)
    requires BusOk(b) && b.spec.maxCapacity * (b.spec.capacityFactor + 100) < WORDS
    requires 100 <= b.Output().cap * b.spec.capacityFactor
    requires forall id: nat :: id <= b.spec.maxCapacity ==> id in creatable
    ensures Largest(b, creatable) == b.spec.maxCapacity
    decreases b.spec.maxCapacity - b.Output().cap
  {
    var cap, factor := b.Output().cap, b.spec.capacityFactor;
    AddsExactly(b, creatable);
    if cap < b.spec.maxCapacity {
      NoWrapGrows(b.spec, cap);
      GrowKeepsOk(b, creatable);
      var g := AddConnector(b, creatable).value;
      MulLess(cap, g.Output().cap, factor);
      SmallMaximumIsReached(g, creatable);
    }
  }

  /** The bus that has just been created. */
  function Created(spec: Specification): BusState {
    BusState(spec, [Connector(0, QState(Min(spec.minCapacity, spec.maxCapacity), 0, []))], 0, 0)
  }

  /** A bus that doubles its capacity from 1000 bytes on. */
  const DOUBLING := Specification(1000, 4_000_000_000, 100)

  /** The capacities that such a bus comes to. */
  predicate Doubled(cap: nat) {
    || cap == 1_000 || cap == 2_000 || cap == 4_000 || cap == 8_000
    || cap == 16_000 || cap == 32_000 || cap == 64_000 || cap == 128_000
    || cap == 256_000 || cap == 512_000 || cap == 1_024_000 || cap == 2_048_000
    || cap == 4_096_000 || cap == 8_192_000 || cap == 16_384_000 || cap == 32_768_000
  }

  lemma DoubledGrows(cap: nat)
    requires Doubled(cap)
    ensures cap < 32_768_000 ==> Doubled(GrownCapacity(DOUBLING, cap))
    ensures cap == 32_768_000 ==> GrownCapacity(DOUBLING, cap) == 22_586_327
  {
  }

  lemma {:induction false} DoublingStops(b: BusState, creatable: set<nat>)
    requires BusOk(b) && b.spec == DOUBLING && Doubled(b.Output().cap)
    ensures Largest(b, creatable) <= 32_768_000
    decreases b.spec.maxCapacity - b.Output().cap
  {
    DoubledGrows(b.Output().cap);
    if AddConnector(b, creatable).Some? {
      GrowKeepsOk(b, creatable);
      DoublingStops(AddConnector(b, creatable).value, creatable);
    }
  }

  /** A new bus may have a largest capacity of four billion bytes, double its queues, have all the
      memory of the system, and yet refuse forty million bytes: the queue of 32768000 bytes would
      be followed by one of 22586327, because the product wraps around. */
  lemma GrowthMayWrap(creatable: set<nat>)
    ensures var b := Created(DOUBLING);
            && BusOk(b) && 40_000_000 < DOUBLING.maxCapacity
            && b.Output().head < b.Output().cap && !Accepts(b, 40_000_000, creatable)
  {
    var b := Created(DOUBLING);
    FreshIsOk(1000);
    FreshRoom(1000, 40_000_000);
    assert BusOk(b);
    DoublingStops(b, creatable);
    AcceptsUpToTheLargest(b, 40_000_000, creatable);
  }

  // ---- whole runs ----

  datatype Op = OpPush(msg: Msg, creatable: set<nat>) | OpGet | OpPop

  function Pop(b: BusState): BusState
    requires b.chain != [] && forall k :: 0 <= k < |b.chain| ==> b.chain[k].queue.head < b.chain[k].queue.cap
  {
    if Advance(b).Input().cells == [] then Advance(b) else PopInput(Advance(b))
  }

  ghost predicate OpOk(op: Op) {
    op.OpPush? ==> 0 < |op.msg.data|
  }

  ghost function Step(b: BusState, op: Op): (r: BusState)
    requires BusOk(b) && OpOk(op)
    ensures BusOk(r) && r.spec == b.spec
  {
    match op
    case OpPush(msg, creatable) => PushIsEnqueue(b, msg, creatable); Push(b, msg, creatable)
    case OpGet => AdvanceKeepsOk(b); Advance(b)
    case OpPop => PopIsDequeue(b); Pop(b)
  }

  ghost function Accepted(b: BusState, op: Op): seq<Msg>
    requires BusOk(b)
  {
    if op.OpPush? && Accepts(b, |op.msg.data|, op.creatable) then [op.msg] else []
  }

  ghost function Taken(b: BusState, op: Op): seq<Msg>
    requires BusOk(b)
  {
    if op.OpPop? && Contents(b.chain) != [] then [Contents(b.chain)[0]] else []
  }

  ghost function Run(b: BusState, ops: seq<Op>): (r: (BusState, seq<Msg>, seq<Msg>))
    requires BusOk(b) && forall op :: op in ops ==> OpOk(op)
    ensures BusOk(r.0) && r.0.spec == b.spec
    decreases |ops|
  {
    if ops == [] then (b, [], []) else
      var rest := Run(Step(b, ops[0]), ops[1..]);
      (rest.0, Accepted(b, ops[0]) + rest.1, Taken(b, ops[0]) + rest.2)
  }

  /** A pop removes the oldest message of the whole chain, if there is any. */
  lemma PopIsDequeue(b: BusState)
    requires BusOk(b)
    ensures BusOk(Pop(b)) && Pop(b).spec == b.spec
    ensures Contents(Pop(b).chain) == if Contents(b.chain) == [] then [] else Contents(b.chain)[1..]
  {
    AdvanceKeepsOk(b);
    if Advance(b).Input().cells != [] {
      InputKeepsOk(Advance(b));
    }
  }

  lemma StepIsFifo(b: BusState, op: Op)
    requires BusOk(b) && OpOk(op)
    ensures Taken(b, op) + Contents(Step(b, op).chain) == Contents(b.chain) + Accepted(b, op)
  {
    hide Contents, Used, End, Next;
    match op
    case OpPush(msg, creatable) => PushIsEnqueue(b, msg, creatable);
    case OpGet => AdvanceKeepsOk(b);
    case OpPop => PopIsDequeue(b);
  }

  /** A run of one step, and a run after another one. */
  lemma RunOne(b: BusState, op: Op)
    requires BusOk(b) && OpOk(op)
    ensures Run(b, [op]) == (Step(b, op), Accepted(b, op), Taken(b, op))
  {
    hide BusOk, Step, Accepted, Taken;
    assert [op][1..] == [];
    assert Run(Step(b, op), []) == (Step(b, op), [], []);
    assert Accepted(b, op) + [] == Accepted(b, op) && Taken(b, op) + [] == Taken(b, op);
  }

  lemma {:induction false} RunJoin(b: BusState, x: seq<Op>, y: seq<Op>)
    requires BusOk(b) && forall op :: op in x + y ==> OpOk(op)
    ensures forall op :: op in x || op in y ==> OpOk(op)
    ensures var (first, second) := (Run(b, x), Run(Run(b, x).0, y));
            Run(b, x + y) == (second.0, first.1 + second.1, first.2 + second.2)
    decreases |x|
  {
    hide BusOk, Step, Accepted, Taken, OpOk;
    assert forall op :: op in x || op in y ==> op in x + y;
    if x == [] {
      assert x + y == y;
      var whole := Run(b, y);
      assert [] + whole.1 == whole.1 && [] + whole.2 == whole.2;
    } else {
      assert (x + y)[1..] == x[1..] + y;
      RunJoin(Step(b, x[0]), x[1..], y);
      var (first, second) := (Run(Step(b, x[0]), x[1..]), Run(Run(b, x).0, y));
      var a, t := Accepted(b, x[0]), Taken(b, x[0]);
      assert a + (first.1 + second.1) == a + first.1 + second.1;
      assert t + (first.2 + second.2) == t + first.2 + second.2;
    }
  }

  /** Over any run the bus is one queue: what was taken, then what is still there, is what was
      there at the start, then what was accepted. */
  lemma {:induction false} RunIsFifo(b: BusState, ops: seq<Op>)
    requires BusOk(b) && forall op :: op in ops ==> OpOk(op)
    ensures var (final, accepted, taken) := Run(b, ops);
            taken + Contents(final.chain) == Contents(b.chain) + accepted
    decreases |ops|
  {
    hide BusOk, Contents, Step, Taken, Accepted;
    if ops != [] {
      var op, next := ops[0], Step(b, ops[0]);
      RunIsFifo(next, ops[1..]);
      StepIsFifo(b, op);
      var (final, accepted, taken) := Run(next, ops[1..]);
      assert taken + Contents(final.chain) == Contents(next.chain) + accepted;
      assert Taken(b, op) + taken + Contents(final.chain) == Taken(b, op) + (taken + Contents(final.chain));
      assert Contents(b.chain) + Accepted(b, op) + accepted == Contents(b.chain) + (Accepted(b, op) + accepted);
    }
  }

  /** The capacities and the numbers of the connectors grow together. */
  ghost predicate Grown(b: BusState, r: BusState)
    requires b.chain != [] && r.chain != []
  {
    b.outputId <= r.outputId && b.Output().cap + (r.outputId - b.outputId) <= r.Output().cap
  }

  lemma {:induction false} PushGrows(b: BusState, msg: Msg, creatable: set<nat>)
    requires BusOk(b) && 0 < |msg.data|
    ensures Push(b, msg, creatable).chain != [] && Grown(b, Push(b, msg, creatable))
    decreases b.spec.maxCapacity - b.Output().cap
  {
    if !b.Output().Room(|msg.data|) && CanAdd(b) && AddConnector(b, creatable).Some? {
      GrowKeepsOk(b, creatable);
      PushGrows(AddConnector(b, creatable).value, msg, creatable);
    }
  }

  /** Over any run each connector is larger than all that were made before it, removed or not, so
      no more of them are ever made than the largest capacity counts bytes; the chain holds the
      numbers from the oldest to the newest one and is never empty. */
  lemma {:induction false} GrowthIsBounded(b: BusState, ops: seq<Op>)
    requires BusOk(b) && forall op :: op in ops ==> OpOk(op)
    ensures var final := Run(b, ops).0;
            && final.chain != [] && Grown(b, final)
            && final.outputId + 1 <= final.Output().cap <= b.spec.maxCapacity
            && (forall k :: 0 <= k < |final.chain| ==> final.chain[k].id == final.outputId - k)
            && final.chain[|final.chain| - 1].id == final.inputId
    decreases |ops|
  {
    hide Used, End, Span, Contents, QState.Ok, Push, Advance;
    if ops != [] {
      assert OpOk(ops[0]);
      match ops[0] {
        case OpPush(msg, creatable) => PushGrows(b, msg, creatable);
        case OpGet => AdvanceKeepsOk(b);
        case OpPop => AdvanceKeepsOk(b);
      }
      GrowthIsBounded(Step(b, ops[0]), ops[1..]);
    }
  }

  lemma GrowKeepsOkIfAny(b: BusState, creatable: set<nat>)
    requires BusOk(b)
    ensures AddConnector(b, creatable).Some? ==> BusOk(AddConnector(b, creatable).value)
  {
    if AddConnector(b, creatable).Some? {
      GrowKeepsOk(b, creatable);
    }
  }
}
