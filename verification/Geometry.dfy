/** Where a message lands in a ring of `cap` bytes. Given the offset `p` at which the
    writer's tail (and later the reader's head) stands, the place of a message depends on
    its payload length alone: that is why writer and reader can agree without a table. */
module Geometry {
  import opened Bytes

  /** The size of a chunk header. */
  const HEADER: nat := 24

  datatype Msg = Msg(sid: word, tag: word, stamp: word, data: seq<byte>)

  /** A message in the ring together with its reference counter. */
  datatype Cell = Cell(msg: Msg, refs: word) {
    function Len(): nat { |msg.data| }
  }

  function Min(a: int, b: int): int { if a < b then a else b }

  /** The payload capacity of a region. */
  function StaticCapacity(size: nat): nat {
    if size > HEADER then size - HEADER else 0
  }

  /** The number of bytes before the end of the ring that are too few for a chunk. */
  function Hole(cap: nat, p: nat): nat
    requires p < cap
  {
    if cap - p <= HEADER then cap - p else 0
  }

  function FirstOffset(cap: nat, p: nat): nat
    requires p < cap
  {
    if cap - p <= HEADER then 0 else p
  }

  /** How many payload bytes the first chunk of a message takes. */
  function FirstLength(cap: nat, p: nat, n: nat): nat
    requires p < cap
  {
    if cap - p <= HEADER then n else Min(n, cap - p - HEADER)
  }

  /** The offsets of the chunks of a message. */
  function Chunks(cap: nat, p: nat, n: nat): seq<nat>
    requires p < cap
  {
    if FirstLength(cap, p, n) == n then [FirstOffset(cap, p)] else [FirstOffset(cap, p), 0]
  }

  /** The capacities of the chunks of a message of `n` bytes at `p`. */
  function Parts(cap: nat, p: nat, n: nat): seq<nat>
    requires p < cap
  {
    var k := FirstLength(cap, p, n);
    if k == n then [k] else [k, n - k]
  }

  /** The summed sizes of the chunks of a message. */
  function TotalSize(cap: nat, p: nat, n: nat): nat
    requires p < cap
  {
    HEADER * |Chunks(cap, p, n)| + n
  }

  /** How far a message moves the tail: its chunks and the hole before them. */
  function Span(cap: nat, p: nat, n: nat): nat
    requires p < cap
  {
    Hole(cap, p) + TotalSize(cap, p, n)
  }

  /** The offset `q % cap` of a position that has passed the end of the ring at most once. */
  function Wrap(cap: nat, q: nat): (r: nat)
    requires 0 < cap
    ensures r < cap
  {
    if q < cap then q else if q - cap < cap then q - cap else 0
  }

  /** The offset that follows a message. */
  function Next(cap: nat, p: nat, n: nat): (q: nat)
    requires p < cap
    ensures q < cap
  {
    Wrap(cap, p + Span(cap, p, n))
  }

  /** The number of bytes that consecutive messages take from `p` on. */
  function Used(cap: nat, p: nat, cells: seq<Cell>): nat
    requires p < cap
    decreases |cells|
  {
    if cells == [] then 0
    else Span(cap, p, cells[0].Len()) + Used(cap, Next(cap, p, cells[0].Len()), cells[1..])
  }

  /** The offset that follows consecutive messages. */
  function End(cap: nat, p: nat, cells: seq<Cell>): (q: nat)
    requires p < cap
    ensures q < cap
    decreases |cells|
  {
    if cells == [] then p else End(cap, Next(cap, p, cells[0].Len()), cells[1..])
  }

  /** Byte `i` lies in the `len` bytes of the ring that start at `p`. */
  ghost predicate InArc(cap: nat, p: nat, len: nat, i: int)
  {
    0 <= i < cap && (p <= i < p + len || i + cap < p + len)
  }

  lemma {:induction false} UsedAppend(cap: nat, p: nat, a: seq<Cell>, b: seq<Cell>)
    requires p < cap
    ensures End(cap, p, a + b) == End(cap, End(cap, p, a), b)
    ensures Used(cap, p, a + b) == Used(cap, p, a) + Used(cap, End(cap, p, a), b)
    decreases |a|
  {
    if a == [] {
      assert a + b == b;
    } else {
      assert (a + b)[1..] == a[1..] + b;
      UsedAppend(cap, Next(cap, p, a[0].Len()), a[1..], b);
    }
  }

  lemma UsedOne(cap: nat, p: nat, c: Cell)
    requires p < cap
    ensures Used(cap, p, [c]) == Span(cap, p, c.Len())
    ensures End(cap, p, [c]) == Next(cap, p, c.Len())
  {
    assert [c][1..] == [];
    assert Used(cap, Next(cap, p, c.Len()), []) == 0;
  }

  /** Messages that fit in the ring end where their bytes end. */
  lemma {:induction false} EndIsUsed(cap: nat, p: nat, cells: seq<Cell>)
    requires p < cap && Used(cap, p, cells) <= cap
    ensures End(cap, p, cells) == Wrap(cap, p + Used(cap, p, cells))
    decreases |cells|
  {
    if cells != [] {
      var n := cells[0].Len();
      EndIsUsed(cap, Next(cap, p, n), cells[1..]);
    }
  }

  /** A message takes more than a header, so the ring bounds their number. */
  lemma {:induction false} UsedBound(cap: nat, p: nat, cells: seq<Cell>)
    requires p < cap && forall c :: c in cells ==> c.Len() > 0
    ensures Used(cap, p, cells) >= (HEADER + 1) * |cells|
    decreases |cells|
  {
    if cells != [] {
      assert forall c :: c in cells[1..] ==> c in cells;
      UsedBound(cap, Next(cap, p, cells[0].Len()), cells[1..]);
    }
  }

  /** Two consecutive arcs are disjoint and together make one arc. */
  lemma ArcSplit(cap: nat, p: nat, a: nat, b: nat, i: int)
    requires p < cap && a + b <= cap
    ensures InArc(cap, p, a + b, i) <==> InArc(cap, p, a, i) || InArc(cap, Wrap(cap, p + a), b, i)
    ensures !(InArc(cap, p, a, i) && InArc(cap, Wrap(cap, p + a), b, i))
  {
  }

  /** The reference counters do not matter for where messages are. */
  lemma {:induction false} UsedSameSizes(cap: nat, p: nat, a: seq<Cell>, b: seq<Cell>)
    requires p < cap && |a| == |b|
    requires forall k :: 0 <= k < |a| ==> a[k].Len() == b[k].Len()
    ensures Used(cap, p, a) == Used(cap, p, b) && End(cap, p, a) == End(cap, p, b)
    decreases |a|
  {
    if a != [] {
      UsedSameSizes(cap, Next(cap, p, a[0].Len()), a[1..], b[1..]);
    }
  }

  /** The summed sizes of the chunks of consecutive messages. */
  function TotalSizes(cap: nat, p: nat, cells: seq<Cell>): nat
    requires p < cap
    decreases |cells|
  {
    if cells == [] then 0
    else TotalSize(cap, p, cells[0].Len()) + TotalSizes(cap, Next(cap, p, cells[0].Len()), cells[1..])
  }

  lemma {:induction false} TotalSizesAppend(cap: nat, p: nat, a: seq<Cell>, b: seq<Cell>)
    requires p < cap
    ensures TotalSizes(cap, p, a + b) == TotalSizes(cap, p, a) + TotalSizes(cap, End(cap, p, a), b)
    decreases |a|
  {
    hide TotalSize, Span;
    if a == [] {
      assert a + b == b;
    } else {
      assert (a + b)[1..] == a[1..] + b;
      TotalSizesAppend(cap, Next(cap, p, a[0].Len()), a[1..], b);
    }
  }

  lemma TotalSizesOne(cap: nat, p: nat, c: Cell)
    requires p < cap
    ensures TotalSizes(cap, p, [c]) == TotalSize(cap, p, c.Len())
  {
    hide TotalSize, Span;
    assert TotalSizes(cap, Next(cap, p, c.Len()), [c][1..]) == 0;
  }

  lemma {:induction false} TotalSizesInUsed(cap: nat, p: nat, cells: seq<Cell>)
    requires p < cap
    ensures TotalSizes(cap, p, cells) <= Used(cap, p, cells)
    decreases |cells|
  {
    hide TotalSize;
    if cells != [] {
      TotalSizesInUsed(cap, Next(cap, p, cells[0].Len()), cells[1..]);
    }
  }

  lemma {:induction false} TotalSizesSameSizes(cap: nat, p: nat, a: seq<Cell>, b: seq<Cell>)
    requires p < cap && |a| == |b|
    requires forall k :: 0 <= k < |a| ==> a[k].Len() == b[k].Len()
    ensures TotalSizes(cap, p, a) == TotalSizes(cap, p, b)
    decreases |a|
  {
    hide TotalSize, Span;
    if a != [] {
      TotalSizesSameSizes(cap, Next(cap, p, a[0].Len()), a[1..], b[1..]);
    }
  }
}
