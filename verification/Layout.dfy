/** What the bytes of the ring say: a chunk is a header of six words and its payload,
    a message is one or two chunks, and the busy part of the ring is a run of messages. */
module Layout {
  import opened Bytes
  import opened Geometry

  const FLG_HEAD: nat := 1
  const FLG_TAIL: nat := 2

  const FLAGS_OFFSET: nat := 0
  const CAPACITY_OFFSET: nat := 4
  const SID_OFFSET: nat := 8
  const TAG_OFFSET: nat := 12
  const COUNTER_OFFSET: nat := 16
  const TS_OFFSET: nat := 20

  datatype Header = Header(flags: nat, len: nat, sid: nat, tag: nat, refs: nat, stamp: nat)

  function HeaderAt(m: seq<byte>, off: nat): Header
    requires off + HEADER <= |m|
  {
    Header(WordAt(m, off + FLAGS_OFFSET), WordAt(m, off + CAPACITY_OFFSET), WordAt(m, off + SID_OFFSET),
           WordAt(m, off + TAG_OFFSET), WordAt(m, off + COUNTER_OFFSET), WordAt(m, off + TS_OFFSET))
  }

  predicate ChunkAt(m: seq<byte>, off: nat, h: Header, data: seq<byte>)
  {
    && off + HEADER + |data| <= |m|
    && HeaderAt(m, off) == h
    && m[off + HEADER..off + HEADER + |data|] == data
  }

  /** The header of the first chunk carries the tag and the reference counter. */
  function FirstHeader(cap: nat, p: nat, c: Cell): Header
    requires p < cap
  {
    var k := FirstLength(cap, p, c.Len());
    Header(if k == c.Len() then FLG_HEAD + FLG_TAIL else FLG_HEAD, k, c.msg.sid, c.msg.tag, c.refs, c.msg.stamp)
  }

  /** The second chunk has a time stamp of its own. */
  function SecondHeader(cap: nat, p: nat, c: Cell, stamp: nat): Header
    requires p < cap && FirstLength(cap, p, c.Len()) <= c.Len()
  {
    Header(FLG_TAIL, c.Len() - FirstLength(cap, p, c.Len()), c.msg.sid, 0, 0, stamp)
  }

  /** The bytes of the ring at `p` are those of the message `c`. */
  predicate MessageAt(m: seq<byte>, cap: nat, p: nat, c: Cell)
    requires p < cap
  {
    var n := c.Len();
    var k := FirstLength(cap, p, n);
    && 0 < n
    && Span(cap, p, n) <= cap
    && ChunkAt(m, FirstOffset(cap, p), FirstHeader(cap, p, c), c.msg.data[..k])
    && (k < n ==> HEADER <= |m| && ChunkAt(m, 0, SecondHeader(cap, p, c, HeaderAt(m, 0).stamp), c.msg.data[k..]))
  }

  /** From `p` on the ring holds the messages `cells`, one after another. */
  ghost predicate Holds(m: seq<byte>, cap: nat, p: nat, cells: seq<Cell>)
    requires p < cap
    decreases |cells|
  {
    cells != [] ==>
      && MessageAt(m, cap, p, cells[0])
      && Holds(m, cap, Next(cap, p, cells[0].Len()), cells[1..])
  }

  /** Byte `i` of the ring belongs to a header or to the payload of the message. */
  ghost predicate InChunks(cap: nat, p: nat, n: nat, i: int)
    requires p < cap
  {
    var k := FirstLength(cap, p, n);
    var f := FirstOffset(cap, p);
    f <= i < f + HEADER + k || (k < n && 0 <= i < HEADER + n - k)
  }

  /** The bytes of a message are its arc without the hole at the end of the ring. */
  lemma ChunksInArc(cap: nat, p: nat, n: nat, i: int)
    requires p < cap && Span(cap, p, n) <= cap
    ensures InChunks(cap, p, n, i) <==> InArc(cap, p, Span(cap, p, n), i) && !(p <= i < p + Hole(cap, p))
  {
  }

  lemma HeaderFrame(m: seq<byte>, m': seq<byte>, off: nat)
    requires |m| == |m'| && off + HEADER <= |m|
    requires Same(m, m', off, off + HEADER)
    ensures HeaderAt(m, off) == HeaderAt(m', off)
  {
    WordFrame(m, m', off + FLAGS_OFFSET);
    WordFrame(m, m', off + CAPACITY_OFFSET);
    WordFrame(m, m', off + SID_OFFSET);
    WordFrame(m, m', off + TAG_OFFSET);
    WordFrame(m, m', off + COUNTER_OFFSET);
    WordFrame(m, m', off + TS_OFFSET);
  }

  lemma ChunkFrame(m: seq<byte>, m': seq<byte>, off: nat, h: Header, data: seq<byte>)
    requires |m| == |m'| && ChunkAt(m, off, h, data)
    requires Same(m, m', off, off + HEADER + |data|)
    ensures ChunkAt(m', off, h, data)
  {
    HeaderFrame(m, m', off);
    assert m'[off + HEADER..off + HEADER + |data|] == m[off + HEADER..off + HEADER + |data|];
  }

  /** Both memories hold the same bytes in an arc of the ring. */
  ghost predicate SameArc(m: seq<byte>, m': seq<byte>, p: nat, len: nat)
    requires |m| == |m'|
  {
    forall i :: InArc(|m|, p, len, i) ==> m[i] == m'[i]
  }

  lemma MessageFrame(m: seq<byte>, m': seq<byte>, p: nat, c: Cell)
    requires |m| == |m'| && p < |m| && MessageAt(m, |m|, p, c)
    requires SameArc(m, m', p, Span(|m|, p, c.Len()))
    ensures MessageAt(m', |m|, p, c)
  {
    var cap, n := |m|, c.Len();
    var k := FirstLength(cap, p, n);
    forall i | InChunks(cap, p, n, i)
      ensures 0 <= i < cap && m[i] == m'[i]
    {
      ChunksInArc(cap, p, n, i);
    }
    assert forall i :: FirstOffset(cap, p) <= i < FirstOffset(cap, p) + HEADER + k ==> InChunks(cap, p, n, i);
    ChunkFrame(m, m', FirstOffset(cap, p), FirstHeader(cap, p, c), c.msg.data[..k]);
    if k < n {
      assert forall i :: 0 <= i < HEADER + n - k ==> InChunks(cap, p, n, i);
      ChunkFrame(m, m', 0, SecondHeader(cap, p, c, HeaderAt(m, 0).stamp), c.msg.data[k..]);
    }
  }

  /** Messages stay as long as their bytes stay. */
  lemma {:induction false} HoldsFrame(m: seq<byte>, m': seq<byte>, p: nat, cells: seq<Cell>)
    requires |m| == |m'| && p < |m| && Holds(m, |m|, p, cells)
    requires Used(|m|, p, cells) <= |m|
    requires SameArc(m, m', p, Used(|m|, p, cells))
    ensures Holds(m', |m|, p, cells)
    decreases |cells|
  {
    if cells != [] {
      var cap, n := |m|, cells[0].Len();
      var q := Next(cap, p, n);
      forall i
        ensures InArc(cap, p, Span(cap, p, n), i) || InArc(cap, q, Used(cap, q, cells[1..]), i)
                ==> InArc(cap, p, Used(cap, p, cells), i)
      {
        ArcSplit(cap, p, Span(cap, p, n), Used(cap, q, cells[1..]), i);
      }
      MessageFrame(m, m', p, cells[0]);
      HoldsFrame(m, m', q, cells[1..]);
    }
  }

  lemma {:induction false} HoldsAppend(m: seq<byte>, cap: nat, p: nat, a: seq<Cell>, b: seq<Cell>)
    requires p < cap
    ensures Holds(m, cap, p, a + b) <==> Holds(m, cap, p, a) && Holds(m, cap, End(cap, p, a), b)
    decreases |a|
  {
    if a == [] {
      assert a + b == b;
    } else {
      assert (a + b)[1..] == a[1..] + b;
      HoldsAppend(m, cap, Next(cap, p, a[0].Len()), a[1..], b);
    }
  }

  lemma HoldsOne(m: seq<byte>, cap: nat, p: nat, c: Cell)
    requires p < cap
    ensures Holds(m, cap, p, [c]) <==> MessageAt(m, cap, p, c)
  {
    assert [c][1..] == [];
    assert Holds(m, cap, Next(cap, p, c.Len()), []);
  }

  /** A run of messages around the message `c`: where the parts start and how much they take. */
  lemma Around(cap: nat, p: nat, a: seq<Cell>, c: Cell, b: seq<Cell>)
    requires p < cap
    ensures var q := End(cap, p, a);
            var r := Next(cap, q, c.Len());
            && Used(cap, p, a + [c] + b) == Used(cap, p, a) + Span(cap, q, c.Len()) + Used(cap, r, b)
            && End(cap, p, a + [c] + b) == End(cap, r, b)
  {
    UsedAppend(cap, p, a + [c], b);
    UsedAppend(cap, p, a, [c]);
    UsedOne(cap, End(cap, p, a), c);
  }

  lemma HoldsAround(m: seq<byte>, cap: nat, p: nat, a: seq<Cell>, c: Cell, b: seq<Cell>)
    requires p < cap
    ensures var q := End(cap, p, a);
            Holds(m, cap, p, a + [c] + b) <==>
              Holds(m, cap, p, a) && MessageAt(m, cap, q, c) && Holds(m, cap, Next(cap, q, c.Len()), b)
  {
    HoldsAppend(m, cap, p, a + [c], b);
    HoldsAppend(m, cap, p, a, [c]);
    UsedAppend(cap, p, a, [c]);
    HoldsOne(m, cap, End(cap, p, a), c);
    UsedOne(cap, End(cap, p, a), c);
  }

  /** The neighbours of a message do not share a byte with it. */
  lemma Apart(cap: nat, p: nat, a: seq<Cell>, c: Cell, b: seq<Cell>, i: int)
    requires p < cap && Used(cap, p, a + [c] + b) <= cap
    ensures var q := End(cap, p, a);
            var r := Next(cap, q, c.Len());
            InArc(cap, p, Used(cap, p, a), i) || InArc(cap, r, Used(cap, r, b), i)
            ==> !InArc(cap, q, Span(cap, q, c.Len()), i)
  {
    Around(cap, p, a, c, b);
    EndIsUsed(cap, p, a);
    var q := End(cap, p, a);
    var u, v, w := Used(cap, p, a), Span(cap, q, c.Len()), Used(cap, Next(cap, q, c.Len()), b);
    ArcSplit(cap, p, u, v, i);
    ArcSplit(cap, q, v, w, i);
  }

  /** A message is replaced by one of the same length: its neighbours stay. */
  lemma HoldsReplace(m: seq<byte>, m': seq<byte>, p: nat, a: seq<Cell>, c: Cell, c': Cell, b: seq<Cell>)
    requires |m| == |m'| && p < |m| && Holds(m, |m|, p, a + [c] + b)
    requires Used(|m|, p, a + [c] + b) <= |m|
    requires c'.Len() == c.Len()
    requires SameElsewhere(m, m', End(|m|, p, a), c.Len())
    requires MessageAt(m', |m|, End(|m|, p, a), c')
    ensures Holds(m', |m|, p, a + [c'] + b)
    ensures Used(|m|, p, a + [c'] + b) == Used(|m|, p, a + [c] + b)
    ensures End(|m|, p, a + [c'] + b) == End(|m|, p, a + [c] + b)
  {
    var cap := |m|;
    var q := End(cap, p, a);
    var r := Next(cap, q, c.Len());
    HoldsAround(m, cap, p, a, c, b);
    Around(cap, p, a, c, b);
    assert SameArc(m, m', p, Used(cap, p, a)) && SameArc(m, m', r, Used(cap, r, b)) by {
      forall i
        ensures InArc(cap, p, Used(cap, p, a), i) || InArc(cap, r, Used(cap, r, b), i)
                ==> !InArc(cap, q, Span(cap, q, c.Len()), i)
      {
        Apart(cap, p, a, c, b, i);
      }
    }
    HoldsFrame(m, m', p, a);
    HoldsFrame(m, m', r, b);
    HoldsAround(m', cap, p, a, c', b);
    Around(cap, p, a, c', b);
  }

  /** A message written behind the others joins them. */
  lemma HoldsPush(m: seq<byte>, m': seq<byte>, p: nat, a: seq<Cell>, c: Cell)
    requires |m| == |m'| && p < |m| && Holds(m, |m|, p, a)
    requires Used(|m|, p, a) + Span(|m|, End(|m|, p, a), c.Len()) <= |m|
    requires SameArc(m, m', p, Used(|m|, p, a))
    requires MessageAt(m', |m|, End(|m|, p, a), c)
    ensures Holds(m', |m|, p, a + [c])
    ensures Used(|m|, p, a + [c]) == Used(|m|, p, a) + Span(|m|, End(|m|, p, a), c.Len())
    ensures End(|m|, p, a + [c]) == Next(|m|, End(|m|, p, a), c.Len())
  {
    var q := End(|m|, p, a);
    HoldsFrame(m, m', p, a);
    HoldsOne(m', |m|, q, c);
    HoldsAppend(m', |m|, p, a, [c]);
    UsedAppend(|m|, p, a, [c]);
    UsedOne(|m|, q, c);
  }

  /** The header with one of its words replaced. */
  function SetWord(h: Header, field: nat, v: nat): Header {
    if field == FLAGS_OFFSET then h.(flags := v)
    else if field == CAPACITY_OFFSET then h.(len := v)
    else if field == SID_OFFSET then h.(sid := v)
    else if field == TAG_OFFSET then h.(tag := v)
    else if field == COUNTER_OFFSET then h.(refs := v)
    else h.(stamp := v)
  }

  /** Writing one word of a header leaves the other words of it. */
  lemma HeaderWord(m: seq<byte>, m': seq<byte>, f: nat, field: nat, v: word)
    requires f + HEADER <= |m| && WordChanged(m, m', f + field, v)
    requires field <= TS_OFFSET && field % 4 == 0
    ensures HeaderAt(m', f) == SetWord(HeaderAt(m, f), field, v)
  {
    if field != FLAGS_OFFSET { WordFrame(m, m', f + FLAGS_OFFSET); }
    if field != CAPACITY_OFFSET { WordFrame(m, m', f + CAPACITY_OFFSET); }
    if field != SID_OFFSET { WordFrame(m, m', f + SID_OFFSET); }
    if field != TAG_OFFSET { WordFrame(m, m', f + TAG_OFFSET); }
    if field != COUNTER_OFFSET { WordFrame(m, m', f + COUNTER_OFFSET); }
    if field != TS_OFFSET { WordFrame(m, m', f + TS_OFFSET); }
  }

  /** The memories differ at most in the bytes of the message at `p`. */
  ghost predicate SameElsewhere(m: seq<byte>, m': seq<byte>, p: nat, n: nat)
    requires |m| == |m'| && p < |m|
  {
    forall i :: 0 <= i < |m| && !InArc(|m|, p, Span(|m|, p, n), i) ==> m[i] == m'[i]
  }

  lemma HeaderInArc(cap: nat, p: nat, n: nat, i: int)
    requires p < cap && Span(cap, p, n) <= cap
    ensures FirstOffset(cap, p) <= i < FirstOffset(cap, p) + HEADER ==> InArc(cap, p, Span(cap, p, n), i)
  {
    ChunksInArc(cap, p, n, i);
  }

  /** A new tag or reference counter is stored in the header of the first chunk. */
  lemma SetHeaderWord(m: seq<byte>, m': seq<byte>, p: nat, c: Cell, field: nat, v: word)
    requires p < |m| && MessageAt(m, |m|, p, c)
    requires WordChanged(m, m', FirstOffset(|m|, p) + field, v)
    requires field == COUNTER_OFFSET || field == TAG_OFFSET
    ensures MessageAt(m', |m|, p, if field == TAG_OFFSET then c.(msg := c.msg.(tag := v)) else c.(refs := v))
    ensures SameElsewhere(m, m', p, c.Len())
  {
    hide WordAt;
    var cap, n := |m|, c.Len();
    var k := FirstLength(cap, p, n);
    var f := FirstOffset(cap, p);
    HeaderWord(m, m', f, field, v);
    assert m'[f + HEADER..f + HEADER + k] == m[f + HEADER..f + HEADER + k];
    if k < n {
      ChunkFrame(m, m', 0, SecondHeader(cap, p, c, HeaderAt(m, 0).stamp), c.msg.data[k..]);
    }
    forall i | f <= i < f + HEADER
      ensures InArc(cap, p, Span(cap, p, n), i)
    {
      HeaderInArc(cap, p, n, i);
    }
  }
}
