/** The walks of the writer and of the reader agree: every byte of the ring is free, or belongs
    to a chunk of one message, or lies in the one hole that a message has skipped. */
module Partitions {
  import opened Bytes
  import opened Geometry
  import opened Layout
  import opened Regions

  datatype Owner = Free | Chunk(k: nat) | Skipped(k: nat)

  /** The offset at which the tail stood when message `k` was written. */
  function Start(cap: nat, hd: nat, cells: seq<Cell>, k: nat): (p: nat)
    requires hd < cap && k <= |cells|
    ensures p < cap
  {
    End(cap, hd, cells[..k])
  }

  /** Byte `i` belongs to the owner: to a region that the writer's walk meets, to a chunk of
      message `k`, or to the hole before it. */
  ghost predicate Owns(cap: nat, hd: nat, cells: seq<Cell>, o: Owner, i: int)
    requires hd < cap
  {
    match o
    case Free =>
      exists r :: r in FreeRegions(cap, hd, End(cap, hd, cells), cells == []) && r.first <= i < r.first + r.second
    case Chunk(k) =>
      k < |cells| && InChunks(cap, Start(cap, hd, cells, k), cells[k].Len(), i)
    case Skipped(k) =>
      k < |cells| && var p := Start(cap, hd, cells, k); p <= i < p + Hole(cap, p)
  }

  /** Byte `i` lies between the tail before message `k` and the tail after it. */
  ghost predicate Covers(cap: nat, hd: nat, cells: seq<Cell>, k: nat, i: int)
    requires hd < cap
  {
    k < |cells| && var p := Start(cap, hd, cells, k); InArc(cap, p, Span(cap, p, cells[k].Len()), i)
  }

  lemma CoversRest(cap: nat, hd: nat, cells: seq<Cell>, k: nat, i: int)
    requires hd < cap && cells != []
    ensures Covers(cap, hd, cells, 0, i) <==> InArc(cap, hd, Span(cap, hd, cells[0].Len()), i)
    ensures Covers(cap, hd, cells, k + 1, i) <==> Covers(cap, Next(cap, hd, cells[0].Len()), cells[1..], k, i)
  {
    if k < |cells| - 1 {
      assert cells[..k + 1][1..] == cells[1..][..k];
    }
  }

  /** The spans of the messages cut the busy part of the ring into pieces. */
  lemma {:induction false} OneCovers(cap: nat, hd: nat, cells: seq<Cell>, i: int) returns (k: nat)
    requires hd < cap && Used(cap, hd, cells) <= cap && 0 <= i < cap
    ensures InArc(cap, hd, Used(cap, hd, cells), i) ==> Covers(cap, hd, cells, k, i)
    ensures forall j: nat :: Covers(cap, hd, cells, j, i) ==> j == k && InArc(cap, hd, Used(cap, hd, cells), i)
    decreases |cells|
  {
    hide Span;
    k := 0;
    if cells != [] {
      var n := cells[0].Len();
      var q := Next(cap, hd, n);
      ArcSplit(cap, hd, Span(cap, hd, n), Used(cap, q, cells[1..]), i);
      var rest := OneCovers(cap, q, cells[1..], i);
      if !InArc(cap, hd, Span(cap, hd, n), i) {
        k := rest + 1;
      }
      CoversRest(cap, hd, cells, rest, i);
      forall j: nat | Covers(cap, hd, cells, j, i)
        ensures j == k && InArc(cap, hd, Used(cap, hd, cells), i)
      {
        CoversRest(cap, hd, cells, if j > 0 then j - 1 else 0, i);
      }
    }
  }

  lemma SpanInRing(cap: nat, hd: nat, cells: seq<Cell>, k: nat)
    requires hd < cap && Used(cap, hd, cells) <= cap && k < |cells|
    ensures Span(cap, Start(cap, hd, cells, k), cells[k].Len()) <= cap
  {
    assert cells == cells[..k] + cells[k..];
    UsedAppend(cap, hd, cells[..k], cells[k..]);
  }

  /** A message owns the bytes that it covers, be it by a chunk or by the hole before it. */
  lemma CoversIsOwns(cap: nat, hd: nat, cells: seq<Cell>, k: nat, i: int)
    requires hd < cap && Used(cap, hd, cells) <= cap && 0 <= i < cap
    ensures Covers(cap, hd, cells, k, i) <==>
            Owns(cap, hd, cells, Chunk(k), i) || Owns(cap, hd, cells, Skipped(k), i)
    ensures !(Owns(cap, hd, cells, Chunk(k), i) && Owns(cap, hd, cells, Skipped(k), i))
  {
    if k < |cells| {
      SpanInRing(cap, hd, cells, k);
      ChunksInArc(cap, Start(cap, hd, cells, k), cells[k].Len(), i);
    }
  }

  lemma FreeIsOutside(cap: nat, hd: nat, cells: seq<Cell>, i: int)
    requires hd < cap && Used(cap, hd, cells) <= cap && 0 <= i < cap
    requires forall c :: c in cells ==> 0 < c.Len()
    ensures Owns(cap, hd, cells, Free, i) <==> !InArc(cap, hd, Used(cap, hd, cells), i)
  {
    var used := Used(cap, hd, cells);
    EndIsUsed(cap, hd, cells);
    UsedBound(cap, hd, cells);
    FreeIsUnused(cap, hd, used, i);
    ArcSplit(cap, hd, used, cap - used, i);
  }

  /** Every byte of the ring has one owner and no other. */
  lemma OneOwner(cap: nat, hd: nat, cells: seq<Cell>, i: int) returns (o: Owner)
    requires hd < cap && Used(cap, hd, cells) <= cap && 0 <= i < cap
    requires forall c :: c in cells ==> 0 < c.Len()
    ensures Owns(cap, hd, cells, o, i)
    ensures forall other :: Owns(cap, hd, cells, other, i) ==> other == o
  {
    var k := OneCovers(cap, hd, cells, i);
    FreeIsOutside(cap, hd, cells, i);
    CoversIsOwns(cap, hd, cells, k, i);
    o := if Owns(cap, hd, cells, Free, i) then Free
         else if Owns(cap, hd, cells, Chunk(k), i) then Chunk(k) else Skipped(k);
    forall other | Owns(cap, hd, cells, other, i)
      ensures other == o
    {
      match other
      case Free =>
      case Chunk(j) => CoversIsOwns(cap, hd, cells, j, i);
      case Skipped(j) => CoversIsOwns(cap, hd, cells, j, i);
    }
  }

  /** No more than one message has skipped a hole, and no message has more than two chunks. */
  lemma OneHole(cap: nat, hd: nat, cells: seq<Cell>, j: nat, k: nat)
    requires hd < cap && Used(cap, hd, cells) <= cap && j < |cells| && k < |cells|
    requires forall c :: c in cells ==> 0 < c.Len()
    ensures |Chunks(cap, Start(cap, hd, cells, k), cells[k].Len())| <= 2
    ensures Hole(cap, Start(cap, hd, cells, j)) > 0 && Hole(cap, Start(cap, hd, cells, k)) > 0 ==> j == k
  {
    if Hole(cap, Start(cap, hd, cells, j)) > 0 && Hole(cap, Start(cap, hd, cells, k)) > 0 {
      var o := OneOwner(cap, hd, cells, cap - 1);
      assert Owns(cap, hd, cells, Skipped(j), cap - 1) && Owns(cap, hd, cells, Skipped(k), cap - 1);
    }
  }
}
