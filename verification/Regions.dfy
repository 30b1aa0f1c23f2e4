/** The walk over the free regions, which the writer makes, and over the busy regions, which
    the reader makes. Both know only the offsets of the head and the tail. */
module Regions {
  import opened Bytes
  import opened Geometry

  datatype Option<+T> = None | Some(value: T)

  datatype Region = Region(first: nat, second: nat)

  /** The next free region; `empty` says that the ring holds no message. */
  function GetFreeRegion(cap: nat, hd: nat, tl: nat, empty: bool, prev: Option<Region>): Region
    requires hd < cap && tl < cap
  {
    match prev
    case None =>
      if empty || hd < tl then Region(tl, cap - tl) else Region(tl, hd - tl)
    case Some(p) =>
      var tl' := (p.first + p.second) % cap;
      if hd < tl' then Region(tl', cap - tl') else Region(tl', hd - tl')
  }

  /** The next busy region; `empty` says that the reader has nothing to read. */
  function GetBusyRegion(cap: nat, hd: nat, tl: nat, empty: bool, prev: Option<Region>): Region
    requires hd < cap && tl < cap && (empty ==> hd <= tl)
  {
    match prev
    case None =>
      if empty || hd < tl then Region(hd, tl - hd) else Region(hd, cap - hd)
    case Some(p) =>
      var hd' := (p.first + p.second) % cap;
      if hd' < tl then Region(hd', tl - hd') else Region(hd', cap - hd')
  }

  /** The free regions that the writer comes across before an empty one stops it. */
  function FreeRegions(cap: nat, hd: nat, tl: nat, empty: bool): seq<Region>
    requires hd < cap && tl < cap
  {
    var r1 := GetFreeRegion(cap, hd, tl, empty, None);
    if r1.second == 0 then []
    else
      var r2 := GetFreeRegion(cap, hd, tl, empty, Some(r1));
      if r2.second == 0 then [r1] else [r1, r2]
  }

  function SumCapacities(regions: seq<Region>): nat
    decreases |regions|
  {
    if regions == [] then 0 else StaticCapacity(regions[0].second) + SumCapacities(regions[1..])
  }

  /** The size of the first free region, which the tail starts. */
  function FirstFree(cap: nat, hd: nat, tl: nat, empty: bool): nat
    requires hd < cap && tl < cap
  {
    if empty || hd < tl then cap - tl else hd - tl
  }

  /** The writer meets the region at the tail, then the one before the head, then an empty one. */
  lemma FreeWalk(cap: nat, hd: nat, tl: nat, empty: bool)
    requires hd < cap && tl < cap && (empty ==> hd == tl)
    ensures var r1 := Region(tl, FirstFree(cap, hd, tl, empty));
            && GetFreeRegion(cap, hd, tl, empty, None) == r1
            && (empty || hd < tl ==> GetFreeRegion(cap, hd, tl, empty, Some(r1)) == Region(0, hd))
            && (!(empty || hd < tl) ==> GetFreeRegion(cap, hd, tl, empty, Some(r1)).second == 0)
            && GetFreeRegion(cap, hd, tl, empty, Some(Region(0, hd))).second == 0
  {
    ModOnce(tl + FirstFree(cap, hd, tl, empty), cap);
    ModOnce(hd, cap);
  }

  /** The bytes of the free regions are those that no message takes. */
  lemma FreeIsUnused(cap: nat, hd: nat, used: nat, i: int)
    requires hd < cap && used <= cap
    ensures var tl := Wrap(cap, hd + used);
            (exists r :: r in FreeRegions(cap, hd, tl, used == 0) && r.first <= i < r.first + r.second)
            <==> InArc(cap, tl, cap - used, i)
  {
    var tl := Wrap(cap, hd + used);
    var rs := FreeRegions(cap, hd, tl, used == 0);
    FreeWalk(cap, hd, tl, used == 0);
    if InArc(cap, tl, cap - used, i) {
      if tl <= i < tl + FirstFree(cap, hd, tl, used == 0) {
        assert rs[0] == Region(tl, FirstFree(cap, hd, tl, used == 0));
        assert rs[0] in rs;
      } else {
        assert rs[1] == Region(0, hd);
        assert rs[1] in rs;
      }
    }
  }

  /** There is room for a payload exactly if the free regions have the capacity for it. */
  lemma RoomIsCapacity(cap: nat, hd: nat, used: nat, n: nat)
    requires hd < cap && used <= cap && 0 < n
    ensures var tl := Wrap(cap, hd + used);
            used + Span(cap, tl, n) <= cap <==> n <= SumCapacities(FreeRegions(cap, hd, tl, used == 0))
  {
    var tl := Wrap(cap, hd + used);
    var rs := FreeRegions(cap, hd, tl, used == 0);
    FreeWalk(cap, hd, tl, used == 0);
    SumOfTwo(rs);
  }

  lemma SumOfTwo(rs: seq<Region>)
    requires |rs| <= 2
    ensures SumCapacities(rs) ==
            (if |rs| > 0 then StaticCapacity(rs[0].second) else 0) +
            (if |rs| > 1 then StaticCapacity(rs[1].second) else 0)
  {
    if |rs| == 2 {
      assert rs[1..] == [rs[1]] && SumCapacities([rs[1]]) == StaticCapacity(rs[1].second) + SumCapacities([]);
    }
  }

  /** A payload fits an empty ring at every offset exactly if two headers more fit. */
  lemma EmptyRingRoom(cap: nat, n: nat)
    requires 0 < cap && 0 < n
    ensures n + 2 * HEADER <= cap <==> forall p :: 0 <= p < cap ==> Span(cap, p, n) <= cap
  {
    if n + 2 * HEADER > cap {
      if cap > HEADER {
        assert Span(cap, cap - HEADER, n) == 2 * HEADER + n;
      } else {
        assert Span(cap, 0, n) == cap + HEADER + n;
      }
    }
  }
}
