/** The free regions of a smart queue, which are trimmed so that room is left for the service
    messages of its subscribers. The trimming looks at a region and the one before it only, so
    the writer may come across more than two regions. */
module Trimmings {
  import opened Bytes
  import opened Geometry
  import opened Regions

  /** More than any two regions have: nothing is trimmed. */
  const UNLIMITED: nat := SIZES - 1

  /** The region without the bytes that, with the region before it, exceed what is available. */
  function Trim(region: Region, prev: Option<Region>, avail: nat): Region
    requires prev.Some? ==> prev.value.second <= avail
  {
    var size := region.second + if prev.Some? then prev.value.second else 0;
    if size > avail then Region(region.first, region.second - (size - avail)) else region
  }

  function GetTrimmedRegion(cap: nat, hd: nat, tl: nat, empty: bool, avail: nat, prev: Option<Region>): Region
    requires hd < cap && tl < cap && (prev.Some? ==> prev.value.second <= avail)
  {
    Trim(GetFreeRegion(cap, hd, tl, empty, prev), prev, avail)
  }

  /** How many free bytes lie behind a region. */
  function Left(cap: nat, hd: nat, tl: nat, empty: bool, prev: Option<Region>): nat
    requires hd < cap && tl < cap
  {
    match prev
    case None => if empty || hd < tl then cap - tl + hd else hd - tl
    case Some(p) =>
      var t := (p.first + p.second) % cap;
      if hd < t then cap - t + hd else hd - t
  }

  lemma LeftFalls(cap: nat, hd: nat, tl: nat, empty: bool, avail: nat, prev: Option<Region>)
    requires hd < cap && tl < cap && (empty ==> hd == tl) && (prev.Some? ==> prev.value.second <= avail)
    ensures var r := GetTrimmedRegion(cap, hd, tl, empty, avail, prev);
            && r.second <= avail && r.first + r.second <= cap
            && (0 < r.second ==> Left(cap, hd, tl, empty, Some(r)) == Left(cap, hd, tl, empty, prev) - r.second)
  {
    var r := GetTrimmedRegion(cap, hd, tl, empty, avail, prev);
    ModOnce(r.first + r.second, cap);
  }

  /** The regions that the writer comes across behind `prev` before an empty one stops it. */
  function RegionsFrom(cap: nat, hd: nat, tl: nat, empty: bool, avail: nat, prev: Option<Region>): seq<Region>
    requires hd < cap && tl < cap && (empty ==> hd == tl) && (prev.Some? ==> prev.value.second <= avail)
    decreases Left(cap, hd, tl, empty, prev)
  {
    var r := GetTrimmedRegion(cap, hd, tl, empty, avail, prev);
    LeftFalls(cap, hd, tl, empty, avail, prev);
    if r.second == 0 then [] else [r] + RegionsFrom(cap, hd, tl, empty, avail, Some(r))
  }

  lemma RegionsStep(cap: nat, hd: nat, tl: nat, empty: bool, avail: nat, prev: Option<Region>)
    requires hd < cap && tl < cap && (empty ==> hd == tl) && (prev.Some? ==> prev.value.second <= avail)
    ensures var r := GetTrimmedRegion(cap, hd, tl, empty, avail, prev);
            && r.second <= avail
            && RegionsFrom(cap, hd, tl, empty, avail, prev) ==
               if r.second == 0 then [] else [r] + RegionsFrom(cap, hd, tl, empty, avail, Some(r))
  {
    LeftFalls(cap, hd, tl, empty, avail, prev);
  }

  /** All regions that the writer comes across. */
  function TrimmedRegions(cap: nat, hd: nat, tl: nat, empty: bool, avail: nat): seq<Region>
    requires hd < cap && tl < cap && (empty ==> hd == tl)
  {
    RegionsFrom(cap, hd, tl, empty, avail, None)
  }

  /** What the first two regions can take. */
  function TwoCapacities(regions: seq<Region>): nat {
    SumCapacities(regions[..Min(2, |regions|)])
  }

  /** The offsets of the chunks that are made for `n` bytes in the regions. */
  function ChainIn(regions: seq<Region>, n: nat): seq<nat>
    decreases |regions|
  {
    if n == 0 || regions == [] then []
    else if regions[0].second <= HEADER then ChainIn(regions[1..], n)
    else [regions[0].first] + ChainIn(regions[1..], n - Min(n, StaticCapacity(regions[0].second)))
  }

  /** The capacities of these chunks. */
  function CapsIn(regions: seq<Region>, n: nat): seq<nat>
    decreases |regions|
  {
    if n == 0 || regions == [] then []
    else if regions[0].second <= HEADER then CapsIn(regions[1..], n)
    else
      var part := Min(n, StaticCapacity(regions[0].second));
      [part] + CapsIn(regions[1..], n - part)
  }

  /** The writer has come across `done` free bytes, the last of them those of `prev`. */
  ghost predicate Reached(cap: nat, hd: nat, used: nat, prev: Option<Region>, done: nat)
    requires hd < cap && used <= cap
  {
    var tl := Wrap(cap, hd + used);
    && done <= cap - used
    && (prev.None? ==> done == 0)
    && (prev.Some? ==> 0 < done && (prev.value.first + prev.value.second) % cap == Wrap(cap, tl + done))
  }

  /** The free bytes from the position behind `done` ones up to the end of the ring or the head. */
  function Stretch(cap: nat, tl: nat, free: nat, done: nat): int {
    (if tl + done < cap then Min(cap, tl + free) else tl + free) - (tl + done)
  }

  /** The next region starts where the last one has ended. */
  lemma NextRegion(cap: nat, hd: nat, used: nat, avail: nat, prev: Option<Region>, done: nat)
    requires hd < cap && used <= cap && Reached(cap, hd, used, prev, done)
    requires prev.Some? ==> prev.value.second <= avail
    ensures var tl := Wrap(cap, hd + used);
            var base := GetFreeRegion(cap, hd, tl, used == 0, prev);
            var r := GetTrimmedRegion(cap, hd, tl, used == 0, avail, prev);
            && base == Region(Wrap(cap, tl + done), Stretch(cap, tl, cap - used, done))
            && r.first == base.first && r.second <= base.second && r.first + r.second <= cap
            && done + r.second <= cap - used
            && (0 < r.second ==> Reached(cap, hd, used, Some(r), done + r.second))
  {
    var tl := Wrap(cap, hd + used);
    var r := GetTrimmedRegion(cap, hd, tl, used == 0, avail, prev);
    ModOnce(r.first + r.second, cap);
  }

  /** The first two regions in numbers: how much of the region at the tail is available, and how
      much of the one before the head when the first is available as a whole. */
  lemma FirstRegions(cap: nat, hd: nat, used: nat, avail: nat)
    requires hd < cap && used <= cap
    ensures var tl := Wrap(cap, hd + used);
            var rs := TrimmedRegions(cap, hd, tl, used == 0, avail);
            var first := FirstFree(cap, hd, tl, used == 0);
            var wraps := used == 0 || hd < tl;
            && (0 < |rs| <==> 0 < first && 0 < avail)
            && (0 < |rs| ==> rs[0] == Region(tl, Min(first, avail)))
            && (1 < |rs| <==> wraps && 0 < hd && first < avail)
            && (1 < |rs| ==> rs[1] == Region(0, Min(hd, avail - first)))
            && (2 < |rs| <==> wraps && first < avail < first + hd)
            && (2 < |rs| ==> rs[2] == Region(avail - first, Min(hd - (avail - first), first)))
  {
    var tl := Wrap(cap, hd + used);
    var empty, first := used == 0, FirstFree(cap, hd, tl, used == 0);
    FreeWalk(cap, hd, tl, empty);
    var r1 := GetTrimmedRegion(cap, hd, tl, empty, avail, None);
    assert r1 == Region(tl, Min(first, avail));
    if 0 < r1.second {
      ModOnce(tl + r1.second, cap);
      var r2 := GetTrimmedRegion(cap, hd, tl, empty, avail, Some(r1));
      var rs1 := RegionsFrom(cap, hd, tl, empty, avail, Some(r1));
      if 0 < r2.second {
        ModOnce(r2.first + r2.second, cap);
        var r3 := GetTrimmedRegion(cap, hd, tl, empty, avail, Some(r2));
        var rs2 := RegionsFrom(cap, hd, tl, empty, avail, Some(r2));
        assert rs1 == [r2] + rs2;
      }
    }
  }

  lemma SumOf(rs: seq<Region>, k: nat)
    requires k <= |rs|
    ensures SumCapacities(rs) == SumCapacities(rs[..k]) + SumCapacities(rs[k..])
    decreases k
  {
    if k == 0 {
      assert rs[..0] == [] && rs[0..] == rs;
    } else {
      SumOf(rs[1..], k - 1);
      assert rs[..k][1..] == rs[1..][..k - 1] && rs[k..] == rs[1..][k - 1..];
    }
  }

  /** What the first two regions can take, in numbers. */
  lemma TwoInNumbers(cap: nat, hd: nat, used: nat, avail: nat)
    requires hd < cap && used <= cap
    ensures var tl := Wrap(cap, hd + used);
            var first := FirstFree(cap, hd, tl, used == 0);
            TwoCapacities(TrimmedRegions(cap, hd, tl, used == 0, avail)) ==
              StaticCapacity(Min(first, avail)) +
              if (used == 0 || hd < tl) && first < avail then StaticCapacity(Min(hd, avail - first)) else 0
  {
    hide TrimmedRegions;
    var rs := TrimmedRegions(cap, hd, Wrap(cap, hd + used), used == 0, avail);
    FirstRegions(cap, hd, used, avail);
    SumOfTwo(rs[..Min(2, |rs|)]);
  }

  /** Where enough is available the regions are the untrimmed ones. */
  lemma NothingTrimmed(cap: nat, hd: nat, used: nat, avail: nat, n: nat)
    requires hd < cap && used <= cap && 2 * cap <= avail && 0 < n
    ensures var tl := Wrap(cap, hd + used);
            var rs := TrimmedRegions(cap, hd, tl, used == 0, avail);
            && rs == FreeRegions(cap, hd, tl, used == 0)
            && TwoCapacities(rs) == SumCapacities(rs)
            && (n <= SumCapacities(rs) <==> used + Span(cap, tl, n) <= cap)
  {
    hide TrimmedRegions, Span;
    var tl := Wrap(cap, hd + used);
    var rs := TrimmedRegions(cap, hd, tl, used == 0, avail);
    FirstRegions(cap, hd, used, avail);
    FreeWalk(cap, hd, tl, used == 0);
    assert rs == FreeRegions(cap, hd, tl, used == 0);
    assert rs[..Min(2, |rs|)] == rs;
    RoomIsCapacity(cap, hd, used, n);
  }

  /** A message that the first two regions can take is placed where the reader expects it. */
  lemma TwoAreReadable(cap: nat, hd: nat, used: nat, avail: nat, n: nat)
    requires hd < cap && used <= cap && 0 < n
    requires n <= TwoCapacities(TrimmedRegions(cap, hd, Wrap(cap, hd + used), used == 0, avail))
    ensures var tl := Wrap(cap, hd + used);
            var rs := TrimmedRegions(cap, hd, tl, used == 0, avail);
            && n <= SumCapacities(rs)
            && used + Span(cap, tl, n) <= cap
            && ChainIn(rs, n) == Chunks(cap, tl, n)
            && CapsIn(rs, n) == Parts(cap, tl, n)
  {
    hide TrimmedRegions;
    var tl := Wrap(cap, hd + used);
    var rs := TrimmedRegions(cap, hd, tl, used == 0, avail);
    FirstRegions(cap, hd, used, avail);
    TwoInNumbers(cap, hd, used, avail);
    SumOf(rs, Min(2, |rs|));
    InTwo(rs, n);
  }

  /** The chunks in the first two regions. */
  lemma InTwo(rs: seq<Region>, n: nat)
    requires 0 < n <= TwoCapacities(rs)
    ensures 0 < |rs|
    ensures var k := StaticCapacity(rs[0].second);
            && (k < n ==> 1 < |rs|)
            && ChainIn(rs, n) == (if n <= k then [rs[0].first] else if k == 0 then [rs[1].first] else [rs[0].first, rs[1].first])
            && CapsIn(rs, n) == (if n <= k then [n] else if k == 0 then [n] else [k, n - k])
  {
    SumOfTwo(rs[..Min(2, |rs|)]);
    var k := StaticCapacity(rs[0].second);
    if k < n {
      assert ChainIn(rs[1..], n - k) == [rs[1].first] + ChainIn(rs[1..][1..], 0);
      assert CapsIn(rs[1..], n - k) == [n - k] + CapsIn(rs[1..][1..], 0);
    }
  }

  /** The regions behind the start of the ring lie between it and the head. */
  lemma {:induction false} RegionsBehind(cap: nat, hd: nat, used: nat, avail: nat, prev: Option<Region>, done: nat)
    requires hd < cap && used <= cap && Reached(cap, hd, used, prev, done)
    requires (prev.Some? ==> prev.value.second <= avail) && cap < Wrap(cap, hd + used) + done
    ensures var rs := RegionsFrom(cap, hd, Wrap(cap, hd + used), used == 0, avail, prev);
            forall r :: r in rs ==> 0 < r.first && r.first + r.second <= hd <= Wrap(cap, hd + used)
    decreases cap - done
  {
    NextRegion(cap, hd, used, avail, prev, done);
    var r := GetTrimmedRegion(cap, hd, Wrap(cap, hd + used), used == 0, avail, prev);
    if 0 < r.second {
      LeftFalls(cap, hd, Wrap(cap, hd + used), used == 0, avail, prev);
      RegionsBehind(cap, hd, used, avail, Some(r), done + r.second);
    }
  }

  lemma ThirdRegions(cap: nat, hd: nat, used: nat, avail: nat)
    requires hd < cap && used <= cap
    ensures var tl := Wrap(cap, hd + used);
            var rs := TrimmedRegions(cap, hd, tl, used == 0, avail);
            2 < |rs| ==> forall r :: r in rs[2..] ==> 0 < r.first && r.first + r.second <= hd <= tl
  {
    var tl := Wrap(cap, hd + used);
    var rs := TrimmedRegions(cap, hd, tl, used == 0, avail);
    FirstRegions(cap, hd, used, avail);
    if 2 < |rs| {
      LeftFalls(cap, hd, tl, used == 0, avail, None);
      NextRegion(cap, hd, used, avail, None, 0);
      NextRegion(cap, hd, used, avail, Some(rs[0]), rs[0].second);
      assert rs[1..] == RegionsFrom(cap, hd, tl, used == 0, avail, Some(rs[0]));
      LeftFalls(cap, hd, tl, used == 0, avail, Some(rs[0]));
      assert rs[2..] == RegionsFrom(cap, hd, tl, used == 0, avail, Some(rs[1]));
      RegionsBehind(cap, hd, used, avail, Some(rs[1]), rs[0].second + rs[1].second);
    }
  }

  /** Each chunk lies in a region of its own. */
  lemma {:induction false} ChunkInRegion(rs: seq<Region>, n: nat, j: nat) returns (i: nat)
    requires j < |ChainIn(rs, n)|
    ensures |CapsIn(rs, n)| == |ChainIn(rs, n)|
    ensures i < |rs| && rs[i].first == ChainIn(rs, n)[j] && HEADER + CapsIn(rs, n)[j] <= rs[i].second
    decreases |rs|
  {
    SameCount(rs, n);
    if rs[0].second <= HEADER {
      i := ChunkInRegion(rs[1..], n, j);
      i := i + 1;
    } else if j == 0 {
      i := 0;
    } else {
      i := ChunkInRegion(rs[1..], n - Min(n, StaticCapacity(rs[0].second)), j - 1);
      i := i + 1;
    }
  }

  lemma {:induction false} SameCount(rs: seq<Region>, n: nat)
    ensures |CapsIn(rs, n)| == |ChainIn(rs, n)|
    ensures n == 0 ==> ChainIn(rs, n) == []
    ensures 0 < n <= SumCapacities(rs) ==> ChainIn(rs, n) != []
    decreases |rs|
  {
    if n != 0 && rs != [] {
      SameCount(rs[1..], if rs[0].second <= HEADER then n else n - Min(n, StaticCapacity(rs[0].second)));
    }
  }

  /** A region that is filled up, or too small for a chunk, and what comes behind it. */
  lemma OneFilled(rs: seq<Region>, n: nat)
    requires rs != [] && StaticCapacity(rs[0].second) < n
    ensures var k := StaticCapacity(rs[0].second);
            && ChainIn(rs, n) == (if k == 0 then [] else [rs[0].first]) + ChainIn(rs[1..], n - k)
            && CapsIn(rs, n) == (if k == 0 then [] else [k]) + CapsIn(rs[1..], n - k)
  {
  }

  /** A message that the first two regions cannot take, but all of them can, has its last chunk
      between the start of the ring and the head. */
  lemma ScatteredChunk(cap: nat, hd: nat, used: nat, avail: nat, n: nat)
    requires hd < cap && used <= cap
    requires var rs := TrimmedRegions(cap, hd, Wrap(cap, hd + used), used == 0, avail);
             TwoCapacities(rs) < n <= SumCapacities(rs)
    ensures var tl := Wrap(cap, hd + used);
            var rs := TrimmedRegions(cap, hd, tl, used == 0, avail);
            var last := |ChainIn(rs, n)| - 1;
            && 0 <= last < |CapsIn(rs, n)|
            && 0 < ChainIn(rs, n)[last] && ChainIn(rs, n)[last] + HEADER + CapsIn(rs, n)[last] <= hd <= tl
  {
    hide TrimmedRegions, SumCapacities, ChainIn, CapsIn;
    var rs := TrimmedRegions(cap, hd, Wrap(cap, hd + used), used == 0, avail);
    MoreThanTwo(rs, n);
    ThirdRegions(cap, hd, used, avail);
    var rest := n - TwoCapacities(rs);
    BehindTwo(rs, n);
    var i := ChunkInRegion(rs[2..], rest, |ChainIn(rs[2..], rest)| - 1);
    assert rs[2..][i] in rs[2..];
  }

  lemma MoreThanTwo(rs: seq<Region>, n: nat)
    requires TwoCapacities(rs) < n <= SumCapacities(rs)
    ensures 2 < |rs| && SumCapacities(rs) == TwoCapacities(rs) + SumCapacities(rs[2..])
  {
    var k := Min(2, |rs|);
    SumOf(rs, k);
    assert SumCapacities([]) == 0;
  }

  /** The last chunk is that of the bytes that the first two regions have left over. */
  lemma BehindTwo(rs: seq<Region>, n: nat)
    requires 2 < |rs| && TwoCapacities(rs) < n <= TwoCapacities(rs) + SumCapacities(rs[2..])
    ensures var rest := n - TwoCapacities(rs);
            var chain, caps := ChainIn(rs[2..], rest), CapsIn(rs[2..], rest);
            && 0 < |chain| == |caps| && |ChainIn(rs, n)| == |CapsIn(rs, n)| > 0
            && ChainIn(rs, n)[|ChainIn(rs, n)| - 1] == chain[|chain| - 1]
            && CapsIn(rs, n)[|CapsIn(rs, n)| - 1] == caps[|caps| - 1]
  {
    hide StaticCapacity, SumCapacities, ChainIn, CapsIn;
    TwoAre(rs);
    OneFilled(rs, n);
    OneFilled(rs[1..], n - StaticCapacity(rs[0].second));
    assert rs[1..][1..] == rs[2..];
    SameCount(rs[2..], n - TwoCapacities(rs));
    SameCount(rs, n);
  }

  lemma TwoAre(rs: seq<Region>)
    requires 2 < |rs|
    ensures TwoCapacities(rs) == StaticCapacity(rs[0].second) + StaticCapacity(rs[1].second)
  {
    SumOfTwo(rs[..2]);
  }

  /** The region that a reader with the head `hd` comes across after `k` others, whatever is in it. */
  function BusyRegion(cap: nat, hd: nat, tl: nat, k: nat): Region
    requires hd < cap && tl < cap
    decreases k
  {
    GetBusyRegion(cap, hd, tl, false, if k == 0 then None else Some(BusyRegion(cap, hd, tl, k - 1)))
  }

  /** A reader whose busy bytes pass the end of the ring never looks between the start of the ring
      and the tail. */
  lemma {:induction false} NeverVisited(cap: nat, hd: nat, tl: nat, k: nat)
    requires tl <= hd < cap
    ensures var r := BusyRegion(cap, hd, tl, k);
            (r.first == hd || r.first == 0 || r.first == tl) && r.first + r.second == if r.first == 0 && tl > 0 then tl else cap
    decreases k
  {
    ModOnce(tl, cap);
    ModOnce(cap, cap);
    if k > 0 {
      NeverVisited(cap, hd, tl, k - 1);
    }
  }

  /** A message that the first two regions cannot take is lost: its last chunk is at an offset at
      which no reader ever looks for one, however far it goes. */
  lemma ScatteredIsLost(cap: nat, hd: nat, used: nat, avail: nat, n: nat, k: nat)
    requires hd < cap && used <= cap
    requires var rs := TrimmedRegions(cap, hd, Wrap(cap, hd + used), used == 0, avail);
             TwoCapacities(rs) < n <= SumCapacities(rs)
    ensures var tl := Wrap(cap, hd + used);
            var rs := TrimmedRegions(cap, hd, tl, used == 0, avail);
            var last := |ChainIn(rs, n)| - 1;
            && 0 <= last < |CapsIn(rs, n)|
            && var end := ChainIn(rs, n)[last] + HEADER + CapsIn(rs, n)[last];
               && ChainIn(rs, n) != Chunks(cap, tl, n)
               && end <= hd && BusyRegion(cap, tl, end, k).first != ChainIn(rs, n)[last]
  {
    hide TrimmedRegions;
    var tl := Wrap(cap, hd + used);
    var rs := TrimmedRegions(cap, hd, tl, used == 0, avail);
    ScatteredChunk(cap, hd, used, avail, n);
    var last := |ChainIn(rs, n)| - 1;
    NeverVisited(cap, tl, ChainIn(rs, n)[last] + HEADER + CapsIn(rs, n)[last], k);
  }
}
