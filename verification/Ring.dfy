/** The shared buffer of a queue: placing a message in it and finding the next one. */
module Rings {
  import opened Bytes
  import opened Geometry
  import opened Layout
  import opened Messages
  import opened Regions
  import opened Trimmings

  /** A message in the ring: the offsets of its chunks and the position that follows it. */
  datatype Desc = Desc(chain: seq<nat>, end: nat)

  /** The description of the message of `n` bytes at the offset `p`. */
  function DescOf(cap: nat, p: nat, n: nat): Desc
    requires p < cap
  {
    var k := FirstLength(cap, p, n);
    Desc(Chunks(cap, p, n), if k == n then FirstOffset(cap, p) + HEADER + n else HEADER + n - k)
  }

  /** The position that follows a message is the offset of the next one, modulo the capacity. */
  lemma EndIsNext(cap: nat, p: nat, n: nat)
    requires p < cap && Span(cap, p, n) <= cap
    ensures DescOf(cap, p, n).end % cap == Next(cap, p, n)
  {
    ModOnce(DescOf(cap, p, n).end, cap);
  }

  /** The chunks are made and empty; the clock is read for each of them. */
  ghost predicate Blank(m: seq<byte>, chain: seq<nat>, caps: seq<nat>, sid: word, clock: nat -> word)
  {
    && |chain| == |caps|
    && (forall k :: 0 <= k < |chain| ==> chain[k] + HEADER + caps[k] <= |m| && 0 < caps[k])
    && forall k :: 0 <= k < |chain| ==> HeaderAt(m, chain[k]) == Header(0, caps[k], sid, 0, 0, clock(k))
  }

  /** Blank chunks become a message when the payload is packed to them. */
  lemma BlankToMessage(m: seq<byte>, m': seq<byte>, p: nat, data: seq<byte>, sid: word, clock: nat -> word,
                       chain: seq<nat>, caps: seq<nat>)
    requires p < |m| && 0 < |data| && Span(|m|, p, |data|) <= |m|
    requires chain == Chunks(|m|, p, |data|) && caps == Parts(|m|, p, |data|)
    requires Blank(m, chain, caps, sid, clock) && Linked(m, chain, caps) && Packed(m, m', chain, caps, 0, data)
    ensures MessageAt(m', |m|, p, Cell(Msg(sid, 0, clock(0), data), 0))
  {
    hide WordAt;
    var k := FirstLength(|m|, p, |data|);
    LoadedChunk(m, m', chain, caps, 0, data, Header(0, k, sid, 0, 0, clock(0)));
    if k < |data| {
      LoadedChunk(m, m', chain, caps, 1, data[k..], Header(0, |data| - k, sid, 0, 0, clock(1)));
      assert data[k..][..|data| - k] == data[k..];
    }
  }

  lemma LoadedChunk(m: seq<byte>, m': seq<byte>, chain: seq<nat>, caps: seq<nat>, i: nat, data: seq<byte>, h: Header)
    requires Linked(m, chain, caps) && |m| == |m'| && i < |chain|
    requires Flagged(m, m', chain, 0, 0) && Loaded(m', chain, caps, i, data) && HeaderAt(m, chain[i]) == h
    ensures ChunkAt(m', chain[i], h.(flags := ChainFlags(i == 0, i + 1 == |chain|)), data[..caps[i]])
    ensures Loaded(m', chain, caps, i + 1, data[caps[i]..])
  {
  }

  lemma BlankHeader(m: seq<byte>, off: nat)
    requires off + HEADER <= |m| && forall i :: off <= i < off + HEADER ==> m[i] == 0
    ensures HeaderAt(m, off) == Header(0, 0, 0, 0, 0, 0)
  {
    FromFour(m[off + FLAGS_OFFSET..off + FLAGS_OFFSET + 4]);
    FromFour(m[off + CAPACITY_OFFSET..off + CAPACITY_OFFSET + 4]);
    FromFour(m[off + SID_OFFSET..off + SID_OFFSET + 4]);
    FromFour(m[off + TAG_OFFSET..off + TAG_OFFSET + 4]);
    FromFour(m[off + COUNTER_OFFSET..off + COUNTER_OFFSET + 4]);
    FromFour(m[off + TS_OFFSET..off + TS_OFFSET + 4]);
  }

  lemma StoredThree(m1: seq<byte>, m2: seq<byte>, m3: seq<byte>, m4: seq<byte>, off: nat,
                    part: word, sid: word, stamp: word)
    requires off + HEADER <= |m1| && HeaderAt(m1, off) == Header(0, 0, 0, 0, 0, 0)
    requires WordChanged(m1, m2, off + CAPACITY_OFFSET, part)
    requires WordChanged(m2, m3, off + SID_OFFSET, sid)
    requires WordChanged(m3, m4, off + TS_OFFSET, stamp)
    ensures HeaderAt(m4, off) == Header(0, part, sid, 0, 0, stamp)
  {
    HeaderWord(m1, m2, off, CAPACITY_OFFSET, part);
    HeaderWord(m2, m3, off, SID_OFFSET, sid);
    HeaderWord(m3, m4, off, TS_OFFSET, stamp);
  }

  /** The chunk that was placed last. */
  ghost predicate PlacedLast(chain: seq<nat>, caps: seq<nat>, region: Region, part: nat)
  {
    && chain != [] && chain[|chain| - 1] == region.first
    && caps != [] && caps[|caps| - 1] == part
  }

  /** The description of a message of `n` bytes that is placed in the regions. */
  function DescIn(rs: seq<Region>, n: nat): Desc
    requires 0 < n <= SumCapacities(rs)
  {
    SameCount(rs, n);
    var chain, caps := ChainIn(rs, n), CapsIn(rs, n);
    Desc(chain, chain[|chain| - 1] + HEADER + caps[|caps| - 1])
  }

  /** What remains to be done in the regions behind `prev` completes what has been done. */
  ghost predicate Walked(rs: seq<Region>, n: nat, behind: seq<Region>, rest: nat, chain: seq<nat>, caps: seq<nat>)
  {
    && chain + ChainIn(behind, rest) == ChainIn(rs, n)
    && caps + CapsIn(behind, rest) == CapsIn(rs, n)
    && (rest <= SumCapacities(behind) <==> n <= SumCapacities(rs))
  }

  lemma WalkStart(rs: seq<Region>, n: nat)
    ensures Walked(rs, n, rs, n, [], [])
  {
  }

  /** One step of the writer: it makes a chunk in a region that has room for one. */
  lemma WalkStep(rs: seq<Region>, n: nat, region: Region, behind: seq<Region>, rest: nat, chain: seq<nat>, caps: seq<nat>)
    requires 0 < rest && Walked(rs, n, [region] + behind, rest, chain, caps)
    ensures region.second <= HEADER ==> Walked(rs, n, behind, rest, chain, caps)
    ensures region.second > HEADER ==>
              var part := Min(rest, StaticCapacity(region.second));
              Walked(rs, n, behind, rest - part, chain + [region.first], caps + [part])
  {
    assert ([region] + behind)[1..] == behind;
  }

  /** The chunks lie in the `done` bytes behind `tl` and do not overlap. */
  ghost predicate Clear(cap: nat, tl: nat, done: nat, chain: seq<nat>, caps: seq<nat>)
  {
    && |chain| == |caps|
    && Separate(chain, caps)
    && (forall k :: 0 <= k < |chain| ==> 0 < caps[k] && chain[k] + HEADER + caps[k] <= cap)
    && forall x :: InChain(chain, caps, 0, x) ==> InArc(cap, tl, done, x)
  }

  lemma ClearLater(cap: nat, tl: nat, done: nat, more: nat, chain: seq<nat>, caps: seq<nat>)
    requires Clear(cap, tl, done, chain, caps)
    ensures Clear(cap, tl, done + more, chain, caps)
  {
  }

  /** A region that starts where the busy and the visited bytes end is clear of all chunks. */
  lemma RegionIsClear(cap: nat, tl: nat, done: nat, chain: seq<nat>, caps: seq<nat>, region: Region, k: nat)
    requires tl < cap && Clear(cap, tl, done, chain, caps) && k < |chain| && 0 < region.second
    requires region.first == Wrap(cap, tl + done) && region.first + region.second <= cap && done + region.second <= cap
    ensures region.first + region.second <= chain[k] || chain[k] + HEADER + caps[k] <= region.first
  {
    if region.first < chain[k] + HEADER + caps[k] && chain[k] < region.first + region.second {
      var x := if chain[k] < region.first then region.first else chain[k];
      assert InChain(chain, caps, 0, x);
      ArcSplit(cap, tl, done, region.second, x);
    }
  }

  lemma ClearMore(cap: nat, tl: nat, done: nat, chain: seq<nat>, caps: seq<nat>, region: Region, part: nat)
    requires tl < cap && Clear(cap, tl, done, chain, caps) && 0 < part && HEADER + part <= region.second
    requires region.first == Wrap(cap, tl + done) && region.first + region.second <= cap && done + region.second <= cap
    ensures ClearOf(chain, caps, region)
    ensures Clear(cap, tl, done + region.second, chain + [region.first], caps + [part])
  {
    var chain', caps' := chain + [region.first], caps + [part];
    forall k | 0 <= k < |chain|
      ensures region.first + region.second <= chain[k] || chain[k] + HEADER + caps[k] <= region.first
    {
      RegionIsClear(cap, tl, done, chain, caps, region, k);
    }
    forall x | InChain(chain', caps', 0, x)
      ensures InArc(cap, tl, done + region.second, x)
    {
      ArcSplit(cap, tl, done, region.second, x);
      if !(region.first <= x < region.first + HEADER + part) {
        assert InChain(chain, caps, 0, x);
      }
    }
  }

  /** The region does not overlap the chunks. */
  ghost predicate ClearOf(chain: seq<nat>, caps: seq<nat>, region: Region)
  {
    && |chain| == |caps|
    && forall k :: 0 <= k < |chain| ==>
      region.first + region.second <= chain[k] || chain[k] + HEADER + caps[k] <= region.first
  }

  lemma PartsFit(cap: nat, p: nat, n: nat)
    requires p < cap && 0 < n && Span(cap, p, n) <= cap
    ensures var chain, caps := Chunks(cap, p, n), Parts(cap, p, n);
            && |chain| == |caps| > 0
            && SumFrom(caps, 0) == n
            && DescOf(cap, p, n) == Desc(chain, chain[|chain| - 1] + HEADER + caps[|chain| - 1])
  {
    var caps := Parts(cap, p, n);
    assert SumFrom(caps, 0) == caps[0] + SumFrom(caps, 1);
  }

  /** Another chunk is made; the ones before it do not notice. */
  lemma BlankMore(m: seq<byte>, m': seq<byte>, chain: seq<nat>, caps: seq<nat>, off: nat, part: nat,
                  sid: word, clock: nat -> word)
    requires |m| == |m'| && off + HEADER + part <= |m| && 0 < part
    requires Blank(m, chain, caps, sid, clock) && ClearOf(chain, caps, Region(off, HEADER + part))
    requires HeaderAt(m', off) == Header(0, part, sid, 0, 0, clock(|chain|)) && SameBeside(m, m', off, HEADER)
    ensures Blank(m', chain + [off], caps + [part], sid, clock)
  {
    forall k | 0 <= k < |chain|
      ensures HeaderAt(m', chain[k]) == HeaderAt(m, chain[k])
    {
      HeaderFrame(m, m', chain[k]);
    }
  }

  /** A region behind the busy bytes: writing to it leaves the messages of the ring. */
  lemma RegionIsFree(m: seq<byte>, m': seq<byte>, hd: nat, used: nat, done: nat, region: Region)
    requires |m| == |m'| && hd < |m| && used + done + region.second <= |m|
    requires region.first == Wrap(|m|, Wrap(|m|, hd + used) + done) && region.first + region.second <= |m|
    requires HEADER <= region.second && SameBeside(m, m', region.first, HEADER)
    ensures SameArc(m, m', hd, used)
  {
    var tl := Wrap(|m|, hd + used);
    forall i | InArc(|m|, hd, used, i)
      ensures !(region.first <= i < region.first + region.second)
    {
      ArcSplit(|m|, hd, used, done + region.second, i);
      ArcSplit(|m|, tl, done, region.second, i);
    }
  }

  lemma ChainIsFree(m: seq<byte>, m': seq<byte>, hd: nat, used: nat, chain: seq<nat>, caps: seq<nat>)
    requires |m| == |m'| && hd < |m| && used <= |m|
    requires Clear(|m|, Wrap(|m|, hd + used), |m| - used, chain, caps) && SameOutside(m, m', chain, caps, 0)
    ensures SameArc(m, m', hd, used)
  {
    var tl := Wrap(|m|, hd + used);
    forall i | InArc(|m|, hd, used, i)
      ensures !InChain(chain, caps, 0, i)
    {
      ArcSplit(|m|, hd, used, |m| - used, i);
    }
  }

  lemma BlankLinked(m: seq<byte>, chain: seq<nat>, caps: seq<nat>, sid: word, clock: nat -> word)
    requires Blank(m, chain, caps, sid, clock)
    ensures Linked(m, chain, caps)
  {
  }

  /** Makes the header of an empty chunk. */
  method InitHeader(mem: array<byte>, off: nat, part: word, sid: word, stamp: word)
    requires off + HEADER <= mem.Length
    modifies mem
    ensures HeaderAt(mem[..], off) == Header(0, part, sid, 0, 0, stamp)
    ensures SameBeside(old(mem[..]), mem[..], off, HEADER)
  {
    CopyIn(mem, off, seq(HEADER, _ => 0));
    ghost var m1 := mem[..];
    BlankHeader(m1, off);
    StoreWord(mem, off + CAPACITY_OFFSET, part);
    ghost var m2 := mem[..];
    StoreWord(mem, off + SID_OFFSET, sid);
    ghost var m3 := mem[..];
    StoreWord(mem, off + TS_OFFSET, stamp);
    StoredThree(m1, m2, m3, mem[..], off, part, sid, stamp);
  }

  /** The writer has come across `done` free bytes, the last of them those of `prev`; it has made
      the chunks of `chain` there and still looks for room for `rest` bytes. */
  ghost predicate Placing(m0: seq<byte>, m: seq<byte>, hd: nat, used: nat, avail: nat, n: nat, sid: word, clock: nat -> word,
                          prev: Option<Region>, done: nat, rest: nat, chain: seq<nat>, caps: seq<nat>)
    requires |m0| == |m| && hd < |m| && used <= |m|
  {
    var cap, tl := |m|, Wrap(|m|, hd + used);
    && (prev.Some? ==> prev.value.second <= avail)
    && Reached(cap, hd, used, prev, done)
    && Walked(RegionsFrom(cap, hd, tl, used == 0, avail, None), n,
              RegionsFrom(cap, hd, tl, used == 0, avail, prev), rest, chain, caps)
    && SumFrom(caps, 0) + rest == n
    && Clear(cap, tl, done, chain, caps)
    && Blank(m, chain, caps, sid, clock)
    && SameArc(m0, m, hd, used)
  }

  lemma PlacingStarts(m: seq<byte>, hd: nat, used: nat, avail: nat, n: nat, sid: word, clock: nat -> word)
    requires hd < |m| && used <= |m|
    ensures Placing(m, m, hd, used, avail, n, sid, clock, None, 0, n, [], [])
  {
    hide RegionsFrom;
    WalkStart(RegionsFrom(|m|, hd, Wrap(|m|, hd + used), used == 0, avail, None), n);
  }

  /** The next region is free; an empty one ends the search. */
  lemma PlacingMeets(m0: seq<byte>, m: seq<byte>, hd: nat, used: nat, avail: nat, n: nat, sid: word, clock: nat -> word,
                     prev: Option<Region>, done: nat, rest: nat, chain: seq<nat>, caps: seq<nat>)
    requires |m0| == |m| && hd < |m| && used <= |m| && 0 < rest
    requires Placing(m0, m, hd, used, avail, n, sid, clock, prev, done, rest, chain, caps)
    ensures prev.Some? ==> prev.value.second <= avail
    ensures var tl := Wrap(|m|, hd + used);
            var region := GetTrimmedRegion(|m|, hd, tl, used == 0, avail, prev);
            && region.second <= avail && used + done + region.second <= |m|
            && region.first == Wrap(|m|, tl + done) && region.first + region.second <= |m|
            && (region.second == 0 ==> n > SumCapacities(TrimmedRegions(|m|, hd, tl, used == 0, avail)))
            && (0 < region.second <= HEADER ==>
                 Placing(m0, m, hd, used, avail, n, sid, clock, Some(region), done + region.second, rest, chain, caps))
  {
    hide RegionsFrom, Walked, GetTrimmedRegion, Clear, Blank, GetFreeRegion, Stretch, SumFrom, InArc;
    var cap, tl := |m|, Wrap(|m|, hd + used);
    NextRegion(cap, hd, used, avail, prev, done);
    RegionsStep(cap, hd, tl, used == 0, avail, prev);
    var rs := RegionsFrom(cap, hd, tl, used == 0, avail, None);
    var region := GetTrimmedRegion(cap, hd, tl, used == 0, avail, prev);
    if region.second == 0 {
      NothingLeft(rs, n, rest, chain, caps);
    } else {
      WalkStep(rs, n, region, RegionsFrom(cap, hd, tl, used == 0, avail, Some(region)), rest, chain, caps);
      ClearLater(cap, tl, done, region.second, chain, caps);
    }
  }

  /** A chunk has been made in the next region. */
  lemma PlacingGoesOn(m0: seq<byte>, m: seq<byte>, m': seq<byte>, hd: nat, used: nat, avail: nat, n: nat, sid: word,
                      clock: nat -> word, prev: Option<Region>, done: nat, rest: nat, chain: seq<nat>, caps: seq<nat>,
                      region: Region, part: nat)
    requires |m0| == |m| == |m'| && hd < |m| && used <= |m| && 0 < rest
    requires Placing(m0, m, hd, used, avail, n, sid, clock, prev, done, rest, chain, caps)
    requires prev.Some? ==> prev.value.second <= avail
    requires region == GetTrimmedRegion(|m|, hd, Wrap(|m|, hd + used), used == 0, avail, prev)
    requires region.second > HEADER && part == Min(rest, StaticCapacity(region.second))
    requires HEADER + part <= region.second && region.first + region.second <= |m|
    requires HeaderAt(m', region.first) == Header(0, part, sid, 0, 0, clock(|chain|))
    requires SameBeside(m, m', region.first, HEADER)
    ensures Placing(m0, m', hd, used, avail, n, sid, clock, Some(region), done + region.second, rest - part,
                    chain + [region.first], caps + [part])
  {
    hide RegionsFrom, Walked, GetTrimmedRegion, Clear, ClearOf, Blank, GetFreeRegion, Stretch, SumFrom, InArc, HeaderAt;
    var cap, tl := |m|, Wrap(|m|, hd + used);
    NextRegion(cap, hd, used, avail, prev, done);
    RegionsStep(cap, hd, tl, used == 0, avail, prev);
    WalkStep(RegionsFrom(cap, hd, tl, used == 0, avail, None), n, region,
             RegionsFrom(cap, hd, tl, used == 0, avail, Some(region)), rest, chain, caps);
    ClearMore(cap, tl, done, chain, caps, region, part);
    ClearPart(chain, caps, region, part);
    SumMore(caps, part, 0);
    BlankMore(m, m', chain, caps, region.first, part, sid, clock);
    RegionIsFree(m, m', hd, used, done, region);
    SameArcTrans(m0, m, m', hd, used);
  }

  lemma ClearPart(chain: seq<nat>, caps: seq<nat>, region: Region, part: nat)
    requires ClearOf(chain, caps, region) && HEADER + part <= region.second
    ensures ClearOf(chain, caps, Region(region.first, HEADER + part))
  {
  }

  lemma PlacingEnds(m0: seq<byte>, m: seq<byte>, hd: nat, used: nat, avail: nat, n: nat, sid: word, clock: nat -> word,
                    prev: Option<Region>, done: nat, chain: seq<nat>, caps: seq<nat>, region: Region, part: nat)
    requires |m0| == |m| && hd < |m| && used <= |m| && 0 < n && PlacedLast(chain, caps, region, part)
    requires Placing(m0, m, hd, used, avail, n, sid, clock, prev, done, 0, chain, caps)
    ensures var tl := Wrap(|m|, hd + used);
            var rs := TrimmedRegions(|m|, hd, tl, used == 0, avail);
            && n <= SumCapacities(rs) && chain == ChainIn(rs, n)
            && Desc(chain, region.first + HEADER + part) == DescIn(rs, n)
            && SumFrom(CapsIn(rs, n), 0) == n
            && Clear(|m|, tl, |m| - used, chain, CapsIn(rs, n))
            && Blank(m, chain, CapsIn(rs, n), sid, clock)
  {
    hide RegionsFrom, Walked, Clear, Blank, SumFrom, PlacedLast, ChainIn, CapsIn, DescIn, InArc;
    var cap, tl := |m|, Wrap(|m|, hd + used);
    var rs := RegionsFrom(cap, hd, tl, used == 0, avail, None);
    AllPlaced(rs, n, RegionsFrom(cap, hd, tl, used == 0, avail, prev), chain, caps, region, part);
    ClearLater(cap, tl, done, cap - used - done, chain, caps);
  }

  /** Places empty chunks for `n` bytes in the free regions of a ring with `used` busy bytes, of
      which no more than `avail` may be taken from a region and the one before it. */
  method PlaceChunks(mem: array<byte>, hd: nat, tl: nat, empty: bool, avail: nat, ghost used: nat, n: nat,
                     sid: word, clock: nat -> word)
    returns (r: Option<Desc>)
    requires hd < mem.Length < WORDS && used <= mem.Length && 0 < n
    requires tl == Wrap(mem.Length, hd + used) && empty == (used == 0)
    modifies mem
    ensures SameArc(old(mem[..]), mem[..], hd, used)
    ensures var rs := TrimmedRegions(mem.Length, hd, tl, used == 0, avail);
            && (r.Some? <==> n <= SumCapacities(rs))
            && (r.Some? ==>
                 && r.value == DescIn(rs, n)
                 && SumFrom(CapsIn(rs, n), 0) == n
                 && Clear(mem.Length, tl, mem.Length - used, r.value.chain, CapsIn(rs, n))
                 && Blank(mem[..], r.value.chain, CapsIn(rs, n), sid, clock))
  {
    hide Placing, Walked, GetTrimmedRegion, TrimmedRegions, GetFreeRegion, Wrap, Blank, Clear, ChainIn, CapsIn, SumFrom;
    hide SumCapacities, DescIn, InArc, HeaderAt, SameBeside;
    ghost var m0, done, caps: seq<nat> := mem[..], 0, [];
    var chain: seq<nat> := [];
    var prev: Option<Region>, region: Region, part: nat := None, Region(0, 0), 0;
    var rest: nat := n;
    PlacingStarts(m0, hd, used, avail, n, sid, clock);
    while rest > 0
      invariant used + done <= mem.Length
      invariant Placing(m0, mem[..], hd, used, avail, n, sid, clock, prev, done, rest, chain, caps)
      invariant rest == 0 ==> PlacedLast(chain, caps, region, part)
      decreases mem.Length - used - done
    {
      ghost var m := mem[..];
      PlacingMeets(m0, m, hd, used, avail, n, sid, clock, prev, done, rest, chain, caps);
      PlacingIsStable(m0, m, hd, used, avail, n, sid, clock, prev, done, rest, chain, caps);
      region := GetTrimmedRegion(mem.Length, hd, tl, empty, avail, prev);
      if region.second == 0 {
        return None;
      }
      if region.second > HEADER {
        part := Min(rest, StaticCapacity(region.second));
        InitHeader(mem, region.first, part, sid, clock(|chain|));
        PlacingGoesOn(m0, m, mem[..], hd, used, avail, n, sid, clock, prev, done, rest, chain, caps, region, part);
        chain, caps := chain + [region.first], caps + [part];
        rest := rest - part;
      }
      prev := Some(region);
      done := done + region.second;
    }
    PlacingIsStable(m0, mem[..], hd, used, avail, n, sid, clock, prev, done, rest, chain, caps);
    PlacingEnds(m0, mem[..], hd, used, avail, n, sid, clock, prev, done, chain, caps, region, part);
    r := Some(Desc(chain, region.first + HEADER + part));
  }

  lemma PlacingIsStable(m0: seq<byte>, m: seq<byte>, hd: nat, used: nat, avail: nat, n: nat, sid: word,
                        clock: nat -> word, prev: Option<Region>, done: nat, rest: nat, chain: seq<nat>, caps: seq<nat>)
    requires |m0| == |m| && hd < |m| && used <= |m|
    requires Placing(m0, m, hd, used, avail, n, sid, clock, prev, done, rest, chain, caps)
    ensures SameArc(m0, m, hd, used)
  {
  }

  lemma SameArcTrans(m0: seq<byte>, m1: seq<byte>, m2: seq<byte>, p: nat, len: nat)
    requires |m0| == |m1| == |m2| && SameArc(m0, m1, p, len) && SameArc(m1, m2, p, len)
    ensures SameArc(m0, m2, p, len)
  {
  }

  lemma NothingLeft(rs: seq<Region>, n: nat, rest: nat, chain: seq<nat>, caps: seq<nat>)
    requires 0 < rest && Walked(rs, n, [], rest, chain, caps)
    ensures n > SumCapacities(rs)
  {
  }

  lemma AllPlaced(rs: seq<Region>, n: nat, behind: seq<Region>, chain: seq<nat>, caps: seq<nat>, region: Region, part: nat)
    requires 0 < n && Walked(rs, n, behind, 0, chain, caps) && PlacedLast(chain, caps, region, part)
    ensures n <= SumCapacities(rs) && chain == ChainIn(rs, n) && caps == CapsIn(rs, n)
    ensures DescIn(rs, n) == Desc(chain, region.first + HEADER + part)
  {
    assert ChainIn(behind, 0) == [] && CapsIn(behind, 0) == [];
  }

  /** Places `data` in the free regions of a ring with `used` busy bytes. What the first two of them
      can take stands where a reader expects it. */
  method PlaceMessage(mem: array<byte>, hd: nat, tl: nat, empty: bool, avail: nat, ghost used: nat,
                      data: seq<byte>, sid: word, clock: nat -> word)
    returns (r: Option<Desc>)
    requires hd < mem.Length < WORDS && used <= mem.Length && 0 < |data|
    requires tl == Wrap(mem.Length, hd + used) && empty == (used == 0)
    modifies mem
    ensures SameArc(old(mem[..]), mem[..], hd, used)
    ensures var rs := TrimmedRegions(mem.Length, hd, tl, used == 0, avail);
            && (r.Some? <==> |data| <= SumCapacities(rs))
            && (r.Some? ==>
                 && r.value == DescIn(rs, |data|) && Unpacked(mem[..], r.value.chain, 0) == data
                 && InFree(mem.Length, tl, mem.Length - used, r.value.chain))
            && (|data| <= TwoCapacities(rs) ==>
                 && used + Span(mem.Length, tl, |data|) <= mem.Length
                 && r == Some(DescOf(mem.Length, tl, |data|))
                 && MessageAt(mem[..], mem.Length, tl, Cell(Msg(sid, 0, clock(0), data), 0)))
  {
    hide TrimmedRegions, Clear, Blank, MessageAt, Packed, Linked, SumFrom, Span, DescOf, DescIn;
    hide ChainIn, CapsIn, Chunks, Parts, SumCapacities, TwoCapacities, HeaderAt, InArc, Unpacked;
    ghost var rs := TrimmedRegions(mem.Length, hd, tl, used == 0, avail);
    if |data| <= TwoCapacities(rs) {
      ReadableDesc(mem.Length, hd, used, avail, |data|);
    }
    r := PlaceChunks(mem, hd, tl, empty, avail, used, |data|, sid, clock);
    if r.Some? {
      ghost var m1, caps := mem[..], CapsIn(rs, |data|);
      ClearInFree(mem.Length, tl, mem.Length - used, r.value.chain, caps);
      PackIn(mem, r.value.chain, caps, data, sid, clock, hd, used);
      DescChain(rs, |data|);
      if |data| <= TwoCapacities(rs) {
        BlankToMessage(m1, mem[..], tl, data, sid, clock, r.value.chain, caps);
      }
    }
  }

  /** The headers of the chunks are in the ring, the first one in the `free` bytes behind `tl`. */
  ghost predicate InFree(cap: nat, tl: nat, free: nat, chain: seq<nat>)
  {
    && chain != []
    && (forall k :: 0 <= k < |chain| ==> chain[k] + HEADER <= cap)
    && forall i :: chain[0] <= i < chain[0] + HEADER ==> InArc(cap, tl, free, i)
  }

  lemma ClearInFree(cap: nat, tl: nat, free: nat, chain: seq<nat>, caps: seq<nat>)
    requires Clear(cap, tl, free, chain, caps) && 0 < SumFrom(caps, 0)
    ensures InFree(cap, tl, free, chain)
  {
    NotEmpty(caps);
    forall i | chain[0] <= i < chain[0] + HEADER
      ensures InArc(cap, tl, free, i)
    {
      assert InChain(chain, caps, 0, i);
    }
  }

  /** Storing a word in the header of a chunk that is not in the ring leaves the messages there. */
  lemma HeaderIsFree(m: seq<byte>, m': seq<byte>, hd: nat, used: nat, chain: seq<nat>, field: nat, v: word)
    requires hd < |m| && used <= |m| && field + 4 <= HEADER
    requires InFree(|m|, Wrap(|m|, hd + used), |m| - used, chain) && WordChanged(m, m', chain[0] + field, v)
    ensures SameArc(m, m', hd, used)
  {
    forall i | InArc(|m|, hd, used, i)
      ensures !(chain[0] + field <= i < chain[0] + field + 4)
    {
      ArcSplit(|m|, hd, used, |m| - used, i);
    }
  }

  lemma DescChain(rs: seq<Region>, n: nat)
    requires 0 < n <= SumCapacities(rs)
    ensures DescIn(rs, n).chain == ChainIn(rs, n)
  {
  }

  /** What the first two regions can take is placed as the reader expects it. */
  lemma ReadableDesc(cap: nat, hd: nat, used: nat, avail: nat, n: nat)
    requires hd < cap && used <= cap && 0 < n
    requires n <= TwoCapacities(TrimmedRegions(cap, hd, Wrap(cap, hd + used), used == 0, avail))
    ensures var tl := Wrap(cap, hd + used);
            var rs := TrimmedRegions(cap, hd, tl, used == 0, avail);
            && n <= SumCapacities(rs) && used + Span(cap, tl, n) <= cap
            && ChainIn(rs, n) == Chunks(cap, tl, n) && CapsIn(rs, n) == Parts(cap, tl, n)
            && DescIn(rs, n) == DescOf(cap, tl, n)
  {
    hide TrimmedRegions, Span;
    TwoAreReadable(cap, hd, used, avail, n);
    PartsFit(cap, Wrap(cap, hd + used), n);
  }

  lemma NotEmpty(caps: seq<nat>)
    requires 0 < SumFrom(caps, 0)
    ensures caps != []
  {
  }

  /** Packs the payload to the chunks that have been made for it. */
  method PackIn(mem: array<byte>, chain: seq<nat>, ghost caps: seq<nat>, data: seq<byte>,
                ghost sid: word, ghost clock: nat -> word, ghost hd: nat, ghost used: nat)
    requires hd < mem.Length && used <= mem.Length && 0 < |data| == SumFrom(caps, 0)
    requires Clear(mem.Length, Wrap(mem.Length, hd + used), mem.Length - used, chain, caps)
    requires Blank(mem[..], chain, caps, sid, clock)
    modifies mem
    ensures Linked(old(mem[..]), chain, caps) && Packed(old(mem[..]), mem[..], chain, caps, 0, data)
    ensures Unpacked(mem[..], chain, 0) == data && SameArc(old(mem[..]), mem[..], hd, used)
  {
    hide HeaderAt, Wrap, InArc;
    ghost var m1 := mem[..];
    BlankLinked(m1, chain, caps, sid, clock);
    NotEmpty(caps);
    var packed := Pack(mem, chain, caps, 0, data);
    assert packed == |data|;
    PackUnpack(m1, mem[..], chain, caps, data);
    ChainIsFree(m1, mem[..], hd, used, chain, caps);
  }

  /** What the reader has done after it has met `k` busy regions without the end of the message. */
  ghost predicate Followed(cap: nat, hd: nat, n: nat, k: nat, prev: Option<Region>, chain: seq<nat>)
    requires hd < cap
  {
    match k
    case 0 => prev == None && chain == []
    case _ =>
      && (cap - hd <= HEADER || FirstLength(cap, hd, n) < n)
      && prev == Some(Region(hd, cap - hd))
      && chain == if cap - hd <= HEADER then [] else [hd]
  }

  /** One step of the reader: the busy region starts with the next chunk or is the skipped hole. */
  lemma FollowStep(cap: nat, hd: nat, used: nat, n: nat, k: nat, prev: Option<Region>, chain: seq<nat>)
    requires hd < cap && 0 < n && Span(cap, hd, n) <= used <= cap && k <= 1
    requires Followed(cap, hd, n, k, prev, chain)
    ensures var region := GetBusyRegion(cap, hd, Wrap(cap, hd + used), false, prev);
            && region.second != 0
            && (region.second <= HEADER ==> k == 0 && Followed(cap, hd, n, 1, Some(region), chain))
            && (region.second > HEADER ==>
                 && |chain| < |Chunks(cap, hd, n)|
                 && region.first == Chunks(cap, hd, n)[|chain|]
                 && (|chain| + 1 < |Chunks(cap, hd, n)| ==>
                      k == 0 && Followed(cap, hd, n, 1, Some(region), chain + [region.first]))
                 && (|chain| + 1 == |Chunks(cap, hd, n)| ==> chain + [region.first] == Chunks(cap, hd, n)))
  {
    ModOnce(hd + (cap - hd), cap);
  }

  /** The headers of a message's chunks tell the reader where it ends. */
  lemma ChunkHeaders(m: seq<byte>, p: nat, c: Cell)
    requires p < |m| && MessageAt(m, |m|, p, c)
    ensures var chain, caps := Chunks(|m|, p, c.Len()), Parts(|m|, p, c.Len());
            && 0 < c.Len()
            && |chain| == |caps| > 0
            && DescOf(|m|, p, c.Len()) == Desc(chain, chain[|chain| - 1] + HEADER + caps[|chain| - 1])
            && (forall j :: 0 <= j < |chain| ==>
                 && chain[j] + HEADER <= |m|
                 && WordAt(m, chain[j] + FLAGS_OFFSET) == ChainFlags(j == 0, j + 1 == |chain|)
                 && WordAt(m, chain[j] + CAPACITY_OFFSET) == caps[j])
  {
    hide WordAt, Span;
  }

  /** Finds the message `c` at the head of a reader with `used` busy bytes before it. */
  method FindMessage(mem: array<byte>, hd: nat, tl: nat, empty: bool, ghost used: nat, ghost c: Cell)
    returns (r: Option<Desc>)
    requires hd < mem.Length && Span(mem.Length, hd, c.Len()) <= used <= mem.Length
    requires MessageAt(mem[..], mem.Length, hd, c)
    requires tl == Wrap(mem.Length, hd + used) && !empty
    ensures r == Some(DescOf(mem.Length, hd, c.Len()))
  {
    hide GetBusyRegion, Span, Wrap, MessageAt, WordAt, DescOf, Chunks, Parts;
    ChunkHeaders(mem[..], hd, c);
    var cap := mem.Length;
    ghost var n, k := c.Len(), 0;
    var chain: seq<nat> := [];
    var prev: Option<Region>, region: Region, flags := None, Region(0, 0), 0;
    while flags / FLG_TAIL % 2 == 0
      invariant flags / FLG_TAIL % 2 == 0 ==> k <= 1 && Followed(cap, hd, n, k, prev, chain)
      invariant flags / FLG_TAIL % 2 != 0 ==> chain == Chunks(cap, hd, n) && region.first == chain[|chain| - 1]
      decreases if flags / FLG_TAIL % 2 == 0 then 2 - k else 0
    {
      FollowStep(cap, hd, used, n, k, prev, chain);
      region := GetBusyRegion(cap, hd, tl, empty, prev);
      prev := Some(region);
      k := k + 1;
      if region.second == 0 {
        return None;
      }
      if region.second > HEADER {
        flags := LoadWord(mem, region.first + FLAGS_OFFSET);
        assert chain == [] ==> flags % 2 == FLG_HEAD;
        chain := chain + [region.first];
      }
    }
    var size := LoadCapacity(mem, region.first);
    r := Some(Desc(chain, region.first + HEADER + size));
  }

  /** Stores the tag or the reference counter of a message. */
  method StoreField(mem: array<byte>, desc: Desc, field: nat, v: word, ghost p: nat, ghost c: Cell)
    requires p < mem.Length && MessageAt(mem[..], mem.Length, p, c) && desc.chain == Chunks(mem.Length, p, c.Len())
    requires field == COUNTER_OFFSET || field == TAG_OFFSET
    modifies mem
    ensures MessageAt(mem[..], mem.Length, p, WithField(c, field, v))
    ensures SameElsewhere(old(mem[..]), mem[..], p, c.Len())
  {
    StoreWord(mem, desc.chain[0] + field, v);
    SetHeaderWord(old(mem[..]), mem[..], p, c, field, v);
  }

  function WithField(c: Cell, field: nat, v: word): Cell {
    if field == TAG_OFFSET then c.(msg := c.msg.(tag := v)) else c.(refs := v)
  }

  /** The message `i` of a run of messages, and what lies before and behind it. */
  lemma MessageIn(m: seq<byte>, p: nat, cells: seq<Cell>, i: nat)
    requires p < |m| && i < |cells| && Holds(m, |m|, p, cells)
    ensures var q := End(|m|, p, cells[..i]);
            && MessageAt(m, |m|, q, cells[i])
            && Used(|m|, p, cells) == Used(|m|, p, cells[..i]) + Used(|m|, q, cells[i..])
            && Used(|m|, q, cells[i..]) == Span(|m|, q, cells[i].Len())
                                         + Used(|m|, Next(|m|, q, cells[i].Len()), cells[i + 1..])
            && End(|m|, p, cells) == End(|m|, q, cells[i..])
            && End(|m|, p, cells[..i + 1]) == Next(|m|, q, cells[i].Len())
            && Holds(m, |m|, q, cells[i..])
  {
    hide MessageAt, Span, Next;
    assert cells == cells[..i] + cells[i..];
    HoldsAppend(m, |m|, p, cells[..i], cells[i..]);
    UsedAppend(|m|, p, cells[..i], cells[i..]);
    assert cells[i..][1..] == cells[i + 1..];
    assert cells[..i + 1] == cells[..i] + [cells[i]];
    UsedAppend(|m|, p, cells[..i], [cells[i]]);
    UsedOne(|m|, End(|m|, p, cells[..i]), cells[i]);
  }

  /** The ring with the head at `hd` and the tail at `tl` holds the messages `cells`. */
  ghost predicate RingHolds(m: seq<byte>, hd: nat, tl: nat, cells: seq<Cell>)
  {
    && 0 < |m| < WORDS - 1
    && hd < |m|
    && (forall c :: c in cells ==> 0 < c.Len())
    && Used(|m|, hd, cells) <= |m|
    && tl == End(|m|, hd, cells)
    && Holds(m, |m|, hd, cells)
  }

  /** What a reader finds at the offset of the message `i`. */
  lemma ReadableAt(m: seq<byte>, hd: nat, tl: nat, cells: seq<Cell>, i: nat)
    requires RingHolds(m, hd, tl, cells) && i < |cells|
    ensures var q := End(|m|, hd, cells[..i]);
            var used := Used(|m|, q, cells[i..]);
            && MessageAt(m, |m|, q, cells[i])
            && Span(|m|, q, cells[i].Len()) <= used <= |m|
            && tl == Wrap(|m|, q + used)
  {
    hide Holds, Used, End, MessageAt, Span, Next, Wrap;
    MessageIn(m, hd, cells, i);
    EndIsUsed(|m|, End(|m|, hd, cells[..i]), cells[i..]);
  }

  lemma RingStable(m: seq<byte>, m': seq<byte>, hd: nat, tl: nat, cells: seq<Cell>)
    requires RingHolds(m, hd, tl, cells) && |m| == |m'| && SameArc(m, m', hd, Used(|m|, hd, cells))
    ensures RingHolds(m', hd, tl, cells)
  {
    HoldsFrame(m, m', hd, cells);
  }

  lemma RingTail(m: seq<byte>, hd: nat, tl: nat, cells: seq<Cell>)
    requires RingHolds(m, hd, tl, cells)
    ensures tl == Wrap(|m|, hd + Used(|m|, hd, cells))
    ensures cells == [] <==> Used(|m|, hd, cells) == 0
    ensures |cells| <= Used(|m|, hd, cells)
  {
    hide Holds, Span;
    EndIsUsed(|m|, hd, cells);
    UsedBound(|m|, hd, cells);
  }

  lemma RingPush(m: seq<byte>, hd: nat, tl: nat, cells: seq<Cell>, c: Cell)
    requires RingHolds(m, hd, tl, cells) && MessageAt(m, |m|, tl, c)
    requires Used(|m|, hd, cells) + Span(|m|, tl, c.Len()) <= |m|
    ensures RingHolds(m, hd, DescOf(|m|, tl, c.Len()).end % |m|, cells + [c])
  {
    HoldsPush(m, m, hd, cells, c);
    EndIsNext(|m|, tl, c.Len());
  }

  lemma RingPop(m: seq<byte>, hd: nat, tl: nat, cells: seq<Cell>)
    requires RingHolds(m, hd, tl, cells) && cells != []
    ensures DescOf(|m|, hd, cells[0].Len()).end % |m| == Next(|m|, hd, cells[0].Len())
    ensures RingHolds(m, Next(|m|, hd, cells[0].Len()), tl, cells[1..])
  {
    EndIsNext(|m|, hd, cells[0].Len());
  }

  lemma RingSetRefs(m: seq<byte>, m': seq<byte>, hd: nat, tl: nat, cells: seq<Cell>, i: nat, v: word)
    requires RingHolds(m, hd, tl, cells) && i < |cells| && |m| == |m'|
    requires var p, c := End(|m|, hd, cells[..i]), cells[i];
             MessageAt(m', |m|, p, c.(refs := v)) && SameElsewhere(m, m', p, c.Len())
    ensures RingHolds(m', hd, tl, cells[i := cells[i].(refs := v)])
  {
    hide Holds, Used, End, MessageAt, Span;
    var a, c, b := cells[..i], cells[i], cells[i + 1..];
    assert cells == a + [c] + b;
    assert cells[i := c.(refs := v)] == a + [c.(refs := v)] + b;
    HoldsReplace(m, m', hd, a, c, c.(refs := v), b);
  }

  /** The message object `desc` shows the reader the message `msg`. */
  ghost predicate Shows(m: seq<byte>, desc: Desc, msg: Msg)
  {
    && desc.chain != []
    && desc.chain[0] + HEADER <= |m|
    && HeaderAt(m, desc.chain[0]).sid == msg.sid
    && HeaderAt(m, desc.chain[0]).tag == msg.tag
    && HeaderAt(m, desc.chain[0]).stamp == msg.stamp
    && TotalCapacity(m, desc.chain, 0) == |msg.data|
    && Unpacked(m, desc.chain, 0) == msg.data
  }

  /** The reader gets the tag and the bytes that the writer has placed. */
  lemma MessageShows(m: seq<byte>, p: nat, c: Cell)
    requires p < |m| && MessageAt(m, |m|, p, c)
    ensures Shows(m, DescOf(|m|, p, c.Len()), c.msg)
  {
    hide WordAt, Span;
    var n := c.Len();
    var k := FirstLength(|m|, p, n);
    var chain := Chunks(|m|, p, n);
    if k == n {
      assert Unpacked(m, chain, 0) == c.msg.data[..k] + Unpacked(m, chain, 1);
      assert TotalCapacity(m, chain, 0) == k + TotalCapacity(m, chain, 1);
    } else {
      assert Unpacked(m, chain, 1) == c.msg.data[k..] + Unpacked(m, chain, 2);
      assert Unpacked(m, chain, 0) == c.msg.data[..k] + Unpacked(m, chain, 1);
      assert TotalCapacity(m, chain, 1) == n - k + TotalCapacity(m, chain, 2);
    }
  }

  lemma FirstChunkAt(cap: nat, p: nat, n: nat)
    requires p < cap
    ensures DescOf(cap, p, n).chain != [] && DescOf(cap, p, n).chain[0] == FirstOffset(cap, p)
  {
  }

  class Ring {
    const cap: nat
    const mem: array<byte>
    var head: nat
    var tail: nat
    var count: nat
    /** The messages in the ring, the oldest first. */
    ghost var cells: seq<Cell>

    ghost predicate Valid()
      reads this, mem
    {
      && mem.Length == cap
      && count == |cells|
      && RingHolds(mem[..], head, tail, cells)
    }

    constructor (size: nat)
      requires 0 < size < WORDS - 1
      ensures Valid() && fresh(mem)
      ensures cap == size && head == tail == 0 && cells == []
    {
      cap := size;
      mem := new byte[size];
      head, tail, count := 0, 0, 0;
      cells := [];
    }

    /** The bytes of the messages in the ring are those of the memory `m`. */
    ghost predicate Stable(m: seq<byte>)
      requires Valid() && |m| == cap
      reads this, mem
    {
      SameArc(m, mem[..], head, Used(cap, head, cells))
    }

    ghost predicate Fits(n: nat)
      requires Valid()
      reads this, mem
    {
      Used(cap, head, cells) + Span(cap, tail, n) <= cap
    }

    /** The free regions that the writer comes across. */
    ghost function Slots(avail: nat): seq<Region>
      requires Valid()
      reads this, mem
    {
      RingTail(mem[..], head, tail, cells);
      TrimmedRegions(cap, head, tail, cells == [], avail)
    }

    /** Places `data` behind the messages of the ring, or finds that there is no room. */
    method MakeMessage(data: seq<byte>, sid: word, clock: nat -> word, avail: nat) returns (r: Option<Desc>)
      requires Valid() && 0 < |data|
      modifies mem
      ensures Valid() && Stable(old(mem[..]))
      ensures r.Some? <==> |data| <= SumCapacities(Slots(avail))
      ensures r.Some? ==>
        && r.value == DescIn(Slots(avail), |data|)
        && Unpacked(mem[..], r.value.chain, 0) == data
        && Placed(r.value)
      ensures |data| <= TwoCapacities(Slots(avail)) ==>
        && Fits(|data|)
        && r == Some(DescOf(cap, tail, |data|))
        && MessageAt(mem[..], cap, tail, Cell(Msg(sid, 0, clock(0), data), 0))
    {
      hide Holds, Used, End, Span, MessageAt, TrimmedRegions, DescOf, DescIn, InFree, InArc, SumCapacities, TwoCapacities, Unpacked;
      RingTail(mem[..], head, tail, cells);
      r := PlaceMessage(mem, head, tail, count == 0, avail, Used(cap, head, cells), data, sid, clock);
      RingStable(old(mem[..]), mem[..], head, tail, cells);
    }

    /** Without trimming a message is placed exactly if it fits. */
    lemma Untrimmed(n: nat)
      requires Valid() && 0 < n
      ensures TwoCapacities(Slots(UNLIMITED)) == SumCapacities(Slots(UNLIMITED))
      ensures n <= SumCapacities(Slots(UNLIMITED)) <==> Fits(n)
    {
      hide Holds, Used, End, Span, TrimmedRegions;
      RingTail(mem[..], head, tail, cells);
      NothingTrimmed(cap, head, Used(cap, head, cells), UNLIMITED, n);
    }

    /** Finds the message `i` of the ring for a reader whose head is at its offset. */
    method GetMessage(hd: nat, empty: bool, ghost i: nat) returns (r: Option<Desc>)
      requires Valid() && i < |cells| && hd == End(cap, head, cells[..i]) && !empty
      ensures r == Some(DescOf(cap, hd, cells[i].Len()))
      ensures MessageAt(mem[..], cap, hd, cells[i])
    {
      hide Holds, Used, End, MessageAt, Span, Wrap;
      ReadableAt(mem[..], head, tail, cells, i);
      r := FindMessage(mem, hd, tail, empty, Used(cap, hd, cells[i..]), cells[i]);
    }

    /** Finds the first message of the ring. */
    method GetFirst(hd: nat, empty: bool) returns (r: Option<Desc>)
      requires Valid() && cells != [] && hd == head && !empty
      ensures r == Some(DescOf(cap, head, cells[0].Len()))
      ensures MessageAt(mem[..], cap, head, cells[0])
    {
      hide Holds, Used, Span, MessageAt;
      r := GetMessage(hd, empty, 0);
    }

    /** The chunks of the message are in the free part of the ring. */
    ghost predicate Placed(desc: Desc)
      requires Valid()
      reads this, mem
    {
      InFree(cap, tail, cap - Used(cap, head, cells), desc.chain)
    }

    /** Stores the tag or the reference counter of a message that is not yet in the ring. */
    method SetPending(desc: Desc, field: nat, v: word, ghost c: Cell, ghost readable: bool)
      requires Valid() && Placed(desc)
      requires readable ==> MessageAt(mem[..], cap, tail, c) && desc == DescOf(cap, tail, c.Len())
      requires field == COUNTER_OFFSET || field == TAG_OFFSET
      modifies mem
      ensures Valid() && Stable(old(mem[..]))
      ensures readable ==> MessageAt(mem[..], cap, tail, WithField(c, field, v))
    {
      hide Holds, Used, End, Span, MessageAt, WordAt, InArc;
      RingTail(mem[..], head, tail, cells);
      ghost var m := mem[..];
      StoreWord(mem, desc.chain[0] + field, v);
      if readable {
        FirstChunkAt(cap, tail, c.Len());
        SetHeaderWord(m, mem[..], tail, c, field, v);
      }
      HeaderIsFree(m, mem[..], head, Used(cap, head, cells), desc.chain, field, v);
      RingStable(m, mem[..], head, tail, cells);
    }

    /** The messages of the ring are where they were, but the tail is behind a message that is not
        where a reader looks for it. */
    ghost predicate Scattered()
      reads this, mem
    {
      && mem.Length == cap
      && count == |cells| + 1
      && head < cap
      && RingHolds(mem[..], head, End(cap, head, cells), cells)
    }

    /** Makes the placed message the last one of the ring. */
    method Commit(end: nat, ghost c: Cell, ghost readable: bool)
      requires Valid()
      requires readable ==> Fits(c.Len()) && MessageAt(mem[..], cap, tail, c) && end == DescOf(cap, tail, c.Len()).end
      modifies this
      ensures head == old(head) && tail == end % cap
      ensures readable ==> Valid() && cells == old(cells) + [c]
      ensures !readable ==> Scattered() && cells == old(cells)
    {
      hide Holds, Used, End, MessageAt, Span;
      if readable {
        RingPush(mem[..], head, tail, cells, c);
        cells := cells + [c];
      }
      tail := end % cap;
      count := count + 1;
    }

    /** Stores the reference counter of the message `i` of the ring. */
    method SetCounter(desc: Desc, v: word, ghost i: nat)
      requires Valid() && i < |cells| && desc == DescOf(cap, End(cap, head, cells[..i]), cells[i].Len())
      modifies mem, this`cells
      ensures Valid() && cells == old(cells)[i := old(cells)[i].(refs := v)]
    {
      hide Holds, Used, End, Span, MessageAt;
      ReadableAt(mem[..], head, tail, cells, i);
      StoreField(mem, desc, COUNTER_OFFSET, v, End(cap, head, cells[..i]), cells[i]);
      RingSetRefs(old(mem[..]), mem[..], head, tail, cells, i, v);
      cells := cells[i := cells[i].(refs := v)];
    }

    /** Takes the first message out of the ring. */
    method DropFirst(end: nat)
      requires Valid() && cells != [] && end == DescOf(cap, head, cells[0].Len()).end
      modifies this
      ensures Valid() && cells == old(cells)[1..]
      ensures head == Next(cap, old(head), old(cells)[0].Len()) && tail == old(tail)
    {
      hide Holds, Used, End, Span, Next, DescOf;
      RingPop(mem[..], head, tail, cells);
      head := end % cap;
      count := count - 1;
      cells := cells[1..];
    }
  }
}
