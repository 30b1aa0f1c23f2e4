/** The payload of a message is packed over a chain of chunks and unpacked from it. A chain
    is given by the offsets of its chunks; the message object that heads the rest of the
    chain is the index of its chunk. */
module Messages {
  import opened Bytes
  import opened Geometry
  import opened Layout

  function SumFrom(caps: seq<nat>, i: nat): nat
    requires i <= |caps|
    decreases |caps| - i
  {
    if i == |caps| then 0 else caps[i] + SumFrom(caps, i + 1)
  }

  lemma {:induction false} SumMore(caps: seq<nat>, x: nat, i: nat)
    requires i <= |caps|
    ensures SumFrom(caps + [x], i) == SumFrom(caps, i) + x
    decreases |caps| - i
  {
    if i < |caps| {
      SumMore(caps, x, i + 1);
    } else {
      assert SumFrom(caps + [x], i) == x + SumFrom(caps + [x], i + 1);
    }
  }

  /** `chain` are the offsets of chunks with the payload capacities `caps`. */
  ghost predicate Linked(m: seq<byte>, chain: seq<nat>, caps: seq<nat>)
  {
    && |chain| == |caps|
    && (forall k :: 0 <= k < |chain| ==> 0 < caps[k] && chain[k] + HEADER + caps[k] <= |m|)
    && forall k :: 0 <= k < |chain| ==> HeaderAt(m, chain[k]).len == caps[k]
  }

  /** The chunks of the chain do not overlap. */
  ghost predicate Separate(chain: seq<nat>, caps: seq<nat>)
    requires |chain| == |caps|
  {
    forall a, b :: 0 <= a < b < |chain| ==>
      chain[a] + HEADER + caps[a] <= chain[b] || chain[b] + HEADER + caps[b] <= chain[a]
  }

  /** The chunks from `i` on hold the parts of `data`, one after another. */
  ghost predicate Loaded(m: seq<byte>, chain: seq<nat>, caps: seq<nat>, i: nat, data: seq<byte>)
    requires |chain| == |caps| && i <= |chain|
    decreases |chain| - i
  {
    if i == |chain| then data == []
    else
      && caps[i] <= |data|
      && chain[i] + HEADER + caps[i] <= |m|
      && m[chain[i] + HEADER..chain[i] + HEADER + caps[i]] == data[..caps[i]]
      && Loaded(m, chain, caps, i + 1, data[caps[i]..])
  }

  /** Only the first chunk of a message has HEAD, only the last has TAIL. */
  function ChainFlags(first: bool, last: bool): nat {
    (if first then FLG_HEAD else 0) + (if last then FLG_TAIL else 0)
  }

  /** The headers of the chunks from `j` on differ only in the flags of a message that starts at `i`. */
  ghost predicate Flagged(m: seq<byte>, m': seq<byte>, chain: seq<nat>, i: nat, j: nat)
    requires |m| == |m'| && forall k :: 0 <= k < |chain| ==> chain[k] + HEADER <= |m|
  {
    forall k :: j <= k < |chain| ==>
      HeaderAt(m', chain[k]) == HeaderAt(m, chain[k]).(flags := ChainFlags(k == i, k + 1 == |chain|))
  }

  ghost predicate InChain(chain: seq<nat>, caps: seq<nat>, i: nat, x: int)
    requires |chain| == |caps|
  {
    exists k :: i <= k < |chain| && chain[k] <= x < chain[k] + HEADER + caps[k]
  }

  ghost predicate SameOutside(m: seq<byte>, m': seq<byte>, chain: seq<nat>, caps: seq<nat>, i: nat)
    requires |chain| == |caps| && |m| == |m'|
  {
    forall x :: 0 <= x < |m| && !InChain(chain, caps, i, x) ==> m[x] == m'[x]
  }

  /** `m'` is the memory `m` after `data` has been packed to the chunks from `i` on. */
  ghost predicate Packed(m: seq<byte>, m': seq<byte>, chain: seq<nat>, caps: seq<nat>, i: nat, data: seq<byte>)
    requires Linked(m, chain, caps) && i <= |chain|
  {
    && |m'| == |m|
    && Loaded(m', chain, caps, i, data)
    && Flagged(m, m', chain, i, i)
    && SameOutside(m, m', chain, caps, i)
  }

  /** The payloads of the chunks from `i` on, put together. */
  function Unpacked(m: seq<byte>, chain: seq<nat>, i: nat): seq<byte>
    requires i <= |chain|
    decreases |chain| - i
  {
    if i == |chain| || chain[i] + HEADER > |m| || chain[i] + HEADER + HeaderAt(m, chain[i]).len > |m| then []
    else
      var start := chain[i] + HEADER;
      m[start..start + HeaderAt(m, chain[i]).len] + Unpacked(m, chain, i + 1)
  }

  /** The summed capacities of the chunks from `i` on. */
  function TotalCapacity(m: seq<byte>, chain: seq<nat>, i: nat): nat
    requires i <= |chain|
    decreases |chain| - i
  {
    if i == |chain| || chain[i] + HEADER > |m| then 0
    else HeaderAt(m, chain[i]).len + TotalCapacity(m, chain, i + 1)
  }

  lemma {:induction false} UnpackLoaded(m: seq<byte>, chain: seq<nat>, caps: seq<nat>, i: nat, data: seq<byte>)
    requires i <= |chain| && Linked(m, chain, caps) && Loaded(m, chain, caps, i, data)
    ensures Unpacked(m, chain, i) == data
    ensures TotalCapacity(m, chain, i) == |data| == SumFrom(caps, i)
    decreases |chain| - i
  {
    hide HeaderAt;
    if i < |chain| {
      UnpackLoaded(m, chain, caps, i + 1, data[caps[i]..]);
      assert data == data[..caps[i]] + data[caps[i]..];
    }
  }

  lemma FlaggedLinked(m: seq<byte>, m': seq<byte>, chain: seq<nat>, caps: seq<nat>)
    requires Linked(m, chain, caps) && |m| == |m'| && Flagged(m, m', chain, 0, 0)
    ensures Linked(m', chain, caps)
  {
    forall k | 0 <= k < |chain|
      ensures HeaderAt(m', chain[k]).len == caps[k]
    {
      assert HeaderAt(m, chain[k]).len == caps[k];
    }
  }

  /** What has been packed is what is unpacked, whatever the number and sizes of the chunks. */
  lemma PackUnpack(m: seq<byte>, m': seq<byte>, chain: seq<nat>, caps: seq<nat>, data: seq<byte>)
    requires Linked(m, chain, caps) && Packed(m, m', chain, caps, 0, data)
    ensures Unpacked(m', chain, 0) == data && TotalCapacity(m', chain, 0) == |data|
  {
    FlaggedLinked(m, m', chain, caps);
    UnpackLoaded(m', chain, caps, 0, data);
  }

  lemma {:induction false} LoadedFrame(m: seq<byte>, m': seq<byte>, chain: seq<nat>, caps: seq<nat>, i: nat,
                                       data: seq<byte>)
    requires |m| == |m'| && |chain| == |caps| && i <= |chain| && Loaded(m, chain, caps, i, data)
    requires forall k :: i <= k < |chain| ==> Same(m, m', chain[k] + HEADER, chain[k] + HEADER + caps[k])
    ensures Loaded(m', chain, caps, i, data)
    decreases |chain| - i
  {
    if i < |chain| {
      var lo, hi := chain[i] + HEADER, chain[i] + HEADER + caps[i];
      assert m[lo..hi] == m'[lo..hi];
      LoadedFrame(m, m', chain, caps, i + 1, data[caps[i]..]);
    }
  }

  /** `m'` is the memory `m` after the chunk at `off` has got its payload and its flags. */
  ghost predicate Filled(m: seq<byte>, m': seq<byte>, off: nat, part: seq<byte>, flags: nat)
    requires |m| == |m'| && off + HEADER + |part| <= |m|
  {
    && HeaderAt(m', off) == HeaderAt(m, off).(flags := flags)
    && m'[off + HEADER..off + HEADER + |part|] == part
    && SameBeside(m, m', off, HEADER + |part|)
  }

  ghost predicate SameBeside(m: seq<byte>, m': seq<byte>, off: nat, len: nat)
    requires |m| == |m'|
  {
    forall x :: 0 <= x < |m| && !(off <= x < off + len) ==> m[x] == m'[x]
  }

  method Fill(mem: array<byte>, off: nat, part: seq<byte>, flags: word)
    requires off + HEADER + |part| <= mem.Length
    modifies mem
    ensures Filled(old(mem[..]), mem[..], off, part, flags)
  {
    ghost var m0 := mem[..];
    CopyIn(mem, off + HEADER, part);
    ghost var m1 := mem[..];
    HeaderFrame(m0, m1, off);
    StoreWord(mem, off + FLAGS_OFFSET, flags);
    HeaderWord(m1, mem[..], off, FLAGS_OFFSET, flags);
    assert mem[..][off + HEADER..off + HEADER + |part|] == part;
  }

  method LoadCapacity(mem: array<byte>, off: nat) returns (cpct: nat)
    requires off + HEADER <= mem.Length
    ensures cpct == HeaderAt(mem[..], off).len
  {
    cpct := LoadWord(mem, off + CAPACITY_OFFSET);
  }

  /** Clears the flag HEAD, which leaves the flags `rest`. */
  method DropHead(mem: array<byte>, off: nat, ghost rest: word)
    requires off + HEADER <= mem.Length
    requires rest % 2 == 0 && HeaderAt(mem[..], off).flags == rest + FLG_HEAD
    modifies mem
    ensures WordChanged(old(mem[..]), mem[..], off + FLAGS_OFFSET, rest)
  {
    var flags := LoadWord(mem, off + FLAGS_OFFSET);
    StoreWord(mem, off + FLAGS_OFFSET, flags - flags % 2);
  }

  /** Packs `data` to the chunks from `i` on, which have room for exactly so many bytes. */
  method Pack(mem: array<byte>, chain: seq<nat>, ghost caps: seq<nat>, i: nat, data: seq<byte>)
    returns (packed: nat)
    requires i < |chain| && Linked(mem[..], chain, caps) && Separate(chain, caps)
    requires SumFrom(caps, i) == |data|
    modifies mem
    ensures packed == |data|
    ensures Packed(old(mem[..]), mem[..], chain, caps, i, data)
    decreases |chain| - i
  {
    hide Loaded, SumFrom, HeaderAt, SameOutside;
    ghost var m0 := mem[..];
    LastChunk(caps, i);
    var cpct := LoadCapacity(mem, chain[i]);
    assert cpct == caps[i];
    if |data| <= cpct {
      Fill(mem, chain[i], data, FLG_HEAD + FLG_TAIL);
      PackedOne(m0, mem[..], chain, caps, i, data);
      packed := |data|;
    } else {
      var rest := 0;
      Fill(mem, chain[i], data[..cpct], FLG_HEAD);
      ghost var m1 := mem[..];
      Beside(m0, m1, chain, caps, i);
      if i + 1 < |chain| {
        rest := Pack(mem, chain, caps, i + 1, data[cpct..]);
        ghost var m2 := mem[..];
        ghost var flags := ChainFlags(false, i + 2 == |chain|);
        DropHead(mem, chain[i + 1], flags);
        ClearHead(m1, m2, mem[..], chain, caps, i + 1, data[cpct..], flags);
        PackedMore(m0, m1, mem[..], chain, caps, i, data);
      }
      packed := cpct + rest;
    }
  }

  /** Reads the payloads of the chunks from `i` on. */
  method Unpack(mem: array<byte>, chain: seq<nat>, i: nat) returns (data: seq<byte>)
    requires i <= |chain|
    requires forall k :: i <= k < |chain| ==>
      chain[k] + HEADER <= mem.Length && chain[k] + HEADER + HeaderAt(mem[..], chain[k]).len <= mem.Length
    ensures data == Unpacked(mem[..], chain, i)
    decreases |chain| - i
  {
    hide WordAt;
    if i == |chain| {
      return [];
    }
    var start := chain[i] + HEADER;
    var cpct := LoadCapacity(mem, chain[i]);
    var rest := Unpack(mem, chain, i + 1);
    data := mem[start..start + cpct] + rest;
    assert mem[start..start + cpct] == mem[..][start..start + cpct];
  }

  /** The size of the chunks from `i` on, with their headers. */
  method ChainSize(mem: array<byte>, chain: seq<nat>, i: nat) returns (size: nat)
    requires i <= |chain| && forall k :: i <= k < |chain| ==> chain[k] + HEADER <= mem.Length
    ensures size == HEADER * (|chain| - i) + TotalCapacity(mem[..], chain, i)
    decreases |chain| - i
  {
    if i == |chain| {
      return 0;
    }
    var cpct := LoadCapacity(mem, chain[i]);
    var rest := ChainSize(mem, chain, i + 1);
    size := HEADER + cpct + rest;
  }

  lemma LastChunk(caps: seq<nat>, i: nat)
    requires i < |caps| && forall k :: 0 <= k < |caps| ==> 0 < caps[k]
    ensures SumFrom(caps, i) <= caps[i] <==> i + 1 == |caps|
    ensures SumFrom(caps, i) == caps[i] + SumFrom(caps, i + 1)
  {
    if i + 1 < |caps| {
      assert SumFrom(caps, i + 1) >= caps[i + 1];
    }
  }

  /** The chunk `i` is changed: the other chunks do not notice. */
  lemma Beside(m: seq<byte>, m': seq<byte>, chain: seq<nat>, caps: seq<nat>, i: nat)
    requires Linked(m, chain, caps) && Separate(chain, caps) && |m| == |m'| && i < |chain|
    requires HeaderAt(m', chain[i]).len == caps[i]
    requires SameBeside(m, m', chain[i], HEADER + caps[i])
    ensures forall k :: 0 <= k < |chain| && k != i ==> HeaderAt(m', chain[k]) == HeaderAt(m, chain[k])
    ensures Linked(m', chain, caps)
    ensures SameOutside(m, m', chain, caps, i)
  {
    forall k | 0 <= k < |chain| && k != i
      ensures HeaderAt(m', chain[k]) == HeaderAt(m, chain[k])
    {
      HeaderFrame(m, m', chain[k]);
    }
  }

  lemma PackedOne(m: seq<byte>, m': seq<byte>, chain: seq<nat>, caps: seq<nat>, i: nat, data: seq<byte>)
    requires Linked(m, chain, caps) && Separate(chain, caps) && |m| == |m'|
    requires i + 1 == |chain| && caps[i] == |data|
    requires Filled(m, m', chain[i], data, FLG_HEAD + FLG_TAIL)
    ensures Packed(m, m', chain, caps, i, data)
  {
    assert data[..caps[i]] == data && data[caps[i]..] == [];
    assert Loaded(m', chain, caps, i + 1, []);
    Beside(m, m', chain, caps, i);
  }

  /** The chunk `i` has been filled, the chunks after it packed, and their HEAD flag cleared. */
  lemma PackedMore(m0: seq<byte>, m1: seq<byte>, m3: seq<byte>, chain: seq<nat>, caps: seq<nat>, i: nat,
                   data: seq<byte>)
    requires i + 1 < |chain| && Linked(m0, chain, caps) && Separate(chain, caps)
    requires |m3| == |m1| == |m0| && caps[i] <= |data|
    requires Filled(m0, m1, chain[i], data[..caps[i]], FLG_HEAD)
    requires Loaded(m3, chain, caps, i + 1, data[caps[i]..])
    requires SameOutside(m1, m3, chain, caps, i + 1)
    requires forall k :: i + 1 <= k < |chain| ==>
      HeaderAt(m3, chain[k]) == HeaderAt(m1, chain[k]).(flags := ChainFlags(false, k + 1 == |chain|))
    ensures Packed(m0, m3, chain, caps, i, data)
  {
    hide HeaderAt, Loaded, SameOutside, Flagged;
    Beside(m0, m1, chain, caps, i);
    KeepChunk(m1, m3, chain, caps, i);
    OutsideTrans(m0, m1, m3, chain, caps, i);
    LoadedMore(m1, m3, chain, caps, i, data);
    FlaggedMore(m0, m1, m3, chain, i);
  }

  lemma FlaggedMore(m0: seq<byte>, m1: seq<byte>, m3: seq<byte>, chain: seq<nat>, i: nat)
    requires |m0| == |m1| == |m3| && i + 1 < |chain| && forall k :: 0 <= k < |chain| ==> chain[k] + HEADER <= |m0|
    requires HeaderAt(m1, chain[i]) == HeaderAt(m0, chain[i]).(flags := FLG_HEAD)
    requires forall k :: 0 <= k < |chain| && k != i ==> HeaderAt(m1, chain[k]) == HeaderAt(m0, chain[k])
    requires HeaderAt(m3, chain[i]) == HeaderAt(m1, chain[i])
    requires forall k :: i + 1 <= k < |chain| ==>
      HeaderAt(m3, chain[k]) == HeaderAt(m1, chain[k]).(flags := ChainFlags(false, k + 1 == |chain|))
    ensures Flagged(m0, m3, chain, i, i)
  {
  }

  lemma OutsideTrans(m0: seq<byte>, m1: seq<byte>, m3: seq<byte>, chain: seq<nat>, caps: seq<nat>, i: nat)
    requires |m0| == |m1| == |m3| && |chain| == |caps| && i < |chain|
    requires SameBeside(m0, m1, chain[i], HEADER + caps[i]) && SameOutside(m1, m3, chain, caps, i + 1)
    ensures SameOutside(m0, m3, chain, caps, i)
  {
    forall x | 0 <= x < |m0| && !InChain(chain, caps, i, x)
      ensures m0[x] == m3[x]
    {
      assert !(chain[i] <= x < chain[i] + HEADER + caps[i]);
      assert InChain(chain, caps, i + 1, x) ==> InChain(chain, caps, i, x);
    }
  }

  lemma LoadedMore(m1: seq<byte>, m3: seq<byte>, chain: seq<nat>, caps: seq<nat>, i: nat, data: seq<byte>)
    requires |m1| == |m3| && |chain| == |caps| && i < |chain| && caps[i] <= |data|
    requires chain[i] + HEADER + caps[i] <= |m1|
    requires m1[chain[i] + HEADER..chain[i] + HEADER + caps[i]] == data[..caps[i]]
    requires Same(m1, m3, chain[i], chain[i] + HEADER + caps[i])
    requires Loaded(m3, chain, caps, i + 1, data[caps[i]..])
    ensures Loaded(m3, chain, caps, i, data)
  {
    var lo, hi := chain[i] + HEADER, chain[i] + HEADER + caps[i];
    assert m3[lo..hi] == m1[lo..hi];
  }

  lemma ClearHead(m1: seq<byte>, m2: seq<byte>, m3: seq<byte>, chain: seq<nat>, caps: seq<nat>, i: nat,
                  data: seq<byte>, flags: word)
    requires i < |chain| && Linked(m1, chain, caps) && Separate(chain, caps)
    requires Packed(m1, m2, chain, caps, i, data)
    requires WordChanged(m2, m3, chain[i] + FLAGS_OFFSET, flags)
    requires flags == ChainFlags(false, i + 1 == |chain|)
    ensures Loaded(m3, chain, caps, i, data)
    ensures forall k :: i <= k < |chain| ==>
      HeaderAt(m3, chain[k]) == HeaderAt(m1, chain[k]).(flags := ChainFlags(false, k + 1 == |chain|))
    ensures SameOutside(m1, m3, chain, caps, i)
  {
    hide WordAt;
    HeaderWord(m2, m3, chain[i], FLAGS_OFFSET, flags);
    forall k | i < k < |chain|
      ensures HeaderAt(m3, chain[k]) == HeaderAt(m2, chain[k])
    {
      HeaderFrame(m2, m3, chain[k]);
    }
    LoadedFrame(m2, m3, chain, caps, i, data);
  }

  /** The chunks after `i` have been packed: the chunk `i` stays as it was. */
  lemma KeepChunk(m: seq<byte>, m': seq<byte>, chain: seq<nat>, caps: seq<nat>, i: nat)
    requires Linked(m, chain, caps) && Separate(chain, caps) && |m| == |m'| && i < |chain|
    requires SameOutside(m, m', chain, caps, i + 1)
    ensures Same(m, m', chain[i], chain[i] + HEADER + caps[i])
    ensures HeaderAt(m', chain[i]) == HeaderAt(m, chain[i])
  {
    forall x | chain[i] <= x < chain[i] + HEADER + caps[i]
      ensures m[x] == m'[x]
    {
      assert !InChain(chain, caps, i + 1, x);
    }
    HeaderFrame(m, m', chain[i]);
  }
}
