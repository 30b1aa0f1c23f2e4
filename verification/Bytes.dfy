/** Raw memory: bytes, and the 32-bit little-endian words that the headers consist of. */
module Bytes {

  type byte = x: int | 0 <= x < 0x100 witness 0

  type word = x: int | 0 <= x < 0x1_0000_0000 witness 0

  const WORDS := 0x1_0000_0000

  /** The number of values of a size, which has 64 bits. */
  const SIZES := 0x1_0000_0000_0000_0000

  function WordBytes(v: word): (bs: seq<byte>)
    ensures |bs| == 4
  {
    [v % 0x100, v / 0x100 % 0x100, v / 0x1_0000 % 0x100, v / 0x100_0000]
  }

  /** The number that bytes stand for, least significant byte first. */
  function FromBytes(bs: seq<byte>): nat
    decreases |bs|
  {
    if bs == [] then 0 else bs[0] as int + 0x100 * FromBytes(bs[1..])
  }

  /** The word stored at `off`. */
  function WordAt(m: seq<byte>, off: nat): nat
    requires off + 4 <= |m|
  {
    FromBytes(m[off..off + 4])
  }

  /** The memory after the bytes `bs` have been written at `off`. */
  function Put(m: seq<byte>, off: nat, bs: seq<byte>): (r: seq<byte>)
    requires off + |bs| <= |m|
    ensures |r| == |m|
    ensures forall i :: 0 <= i < |m| ==> r[i] == if off <= i < off + |bs| then bs[i - off] else m[i]
  {
    seq(|m|, i requires 0 <= i < |m| => if off <= i < off + |bs| then bs[i - off] else m[i])
  }

  /** `m'` is the memory `m` with the word `v` at `off`. */
  ghost predicate WordChanged(m: seq<byte>, m': seq<byte>, off: nat, v: word)
  {
    && |m'| == |m|
    && off + 4 <= |m|
    && WordAt(m', off) == v
    && forall i :: 0 <= i < |m| && !(off <= i < off + 4) ==> m'[i] == m[i]
  }

  /** Both memories hold the same bytes in `[lo, hi)`. */
  ghost predicate Same(m: seq<byte>, m': seq<byte>, lo: int, hi: int)
    requires |m| == |m'|
  {
    forall i :: 0 <= i < |m| && lo <= i < hi ==> m[i] == m'[i]
  }

  lemma FromFour(bs: seq<byte>)
    requires |bs| == 4
    ensures var b0: int, b1: int, b2: int, b3: int := bs[0], bs[1], bs[2], bs[3];
            FromBytes(bs) == b0 + 0x100 * b1 + 0x1_0000 * b2 + 0x100_0000 * b3 < WORDS
  {
    assert FromBytes(bs[1..][1..][1..][1..]) == 0;
    assert FromBytes(bs[1..][1..][1..]) == bs[3];
    assert FromBytes(bs[1..][1..]) == bs[2] as int + 0x100 * (bs[3] as int);
  }

  lemma FromWordBytes(v: word)
    ensures FromBytes(WordBytes(v)) == v
  {
    FromFour(WordBytes(v));
  }

  /** A word that was written is the word that is read. */
  lemma WordRoundTrip(m: seq<byte>, off: nat, v: word)
    requires off + 4 <= |m|
    ensures WordChanged(m, Put(m, off, WordBytes(v)), off, v)
  {
    FromWordBytes(v);
    assert Put(m, off, WordBytes(v))[off..off + 4] == WordBytes(v);
  }

  lemma WordFrame(m: seq<byte>, m': seq<byte>, off: nat)
    requires |m| == |m'| && off + 4 <= |m|
    requires Same(m, m', off, off + 4)
    ensures WordAt(m, off) == WordAt(m', off)
  {
    assert m[off..off + 4] == m'[off..off + 4];
  }

  /** The position `x % cap` for an `x` that has passed the end of the ring at most once. */
  lemma ModOnce(x: nat, cap: nat)
    requires 0 < cap && x < 2 * cap
    ensures x % cap == if x < cap then x else x - cap
  {
    if x < cap {
      assert x / cap == 0;
    } else {
      assert x / cap == 1;
    }
  }

  /** Copies `bs` to the memory at `off`, one byte after another. */
  method CopyIn(mem: array<byte>, off: nat, bs: seq<byte>)
    requires off + |bs| <= mem.Length
    modifies mem
    ensures mem[..] == Put(old(mem[..]), off, bs)
  {
    for k := 0 to |bs|
      invariant forall i :: 0 <= i < mem.Length ==>
        mem[i] == if off <= i < off + k then bs[i - off] else old(mem[..])[i]
    {
      mem[off + k] := bs[k];
    }
  }

  method LoadWord(mem: array<byte>, off: nat) returns (v: word)
    requires off + 4 <= mem.Length
    ensures v == WordAt(mem[..], off)
  {
    assert mem[off..off + 4] == mem[..][off..off + 4];
    FromFour(mem[off..off + 4]);
    v := FromBytes(mem[off..off + 4]);
  }

  method StoreWord(mem: array<byte>, off: nat, v: word)
    requires off + 4 <= mem.Length
    modifies mem
    ensures WordChanged(old(mem[..]), mem[..], off, v)
  {
    CopyIn(mem, off, WordBytes(v));
    WordRoundTrip(old(mem[..]), off, v);
  }
}
