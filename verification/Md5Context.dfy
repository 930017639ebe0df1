/** The streaming MD5 context: bytes arrive in any pieces, blocks are hashed as they fill. */
module Md5Contexts {
  import opened Mbufs
  import opened Digests

  class Md5Context {
    const f: BlockFunction
    var buf: Words
    var lo: nat
    var hi: nat
    var input: array<byte>
    ghost var m: seq<byte>        // everything so far

    /** State, tail and place in the block are those of everything so far. */
    ghost predicate Valid()
      reads this, input
    {
      && lo == 8 * |m| % WORD && hi < WORD && input.Length == BLOCK
      && buf == Fold(f, MD5_IV, m[..Whole(m)])
      && input[..|m| % BLOCK] == m[Whole(m)..]
    }

    /** The bit count is right as well. */
    ghost predicate CountsRight()
      reads this
    {
      Count(lo, hi) == BitCount(m)
    }

    /** cs_md5_init */
    constructor (f: BlockFunction)
      ensures Valid() && CountsRight() && m == [] && lo == hi == 0 && this.f == f && fresh(input)
    {
      this.f := f;
      buf, lo, hi, m := MD5_IV, 0, 0, [];
      input := new byte[BLOCK](_ => 0);
    }

    /** memcpy into the block at t. */
    method Fill(t: nat, data: seq<byte>)
      requires input.Length == BLOCK && t + |data| <= BLOCK
      modifies input
      ensures input[..t + |data|] == old(input[..t]) + data
    {
      ghost var was := input[..];
      Copy(input, t, data);
      assert input[..t + |data|] == input[..][..t + |data|];
      assert was[..t] == old(input[..t]);
    }

    /** One full block of x after the first n bytes. */
    method HashBlock(ghost x: seq<byte>, ghost n: nat)
      requires n % BLOCK == 0 && n + BLOCK <= |x| && input.Length == BLOCK && input[..] == x[n..n + BLOCK]
      requires buf == Fold(f, MD5_IV, x[..n])
      modifies this`buf
      ensures buf == Fold(f, MD5_IV, x[..n + BLOCK])
    {
      FoldNext(f, MD5_IV, x, n);
      buf := f(buf, input[..]);
    }

    /** The while loop over whole blocks, from offset `start` of the data on. */
    method HashAll(data: seq<byte>, start: nat, ghost x: seq<byte>, ghost base: nat) returns (off: nat)
      requires start <= |data| && input.Length == BLOCK && base + |data| == |x| && x[base..] == data
      requires (base + start) % BLOCK == 0 && buf == Fold(f, MD5_IV, x[..base + start])
      modifies this`buf, input
      ensures off <= |data| && |data| - off < BLOCK && (base + off) % BLOCK == 0
      ensures buf == Fold(f, MD5_IV, x[..base + off])
    {
      off := start;
      while |data| - off >= BLOCK
        invariant off <= |data| && (base + off) % BLOCK == 0
        invariant buf == Fold(f, MD5_IV, x[..base + off])
      {
        Fill(0, data[off..off + BLOCK]);
        assert input[..] == data[off..off + BLOCK] == x[base + off..base + off + BLOCK];
        HashBlock(x, base + off);
        off := off + BLOCK;
      }
    }

    /** cs_md5_update: state and tail are right for data of any length, the count exactly below 2^32. */
    method Update(data: seq<byte>)
      requires Valid()
      modifies this`buf, this`lo, this`hi, this`m, input
      ensures Valid() && m == old(m) + data
      ensures (lo, hi) == Counted(old(lo), old(hi), |data|)
      ensures old(CountsRight()) && 8 * |data| < COUNT_RANGE ==> (CountsRight() <==> |data| < WORD)
    {
      BlockPlace(lo, |m|);
      var t := lo / 8 % BLOCK;
      LowMore(lo, hi, |m|, |data|);
      CountMoreIff(lo, hi, m, data);
      var r := Counted(lo, hi, |data|);
      lo, hi := r.0, r.1;
      Absorb(t, data);
      m := m + data;
    }

    /** The bytes, when t of the block in hand are taken. */
    method Absorb(t: nat, data: seq<byte>)
      requires input.Length == BLOCK && t == |m| % BLOCK
      requires buf == Fold(f, MD5_IV, m[..Whole(m)]) && input[..t] == m[Whole(m)..]
      modifies this`buf, input
      ensures var x := m + data; buf == Fold(f, MD5_IV, x[..Whole(x)]) && input[..|x| % BLOCK] == x[Whole(x)..]
    {
      if t > 0 && |data| < BLOCK - t {
        Fill(t, data);
        StillTail(m, data);
      } else {
        AbsorbBlocks(t, if t > 0 then BLOCK - t else 0, data, m + data);
      }
    }

    method AbsorbBlocks(t: nat, room: nat, data: seq<byte>, ghost x: seq<byte>)
      requires input.Length == BLOCK && t == |m| % BLOCK && x == m + data && room <= |data|
      requires room == if t > 0 then BLOCK - t else 0
      requires buf == Fold(f, MD5_IV, m[..Whole(m)]) && input[..t] == m[Whole(m)..]
      modifies this`buf, input
      ensures buf == Fold(f, MD5_IV, x[..Whole(x)]) && input[..|x| % BLOCK] == x[Whole(x)..]
    {
      hide Fold, Whole;
      FillUp(t, room, data, x);
      var off := HashAll(data, room, x, |m|);
      Fill(0, data[off..]);
      EndTail(x, |m|, off, data);
    }

    /** cs_md5_final: the length of the padding is what the two words hold. */
    method Final() returns (digest: seq<byte>)
      requires Valid()
      modifies this`buf, input
      ensures digest == LeWords(Fold(f, MD5_IV, Padded(m, Le32(lo) + Le32(hi))))
      ensures CountsRight() ==> digest == Md5(f, m)
    {
      BlockPlace(lo, |m|);
      ghost var length := Le32(lo) + Le32(hi);
      ghost var n, p := Whole(m), Padded(m, length);
      PaddedParts(m, length);
      n := Pad(lo / 8 % BLOCK, p, length);
      Fill(56, Le32(lo) + Le32(hi));
      assert input[..] == input[..BLOCK];
      LastBlock(p, n, length);
      HashBlock(p, n);
      assert p[..n + BLOCK] == p;
      digest := LeWords(buf);
      if CountsRight() { SplitCount(lo, hi, BitCount(m)); }
    }

    /** Marker and zeros: what is left is the last block, short of its length. */
    method Pad(taken: nat, ghost p: seq<byte>, ghost length: seq<byte>) returns (ghost n: nat)
      requires input.Length == BLOCK && |length| == 8 && p == Padded(m, length) && taken == |m| % BLOCK
      requires buf == Fold(f, MD5_IV, m[..Whole(m)]) && input[..taken] == m[Whole(m)..]
      modifies this`buf, input
      ensures |p| == n + BLOCK && n % BLOCK == 0 && buf == Fold(f, MD5_IV, p[..n]) && input[..56] == p[n..n + 56]
    {
      hide Fold, Gap, Zeros;
      n := Whole(m);
      PaddedParts(m, length);
      Fill(taken, [0x80]);
      var count := BLOCK - 1 - taken;
      if count < 8 {
        PadLong(count, p, length);
        n := n + BLOCK;
      } else {
        Fill(BLOCK - count, Zeros(count - 8));
        ShortGap(m, length, count);
      }
    }

    /** No room for the length: the block is filled up and hashed, the next one cleared. */
    method PadLong(count: nat, ghost p: seq<byte>, ghost length: seq<byte>)
      requires input.Length == BLOCK && |length| == 8 && p == Padded(m, length) && count == BLOCK - 1 - |m| % BLOCK && count < 8
      requires buf == Fold(f, MD5_IV, m[..Whole(m)]) && input[..BLOCK - count] == m[Whole(m)..] + [0x80]
      modifies this`buf, input
      ensures var n := Whole(m) + BLOCK;
        |p| == n + BLOCK && buf == Fold(f, MD5_IV, p[..n]) && input[..56] == p[n..n + 56]
    {
      ghost var n := Whole(m);
      Fill(BLOCK - count, Zeros(count));
      assert input[..] == input[..BLOCK] == m[n..] + [0x80] + Zeros(count);
      PaddedParts(m, length);
      LongGap(m, length, count);
      HashBlock(p, n);
      Fill(0, Zeros(56));
    }

    /** The block in hand completed and hashed. */
    method FillUp(t: nat, room: nat, data: seq<byte>, ghost x: seq<byte>)
      requires input.Length == BLOCK && t == |m| % BLOCK && x == m + data && room <= |data|
      requires room == if t > 0 then BLOCK - t else 0
      requires buf == Fold(f, MD5_IV, m[..Whole(m)]) && input[..t] == m[Whole(m)..]
      modifies this`buf, input
      ensures (|m| + room) % BLOCK == 0 && buf == Fold(f, MD5_IV, x[..|m| + room])
    {
      ghost var n := Whole(m);
      assert x[..n] == m[..n];
      if t > 0 {
        Fill(t, data[..room]);
        assert input[..] == input[..t + room] == m[n..] + data[..room] == x[n..n + BLOCK];
        HashBlock(x, n);
      }
    }
  }

  lemma PaddedParts(m: seq<byte>, length: seq<byte>)
    requires |length| == 8
    ensures var p := Padded(m, length); var n := Whole(m);
      p[..n] == m[..n] && p[n..] == m[n..] + [0x80] + Zeros(Gap(|m|)) + length
      && |p| == n + (if |m| % BLOCK < 56 then BLOCK else 2 * BLOCK) && p[|p| - 8..] == length
  {
  }

  /** The marker and the length fit the last block together. */
  lemma ShortGap(m: seq<byte>, length: seq<byte>, count: nat)
    requires |length| == 8 && count == BLOCK - 1 - |m| % BLOCK && count >= 8
    ensures var p := Padded(m, length); var n := Whole(m);
      |p| == n + BLOCK && p[n..n + 56] == m[n..] + [0x80] + Zeros(count - 8)
  {
    PaddedParts(m, length);
    assert Gap(|m|) == count - 8;
    var p, n := Padded(m, length), Whole(m);
    var a := m[n..] + [0x80] + Zeros(count - 8);
    assert p[n..] == a + length;
    assert p[n..][..56] == a && p[n..][..56] == p[n..n + 56];
  }

  lemma LastBlock(p: seq<byte>, n: nat, length: seq<byte>)
    requires |length| == 8 && |p| == n + BLOCK && p[n + 56..] == length
    ensures p[n..n + BLOCK] == p[n..n + 56] + length
  {
  }

  /** They do not: one more block, all zeros but for the length. */
  lemma LongGap(m: seq<byte>, length: seq<byte>, count: nat)
    requires |length| == 8 && count == BLOCK - 1 - |m| % BLOCK && count < 8
    ensures var p := Padded(m, length); var n := Whole(m);
      |p| == n + 2 * BLOCK && p[n..n + BLOCK] == m[n..] + [0x80] + Zeros(count)
      && p[n + BLOCK..n + BLOCK + 56] == Zeros(56)
  {
    PaddedParts(m, length);
    assert Gap(|m|) == count + 56;
    ZerosMore(count, 56);
    var p, n := Padded(m, length), Whole(m);
    var a := m[n..] + [0x80] + Zeros(count);
    assert p[n..] == a + (Zeros(56) + length);
    TwoBlocks(p, n, a, Zeros(56) + length);
    assert (Zeros(56) + length)[..56] == Zeros(56);
    assert p[n + BLOCK..n + 2 * BLOCK][..56] == p[n + BLOCK..n + BLOCK + 56];
  }

  lemma TwoBlocks(p: seq<byte>, n: nat, a: seq<byte>, b: seq<byte>)
    requires n <= |p| && p[n..] == a + b && |a| == |b| == BLOCK
    ensures |p| == n + 2 * BLOCK && p[n..n + BLOCK] == a && p[n + BLOCK..n + 2 * BLOCK] == b
  {
    assert p[n..][..BLOCK] == a && p[n..][BLOCK..] == b;
    assert p[n..][..BLOCK] == p[n..n + BLOCK] && p[n..][BLOCK..] == p[n + BLOCK..];
  }

  lemma CountMoreIff(lo: nat, hi: nat, m: seq<byte>, data: seq<byte>)
    requires lo < WORD && hi < WORD
    ensures var r := Counted(lo, hi, |data|);
      Count(lo, hi) == BitCount(m) && 8 * |data| < COUNT_RANGE ==> (Count(r.0, r.1) == BitCount(m + data) <==> |data| < WORD)
  {
    if Count(lo, hi) == BitCount(m) && 8 * |data| < COUNT_RANGE {
      CountedIff(lo, hi, |data|);
      AddMod(8 * |m|, 8 * |data|);
    }
  }

  /** However a message is split into updates, the digest is that of the whole under the length that was counted,
      and the MD5 of the whole if every piece is shorter than 2^32. */
  method DigestPieces(f: BlockFunction, pieces: seq<seq<byte>>) returns (digest: seq<byte>)
    ensures var r := CountedAll(0, 0, pieces);
      digest == LeWords(Fold(f, MD5_IV, Padded(Joined(pieces), Le32(r.0) + Le32(r.1))))
    ensures AllShort(pieces) ==> digest == Md5(f, Joined(pieces))
  {
    var ctx := new Md5Context(f);
    assert pieces[0..] == pieces;
    assert ctx.m + Joined(pieces) == Joined(pieces);
    for i := 0 to |pieces|
      invariant ctx.Valid() && ctx.f == f && fresh(ctx) && fresh(ctx.input)
      invariant ctx.m + Joined(pieces[i..]) == Joined(pieces)
      invariant CountedAll(ctx.lo, ctx.hi, pieces[i..]) == CountedAll(0, 0, pieces)
    {
      JoinedNext(ctx.m, pieces, i);
      assert pieces[i..][1..] == pieces[i + 1..];
      ctx.Update(pieces[i]);
    }
    JoinedEnd(ctx.m, pieces);
    digest := ctx.Final();
    if AllShort(pieces) { CountedAllShort(pieces); }
  }
}
