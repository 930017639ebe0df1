/** The streaming SHA-1 context; its padding is fed through its own update. */
module Sha1Contexts {
  import opened Mbufs
  import opened Digests

  /** Bits 3 to 8 of a bit count: eight times the place in the block. */
  function And504(x: nat): nat {
    x / 8 % BLOCK * 8
  }

  /** Place in the block and length add up within 32 bits. */
  predicate FitsNext(n: nat, len: nat) {
    n % BLOCK + len < WORD
  }

  predicate FitsAll(n: nat, pieces: seq<seq<byte>>)
    decreases |pieces|
  {
    pieces != [] ==> FitsNext(n, |pieces[0]|) && FitsAll(n + |pieces[0]|, pieces[1..])
  }

  class Sha1Context {
    const f: BlockFunction
    var state: Words
    var lo: nat
    var hi: nat
    var buffer: array<byte>
    ghost var m: seq<byte>        // everything so far

    ghost predicate Valid()
      reads this, buffer
    {
      && lo < WORD && hi < WORD && buffer.Length == BLOCK
      && state == Fold(f, SHA1_IV, m[..Whole(m)])
      && buffer[..|m| % BLOCK] == m[Whole(m)..]
      && Count(lo, hi) == BitCount(m)
    }

    /** cs_sha1_init */
    constructor (f: BlockFunction)
      ensures Valid() && m == [] && this.f == f && fresh(buffer)
    {
      this.f := f;
      state, lo, hi, m := SHA1_IV, 0, 0, [];
      buffer := new byte[BLOCK](_ => 0);
    }

    method Fill(t: nat, data: seq<byte>)
      requires buffer.Length == BLOCK && t + |data| <= BLOCK
      modifies buffer
      ensures buffer[..t + |data|] == old(buffer[..t]) + data
    {
      ghost var was := buffer[..];
      Copy(buffer, t, data);
      assert buffer[..t + |data|] == buffer[..][..t + |data|];
      assert was[..t] == old(buffer[..t]);
    }

    /** cs_sha1_update; place and length are added in 32 bits, and where that sum wraps the data does not fit the block in hand. */
    method Update(data: seq<byte>) returns (ok: bool)
      requires Valid() && |data| < WORD
      modifies this`state, this`lo, this`hi, this`m, buffer
      ensures ok <==> FitsNext(|old(m)|, |data|)
      ensures ok ==> Valid() && m == old(m) + data
    {
      LowWord(lo, hi, |m|);
      BlockPlace(lo, |m|);
      var j := lo / 8 % BLOCK;
      CountMore(lo, hi, m, data);
      var r := Counted(lo, hi, |data|);
      lo, hi := r.0, r.1;
      SumWraps(j, |data|);
      ok := true;
      if (j + |data|) % WORD > 63 {
        AbsorbBlocks(j, data, m + data);
      } else if |data| <= BLOCK - j {
        Fill(j, data);
        StillTail(m, data);
      } else {
        ok := false;
      }
      m := m + data;
    }

    method HashBlock(block: seq<byte>, ghost x: seq<byte>, ghost n: nat)
      requires n % BLOCK == 0 && n + BLOCK <= |x| && block == x[n..n + BLOCK] && state == Fold(f, SHA1_IV, x[..n])
      modifies this`state
      ensures state == Fold(f, SHA1_IV, x[..n + BLOCK])
    {
      FoldNext(f, SHA1_IV, x, n);
      state := f(state, block);
    }

    /** The block in hand completed, the whole blocks hashed where they lie, the rest kept. */
    method AbsorbBlocks(j: nat, data: seq<byte>, ghost x: seq<byte>)
      requires buffer.Length == BLOCK && j == |m| % BLOCK && x == m + data && BLOCK <= j + |data| < WORD
      requires state == Fold(f, SHA1_IV, m[..Whole(m)]) && buffer[..j] == m[Whole(m)..]
      modifies this`state, buffer
      ensures state == Fold(f, SHA1_IV, x[..Whole(x)]) && buffer[..|x| % BLOCK] == x[Whole(x)..]
    {
      var i := BLOCK - j;
      FirstBlock(j, data, x);
      i := HashAll(i, data, x);
      Fill(0, data[i..]);
      EndTail(x, |m|, i, data);
    }

    method FirstBlock(j: nat, data: seq<byte>, ghost x: seq<byte>)
      requires buffer.Length == BLOCK && j == |m| % BLOCK && x == m + data && j + |data| >= BLOCK
      requires state == Fold(f, SHA1_IV, m[..Whole(m)]) && buffer[..j] == m[Whole(m)..]
      modifies this`state, buffer
      ensures state == Fold(f, SHA1_IV, x[..Whole(m) + BLOCK])
    {
      ghost var n := Whole(m);
      FirstPart(m, data, j);
      Fill(j, data[..BLOCK - j]);
      assert buffer[..] == buffer[..BLOCK];
      HashBlock(buffer[..], x, n);
    }

    method HashAll(start: nat, data: seq<byte>, ghost x: seq<byte>) returns (i: nat)
      requires x == m + data && start <= |data| && (|m| + start) % BLOCK == 0 && state == Fold(f, SHA1_IV, x[..|m| + start])
      requires FitsNext(|m|, |data|)
      modifies this`state
      ensures i <= |data| && |data| - i < BLOCK && (|m| + i) % BLOCK == 0 && state == Fold(f, SHA1_IV, x[..|m| + i])
    {
      hide FitsNext;
      i := start;
      NoWrap(|m|, i, |data|);
      while (i + 63) % WORD < |data|
        invariant i <= |data| && (|m| + i) % BLOCK == 0 && state == Fold(f, SHA1_IV, x[..|m| + i])
        invariant (i + 63) % WORD < |data| <==> i + BLOCK <= |data|
        decreases |data| - i
      {
        InWhole(m, data, i);
        assert |m| + i + BLOCK <= |x|;
        HashBlock(data[i..i + BLOCK], x, |m| + i);
        NextBlock(|m|, i, |data|);
        i := i + BLOCK;
      }
    }

    /** cs_sha1_final: marker, zeros one by one until 8 bytes are missing, and the count taken before. */
    method Final() returns (digest: seq<byte>)
      requires Valid()
      modifies this`state, this`lo, this`hi, this`m, buffer
      ensures digest == Sha1(f, old(m))
    {
      SplitCount(lo, hi, BitCount(m));
      var finalCount := Be32(hi) + Be32(lo);
      ghost var m0 := m;
      var ok := Update([0x80]);
      PadZeros(m0);
      ok := Update(finalCount);
      WholeAll(m);
      digest := BeWords(state);
    }

    method PadZeros(ghost m0: seq<byte>)
      requires Valid() && m == m0 + [0x80]
      modifies this`state, this`lo, this`hi, this`m, buffer
      ensures Valid() && m == m0 + [0x80] + Zeros(Gap(|m0|))
    {
      ghost var k := 0;
      LowWord(lo, hi, |m|);
      BlockPlace(lo, |m|);
      NoZeros(m);
      while And504(lo) != 448
        invariant Valid() && m == m0 + [0x80] + Zeros(k) && k <= Gap(|m0|)
        invariant lo / 8 % BLOCK == |m| % BLOCK
        decreases Gap(|m0|) - k
      {
        ZeroMore(m0 + [0x80], k);
        NotFull(|m0|, k);
        var ok := Update([0]);
        LowWord(lo, hi, |m|);
        BlockPlace(lo, |m|);
        k := k + 1;
      }
      FullAt(|m0|, k);
    }
  }

  lemma FirstPart(m: seq<byte>, data: seq<byte>, j: nat)
    requires j == |m| % BLOCK && j + |data| >= BLOCK
    ensures var x, n := m + data, Whole(m); x[..n] == m[..n] && m[n..] + data[..BLOCK - j] == x[n..n + BLOCK]
  {
  }

  /** A wrapped sum is below the block length. */
  lemma SumWraps(j: nat, len: nat)
    requires j < BLOCK && len < WORD
    ensures (j + len) % WORD > 63 ==> BLOCK <= j + len < WORD
    ensures (j + len) % WORD <= 63 ==> (len <= BLOCK - j <==> j + len < WORD) && (j + len < WORD ==> j + len < BLOCK)
  {
    if j + len >= WORD { assert (j + len) % WORD == j + len - WORD; }
  }

  /** The loop's own sum never wraps. */
  lemma NoWrap(n: nat, i: nat, len: nat)
    requires (n + i) % BLOCK == 0 && i <= len && FitsNext(n, len)
    ensures (i + 63) % WORD < len <==> i + BLOCK <= len
  {
    var j := n % BLOCK;
    assert (j + i) % BLOCK == 0;
    assert WORD % BLOCK == 0;
    assert j + i <= WORD - BLOCK;
    assert (i + 63) % WORD == i + 63;
  }

  lemma NextBlock(n: nat, i: nat, len: nat)
    requires (n + i) % BLOCK == 0 && i + BLOCK <= len && FitsNext(n, len)
    ensures (n + (i + BLOCK)) % BLOCK == 0
    ensures (i + BLOCK + 63) % WORD < len <==> i + BLOCK + BLOCK <= len
  {
    NoWrap(n, i + BLOCK, len);
  }

  lemma InWhole(m: seq<byte>, data: seq<byte>, i: nat)
    requires i + BLOCK <= |data|
    ensures data[i..i + BLOCK] == (m + data)[|m| + i..|m| + i + BLOCK]
  {
  }

  lemma NoZeros(m: seq<byte>)
    ensures m + Zeros(0) == m
  {
  }

  lemma ZeroMore(m: seq<byte>, k: nat)
    ensures m + Zeros(k) + [0] == m + Zeros(k + 1)
  {
    ZerosMore(k, 1);
    assert Zeros(1) == [0] + Zeros(0) == [0];
  }

  /** Before the gap is filled the place is not 56. */
  lemma NotFull(n: nat, k: nat)
    requires k <= Gap(n) && (n + 1 + k) % BLOCK != 56
    ensures k < Gap(n)
  {
  }

  lemma FullAt(n: nat, k: nat)
    requires k <= Gap(n) && (n + 1 + k) % BLOCK == 56
    ensures k == Gap(n)
  {
  }

  lemma WholeAll(m: seq<byte>)
    ensures |m| % BLOCK == 0 ==> m[..Whole(m)] == m
  {
  }

  /** However a message is split into updates that fit, the digest is that of the whole. */
  method DigestPieces(f: BlockFunction, pieces: seq<seq<byte>>) returns (ok: bool, digest: seq<byte>)
    requires AllShort(pieces)
    ensures ok <==> FitsAll(0, pieces)
    ensures ok ==> digest == Sha1(f, Joined(pieces))
  {
    var ctx := new Sha1Context(f);
    assert pieces[0..] == pieces;
    assert ctx.m + Joined(pieces) == Joined(pieces);
    ok, digest := true, [];
    for i := 0 to |pieces|
      invariant ok && ctx.Valid() && ctx.f == f && fresh(ctx) && fresh(ctx.buffer)
      invariant ctx.m + Joined(pieces[i..]) == Joined(pieces)
      invariant FitsAll(|ctx.m|, pieces[i..]) <==> FitsAll(0, pieces)
    {
      JoinedNext(ctx.m, pieces, i);
      assert pieces[i..][1..] == pieces[i + 1..];
      ok := ctx.Update(pieces[i]);
      if !ok { return; }
    }
    JoinedEnd(ctx.m, pieces);
    digest := ctx.Final();
  }
}
