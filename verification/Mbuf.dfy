/** The growable byte buffer under the wire codecs. */
module Mbufs {
  import opened CInts

  type byte = x: int | 0 <= x < 256

  lemma SentPart(n: nat)
    ensures AsInt(n) <= n
  {
  }

  /** What mg_send appends: of data of 2^31 bytes or more a part at most. */
  function Sent(data: seq<byte>): (s: seq<byte>)
    ensures |s| <= |data| && (s == data <==> |data| < INT_RANGE)
  {
    SentPart(|data|);
    if AsInt(|data|) < 0 then [] else data[..AsInt(|data|)]
  }

  /** The part is the beginning; nothing is sent of a length that is negative as an int. */
  lemma SentIs(data: seq<byte>)
    ensures Sent(data) <= data && |Sent(data)| == if |data| % 0x1_0000_0000 < 0x8000_0000 then |data| % 0x1_0000_0000 else 0
  {
    var n := |data|;
    SentPart(n);
    var k := AsIntWraps(n);
    var q, r := n / UINT_RANGE, n % UINT_RANGE;
    assert n == q * UINT_RANGE + r;
    assert AsInt(n) == (q + k) * UINT_RANGE + r;
    if r < INT_RANGE {
      assert q + k == 0;
    } else {
      assert q + k == -1;
    }
  }

  /** s after memmove of n bytes from src to dst. */
  function Moved(s: seq<byte>, dst: nat, src: nat, n: nat): (r: seq<byte>)
    requires dst + n <= |s| && src + n <= |s|
    ensures |r| == |s|
  {
    s[..dst] + s[src..src + n] + s[dst + n..]
  }

  /** s with data written over it at `at`. */
  function Copied(s: seq<byte>, at: nat, data: seq<byte>): (r: seq<byte>)
    requires at + |data| <= |s|
    ensures |r| == |s|
  {
    s[..at] + data + s[at + |data|..]
  }

  method Move(a: array<byte>, dst: nat, src: nat, n: nat)
    requires dst + n <= a.Length && src + n <= a.Length
    modifies a
    ensures a[..] == Moved(old(a[..]), dst, src, n)
  {
    forall i | 0 <= i < n { a[dst + i] := a[src + i]; }
  }

  method Copy(a: array<byte>, at: nat, data: seq<byte>)
    requires at + |data| <= a.Length
    modifies a
    ensures a[..] == Copied(old(a[..]), at, data)
  {
    forall i | 0 <= i < |data| { a[at + i] := data[i]; }
  }

  method Grow(a: array<byte>, len: nat, size: nat) returns (b: array<byte>)
    requires len <= a.Length && len <= size
    ensures fresh(b) && b.Length == size && b[..len] == a[..len]
  {
    b := new byte[size](_ => 0);
    forall i | 0 <= i < len { b[i] := a[i]; }
  }

  /** Moving the tail up and copying into the gap is an insertion. */
  lemma Opened(s: seq<byte>, len: nat, off: nat, data: seq<byte>)
    requires off <= len && len + |data| <= |s|
    ensures Copied(Moved(s, off + |data|, off, len - off), off, data)[..len + |data|] == s[..len][..off] + data + s[..len][off..]
  {
    var t := Moved(s, off + |data|, off, len - off);
    var u := Copied(t, off, data);
    assert t[..off] == s[..off];
    assert t[off + |data|..len + |data|] == s[off..len];
    assert u[..off + |data|] == t[..off] + data;
    assert u[off + |data|..] == t[off + |data|..];
    assert s[..len][off..] == s[off..len];
  }

  lemma MovedDown(s: seq<byte>, len: nat, to: nat, from: nat)
    requires to <= from <= len <= |s|
    ensures Moved(s, to, from, len - from)[..len - (from - to)] == s[..len][..to] + s[..len][from..]
  {
    assert s[..len][from..] == s[from..len] && s[..len][..to] == s[..to];
  }

  class Mbuf {
    var buf: array<byte>
    var len: nat

    ghost predicate Valid()
      reads this
    {
      len <= buf.Length
    }

    ghost function Contents(): seq<byte>
      reads this, buf
      requires Valid()
    {
      buf[..len]
    }

    constructor (size: nat)
      ensures Valid() && fresh(buf) && Contents() == []
    {
      buf := new byte[size](_ => 0);
      len := 0;
    }

    method Slice(lo: nat, hi: nat) returns (s: seq<byte>)
      requires Valid() && lo <= hi <= len
      ensures s == Contents()[lo..hi]
    {
      s := buf[lo..hi];
    }

    method Reserve(n: nat)
      requires Valid()
      modifies this`buf
      ensures Valid() && (buf == old(buf) || fresh(buf))
      ensures buf.Length >= len + n && Contents() == old(Contents())
    {
      if len + n > buf.Length {
        buf := Grow(buf, len, (len + n) * 3 / 2);
      }
    }

    /** mbuf_insert, with memory to be had. */
    method Insert(off: nat, data: seq<byte>)
      requires Valid() && off <= len
      modifies this, buf
      ensures Valid() && (buf == old(buf) || fresh(buf))
      ensures Contents() == old(Contents()[..off]) + data + old(Contents()[off..])
    {
      Reserve(|data|);
      Place(off, data);
    }

    method Place(off: nat, data: seq<byte>)
      requires Valid() && off <= len && len + |data| <= buf.Length
      modifies this`len, buf
      ensures Valid() && Contents() == old(Contents()[..off]) + data + old(Contents()[off..])
    {
      ghost var s := buf[..];
      assert Contents() == s[..len];
      Move(buf, off + |data|, off, len - off);
      Copy(buf, off, data);
      Opened(s, len, off, data);
      len := len + |data|;
      assert Contents() == buf[..][..len];
    }

    /** mbuf_append of n bytes not given yet. */
    method Extend(n: nat)
      requires Valid()
      modifies this
      ensures Valid() && (buf == old(buf) || fresh(buf))
      ensures len == old(len) + n && Contents()[..old(len)] == old(Contents())
    {
      Reserve(n);
      ghost var c := Contents();
      len := len + n;
      assert Contents()[..|c|] == c;
    }

    /** mbuf_append */
    method Append(data: seq<byte>)
      requires Valid()
      modifies this, buf
      ensures Valid() && (buf == old(buf) || fresh(buf))
      ensures Contents() == old(Contents()) + data
    {
      Insert(len, data);
    }

    /** mg_send on a TCP connection: the length goes through an int, and a negative one is refused as far too large. */
    method Send(data: seq<byte>)
      requires Valid()
      modifies this, buf
      ensures Valid() && (buf == old(buf) || fresh(buf))
      ensures Contents() == old(Contents()) + Sent(data)
    {
      var n := AsInt(|data|);
      if n < 0 {
        assert Contents() + [] == Contents();
      } else {
        SentPart(|data|);
        Append(data[..n]);
      }
    }

    /** Everything from `from` on moves down to `to`. */
    method Cut(to: nat, from: nat)
      requires Valid() && to <= from <= len
      modifies this`len, buf
      ensures Valid() && Contents() == old(Contents()[..to]) + old(Contents()[from..])
    {
      ghost var s := buf[..];
      ghost var was := len;
      Move(buf, to, from, len - from);
      len := len - (from - to);
      MovedDown(s, was, to, from);
      assert Contents() == buf[..][..len];
    }

    /** mbuf_remove: nothing happens when more is asked for than there is. */
    method Remove(n: nat)
      requires Valid()
      modifies this`len, buf
      ensures Valid() && Contents() == if n <= old(len) then old(Contents())[n..] else old(Contents())
    {
      if 0 < n <= len {
        Cut(0, n);
      }
    }
  }
}
