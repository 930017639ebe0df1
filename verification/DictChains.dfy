/** Chains of entries in the heap, and the rows of pairs they hold. */
module DictChains {
  import opened DictRows

  class Entry {
    const key: int
    var val: int
    var next: Entry?

    constructor (key: int, val: int, next: Entry?)
      ensures this.key == key && this.val == val && this.next == next
    {
      this.key, this.val, this.next := key, val, next;
    }
  }

  /** From head, the entries es lead to end and hold the pairs of row. */
  ghost predicate Segment(head: Entry?, es: seq<Entry>, row: seq<Pair>, end: Entry?)
    reads es
    decreases |es|
  {
    if es == [] then head == end && row == []
    else
      && row != [] && head == es[0] && es[0].key == row[0].key && es[0].val == row[0].val
      && Segment(es[0].next, es[1..], row[1..], end)
  }

  /** The entry at place a of a segment. */
  ghost function Place(es: seq<Entry>, a: nat, end: Entry?): Entry?
    requires a <= |es|
  {
    if a < |es| then es[a] else end
  }

  lemma {:induction false} SegSplit(head: Entry?, es: seq<Entry>, row: seq<Pair>, end: Entry?, a: nat)
    requires Segment(head, es, row, end) && a <= |es|
    ensures |row| == |es|
    ensures Segment(head, es[..a], row[..a], Place(es, a, end)) && Segment(Place(es, a, end), es[a..], row[a..], end)
    decreases |es|
  {
    if es == [] {
      assert es[..a] == [] && es[a..] == [];
    } else if a == 0 {
      SegLength(head, es, row, end);
      assert es[0..] == es && row[0..] == row && es[..0] == [] && row[..0] == [];
    } else {
      SegSplit(es[0].next, es[1..], row[1..], end, a - 1);
      assert es[..a][1..] == es[1..][..a - 1] && row[..a][1..] == row[1..][..a - 1];
      assert es[1..][a - 1..] == es[a..] && row[1..][a - 1..] == row[a..];
    }
  }

  lemma {:induction false} SegLength(head: Entry?, es: seq<Entry>, row: seq<Pair>, end: Entry?)
    requires Segment(head, es, row, end)
    ensures |row| == |es| && forall b | 0 <= b < |es| :: es[b].key == row[b].key
    decreases |es|
  {
    if es != [] {
      SegLength(es[0].next, es[1..], row[1..], end);
      forall b | 0 <= b < |es| ensures es[b].key == row[b].key {
        if b > 0 { assert es[1..][b - 1].key == row[1..][b - 1].key; }
      }
    }
  }

  lemma {:induction false} SegJoin(head: Entry?, a: seq<Entry>, row: seq<Pair>, mid: Entry?, b: seq<Entry>, rest: seq<Pair>, end: Entry?)
    requires Segment(head, a, row, mid) && Segment(mid, b, rest, end)
    ensures Segment(head, a + b, row + rest, end)
    decreases |a|
  {
    if a == [] {
      assert a + b == b && row + rest == rest;
    } else {
      SegJoin(a[0].next, a[1..], row[1..], mid, b, rest, end);
      assert (a + b)[1..] == a[1..] + b && (row + rest)[1..] == row[1..] + rest;
    }
  }

  // ---- where a key is in a row

  lemma {:induction false} NotThere(row: seq<Pair>, k: int)
    requires Find(row, k) == None
    ensures forall b | 0 <= b < |row| :: row[b].key != k
  {
    if row != [] {
      NotThere(row[1..], k);
      forall b | 0 <= b < |row| ensures row[b].key != k {
        if b > 0 { assert row[1..][b - 1].key != k; }
      }
    }
  }

  lemma {:induction false} FoundAt(row: seq<Pair>, k: int, a: nat, v: int)
    requires a < |row| && row[a].key == k && Find(row[..a], k) == None
    ensures Find(row, k) == Some(row[a].val)
    ensures With(row, k, v) == row[..a] + ([Pair(k, v)] + row[a + 1..])
    ensures Without(row, k) == row[..a] + row[a + 1..]
    decreases a
  {
    if a == 0 {
      assert row[..0] == [];
    } else {
      var t := row[1..];
      assert row[..a][1..] == t[..a - 1] && row[..a][0] == row[0];
      FoundAt(t, k, a - 1, v);
      assert row[..a] == [row[0]] + t[..a - 1] && row[a + 1..] == t[a..];
      Headed(row[0], t[..a - 1], [Pair(k, v)] + t[a..]);
      Headed(row[0], t[..a - 1], t[a..]);
    }
  }

  lemma Headed(p: Pair, a: seq<Pair>, b: seq<Pair>)
    ensures [p] + (a + b) == [p] + a + b
  {
  }

  lemma FindNext(row: seq<Pair>, k: int, a: nat)
    requires a < |row| && row[a].key != k && Find(row[..a], k) == None
    ensures Find(row[..a + 1], k) == None
  {
    assert row[..a + 1] == row[..a] + [row[a]];
    FindOver(row[..a], [row[a]], k);
  }

  /** Entries with different keys. */
  ghost predicate KeysDiffer(es: seq<Entry>) {
    es == [] || ((forall e | e in es[1..] :: e.key != es[0].key) && KeysDiffer(es[1..]))
  }

  ghost predicate InSlot(hash: int -> nat, size: nat, es: seq<Entry>, i: nat)
    requires size > 0
  {
    forall e | e in es :: Slot(hash, size, e.key) == i
  }

  lemma {:induction false} KeysOf(hash: int -> nat, size: nat, i: nat, head: Entry?, es: seq<Entry>, row: seq<Pair>)
    requires size > 0 && Segment(head, es, row, null) && Proper(hash, size, i, row)
    ensures KeysDiffer(es) && InSlot(hash, size, es, i)
    decreases |es|
  {
    if es != [] {
      KeysOf(hash, size, i, es[0].next, es[1..], row[1..]);
      SegLength(es[0].next, es[1..], row[1..], null);
      NotThere(row[1..], row[0].key);
      forall e | e in es[1..] ensures e.key != es[0].key {
        var b :| 0 <= b < |es[1..]| && es[1..][b] == e;
        assert e.key == row[1..][b].key;
      }
      forall e | e in es ensures Slot(hash, size, e.key) == i {
        if e != es[0] { assert e in es[1..]; }
      }
    }
  }

  lemma {:induction false} NotElsewhere(es: seq<Entry>, a: nat)
    requires KeysDiffer(es) && a < |es|
    ensures es[a] !in es[..a] && es[a] !in es[a + 1..]
    decreases a
  {
    if a > 0 {
      NotElsewhere(es[1..], a - 1);
      assert es[1..][a - 1] == es[a] && es[1..][a..] == es[a + 1..];
      assert es[..a] == [es[0]] + es[1..][..a - 1];
      assert es[a] in es[1..];
    }
  }

  /** A walk along a chain: the entry with the key, and its place. */
  method Search(head: Entry?, key: int, ghost es: seq<Entry>, ghost row: seq<Pair>) returns (he: Entry?, ghost a: nat)
    requires Segment(head, es, row, null)
    ensures a <= |es| == |row| && he == Place(es, a, null) && Find(row[..a], key) == None
    ensures he == null <==> Find(row, key) == None
    ensures he != null ==> he.key == key && row[a].key == key && Find(row, key) == Some(he.val)
  {
    he, a := head, 0;
    SegLength(head, es, row, null);
    assert es[0..] == es && row[0..] == row && row[..0] == [];
    while he != null
      invariant a <= |es| && he == Place(es, a, null) && Find(row[..a], key) == None
      invariant Segment(he, es[a..], row[a..], null)
      decreases |es| - a
    {
      if he.key == key {
        FoundAt(row, key, a, 0);
        return;
      }
      FindNext(row, key, a);
      assert es[a..][1..] == es[a + 1..] && row[a..][1..] == row[a + 1..];
      he := he.next;
      a := a + 1;
    }
    assert row[..a] == row;
  }

  /** The value of the entry at place a set anew. */
  method SetVal(e: Entry, v: int, head: Entry?, ghost es: seq<Entry>, ghost row: seq<Pair>, ghost a: nat)
    requires Segment(head, es, row, null) && KeysDiffer(es) && a < |es| == |row| && e == es[a] && Find(row[..a], e.key) == None
    modifies e`val
    ensures Segment(head, es, With(row, e.key, v), null)
  {
    SegSplit(head, es, row, null, a);
    SegLength(head, es, row, null);
    NotElsewhere(es, a);
    assert es[a..][1..] == es[a + 1..] && row[a..][1..] == row[a + 1..];
    FoundAt(row, e.key, a, v);
    e.val := v;
    assert ([Pair(e.key, v)] + row[a + 1..])[1..] == row[a + 1..];
    assert Segment(e, es[a..], [Pair(e.key, v)] + row[a + 1..], null);
    SegJoin(head, es[..a], row[..a], e, es[a..], [Pair(e.key, v)] + row[a + 1..], null);
    assert es[..a] + es[a..] == es;
  }

  /** The walk of a deletion: the entry with the key, the one before it, and its place. */
  method SearchPrev(head: Entry?, key: int, ghost es: seq<Entry>, ghost row: seq<Pair>) returns (de: Entry?, prev: Entry?, ghost a: nat)
    requires Segment(head, es, row, null)
    ensures a <= |es| == |row| && de == Place(es, a, null) && Find(row[..a], key) == None
    ensures prev == if a == 0 then null else es[a - 1]
    ensures de == null <==> Find(row, key) == None
    ensures de != null ==> de.key == key && row[a].key == key
  {
    de, prev, a := head, null, 0;
    SegLength(head, es, row, null);
    assert es[0..] == es && row[0..] == row && row[..0] == [];
    while de != null
      invariant a <= |es| && de == Place(es, a, null) && Find(row[..a], key) == None
      invariant prev == if a == 0 then null else es[a - 1]
      invariant Segment(de, es[a..], row[a..], null)
      decreases |es| - a
    {
      if de.key == key {
        FoundAt(row, key, a, 0);
        return;
      }
      FindNext(row, key, a);
      assert es[a..][1..] == es[a + 1..] && row[a..][1..] == row[a + 1..];
      prev := de;
      de := de.next;
      a := a + 1;
    }
    assert row[..a] == row;
  }

  lemma SegFrom(head: Entry?, es: seq<Entry>, row: seq<Pair>, a: nat)
    requires Segment(head, es, row, null) && a < |es|
    ensures |row| == |es| && Segment(es[a].next, es[a + 1..], row[a + 1..], null)
    ensures a > 0 ==> es[a - 1].next == es[a]
  {
    SegSplit(head, es, row, null, a);
    assert es[a..][1..] == es[a + 1..] && row[a..][1..] == row[a + 1..];
    if a > 0 {
      SegSplit(head, es, row, null, a - 1);
      assert es[a - 1..][0] == es[a - 1] && es[a - 1..][1] == es[a];
      assert es[a - 1..][1..] == es[a..] && row[a - 1..][1..] == row[a..];
    }
  }

  /** The entry at place a taken out by its predecessor. */
  method Unlink(prev: Entry, de: Entry, head: Entry?, ghost es: seq<Entry>, ghost row: seq<Pair>, ghost a: nat)
    requires Segment(head, es, row, null) && KeysDiffer(es) && 0 < a < |es| == |row| && de == es[a] && prev == es[a - 1]
    modifies prev`next
    ensures Segment(head, es[..a] + es[a + 1..], row[..a] + row[a + 1..], null)
  {
    hide KeysDiffer;
    SegSplit(head, es, row, null, a - 1);
    SegFrom(head, es, row, a);
    NotElsewhere(es, a - 1);
    ghost var tail, rest := es[a + 1..], row[a + 1..];
    assert prev !in tail by { assert forall e | e in tail :: e in es[a..]; }
    assert es[a - 1..][0] == prev && row[a - 1..][0] == row[a - 1];
    prev.next := de.next;
    assert ([prev] + tail)[1..] == tail && ([row[a - 1]] + rest)[1..] == rest;
    assert Segment(prev, [prev] + tail, [row[a - 1]] + rest, null);
    SegJoin(head, es[..a - 1], row[..a - 1], prev, [prev] + tail, [row[a - 1]] + rest, null);
    assert es[..a - 1] + ([prev] + tail) == es[..a] + tail;
    assert row[..a - 1] + ([row[a - 1]] + rest) == row[..a] + rest;
  }
}
