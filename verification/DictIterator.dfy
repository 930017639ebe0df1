/** The iterator: slot after slot, along each chain. */
module DictIterators {
  import opened CInts
  import opened DictRows
  import opened DictChains
  import opened Dicts

  ghost function FlatChains(cs: seq<seq<Entry>>): seq<Entry> {
    if cs == [] then [] else cs[0] + FlatChains(cs[1..])
  }

  class Iterator {
    const ht: Dict
    var index: int
    var entry: Entry?
    var nextEntry: Entry?
    ghost var place: nat              // of the next entry in its chain
    ghost var left: seq<Entry>        // what is still to be returned

    ghost predicate Chained()
      reads ht, ht.table, ht.repr
    {
      && Linked(ht.table, ht.chains, ht.rows, ht.repr) && ht.size == ht.table.Length
      && (ht.size >= INT_RANGE ==> AsInt(ht.size) <= 0)
    }

    ghost predicate Valid()
      reads this, ht, ht.table, ht.repr
    {
      && Chained() && -1 <= index
      && if entry == null then left == (if index + 1 <= ht.size < INT_RANGE then FlatChains(ht.chains[index + 1..]) else [])
         else
           && ht.size < INT_RANGE && 0 <= index < ht.size && place <= |ht.chains[index]|
           && nextEntry == Place(ht.chains[index], place, null)
           && left == ht.chains[index][place..] + FlatChains(ht.chains[index + 1..])
    }

    /** e is the entry returned last, and it is still in the table. */
    ghost predicate Returned(e: Entry)
      reads this, ht
    {
      entry == e && 0 <= index < |ht.chains| && 0 < place <= |ht.chains[index]| && e == ht.chains[index][place - 1]
    }

    /** dictGetIterator; from 2^31 slots on there is nothing to be returned. */
    constructor (ht: Dict)
      requires ht.Valid()
      ensures Valid() && this.ht == ht && left == if ht.size < INT_RANGE then FlatChains(ht.chains) else []
    {
      hide AsInt, Refines, Segment, Pow2, FlatChains, Linked;
      if ht.size >= INT_RANGE { SizeNarrow(ht); }
      this.ht := ht;
      index, entry, nextEntry, place := -1, null, null, 0;
      left := if ht.size < INT_RANGE then FlatChains(ht.chains) else [];
      new;
      assert ht.chains[0..] == ht.chains;
    }

    /** A step was made, but not yet past the end of a chain. */
    ghost predicate Halfway()
      reads this, ht, ht.table, ht.repr
    {
      && Chained() && 0 <= index < ht.size < INT_RANGE && place <= |ht.chains[index]|
      && entry == Place(ht.chains[index], place, null)
      && left == ht.chains[index][place..] + FlatChains(ht.chains[index + 1..])
    }

    /** To the first entry of the next slot; the table's size is compared as an int. */
    method NextSlot() returns (more: bool)
      requires Valid() && entry == null
      modifies this`index, this`entry, this`place
      ensures index == old(index) + 1 && (more ==> Halfway())
      ensures !more ==> Valid() && left == []
    {
      hide Segment, FlatChains;
      index := index + 1;
      if index >= AsInt(ht.size) {
        Exhausted(ht.chains, index);
        return false;
      }
      place := 0;
      entry := ht.table[index];
      FrontChain(ht.chains, ht.rows, index, entry);
      more := true;
    }

    /** To the next slot, or along the chain. */
    method Advance() returns (more: bool)
      requires Valid()
      modifies this`index, this`entry, this`place
      ensures more ==> Halfway()
      ensures !more ==> Valid() && left == []
      ensures index == old(index) + if old(entry) == null then 1 else 0
    {
      if entry == null {
        more := NextSlot();
      } else {
        Along();
        more := true;
      }
    }

    /** To the saved next entry. */
    method Along()
      requires Valid() && entry != null
      modifies this`entry
      ensures Halfway()
    {
      entry := nextEntry;
    }

    method Leave() returns (e: Entry)
      requires Halfway() && entry != null
      modifies this`nextEntry, this`left, this`place
      ensures Valid() && old(left) != [] && e == old(left)[0] && left == old(left)[1..] && Returned(e)
    {
      ThisEntry(ht.chains[index], place, FlatChains(ht.chains[index + 1..]), left);
      NextOf(index, place);
      nextEntry := entry.next;
      left := left[1..];
      place := place + 1;
      e := entry;
    }

    lemma ChainEnds()
      requires Halfway() && entry == null
      ensures Valid()
    {
      RestOfChain(ht.chains[index], place, FlatChains(ht.chains[index + 1..]));
    }

    /** dictNext: the next entry, or null when all were returned. */
    method Next() returns (e: Entry?)
      requires Valid()
      modifies this
      ensures Valid()
      ensures if old(left) == [] then e == null && left == []
              else e == old(left)[0] && left == old(left)[1..] && Returned(old(left)[0])
    {
      hide Valid, Halfway, Returned;
      while true
        invariant Valid() && left == old(left)
        decreases if index < ht.size then ht.size - index else 0, entry != null
      {
        var more := Advance();
        if !more { return null; }
        if entry != null {
          e := Leave();
          return;
        }
        ChainEnds();
      }
    }

    /** The entry just returned is the map's for its key, in the slot the iterator is at. */
    lemma Current(e: Entry)
      requires ht.Valid() && Returned(e) && index < ht.size
      ensures e.key in ht.contents && ht.contents[e.key] == e.val
      ensures Slot(ht.hash, ht.size, e.key) == index
    {
      var es, row := ht.chains[index], ht.rows[index];
      SegHolds(ht.table[index], es, row);
      ProperAt(ht.hash, ht.size, index, row, place - 1);
      assert At(ht.hash, ht.rows, e.key) == Some(e.val);
    }

    /** The user deletes the entry just returned: the walk goes on as if it were still there. */
    method DropReturned(e: Entry)
      requires Valid() && ht.Valid() && Returned(e)
      modifies this`place, ht, ht.table, ht.repr
      ensures Valid() && ht.Valid() && left == old(left)
      ensures ht.table == old(ht.table) && ht.repr == old(ht.repr)
      ensures ht.contents == old(ht.contents) - {e.key}
    {
      hide Refines, Segment;
      Current(e);
      ht.AllApart();
      ghost var was := ht.chains;
      var ok;
      ghost var h, a;
      ok, h, a := ht.Delete(e.key);
      Dropped(was, h, a);
    }

    /** The chain is one shorter; the next entry has moved up. */
    ghost method Dropped(was: seq<seq<Entry>>, h: nat, a: nat)
      requires Chained() && entry != null && ht.size == |was| < INT_RANGE && 0 <= index < |was| && 0 < place <= |was[index]|
      requires nextEntry == Place(was[index], place, null)
      requires left == was[index][place..] + FlatChains(was[index + 1..])
      requires forall j | 0 <= j < |was| :: KeysDiffer(was[j]) && InSlot(ht.hash, |was|, was[j], j)
      requires Lost(was, ht.chains, h, a) && was[h][a].key == was[index][place - 1].key
      modifies this`place
      ensures Valid()
    {
      LostAt(ht.hash, |was|, was, ht.chains, h, a, index, place - 1);
      place := place - 1;
    }

    lemma NextOf(i: nat, a: nat)
      requires Chained() && i < ht.size && a < |ht.chains[i]|
      ensures ht.chains[i][a].next == Place(ht.chains[i], a + 1, null)
    {
      var es, row := ht.chains[i], ht.rows[i];
      SegSplit(ht.table[i], es, row, null, a);
      SegSplit(ht.table[i], es, row, null, a + 1);
      assert es[a..][0] == es[a] && es[a..][1..] == es[a + 1..];
      SegHead(es[a].next, es[a + 1..], row[a..][1..]);
    }
  }

  lemma {:induction false} ProperAt(hash: int -> nat, size: nat, i: nat, row: seq<Pair>, a: nat)
    requires size > 0 && Proper(hash, size, i, row) && a < |row|
    ensures Slot(hash, size, row[a].key) == i && DictRows.Find(row, row[a].key) == Some(row[a].val)
  {
    if a > 0 {
      ProperAt(hash, size, i, row[1..], a - 1);
    }
  }

  lemma SizeNarrow(ht: Dict)
    requires ht.Valid() && ht.size >= INT_RANGE
    ensures AsInt(ht.size) <= 0
  {
    Pow2Narrow(ht.log);
  }

  lemma SegHead(head: Entry?, es: seq<Entry>, row: seq<Pair>)
    requires Segment(head, es, row, null)
    ensures head == if es == [] then null else es[0]
  {
  }

  lemma Exhausted(cs: seq<seq<Entry>>, i: int)
    ensures 0 <= i == |cs| ==> FlatChains(cs[i..]) == []
  {
  }

  lemma FrontChain(cs: seq<seq<Entry>>, rs: seq<seq<Pair>>, i: nat, head: Entry?)
    requires i < |cs| == |rs| && Segment(head, cs[i], rs[i], null)
    ensures FlatChains(cs[i..]) == cs[i] + FlatChains(cs[i + 1..]) && cs[i][0..] == cs[i]
    ensures head == if cs[i] == [] then null else cs[i][0]
    ensures cs[i] == [] ==> cs[i] + FlatChains(cs[i + 1..]) == FlatChains(cs[i + 1..])
  {
    assert cs[i..][1..] == cs[i + 1..];
  }

  lemma RestOfChain(es: seq<Entry>, a: nat, rest: seq<Entry>)
    ensures a == |es| ==> es[a..] + rest == rest
  {
  }

  lemma ThisEntry(es: seq<Entry>, a: nat, rest: seq<Entry>, left: seq<Entry>)
    requires a < |es| && left == es[a..] + rest
    ensures left != [] && left[0] == es[a] && left[1..] == es[a + 1..] + rest
  {
  }

  lemma {:induction false} FlatHolds(table: array<Entry?>, cs: seq<seq<Entry>>, rs: seq<seq<Pair>>, repr: set<Entry>, i: nat)
    requires Linked(table, cs, rs, repr) && i <= |cs|
    ensures Holding(FlatChains(cs[i..]), Flat(rs[i..]))
    decreases |cs| - i
  {
    if i < |cs| {
      FlatHolds(table, cs, rs, repr, i + 1);
      assert cs[i..][1..] == cs[i + 1..] && rs[i..][1..] == rs[i + 1..];
      SegHolds(table[i], cs[i], rs[i]);
      HoldingJoin(cs[i], rs[i], FlatChains(cs[i + 1..]), Flat(rs[i + 1..]));
    }
  }

  /** The entries are those of the pairs, one for one. */
  ghost predicate Holding(es: seq<Entry>, ps: seq<Pair>)
    reads es
  {
    |es| == |ps| && forall i | 0 <= i < |es| :: es[i].key == ps[i].key && es[i].val == ps[i].val
  }

  lemma HoldingJoin(a: seq<Entry>, p: seq<Pair>, b: seq<Entry>, q: seq<Pair>)
    requires Holding(a, p) && Holding(b, q)
    ensures Holding(a + b, p + q)
  {
  }

  lemma {:induction false} SegHolds(head: Entry?, es: seq<Entry>, row: seq<Pair>)
    requires Segment(head, es, row, null)
    ensures Holding(es, row)
    decreases |es|
  {
    if es != [] {
      SegHolds(es[0].next, es[1..], row[1..]);
      HoldingJoin([es[0]], [row[0]], es[1..], row[1..]);
      assert es == [es[0]] + es[1..] && row == [row[0]] + row[1..];
    }
  }

  lemma OneMorePair(ps: seq<Pair>, all: seq<Pair>, es: seq<Entry>, n: nat)
    requires Holding(es, all) && n < |es| && ps == all[..n]
    ensures ps + [Pair(es[n].key, es[n].val)] == all[..n + 1]
  {
    assert all[..n + 1] == all[..n] + [all[n]];
  }

  lemma FirstDiffers(es: seq<Entry>, a: nat)
    requires KeysDiffer(es) && 0 < a < |es|
    ensures es[a].key != es[0].key
  {
    assert es[1..][a - 1] == es[a];
  }

  lemma {:induction false} OneOfAKey(es: seq<Entry>, a: nat, b: nat)
    requires KeysDiffer(es) && a < |es| && b < |es| && es[a].key == es[b].key
    ensures a == b
  {
    if a > 0 { FirstDiffers(es, a); }
    if b > 0 { FirstDiffers(es, b); }
    if a > 0 && b > 0 {
      OneOfAKey(es[1..], a - 1, b - 1);
    }
  }

  /** A deletion takes out the entry of its key and no other: what lies behind it stays. */
  lemma LostAt(hash: int -> nat, size: nat, was: seq<seq<Entry>>, now: seq<seq<Entry>>, h: nat, a: nat, i: nat, b: nat)
    requires size > 0 && |was| == size && forall j | 0 <= j < size :: KeysDiffer(was[j]) && InSlot(hash, size, was[j], j)
    requires Lost(was, now, h, a) && i < size && b < |was[i]| && was[h][a].key == was[i][b].key
    ensures |now| == size && |now[i]| == |was[i]| - 1 && now[i][b..] == was[i][b + 1..] && now[i + 1..] == was[i + 1..]
    ensures Place(now[i], b, null) == Place(was[i], b + 1, null)
  {
    assert was[h][a] in was[h] && was[i][b] in was[i];
    assert h == i;
    OneOfAKey(was[i], a, b);
  }

  /** Keys and values of what an iterator still has to return. */
  method Collect(it: Iterator, ghost all: seq<Pair>) returns (ps: seq<Pair>)
    requires it.Valid() && Holding(it.left, all)
    modifies it
    ensures ps == all
  {
    hide Iterator.Valid, Iterator.Returned, Holding;
    SameLength(it.left, all);
    ghost var es := it.left;
    ps := [];
    assert es[0..] == es;
    NextLeft(es, 0);
    var e := it.Next();
    while e != null
      invariant it.Valid() && |ps| <= |es| == |all| && ps == all[..|ps|]
      invariant e == null ==> |ps| == |es|
      invariant e != null ==> |ps| < |es| && e == es[|ps|] && it.left == es[|ps| + 1..]
      decreases |es| - |ps|
    {
      OneMorePair(ps, all, es, |ps|);
      ps := ps + [Pair(e.key, e.val)];
      NextLeft(es, |ps|);
      e := it.Next();
    }
  }

  lemma SameLength(es: seq<Entry>, all: seq<Pair>)
    requires Holding(es, all)
    ensures |es| == |all|
  {
  }

  lemma NextLeft(es: seq<Entry>, n: nat)
    requires n <= |es|
    ensures if n == |es| then es[n..] == [] else es[n..] != [] && es[n..][0] == es[n] && es[n..][1..] == es[n + 1..]
  {
  }

  /** Every key of the map once, with its value. */
  ghost predicate AllOf(ps: seq<Pair>, m: map<int, int>) {
    Distinct(ps) && |ps| == |m| && forall k :: DictRows.Find(ps, k) == if k in m then Some(m[k]) else None
  }

  lemma NoneOf(m: map<int, int>)
    ensures AllOf([], m) <==> m == map[]
  {
    if AllOf([], m) { assert |m| == 0; }
  }

  /** A walk over the whole table returns everything exactly if its size is an int or it is empty, and else nothing. */
  method VisitAll(ht: Dict) returns (ps: seq<Pair>)
    requires ht.Valid()
    ensures AllOf(ps, ht.contents) <==> ht.size < INT_RANGE || ht.contents == map[]
    ensures ht.size >= INT_RANGE ==> ps == []
  {
    var it := new Iterator(ht);
    NoneOf(ht.contents);
    if ht.size < INT_RANGE {
      FlatHolds(ht.table, ht.chains, ht.rows, ht.repr, 0);
      assert ht.chains[0..] == ht.chains && ht.rows[0..] == ht.rows;
      ps := Collect(it, Flat(ht.rows));
      AllVisited(ht.hash, ht.rows, ht.contents);
    } else {
      ps := Collect(it, []);
    }
  }

  lemma AllVisited(hash: int -> nat, rows: seq<seq<Pair>>, m: map<int, int>)
    requires Refines(hash, rows, m)
    ensures AllOf(Flat(rows), m)
  {
    if rows == [] {
      forall k ensures k !in m {
        assert At(hash, rows, k) == None;
      }
    } else {
      FlatFound(hash, rows, 0);
      assert rows[0..] == rows;
      forall k ensures DictRows.Find(Flat(rows), k) == if k in m then Some(m[k]) else None {
        assert At(hash, rows, k) == if k in m then Some(m[k]) else None;
      }
    }
  }

  // ---- a walk that deletes what it is given

  /** ps are the pairs of `was` that `now` no longer has, each once. */
  ghost predicate Gone(was: map<int, int>, now: map<int, int>, ps: seq<Pair>) {
    && Distinct(ps) && |ps| + |now| == |was|
    && (forall k | k in now :: k in was && was[k] == now[k])
    && (forall k :: DictRows.Find(ps, k) == if k in was && k !in now then Some(was[k]) else None)
  }

  lemma GoneNone(was: map<int, int>)
    ensures Gone(was, was, [])
  {
  }

  lemma GoneMore(was: map<int, int>, now: map<int, int>, ps: seq<Pair>, k: int)
    requires Gone(was, now, ps) && k in now
    ensures Gone(was, now - {k}, ps + [Pair(k, now[k])])
  {
    var p := Pair(k, now[k]);
    assert [p][1..] == [];
    FewerKeys(now, k);
    DistinctOver(ps, [p]);
    forall x ensures DictRows.Find(ps + [p], x) == if x in was && x !in now - {k} then Some(was[x]) else None {
      FindOver(ps, [p], x);
    }
  }

  /** Every key of the map belongs to one of these entries. */
  ghost predicate Covered(m: map<int, int>, es: seq<Entry>) {
    forall k | k in m :: exists i :: 0 <= i < |es| && es[i].key == k
  }

  lemma CoveredLess(m: map<int, int>, es: seq<Entry>)
    requires es != [] && Covered(m, es)
    ensures Covered(m - {es[0].key}, es[1..])
  {
    forall k | k in m - {es[0].key} ensures exists i :: 0 <= i < |es[1..]| && es[1..][i].key == k {
      var i :| 0 <= i < |es| && es[i].key == k;
      assert es[1..][i - 1] == es[i];
    }
  }

  lemma CoveredFirst(hash: int -> nat, rows: seq<seq<Pair>>, m: map<int, int>, es: seq<Entry>)
    requires Refines(hash, rows, m) && Holding(es, Flat(rows))
    ensures Covered(m, es)
  {
    AllVisited(hash, rows, m);
    forall k | k in m ensures exists i :: 0 <= i < |es| && es[i].key == k {
      assert DictRows.Find(Flat(rows), k) == Some(m[k]);
      var i := WhereFound(Flat(rows), k);
      assert es[i].key == k;
    }
  }

  lemma {:induction false} WhereFound(ps: seq<Pair>, k: int) returns (i: nat)
    requires DictRows.Find(ps, k) != None
    ensures i < |ps| && ps[i].key == k
  {
    if ps[0].key == k {
      i := 0;
    } else {
      i := WhereFound(ps[1..], k);
      i := i + 1;
    }
  }

  /** A walk that deletes every entry as it is returned does the same, and what it has not returned stays. */
  method DeleteAll(ht: Dict) returns (ps: seq<Pair>)
    requires ht.Valid()
    modifies ht, ht.table, ht.repr
    ensures ht.Valid() && ht.contents == if ht.size < INT_RANGE then map[] else old(ht.contents)
    ensures AllOf(ps, old(ht.contents)) <==> ht.size < INT_RANGE || old(ht.contents) == map[]
    ensures ht.size >= INT_RANGE ==> ps == []
  {
    ghost var was := ht.contents;
    NoneOf(was);
    var it := Start(ht);
    GoneNone(was);
    ps := [];
    var more := true;
    while more
      invariant it.ht == ht && fresh(it) && ht.table == old(ht.table) && ht.repr == old(ht.repr)
      invariant it.Valid() && ht.Valid()
      invariant Gone(was, ht.contents, ps) && ht.size == old(ht.size)
      invariant if ht.size < INT_RANGE then Covered(ht.contents, it.left) else it.left == [] && ps == [] && ht.contents == was
      invariant !more ==> it.left == []
      decreases |it.left|, more
    {
      more, ps := DeleteNext(it, ps, was);
    }
    if ht.size < INT_RANGE { GoneAll(was, ht.contents, ps); }
  }

  lemma GoneAll(was: map<int, int>, now: map<int, int>, ps: seq<Pair>)
    requires Gone(was, now, ps) && Covered(now, [])
    ensures now == map[] && AllOf(ps, was)
  {
    var none: seq<Entry> := [];
    assert Covered(now, none);
    assert forall k :: k !in now;
    assert now == map[];
  }

  method Start(ht: Dict) returns (it: Iterator)
    requires ht.Valid()
    ensures fresh(it) && it.Valid() && it.ht == ht
    ensures if ht.size < INT_RANGE then Covered(ht.contents, it.left) else it.left == []
  {
    it := new Iterator(ht);
    if ht.size < INT_RANGE {
      FlatHolds(ht.table, ht.chains, ht.rows, ht.repr, 0);
      assert ht.chains[0..] == ht.chains && ht.rows[0..] == ht.rows;
      CoveredFirst(ht.hash, ht.rows, ht.contents, it.left);
    }
  }

  /** One entry returned, noted and deleted. */
  method DeleteNext(it: Iterator, ps: seq<Pair>, ghost was: map<int, int>) returns (more: bool, ps': seq<Pair>)
    requires it.Valid() && it.ht.Valid() && Gone(was, it.ht.contents, ps)
    requires it.ht.size < INT_RANGE ==> Covered(it.ht.contents, it.left)
    modifies it, it.ht, it.ht.table, it.ht.repr
    ensures it.Valid() && it.ht.Valid() && Gone(was, it.ht.contents, ps')
    ensures it.ht.size < INT_RANGE ==> Covered(it.ht.contents, it.left)
    ensures it.ht.table == old(it.ht.table) && it.ht.repr == old(it.ht.repr) && it.ht.size == old(it.ht.size)
    ensures if more then |it.left| < |old(it.left)| else it.left == [] && ps' == ps && it.ht.contents == old(it.ht.contents)
  {
    ps' := ps;
    ghost var left := it.left;
    var e := it.Next();
    more := e != null;
    if more {
      it.Current(e);
      GoneMore(was, it.ht.contents, ps, e.key);
      if it.ht.size < INT_RANGE { CoveredLess(it.ht.contents, left); }
      ps' := ps + [Pair(e.key, e.val)];
      it.DropReturned(e);
    }
  }
}
