/** The hash table: an array of chains that is rehashed when full, refining a finite map. */
module Dicts {
  import opened CInts
  import opened DictRows
  import opened DictChains

  const INITIAL_SIZE: nat := 4
  const LONG_MAX: nat := 0x7FFF_FFFF_FFFF_FFFF

  /** How dictExpand ends; a table of LONG_MAX slots cannot be allocated. */
  datatype Growth = Grown | Refused | TooLarge

  /** How dictAdd and dictReplace end. */
  datatype Outcome =
    | Inserted
    | Overwritten
    | Exists          // DICT_ERR: the key is there, or its slot is taken for the -1 that says so
    | OutsideTable    // the slot is a negative int: the entry is stored before the table
    | NoEntry         // the entry to overwrite is not there: a null pointer is read
    | NoTable         // growing to LONG_MAX slots or more

  /** The table's chains, their entries taken from repr, hold the rows. */
  ghost predicate Linked(table: array<Entry?>, chains: seq<seq<Entry>>, rows: seq<seq<Pair>>, repr: set<Entry>)
    reads table, repr
  {
    && |chains| == |rows| == table.Length
    && (forall i, e | 0 <= i < |chains| && e in chains[i] :: e in repr)
    && (forall i | 0 <= i < |chains| :: Segment(table[i], chains[i], rows[i], null))
  }

  /** _dictNextPower */
  method NextPower(size: nat) returns (i: nat, ghost log: nat)
    ensures size >= LONG_MAX ==> i == LONG_MAX
    ensures size < LONG_MAX ==> i >= size && log >= 2 && i == Pow2(log) && (i == INITIAL_SIZE || i < 2 * size)
  {
    i, log := INITIAL_SIZE, 2;
    assert Pow2(2) == 4 by { assert Pow2(1) == 2; }
    if size >= LONG_MAX { return LONG_MAX, log; }
    while true
      invariant log >= 2 && i == Pow2(log) && (i == INITIAL_SIZE || i < 2 * size)
      decreases size - i
    {
      if i >= size { return; }
      i, log := i * 2, log + 1;
    }
  }

  /** One entry relinked to the front of its new chain. */
  method Relink(he: Entry, nt: array<Entry?>, h: nat, ghost chains: seq<seq<Entry>>, ghost rows: seq<seq<Pair>>, ghost repr: set<Entry>)
    requires Linked(nt, chains, rows, repr) && he !in repr && h < nt.Length
    modifies he`next, nt
    ensures Linked(nt, chains[h := [he] + chains[h]], rows[h := [Pair(he.key, he.val)] + rows[h]], repr + {he})
  {
    he.next := nt[h];
    nt[h] := he;
    ghost var es, row := [he] + chains[h], [Pair(he.key, he.val)] + rows[h];
    assert es[1..] == chains[h] && row[1..] == rows[h];
    assert Segment(nt[h], es, row, null);
  }

  function NoChains(n: nat): (c: seq<seq<Entry>>)
    ensures |c| == n && forall i | 0 <= i < n :: c[i] == []
  {
    if n == 0 then [] else [[]] + NoChains(n - 1)
  }

  lemma EmptyLinked(nt: array<Entry?>)
    requires forall i | 0 <= i < nt.Length :: nt[i] == null
    ensures Linked(nt, NoChains(nt.Length), Empty(nt.Length), {})
  {
  }

  /** A new entry at the front of a chain. */
  method PushFront(table: array<Entry?>, index: nat, key: int, val: int,
                   ghost chains: seq<seq<Entry>>, ghost rows: seq<seq<Pair>>, ghost repr: set<Entry>) returns (entry: Entry)
    requires Linked(table, chains, rows, repr) && index < table.Length
    modifies table
    ensures fresh(entry)
    ensures Linked(table, chains[index := [entry] + chains[index]], rows[index := [Pair(key, val)] + rows[index]], repr + {entry})
  {
    entry := new Entry(key, val, table[index]);
    ghost var es, row := [entry] + chains[index], [Pair(key, val)] + rows[index];
    assert es[1..] == chains[index] && row[1..] == rows[index];
    table[index] := entry;
    assert Segment(table[index], es, row, null);
  }

  /** The chains from slot i on are still as they were, apart from what was relinked. */
  ghost predicate Waiting(table: array<Entry?>, chains: seq<seq<Entry>>, rows: seq<seq<Pair>>, i: nat, done: set<Entry>, repr: set<Entry>)
    reads table, repr
  {
    && |chains| == |rows| == table.Length
    && (forall j, e | i <= j < |chains| && e in chains[j] :: e in repr && e !in done)
    && (forall j | i <= j < |chains| :: Segment(table[j], chains[j], rows[j], null))
  }

  /** The entry at place a of chain h is gone, and nothing else has changed. */
  ghost predicate Lost(was: seq<seq<Entry>>, now: seq<seq<Entry>>, h: nat, a: nat) {
    h < |was| && a < |was[h]| && now == was[h := was[h][..a] + was[h][a + 1..]]
  }

  /** What dictAdd does with a key in a table that has room for it. */
  function AddOutcome(hash: int -> nat, size: nat, m: map<int, int>, key: int): Outcome
    requires size > 0
  {
    var slot := Slot(hash, size, key);
    if key in m || slot == UINT_RANGE - 1 then Exists else if slot >= INT_RANGE then OutsideTable else Inserted
  }

  function ReplaceOutcome(hash: int -> nat, size: nat, m: map<int, int>, key: int): Outcome
    requires size > 0
  {
    var o := AddOutcome(hash, size, m, key);
    if o == Exists then if key in m then Overwritten else NoEntry else o
  }

  /** dictAdd and dictReplace tell a new key from an old one exactly if the key is old or its slot fits an int. */
  lemma OutcomesIff(hash: int -> nat, size: nat, m: map<int, int>, key: int)
    requires size > 0
    ensures AddOutcome(hash, size, m, key) == (if key in m then Exists else Inserted)
      <==> key in m || Slot(hash, size, key) < INT_RANGE
    ensures ReplaceOutcome(hash, size, m, key) == (if key in m then Overwritten else Inserted)
      <==> key in m || Slot(hash, size, key) < INT_RANGE
    ensures size <= INT_RANGE ==> Slot(hash, size, key) < INT_RANGE
  {
  }

  lemma SlotBound(hash: int -> nat, size: nat, key: int)
    requires size > 0 && hash(key) < UINT_RANGE
    ensures var slot := Slot(hash, size, key);
      slot < UINT_RANGE && AsInt(slot) == if slot < INT_RANGE then slot else slot - UINT_RANGE
  {
    AndBelow(hash(key), size - 1);
  }

  class Dict {
    const hash: int -> nat
    var table: array<Entry?>
    var size: nat
    var sizemask: nat
    var used: nat
    ghost var log: nat
    ghost var chains: seq<seq<Entry>>
    ghost var rows: seq<seq<Pair>>
    ghost var contents: map<int, int>
    ghost var repr: set<Entry>

    /** Size 0, or a power of two no smaller than 4 and than what is used. */
    ghost predicate Sized()
      reads this
    {
      if size == 0 then sizemask == 0 && used == 0
      else log >= 2 && size == Pow2(log) && sizemask == size - 1 && used <= size
    }

    ghost predicate Valid()
      reads this, table, repr
    {
      && Linked(table, chains, rows, repr) && size == table.Length && Sized()
      && Refines(hash, rows, contents) && used == |contents|
    }

    constructor (hash: int -> nat)
      ensures Valid() && contents == map[] && size == 0 && this.hash == hash && fresh(table) && fresh(repr)
    {
      this.hash := hash;
      table := new Entry?[0];
      size, sizemask, used := 0, 0, 0;
      log, chains, rows, contents, repr := 0, [], [], map[], {};
    }

    /** What the row of a key's slot holds for it. */
    lemma RowOf(key: int)
      requires Valid() && size > 0
      ensures DictRows.Find(rows[Slot(hash, size, key)], key) == if key in contents then Some(contents[key]) else None
    {
      assert At(hash, rows, key) == if key in contents then Some(contents[key]) else None;
    }

    /** dictFind */
    method Find(key: int) returns (he: Entry?)
      requires Valid()
      ensures he == null <==> key !in contents
      ensures he != null ==> he in repr && he.key == key && he.val == contents[key]
    {
      assert At(hash, rows, key) == if key in contents then Some(contents[key]) else None;
      if size == 0 { return null; }
      var h;
      h, he := Locate(key);
    }

    /** One step of the rehash: the entry in hand goes to its new chain. */
    method MoveEntry(he: Entry, nt: array<Entry?>, mask: nat, ghost nchains: seq<seq<Entry>>, ghost nrows: seq<seq<Pair>>, ghost done: set<Entry>)
        returns (ghost nchains': seq<seq<Entry>>, ghost nrows': seq<seq<Pair>>)
      requires Linked(nt, nchains, nrows, done) && he !in done && nt.Length == mask + 1
      modifies he`next, nt
      ensures Linked(nt, nchains', nrows', done + {he})
      ensures var i := Slot(hash, |nrows|, he.key); nrows' == nrows[i := [Pair(he.key, he.val)] + nrows[i]]
    {
      var h := BitAnd(hash(he.key), mask);
      Relink(he, nt, h, nchains, nrows, done);
      nchains' := nchains[h := [he] + nchains[h]];
      nrows' := nrows[h := [Pair(he.key, he.val)] + nrows[h]];
    }

    /** The chains' entries sit in their own slots, no key twice: no entry is in two places. */
    ghost predicate Apart()
      reads this`size, this`chains
    {
      size > 0 && |chains| == size && forall j | 0 <= j < size :: KeysDiffer(chains[j]) && InSlot(hash, size, chains[j], j)
    }

    lemma AllApart()
      requires Valid() && size > 0
      ensures Apart()
    {
      forall j | 0 <= j < size ensures KeysDiffer(chains[j]) && InSlot(hash, size, chains[j], j) {
        KeysOf(hash, size, j, table[j], chains[j], rows[j]);
      }
    }

    lemma NotLater(he: Entry, i: nat)
      requires Apart() && i < size && Slot(hash, size, he.key) == i
      ensures forall j | i < j < size :: he !in chains[j]
    {
      forall j | i < j < size ensures he !in chains[j] {
        assert InSlot(hash, size, chains[j], j);
      }
    }

    /** In the middle of slot i: es is the rest of its chain, done what has gone to the new table. */
    ghost predicate Moving(he: Entry?, es: seq<Entry>, row: seq<Pair>, i: nat, nt: array<Entry?>,
                           nchains: seq<seq<Entry>>, nrows: seq<seq<Pair>>, done: set<Entry>)
      reads this`size, this`chains, this`table, this`rows, this`repr, table, repr, nt, done, es
    {
      && Apart() && i < size && nt != table
      && (forall e | e in es :: e in repr && e !in done)
      && Segment(he, es, row, null) && KeysDiffer(es) && InSlot(hash, size, es, i)
      && Linked(nt, nchains, nrows, done) && Waiting(table, chains, rows, i + 1, done, repr)
    }

    lemma InHand(he: Entry, es: seq<Entry>, row: seq<Pair>, i: nat, nt: array<Entry?>,
                 nchains: seq<seq<Entry>>, nrows: seq<seq<Pair>>, done: set<Entry>)
      requires Moving(he, es, row, i, nt, nchains, nrows, done) && nt.Length > 0
      ensures es != [] && he == es[0] && row != [] && he in repr && he !in done && nrows != []
    {
      assert es[0] in es;
    }

    /** One turn of the inner loop. */
    method MoveFirst(he: Entry, i: nat, nt: array<Entry?>, mask: nat, ghost es: seq<Entry>, ghost row: seq<Pair>,
                     ghost nchains: seq<seq<Entry>>, ghost nrows: seq<seq<Pair>>, ghost done: set<Entry>)
        returns (nextHe: Entry?, ghost nchains': seq<seq<Entry>>, ghost nrows': seq<seq<Pair>>)
      requires Moving(he, es, row, i, nt, nchains, nrows, done) && nt.Length == mask + 1
      modifies he`next, nt
      ensures es != [] && he == es[0] && row != []
      ensures Moving(nextHe, es[1..], row[1..], i, nt, nchains', nrows', done + {he})
      ensures var h := Slot(hash, |nrows|, row[0].key); nrows' == nrows[h := [row[0]] + nrows[h]]
    {
      hide KeysDiffer, Slot;
      nextHe := he.next;
      NotElsewhere(es, 0);
      NotLater(he, i);
      TailApart(es, i);
      assert row[0] == Pair(he.key, he.val);
      nchains', nrows' := MoveEntry(he, nt, mask, nchains, nrows, done);
      assert Segment(nextHe, es[1..], row[1..], null);
      assert Waiting(table, chains, rows, i + 1, done + {he}, repr);
    }

    method Turn(he: Entry, i: nat, nt: array<Entry?>, mask: nat, ghost es: seq<Entry>, ghost row: seq<Pair>, ghost rest: seq<Pair>,
                ghost nchains: seq<seq<Entry>>, ghost nrows: seq<seq<Pair>>, ghost done: set<Entry>)
        returns (nextHe: Entry?, ghost nchains': seq<seq<Entry>>, ghost nrows': seq<seq<Pair>>, ghost done': set<Entry>)
      requires Moving(he, es, row, i, nt, nchains, nrows, done) && nt.Length == mask + 1 && done <= repr && used > 0
      modifies he`next, nt, this`used
      ensures es != [] && he == es[0] && row != [] && used == old(used) - 1 && done' <= repr
      ensures Moving(nextHe, es[1..], row[1..], i, nt, nchains', nrows', done')
      ensures Pushed(hash, nrows', row[1..] + rest) == Pushed(hash, nrows, row + rest)
    {
      hide Moving, Pushed;
      InHand(he, es, row, i, nt, nchains, nrows, done);
      PushHead(hash, nrows, row, rest);
      nextHe, nchains', nrows' := MoveFirst(he, i, nt, mask, es, row, nchains, nrows, done);
      done' := done + {he};
      used := used - 1;
    }

    /** All entries of one old chain, front to back. */
    method MoveChain(i: nat, nt: array<Entry?>, mask: nat, ghost rest: seq<Pair>,
                     ghost nchains: seq<seq<Entry>>, ghost nrows: seq<seq<Pair>>, ghost done: set<Entry>)
        returns (ghost nchains': seq<seq<Entry>>, ghost nrows': seq<seq<Pair>>, ghost done': set<Entry>)
      requires i < |chains| == |rows| == table.Length
      requires Moving(table[i], chains[i], rows[i], i, nt, nchains, nrows, done) && nt.Length == mask + 1
      requires used >= |rows[i]| && done <= repr
      modifies this`used, repr, nt
      ensures Waiting(table, chains, rows, i + 1, done', repr) && Linked(nt, nchains', nrows', done')
      ensures done' <= repr && used == old(used) - |rows[i]|
      ensures Pushed(hash, nrows', rest) == Pushed(hash, nrows, rows[i] + rest)
    {
      nchains', nrows', done' := nchains, nrows, done;
      var he := table[i];
      ghost var es, row := chains[i], rows[i];
      ghost var goal := Pushed(hash, nrows, row + rest);
      while he != null
        invariant Moving(he, es, row, i, nt, nchains', nrows', done') && done' <= repr
        invariant Pushed(hash, nrows', row + rest) == goal
        invariant used == old(used) - |rows[i]| + |row| && |row| <= |rows[i]|
        decreases |es|
      {
        he, nchains', nrows', done' := Turn(he, i, nt, mask, es, row, rest, nchains', nrows', done');
        es, row := es[1..], row[1..];
      }
      NothingMore(row, rest);
    }

    /** Before slot i: the slots up to it are in the new table. */
    ghost predicate Between(i: nat, nt: array<Entry?>, nchains: seq<seq<Entry>>, nrows: seq<seq<Pair>>, done: set<Entry>)
      reads this, table, repr, nt, done
    {
      && i <= size == table.Length == |chains| == |rows| && (size > 0 ==> Apart()) && done <= repr && nt != table
      && Waiting(table, chains, rows, i, done, repr) && Linked(nt, nchains, nrows, done)
    }

    method MoveSlot(i: nat, nt: array<Entry?>, mask: nat, ghost nchains: seq<seq<Entry>>, ghost nrows: seq<seq<Pair>>, ghost done: set<Entry>)
        returns (ghost nchains': seq<seq<Entry>>, ghost nrows': seq<seq<Pair>>, ghost done': set<Entry>)
      requires Between(i, nt, nchains, nrows, done) && i < size && nt.Length == mask + 1 && used == Total(rows[i..])
      modifies this`used, repr, nt
      ensures Between(i + 1, nt, nchains', nrows', done') && used == Total(rows[i + 1..])
      ensures Pushed(hash, nrows', Flat(rows[i + 1..])) == Pushed(hash, nrows, Flat(rows[i..]))
    {
      assert rows[i..][0] == rows[i] && rows[i..][1..] == rows[i + 1..];
      nchains', nrows', done' := nchains, nrows, done;
      if table[i] == null {
        NothingMore(rows[i], Flat(rows[i + 1..]));
      } else {
        nchains', nrows', done' := MoveChain(i, nt, mask, Flat(rows[i + 1..]), nchains, nrows, done);
      }
    }

    /** The outer loop of dictExpand: slot after slot, until nothing is left. */
    method MoveAll(nt: array<Entry?>, mask: nat, ghost nchains: seq<seq<Entry>>, ghost nrows: seq<seq<Pair>>)
        returns (i: nat, ghost nchains': seq<seq<Entry>>, ghost nrows': seq<seq<Pair>>, ghost done: set<Entry>)
      requires Between(0, nt, nchains, nrows, {}) && nt.Length == mask + 1 && used == Total(rows[0..])
      modifies this`used, repr, nt
      ensures Between(i, nt, nchains', nrows', done) && (i == size || used == 0) && used == Total(rows[i..])
      ensures Pushed(hash, nrows', Flat(rows[i..])) == Pushed(hash, nrows, Flat(rows[0..]))
    {
      nchains', nrows', done, i := nchains, nrows, {}, 0;
      ghost var goal := Pushed(hash, nrows, Flat(rows[0..]));
      while i < size && used > 0
        invariant Between(i, nt, nchains', nrows', done)
        invariant used == Total(rows[i..]) && Pushed(hash, nrows', Flat(rows[i..])) == goal
      {
        nchains', nrows', done := MoveSlot(i, nt, mask, nchains', nrows', done);
        i := i + 1;
      }
    }

    /** The loop leaves nothing behind: its assertion that no entry is left uncounted holds. */
    lemma AllMoved(i: nat, nt: array<Entry?>, nchains: seq<seq<Entry>>, nrows: seq<seq<Pair>>, done: set<Entry>)
      requires Between(i, nt, nchains, nrows, done) && nrows != []
      requires (i == size || used == 0) && used == Total(rows[i..])
      ensures used == 0 && Pushed(hash, nrows, Flat(rows[i..])) == nrows && Linked(nt, nchains, nrows, repr)
    {
      if i == size { assert rows[i..] == []; }
      NoneLeft(rows[i..]);
      LinkedMore(nt, nchains, nrows, done, repr);
    }

    /** dictExpand; entries are only relinked, none is copied or freed. */
    method Expand(newSize: nat) returns (o: Growth)
      requires Valid()
      modifies this, repr
      ensures Valid() && contents == old(contents) && repr == old(repr) && used == old(used)
      ensures o == if used > newSize then Refused else if newSize >= LONG_MAX then TooLarge else Grown
      ensures if o == Grown then fresh(table) && size >= newSize && size >= INITIAL_SIZE && rows == Pushed(hash, Empty(size), Flat(old(rows)))
              else table == old(table) && size == old(size) && rows == old(rows)
    {
      if used > newSize { return Refused; }
      var realsize;
      ghost var lg;
      realsize, lg := NextPower(newSize);
      if newSize >= LONG_MAX { return TooLarge; }
      Rebuild(realsize, lg);
      o := Grown;
    }

    /** Everything into a fresh table of a power of two of slots. */
    method Rebuild(realsize: nat, ghost lg: nat)
      requires Valid() && used <= realsize == Pow2(lg) && lg >= 2
      modifies this, repr
      ensures Valid() && contents == old(contents) && repr == old(repr) && used == old(used)
      ensures fresh(table) && size == realsize && rows == Pushed(hash, Empty(size), Flat(old(rows)))
    {
      var nt := new Entry?[realsize](_ => null);
      EmptyLinked(nt);
      if size > 0 { AllApart(); }
      Rehashed(hash, rows, contents, realsize);
      Refill(nt, lg, Pushed(hash, Empty(realsize), Flat(rows)));
    }

    method Refill(nt: array<Entry?>, ghost lg: nat, ghost goal: seq<seq<Pair>>)
      requires Linked(table, chains, rows, repr) && size == table.Length && used == Total(rows) == |contents| && (size > 0 ==> Apart())
      requires nt != table && Linked(nt, NoChains(nt.Length), Empty(nt.Length), {}) && nt.Length == Pow2(lg) && lg >= 2 && used <= nt.Length
      requires goal == Pushed(hash, Empty(nt.Length), Flat(rows)) && Refines(hash, goal, contents)
      modifies this, repr, nt
      ensures Valid() && contents == old(contents) && repr == old(repr) && used == old(used)
      ensures table == nt && size == nt.Length && rows == goal
    {
      hide Refines, Segment;
      var keep := used;
      Untouched(table, chains, rows, repr);
      assert rows[0..] == rows;
      var i;
      ghost var nchains, nrows, done;
      i, nchains, nrows, done := MoveAll(nt, nt.Length - 1, NoChains(nt.Length), Empty(nt.Length));
      AllMoved(i, nt, nchains, nrows, done);
      assert used == 0;
      Install(nt, nt.Length, keep, lg, nchains, nrows);
    }

    /** The new table takes the place of the old. */
    method Install(nt: array<Entry?>, realsize: nat, keep: nat, ghost lg: nat, ghost nchains: seq<seq<Entry>>, ghost nrows: seq<seq<Pair>>)
      requires Linked(nt, nchains, nrows, repr) && Refines(hash, nrows, contents) && keep == |contents| <= realsize
      requires realsize == nt.Length == Pow2(lg) && lg >= 2
      modifies this`table, this`size, this`sizemask, this`used, this`log, this`chains, this`rows
      ensures Valid() && table == nt && size == realsize && used == keep && rows == nrows
    {
      hide Refines, Segment;
      table, size, sizemask, used := nt, realsize, realsize - 1, keep;
      log, chains, rows := lg, nchains, nrows;
    }

    /** A full table can double. */
    predicate CanGrow()
      reads this`used, this`size
    {
      used == size ==> 2 * size < LONG_MAX
    }

    /** _dictExpandIfNeeded: unless the table cannot double there is room for one more. */
    method ExpandIfNeeded() returns (o: Growth)
      requires Valid()
      modifies this, repr
      ensures Valid() && contents == old(contents) && repr == old(repr) && used == old(used)
      ensures o == if old(CanGrow()) then Grown else TooLarge
      ensures table == old(table) || fresh(table)
      ensures o == Grown ==> used < size
    {
      o := Grown;
      if size == 0 {
        o := Expand(INITIAL_SIZE);
      } else if used == size {
        o := Expand(size * 2);
      }
    }

    /** _dictKeyIndex: the slot for a new key as an int, or -1 if the key is there; None for a table that cannot grow. */
    method KeyIndex(key: int) returns (index: Option<int>)
      requires Valid()
      modifies this, repr
      ensures Valid() && contents == old(contents) && repr == old(repr) && used == old(used)
      ensures (table == old(table) || fresh(table)) && (index == None <==> !old(CanGrow()))
      ensures index.Some? ==> used < size && index.value == if key in contents then -1 else AsInt(Slot(hash, size, key))
    {
      var o := ExpandIfNeeded();
      if o == TooLarge { return None; }
      if o == Refused { return Some(-1); }
      var h, he := Locate(key);
      index := Some(if he != null then -1 else AsInt(h));
    }

    /** The slot of a key and its entry there, if any. */
    method Locate(key: int) returns (h: nat, he: Entry?)
      requires Valid() && size > 0
      ensures h == Slot(hash, size, key) && (he == null <==> key !in contents)
      ensures he != null ==> he in repr && he.key == key && he.val == contents[key]
    {
      RowOf(key);
      h := BitAnd(hash(key), sizemask);
      ghost var a;
      he, a := Search(table[h], key, chains[h], rows[h]);
      if he != null {
        assert he in chains[h];
      }
    }

    /** dictAdd */
    method Add(key: int, val: int) returns (o: Outcome)
      requires Valid() && hash(key) < UINT_RANGE
      modifies this, table, repr
      ensures Valid() && fresh(repr - old(repr)) && (table == old(table) || fresh(table))
      ensures if old(CanGrow()) then size > 0 && o == AddOutcome(hash, size, old(contents), key) else o == NoTable
      ensures contents == if o == Inserted then old(contents)[key := val] else old(contents)
    {
      var index := KeyIndex(key);
      if index == None { return NoTable; }
      SlotBound(hash, size, key);
      if index.value == -1 { return Exists; }
      if index.value < 0 { return OutsideTable; }
      Insert(index.value, key, val);
      o := Inserted;
    }

    /** A new entry at the front of its chain. */
    method Insert(index: nat, key: int, val: int)
      requires Valid() && used < size && key !in contents && index == Slot(hash, size, key)
      modifies this`used, this`chains, this`rows, this`repr, this`contents, table
      ensures Valid() && fresh(repr - old(repr)) && contents == old(contents)[key := val]
    {
      hide Refines, Segment;
      Added(hash, rows, contents, key, val);
      var entry := PushFront(table, index, key, val, chains, rows, repr);
      used := used + 1;
      chains, rows, repr := chains[index := [entry] + chains[index]], rows[index := [Pair(key, val)] + rows[index]], repr + {entry};
      contents := contents[key := val];
    }

    /** The chain of one slot replaced. */
    ghost predicate SlotSet(table: array<Entry?>, cs: seq<seq<Entry>>, rs: seq<seq<Pair>>, i: nat, es: seq<Entry>, row: seq<Pair>, rep: set<Entry>)
      reads table, rep
    {
      && |cs| == |rs| == table.Length && i < table.Length
      && (forall j, e | 0 <= j < |cs| && j != i && e in cs[j] :: e in rep)
      && (forall e | e in es :: e in rep)
      && (forall j | 0 <= j < |cs| && j != i :: Segment(table[j], cs[j], rs[j], null))
      && Segment(table[i], es, row, null)
    }

    lemma SlotLinked(table: array<Entry?>, cs: seq<seq<Entry>>, rs: seq<seq<Pair>>, i: nat, es: seq<Entry>, row: seq<Pair>, rep: set<Entry>)
      requires SlotSet(table, cs, rs, i, es, row, rep)
      ensures Linked(table, cs[i := es], rs[i := row], rep)
    {
    }

    lemma NotInOthers(e: Entry, i: nat)
      requires Apart() && i < size && Slot(hash, size, e.key) == i
      ensures forall j | 0 <= j < size && j != i :: e !in chains[j]
    {
      forall j | 0 <= j < size && j != i ensures e !in chains[j] {
        assert InSlot(hash, size, chains[j], j);
      }
    }

    /** The value of a key that is there. */
    method SetValue(h: nat, key: int, val: int)
      requires Linked(table, chains, rows, repr) && size == table.Length && Apart() && h < size && Slot(hash, size, key) == h
      requires DictRows.Find(rows[h], key) != None
      modifies repr
      ensures SlotSet(table, chains, rows, h, chains[h], With(rows[h], key, val), repr)
    {
      var entry, a := Search(table[h], key, chains[h], rows[h]);
      NotInOthers(entry, h);
      SetVal(entry, val, table[h], chains[h], rows[h], a);
    }

    /** dictReplace: a new entry, or a new value in the old one. */
    method Replace(key: int, val: int) returns (o: Outcome)
      requires Valid() && hash(key) < UINT_RANGE
      modifies this, table, repr
      ensures Valid() && fresh(repr - old(repr)) && (table == old(table) || fresh(table))
      ensures if old(CanGrow()) then size > 0 && o == ReplaceOutcome(hash, size, old(contents), key) else o == NoTable
      ensures contents == if o == Inserted || o == Overwritten then old(contents)[key := val] else old(contents)
    {
      o := Add(key, val);
      if o == Exists {
        var entry := Find(key);
        if entry == null { return NoEntry; }
        Overwrite(key, val);
        o := Overwritten;
      }
    }

    method Overwrite(key: int, val: int)
      requires Valid() && size > 0 && key in contents
      modifies repr, this`rows, this`contents
      ensures Valid() && contents == old(contents)[key := val]
    {
      ghost var h := Slot(hash, size, key);
      hide Refines, Segment, SlotSet, Total, Pow2;
      RowOf(key);
      AllApart();
      Replaced(hash, rows, contents, key, val);
      SetValue(BitAnd(hash(key), sizemask), key, val);
      SlotLinked(table, chains, rows, h, chains[h], With(rows[h], key, val), repr);
      assert chains[h := chains[h]] == chains;
      rows := rows[h := With(rows[h], key, val)];
      contents := contents[key := val];
    }

    /** The search and unlinking of dictDelete in one slot. */
    method Remove(h: nat, key: int) returns (found: bool, ghost a: nat)
      requires Linked(table, chains, rows, repr) && size == table.Length && Apart() && h < size && Slot(hash, size, key) == h
      modifies table, repr
      ensures found == (DictRows.Find(rows[h], key) != None) && a <= |chains[h]|
      ensures found ==> a < |chains[h]| && chains[h][a].key == key
      ensures found ==> SlotSet(table, chains, rows, h, chains[h][..a] + chains[h][a + 1..], Without(rows[h], key), repr)
      ensures !found ==> Linked(table, chains, rows, repr)
    {
      hide Slot, Pow2, Without, KeysDiffer;
      var de, prev;
      de, prev, a := SearchPrev(table[h], key, chains[h], rows[h]);
      found := de != null;
      if found {
        SegFrom(table[h], chains[h], rows[h], a);
        FoundAt(rows[h], key, a, 0);
        if prev != null {
          NotInOthers(prev, h);
          Unlink(prev, de, table[h], chains[h], rows[h], a);
        } else {
          FirstOut(chains[h], rows[h]);
          table[h] := de.next;
        }
      }
    }

    /** One entry less. */
    method Forget(h: nat, key: int, ghost a: nat)
      requires h < size == table.Length == |chains| == |rows| && a < |chains[h]| && Sized() && used == |contents| && key in contents
      requires SlotSet(table, chains, rows, h, chains[h][..a] + chains[h][a + 1..], Without(rows[h], key), repr)
      requires Refines(hash, rows[h := Without(rows[h], key)], contents - {key})
      modifies this`used, this`chains, this`rows, this`contents
      ensures Valid() && contents == old(contents) - {key} && Lost(old(chains), chains, h, a)
    {
      hide Refines, Segment, Linked, SlotSet;
      SlotLinked(table, chains, rows, h, chains[h][..a] + chains[h][a + 1..], Without(rows[h], key), repr);
      FewerKeys(contents, key);
      used := used - 1;
      chains := chains[h := chains[h][..a] + chains[h][a + 1..]];
      rows := rows[h := Without(rows[h], key)];
      contents := contents - {key};
    }

    /** dictDelete on a table that has slots. */
    method Take(key: int) returns (ok: bool, ghost h: nat, ghost a: nat)
      requires Valid() && size > 0
      modifies this, table, repr
      ensures Valid() && table == old(table) && repr == old(repr) && size == old(size)
      ensures ok == (key in old(contents)) && contents == old(contents) - {key}
      ensures ok ==> Lost(old(chains), chains, h, a) && old(chains)[h][a].key == key
    {
      hide Refines, Segment;
      RowOf(key);
      AllApart();
      if key in contents { Deleted(hash, rows, contents, key); }
      var slot := BitAnd(hash(key), sizemask);
      h := slot;
      ok, a := Remove(slot, key);
      if ok {
        Forget(slot, key, a);
      } else {
        NoKey(contents, key);
      }
    }

    /** dictDelete: of all chains only the entry of the key, at place a of chain h, goes. */
    method Delete(key: int) returns (ok: bool, ghost h: nat, ghost a: nat)
      requires Valid()
      modifies this, table, repr
      ensures Valid() && table == old(table) && repr == old(repr) && size == old(size)
      ensures ok == (key in old(contents)) && contents == old(contents) - {key}
      ensures ok ==> Lost(old(chains), chains, h, a) && old(chains)[h][a].key == key
    {
      if size == 0 {
        assert At(hash, rows, key) == None;
        NoKey(contents, key);
        return false, 0, 0;
      }
      ok, h, a := Take(key);
    }

    lemma TailApart(es: seq<Entry>, i: nat)
      requires size > 0 && es != [] && KeysDiffer(es) && InSlot(hash, size, es, i)
      ensures KeysDiffer(es[1..]) && InSlot(hash, size, es[1..], i)
      ensures forall e | e in es[1..] :: e in es && e != es[0]
    {
    }
  }

  lemma NoKey(m: map<int, int>, k: int)
    requires k !in m
    ensures m - {k} == m
  {
  }

  lemma FewerKeys(m: map<int, int>, k: int)
    requires k in m
    ensures |m - {k}| == |m| - 1
  {
    assert (m - {k}).Keys == m.Keys - {k};
  }

  lemma FirstOut(es: seq<Entry>, row: seq<Pair>)
    ensures |es| > 0 ==> es[..0] + es[1..] == es[1..]
    ensures |row| > 0 ==> row[..0] + row[1..] == row[1..]
  {
  }

  lemma Untouched(table: array<Entry?>, chains: seq<seq<Entry>>, rows: seq<seq<Pair>>, repr: set<Entry>)
    requires Linked(table, chains, rows, repr)
    ensures Waiting(table, chains, rows, 0, {}, repr)
  {
  }

  lemma LinkedMore(nt: array<Entry?>, chains: seq<seq<Entry>>, rows: seq<seq<Pair>>, done: set<Entry>, repr: set<Entry>)
    requires Linked(nt, chains, rows, done) && done <= repr
    ensures Linked(nt, chains, rows, repr)
  {
  }

  lemma NothingMore(row: seq<Pair>, rest: seq<Pair>)
    requires row == []
    ensures row + rest == rest
  {
  }

  lemma {:induction false} NoneLeft(rows: seq<seq<Pair>>)
    ensures Total(rows) == 0 ==> Flat(rows) == []
  {
    if rows != [] { NoneLeft(rows[1..]); }
  }

  lemma PushHead(hash: int -> nat, rows: seq<seq<Pair>>, row: seq<Pair>, rest: seq<Pair>)
    requires rows != []
    ensures row != [] ==> var h := Slot(hash, |rows|, row[0].key);
      Pushed(hash, rows, row + rest) == Pushed(hash, rows[h := [row[0]] + rows[h]], row[1..] + rest)
  {
    if row != [] { assert (row + rest)[1..] == row[1..] + rest; }
  }
}
