/** A chained hash table on values: rows of pairs, the slot of a key, and what an update of one row does to lookups. */
module DictRows {
  import opened CInts

  datatype Option<T> = None | Some(value: T)

  datatype Pair = Pair(key: int, val: int)

  // ---- the slot of a key

  lemma {:induction false} Pow2Split(a: nat, b: nat)
    ensures Pow2(a + b) == Pow2(a) * Pow2(b)
  {
    if a > 0 {
      Pow2Split(a - 1, b);
      assert Pow2(a) * Pow2(b) == 2 * (Pow2(a - 1) * Pow2(b));
    }
  }

  lemma Pow2Word()
    ensures Pow2(31) == INT_RANGE && Pow2(32) == UINT_RANGE
  {
    Pow2Split(1, 1);
    Pow2Split(2, 2);
    Pow2Split(4, 4);
    Pow2Split(8, 8);
    Pow2Split(16, 8);
    Pow2Split(24, 4);
    Pow2Split(28, 2);
    Pow2Split(30, 1);
  }

  lemma Halves(a: nat, b: nat)
    requires a * b == INT_RANGE && b >= 2
    ensures a < INT_RANGE
  {
    assert a * b == a * 2 + a * (b - 2);
  }

  /** A power of two from 2^31 on is no positive int. */
  lemma Pow2Narrow(n: nat)
    ensures Pow2(n) >= INT_RANGE ==> AsInt(Pow2(n)) <= 0
  {
    hide Pow2;
    Pow2Word();
    if n < 31 {
      Pow2Split(n, 31 - n);
      Pow2More(31 - n);
      Halves(Pow2(n), Pow2(31 - n));
    } else if n > 31 {
      Pow2Split(32, n - 32);
      Wrapped(INT_RANGE, Pow2(n - 32));
    }
  }

  lemma Pow2More(n: nat)
    requires n > 0
    ensures Pow2(n) >= 2
  {
  }

  function BitAnd(a: nat, b: nat): (r: nat)
    ensures r <= b
    decreases b
  {
    if b == 0 then 0 else 2 * BitAnd(a / 2, b / 2) + if a % 2 == 1 && b % 2 == 1 then 1 else 0
  }

  lemma {:induction false} AndBelow(a: nat, b: nat)
    ensures BitAnd(a, b) <= a
  {
    if b > 0 { AndBelow(a / 2, b / 2); }
  }

  lemma AndOdd(a: nat, m: nat)
    requires m >= 1
    ensures BitAnd(a, 2 * m - 1) == 2 * BitAnd(a / 2, m - 1) + a % 2
  {
    assert (2 * m - 1) / 2 == m - 1 && (2 * m - 1) % 2 == 1;
  }

  lemma MaskDoubled(a: nat, m: nat)
    requires m >= 1 && BitAnd(a / 2, m - 1) == a / 2 % m
    ensures BitAnd(a, 2 * m - 1) == a % (2 * m)
  {
    AndOdd(a, m);
    HalfRemainder(a, m);
  }

  /** Masking with one less than a power of two is the remainder: every slot is reachable. */
  lemma {:induction false} MaskIsRemainder(a: nat, n: nat)
    ensures BitAnd(a, Pow2(n) - 1) == a % Pow2(n)
  {
    hide BitAnd;
    if n == 0 {
      AndNothing(a);
    } else {
      MaskIsRemainder(a / 2, n - 1);
      MaskDoubled(a, Pow2(n - 1));
    }
  }

  lemma AndNothing(a: nat)
    ensures BitAnd(a, 0) == 0
  {
  }

  lemma HalfRemainder(a: nat, m: nat)
    requires m >= 1
    ensures a % (2 * m) == 2 * (a / 2 % m) + a % 2
  {
    var q, r := a / 2 / m, a / 2 % m;
    assert a / 2 == q * m + r;
    assert a == 2 * (a / 2) + a % 2;
    Remainder(a, 2 * m, q, 2 * r + a % 2);
  }

  function Slot(hash: int -> nat, size: nat, k: int): (i: nat)
    requires size > 0
    ensures i < size
  {
    BitAnd(hash(k), size - 1)
  }

  // ---- one row

  function Find(row: seq<Pair>, k: int): Option<int> {
    if row == [] then None else if row[0].key == k then Some(row[0].val) else Find(row[1..], k)
  }

  /** The row without its first pair for k. */
  function Without(row: seq<Pair>, k: int): seq<Pair> {
    if row == [] then [] else if row[0].key == k then row[1..] else [row[0]] + Without(row[1..], k)
  }

  /** The row with another value in its first pair for k. */
  function With(row: seq<Pair>, k: int, v: int): seq<Pair> {
    if row == [] then [] else if row[0].key == k then [Pair(k, v)] + row[1..] else [row[0]] + With(row[1..], k, v)
  }

  /** Different keys, all of slot i. */
  predicate Proper(hash: int -> nat, size: nat, i: nat, row: seq<Pair>)
    requires size > 0
  {
    row == [] || (Slot(hash, size, row[0].key) == i && Find(row[1..], row[0].key) == None && Proper(hash, size, i, row[1..]))
  }

  lemma PushFound(row: seq<Pair>, p: Pair, k: int)
    ensures Find([p] + row, k) == if k == p.key then Some(p.val) else Find(row, k)
    ensures ([p] + row)[1..] == row
  {
  }

  lemma {:induction false} WithoutFound(row: seq<Pair>, k: int, x: int)
    ensures x != k ==> Find(Without(row, k), x) == Find(row, x)
    ensures |Without(row, k)| == |row| - (if Find(row, k) == None then 0 else 1)
  {
    if row != [] && row[0].key != k {
      WithoutFound(row[1..], k, x);
      PushFound(Without(row[1..], k), row[0], x);
    }
  }

  lemma {:induction false} WithFound(row: seq<Pair>, k: int, v: int, x: int)
    ensures x != k ==> Find(With(row, k, v), x) == Find(row, x)
    ensures Find(With(row, k, v), k) == if Find(row, k) == None then None else Some(v)
    ensures |With(row, k, v)| == |row|
  {
    if row != [] {
      if row[0].key == k {
        PushFound(row[1..], Pair(k, v), x);
        PushFound(row[1..], Pair(k, v), k);
      } else {
        WithFound(row[1..], k, v, x);
        PushFound(With(row[1..], k, v), row[0], x);
        PushFound(With(row[1..], k, v), row[0], k);
      }
    }
  }

  lemma {:induction false} WithoutGone(hash: int -> nat, size: nat, i: nat, row: seq<Pair>, k: int)
    requires size > 0 && Proper(hash, size, i, row)
    ensures Find(Without(row, k), k) == None && Proper(hash, size, i, Without(row, k))
  {
    if row != [] && row[0].key != k {
      WithoutGone(hash, size, i, row[1..], k);
      WithoutFound(row[1..], k, row[0].key);
      PushFound(Without(row[1..], k), row[0], k);
    }
  }

  lemma {:induction false} WithProper(hash: int -> nat, size: nat, i: nat, row: seq<Pair>, k: int, v: int)
    requires size > 0 && Proper(hash, size, i, row)
    ensures Proper(hash, size, i, With(row, k, v))
  {
    if row != [] {
      if row[0].key == k {
        PushFound(row[1..], Pair(k, v), k);
      } else {
        WithProper(hash, size, i, row[1..], k, v);
        WithFound(row[1..], k, v, row[0].key);
        PushFound(With(row[1..], k, v), row[0], k);
      }
    }
  }

  lemma PushProper(hash: int -> nat, size: nat, row: seq<Pair>, p: Pair)
    requires size > 0 && Proper(hash, size, Slot(hash, size, p.key), row) && Find(row, p.key) == None
    ensures Proper(hash, size, Slot(hash, size, p.key), [p] + row)
  {
    PushFound(row, p, p.key);
  }

  lemma {:induction false} FoundInSlot(hash: int -> nat, size: nat, i: nat, row: seq<Pair>, k: int)
    requires size > 0 && Proper(hash, size, i, row) && Find(row, k) != None
    ensures Slot(hash, size, k) == i
  {
    if row[0].key != k { FoundInSlot(hash, size, i, row[1..], k); }
  }

  // ---- the whole table

  predicate Good(hash: int -> nat, rows: seq<seq<Pair>>) {
    forall i | 0 <= i < |rows| :: Proper(hash, |rows|, i, rows[i])
  }

  function At(hash: int -> nat, rows: seq<seq<Pair>>, k: int): Option<int> {
    if rows == [] then None else Find(rows[Slot(hash, |rows|, k)], k)
  }

  function Total(rows: seq<seq<Pair>>): nat {
    if rows == [] then 0 else |rows[0]| + Total(rows[1..])
  }

  lemma {:induction false} TotalUpdate(rows: seq<seq<Pair>>, i: nat, row: seq<Pair>)
    requires i < |rows|
    ensures Total(rows[i := row]) == Total(rows) - |rows[i]| + |row|
  {
    if i == 0 {
      assert rows[0 := row][1..] == rows[1..];
    } else {
      assert rows[i := row][1..] == rows[1..][i - 1 := row];
      TotalUpdate(rows[1..], i - 1, row);
    }
  }

  /** The table is the map m: the same keys with the same values, and as many pairs as keys. */
  ghost predicate Refines(hash: int -> nat, rows: seq<seq<Pair>>, m: map<int, int>) {
    && Good(hash, rows) && Total(rows) == |m|
    && (forall k :: At(hash, rows, k) == if k in m then Some(m[k]) else None)
  }

  lemma Added(hash: int -> nat, rows: seq<seq<Pair>>, m: map<int, int>, k: int, v: int)
    requires Refines(hash, rows, m) && rows != [] && k !in m
    ensures var i := Slot(hash, |rows|, k); Refines(hash, rows[i := [Pair(k, v)] + rows[i]], m[k := v])
  {
    var i := Slot(hash, |rows|, k);
    var p, rows' := Pair(k, v), rows[i := [Pair(k, v)] + rows[i]];
    assert At(hash, rows, k) == None;
    PushProper(hash, |rows|, rows[i], p);
    TotalUpdate(rows, i, [p] + rows[i]);
    forall x ensures At(hash, rows', x) == if x in m[k := v] then Some(m[k := v][x]) else None {
      assert At(hash, rows, x) == if x in m then Some(m[x]) else None;
      PushFound(rows[i], p, x);
    }
    assert |m[k := v]| == |m| + 1;
  }

  lemma Replaced(hash: int -> nat, rows: seq<seq<Pair>>, m: map<int, int>, k: int, v: int)
    requires Refines(hash, rows, m) && rows != [] && k in m
    ensures var i := Slot(hash, |rows|, k); Refines(hash, rows[i := With(rows[i], k, v)], m[k := v])
  {
    var i := Slot(hash, |rows|, k);
    var rows' := rows[i := With(rows[i], k, v)];
    WithProper(hash, |rows|, i, rows[i], k, v);
    TotalUpdate(rows, i, With(rows[i], k, v));
    WithFound(rows[i], k, v, k);
    assert At(hash, rows, k) == Some(m[k]);
    forall x ensures At(hash, rows', x) == if x in m[k := v] then Some(m[k := v][x]) else None {
      assert At(hash, rows, x) == if x in m then Some(m[x]) else None;
      WithFound(rows[i], k, v, x);
    }
    assert m[k := v].Keys == m.Keys;
    SameSize(m, m[k := v]);
  }

  lemma SameSize(m: map<int, int>, n: map<int, int>)
    requires m.Keys == n.Keys
    ensures |m| == |n|
  {
    assert |m| == |m.Keys| && |n| == |n.Keys|;
  }

  lemma Deleted(hash: int -> nat, rows: seq<seq<Pair>>, m: map<int, int>, k: int)
    requires Refines(hash, rows, m) && rows != [] && k in m
    ensures var i := Slot(hash, |rows|, k); Refines(hash, rows[i := Without(rows[i], k)], m - {k})
  {
    var i := Slot(hash, |rows|, k);
    var rows' := rows[i := Without(rows[i], k)];
    WithoutGone(hash, |rows|, i, rows[i], k);
    WithoutFound(rows[i], k, k);
    assert At(hash, rows, k) == Some(m[k]);
    TotalUpdate(rows, i, Without(rows[i], k));
    forall x ensures At(hash, rows', x) == if x in m - {k} then Some((m - {k})[x]) else None {
      assert At(hash, rows, x) == if x in m then Some(m[x]) else None;
      WithoutFound(rows[i], k, x);
    }
    assert (m - {k}).Keys == m.Keys - {k};
    assert |(m - {k}).Keys| == |m.Keys| - 1;
  }

  // ---- rehashing

  /** Every pair of a list pushed on the row of its slot, first to last. */
  function Pushed(hash: int -> nat, rows: seq<seq<Pair>>, ps: seq<Pair>): seq<seq<Pair>>
    requires rows != []
    decreases |ps|
  {
    if ps == [] then rows
    else
      var i := Slot(hash, |rows|, ps[0].key);
      Pushed(hash, rows[i := [ps[0]] + rows[i]], ps[1..])
  }

  function Flat(rows: seq<seq<Pair>>): seq<Pair> {
    if rows == [] then [] else rows[0] + Flat(rows[1..])
  }

  function Empty(size: nat): (rows: seq<seq<Pair>>)
    ensures |rows| == size && forall i | 0 <= i < size :: rows[i] == []
  {
    if size == 0 then [] else [[]] + Empty(size - 1)
  }

  lemma {:induction false} FindOver(a: seq<Pair>, b: seq<Pair>, k: int)
    ensures Find(a + b, k) == if Find(a, k) == None then Find(b, k) else Find(a, k)
  {
    if a == [] {
      assert a + b == b;
    } else {
      assert (a + b)[1..] == a[1..] + b;
      FindOver(a[1..], b, k);
    }
  }

  predicate Distinct(ps: seq<Pair>) {
    ps == [] || (Find(ps[1..], ps[0].key) == None && Distinct(ps[1..]))
  }

  lemma {:induction false} DistinctOver(a: seq<Pair>, b: seq<Pair>)
    requires Distinct(a) && Distinct(b) && forall k :: Find(a, k) == None || Find(b, k) == None
    ensures Distinct(a + b)
  {
    if a == [] {
      assert a + b == b;
    } else {
      assert (a + b)[1..] == a[1..] + b;
      forall k ensures Find(a[1..], k) == None || Find(b, k) == None {
        assert Find(a, k) == None || Find(b, k) == None;
      }
      DistinctOver(a[1..], b);
      FindOver(a[1..], b, a[0].key);
      assert Find(a, a[0].key) != None;
      assert Find(b, a[0].key) == None;
    }
  }

  lemma {:induction false} ProperDistinct(hash: int -> nat, size: nat, i: nat, row: seq<Pair>)
    requires size > 0 && Proper(hash, size, i, row)
    ensures Distinct(row)
  {
    if row != [] { ProperDistinct(hash, size, i, row[1..]); }
  }

  /** All pairs from slot j on: the lookups of those slots, no key twice. */
  lemma {:induction false} FlatFound(hash: int -> nat, rows: seq<seq<Pair>>, j: nat)
    requires Good(hash, rows) && rows != [] && j <= |rows|
    ensures Distinct(Flat(rows[j..])) && |Flat(rows[j..])| == Total(rows[j..])
    ensures forall k :: Find(Flat(rows[j..]), k) == if Slot(hash, |rows|, k) >= j then At(hash, rows, k) else None
    decreases |rows| - j
  {
    if j < |rows| {
      FlatFound(hash, rows, j + 1);
      assert rows[j..][1..] == rows[j + 1..];
      var row, rest := rows[j], Flat(rows[j + 1..]);
      ProperDistinct(hash, |rows|, j, row);
      forall k ensures Find(row, k) == None || Find(rest, k) == None {
        if Find(row, k) != None { FoundInSlot(hash, |rows|, j, row, k); }
      }
      DistinctOver(row, rest);
      forall k ensures Find(row + rest, k) == if Slot(hash, |rows|, k) >= j then At(hash, rows, k) else None {
        FindOver(row, rest, k);
        if Find(row, k) != None { FoundInSlot(hash, |rows|, j, row, k); }
      }
    }
  }

  lemma PushOne(hash: int -> nat, rows: seq<seq<Pair>>, p: Pair)
    requires Good(hash, rows) && rows != [] && At(hash, rows, p.key) == None
    ensures var i := Slot(hash, |rows|, p.key); var rows' := rows[i := [p] + rows[i]];
      && Good(hash, rows') && Total(rows') == Total(rows) + 1
      && forall k :: At(hash, rows', k) == if k == p.key then Some(p.val) else At(hash, rows, k)
  {
    var i := Slot(hash, |rows|, p.key);
    PushProper(hash, |rows|, rows[i], p);
    TotalUpdate(rows, i, [p] + rows[i]);
    forall k ensures At(hash, rows[i := [p] + rows[i]], k) == if k == p.key then Some(p.val) else At(hash, rows, k) {
      PushFound(rows[i], p, k);
    }
  }

  lemma {:induction false} PushedAll(hash: int -> nat, rows: seq<seq<Pair>>, ps: seq<Pair>)
    requires Good(hash, rows) && rows != [] && Distinct(ps)
    requires forall k :: At(hash, rows, k) == None || Find(ps, k) == None
    ensures var r := Pushed(hash, rows, ps);
      && |r| == |rows| && Good(hash, r) && Total(r) == Total(rows) + |ps|
      && forall k :: At(hash, r, k) == if Find(ps, k) == None then At(hash, rows, k) else Find(ps, k)
    decreases |ps|
  {
    if ps != [] {
      var p := ps[0];
      assert Find(ps, p.key) != None;
      assert At(hash, rows, p.key) == None;
      PushOne(hash, rows, p);
      var i := Slot(hash, |rows|, p.key);
      var rows' := rows[i := [p] + rows[i]];
      forall k ensures At(hash, rows', k) == None || Find(ps[1..], k) == None {
        assert At(hash, rows, k) == None || Find(ps, k) == None;
      }
      PushedAll(hash, rows', ps[1..]);
    }
  }

  lemma {:induction false} EmptyFound(hash: int -> nat, size: nat)
    requires size > 0
    ensures Good(hash, Empty(size)) && forall k :: At(hash, Empty(size), k) == None
  {
  }

  lemma {:induction false} EmptyTotal(size: nat)
    ensures Total(Empty(size)) == 0
  {
    if size > 0 { EmptyTotal(size - 1); }
  }

  /** Rehashing into a table of any size keeps every pair exactly once, in the row of its slot: the same map. */
  lemma Rehashed(hash: int -> nat, rows: seq<seq<Pair>>, m: map<int, int>, size: nat)
    requires Refines(hash, rows, m) && size > 0
    ensures var r := Pushed(hash, Empty(size), Flat(rows)); |r| == size && Refines(hash, r, m)
  {
    var ps, none := Flat(rows), Empty(size);
    EmptyFound(hash, size);
    EmptyTotal(size);
    if rows != [] {
      FlatFound(hash, rows, 0);
      assert rows[0..] == rows;
    }
    PushedAll(hash, none, ps);
    var r := Pushed(hash, none, ps);
    forall k ensures At(hash, r, k) == if k in m then Some(m[k]) else None {
      assert At(hash, rows, k) == if k in m then Some(m[k]) else None;
      assert At(hash, none, k) == None;
    }
  }
}
