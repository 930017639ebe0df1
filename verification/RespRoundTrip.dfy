/** Parsing undoes encoding, for replies up to the supported depth and for no deeper ones. */
module RespRoundTrip {
  import opened RespGrammar

  lemma {:induction false} NewlineAfter(t: string, z: string)
    requires OneLine(t)
    ensures Newline(t + CRLF + z) == |t|
  {
    var s := t + CRLF + z;
    if t != "" {
      assert s[1..] == t[1..] + CRLF + z;
      if |t| == 1 {
        assert s[1] == '\r';
      }
      forall i | 0 <= i < |t[1..]| - 1 ensures !(t[1..][i] == '\r' && t[1..][i + 1] == '\n') {
        assert !(t[i + 1] == '\r' && t[i + 2] == '\n');
      }
      NewlineAfter(t[1..], z);
      assert !(s[0] == '\r' && s[1] == '\n') by {
        if |t| > 1 { assert s[0] == t[0] && s[1] == t[1]; }
      }
    }
  }

  function Horner(a: string, v: nat): int
    requires forall i | 0 <= i < |a| :: 0 <= DigitVal(a[i]) < 10
  {
    if a == "" then v else Horner(a[1..], 10 * v + DigitVal(a[0]))
  }

  lemma {:induction false} HornerAppend(a: string, c: char, v: nat)
    requires forall i | 0 <= i < |a| :: 0 <= DigitVal(a[i]) < 10
    requires 0 <= DigitVal(c) < 10
    ensures Horner(a + [c], v) == 10 * Horner(a, v) + DigitVal(c)
  {
    if a == "" {
      assert [c][1..] == "";
    } else {
      assert (a + [c])[1..] == a[1..] + [c];
      HornerAppend(a[1..], c, 10 * v + DigitVal(a[0]));
    }
  }

  lemma {:induction false} HornerDecimal(n: nat)
    ensures Horner(Decimal(n), 0) == n
    decreases n
  {
    if n < 10 {
      assert Decimal(n)[1..] == "";
    } else {
      HornerDecimal(n / 10);
      HornerAppend(Decimal(n / 10), ('0' as int + n % 10) as char, 0);
    }
  }

  lemma {:induction false} DigitsOf(a: string, z: string, v: nat)
    requires forall i | 0 <= i < |a| :: 0 <= DigitVal(a[i]) < 10
    ensures Digits(a + CRLF + z, v) == Horner(a, v)
  {
    var s := a + CRLF + z;
    if a == "" {
      assert s[0] == '\r';
    } else {
      assert s[1..] == a[1..] + CRLF + z;
      assert s[0] == a[0] && 0 <= DigitVal(a[0]) < 10;
      DigitsOf(a[1..], z, 10 * v + DigitVal(a[0]));
    }
  }

  lemma NumberOf(n: int, z: string)
    ensures Number(SignedDecimal(n) + CRLF + z) == n
    ensures OneLine(SignedDecimal(n))
  {
    var a := Decimal(if n < 0 then -n else n);
    DigitsOf(a, z, 0);
    HornerDecimal(if n < 0 then -n else n);
    if n < 0 {
      Minus(a, z);
    } else {
      assert 0 <= DigitVal(a[0]) < 10;
      assert (a + CRLF + z)[0] == a[0];
    }
  }

  lemma Minus(a: string, z: string)
    ensures var s := "-" + a + CRLF + z; s != "" && s[0] == '-' && s[1..] == a + CRLF + z
  {
  }

  /** A header line of n in front of z, scanned. */
  lemma HeaderBack(kind: Kind, n: int, z: string)
    requires kind == KString || kind == KArray || kind == KInteger
    ensures Scan(kind, SignedDecimal(n) + CRLF + z) == Line(kind, SignedDecimal(n), n, z)
  {
    NumberOf(n, z);
    NewlineAfter(SignedDecimal(n), z);
    var s := SignedDecimal(n) + CRLF + z;
    assert s[..|SignedDecimal(n)|] == SignedDecimal(n);
    assert s[|SignedDecimal(n)| + 2..] == z;
  }

  lemma LineBack(kind: Kind, t: string, z: string)
    requires OneLine(t) && (kind == KStatus || kind == KError)
    ensures Scan(kind, t + CRLF + z) == Line(kind, t, 0, z)
  {
    NewlineAfter(t, z);
    assert (t + CRLF + z)[..|t|] == t;
    assert (t + CRLF + z)[|t| + 2..] == z;
  }

  lemma BulkBack(t: string, z: string)
    ensures Scan(KString, SignedDecimal(|t|) + CRLF + (t + CRLF + z)) == Leaf(Str(t), z)
  {
    var tail := t + CRLF + z;
    HeaderBack(KString, |t|, tail);
    assert tail[..|t|] == t && tail[|t| + 2..] == z;
  }

  /** s is type byte c and then a text that scans to the whole reply r, with z left. */
  ghost predicate ScansTo(s: string, c: char, r: Reply, z: string) {
    s != "" && s[0] == c && KindOf(c) != Untyped && c != '*' && Scan(KindOf(c), s[1..]) == Leaf(r, z)
  }

  lemma SplitLine(t: string, z: string)
    requires OneLine(t)
    ensures ScansTo(Encode(Status(t)) + z, '+', Status(t), z)
    ensures ScansTo(Encode(Error(t)) + z, '-', Error(t), z)
  {
    hide Scan, OneLine;
    LineBack(KStatus, t, z);
    LineBack(KError, t, z);
    assert (Encode(Status(t)) + z)[1..] == t + CRLF + z;
    assert (Encode(Error(t)) + z)[1..] == t + CRLF + z;
  }

  lemma Headed(c: char, a: string, z: string)
    ensures var s := [c] + a + z; s[0] == c && s[1..] == a + z
  {
  }

  lemma SplitNumber(n: int, z: string)
    ensures ScansTo(Encode(Integer(n)) + z, ':', Integer(n), z)
  {
    HeaderBack(KInteger, n, z);
    Headed(':', SignedDecimal(n) + CRLF, z);
    assert Encode(Integer(n)) == [':'] + (SignedDecimal(n) + CRLF);
  }

  lemma SplitNil(z: string)
    ensures ScansTo(Encode(Nil) + z, '$', Nil, z)
  {
    assert Decimal(1) == "1";
    assert SignedDecimal(-1) == "-1";
    HeaderBack(KString, -1, z);
    assert (Encode(Nil) + z)[1..] == SignedDecimal(-1) + CRLF + z;
  }

  lemma SplitBulk(t: string, z: string)
    ensures ScansTo(Encode(Str(t)) + z, '$', Str(t), z)
  {
    hide Scan, SignedDecimal, Decimal;
    BulkBack(t, z);
    PlainSign(|t|);
    var head := SignedDecimal(|t|) + CRLF;
    Headed('$', head + t + CRLF, z);
    InFront(Decimal(|t|), t);
    Regrouped(head, t, z);
  }

  lemma PlainSign(n: nat)
    ensures SignedDecimal(n) == Decimal(n)
  {
  }

  lemma InFront(n: string, t: string)
    ensures "$" + n + CRLF + t + CRLF == ['$'] + (n + CRLF + t + CRLF)
  {
  }

  lemma Regrouped(head: string, t: string, z: string)
    ensures head + t + CRLF + z == head + (t + CRLF + z)
  {
  }

  lemma SplitArray(n: nat, all: string, z: string)
    ensures var s := "*" + Decimal(n) + CRLF + all + z; s[0] == '*' && Scan(KArray, s[1..]) == Multi(n, all + z)
  {
    var head := SignedDecimal(n) + CRLF;
    Headed('*', head + all, z);
    assert "*" + Decimal(n) + CRLF + all == ['*'] + (head + all);
    assert (head + all) + z == head + (all + z);
    HeaderBack(KArray, n, all + z);
  }

  /** An array of n, once its items are parsed. */
  function Closed(n: int, o: ListOutcome): Outcome {
    match o
    case Items(rs, after) => Item(Arr(n, rs), after)
    case MoreItems => More
    case BadItems => Bad
  }

  lemma ParseArray(items: seq<Reply>, z: string, depth: nat)
    requires depth < MAX_DEPTH
    ensures ParseItem(Encode(Arr(|items|, items)) + z, depth)
         == if items == [] then Item(Arr(0, []), EncodeAll(items) + z)
            else Closed(|items|, ParseItems(EncodeAll(items) + z, |items|, depth + 1))
  {
    SplitArray(|items|, EncodeAll(items), z);
    assert Encode(Arr(|items|, items)) == "*" + Decimal(|items|) + CRLF + EncodeAll(items);
    ArrayCase(Encode(Arr(|items|, items)) + z, depth, |items|, EncodeAll(items) + z);
  }

  lemma ArrayCase(s: string, depth: nat, n: nat, rest: string)
    requires s != "" && s[0] == '*' && depth < MAX_DEPTH && Scan(KArray, s[1..]) == Multi(n, rest)
    ensures ParseItem(s, depth) == if n == 0 then Item(Arr(0, []), rest) else Closed(n, ParseItems(rest, n, depth + 1))
  {
    var t := Scan(KArray, s[1..]);
    assert KindOf(s[0]) == KArray;
    if n == 0 {
      assert t == Leaf(Arr(0, []), rest);
    } else {
      assert t == Opens(n, rest);
    }
  }

  lemma SplitPlain(r: Reply, z: string, depth: nat)
    requires Sayable(r) && !r.Arr?
    ensures ParseItem(Encode(r) + z, depth) == Item(r, z)
  {
    match r
    case Status(t) => SplitLine(t, z);
    case Error(t) => SplitLine(t, z);
    case Integer(n) => SplitNumber(n, z);
    case Nil => SplitNil(z);
    case Str(t) => SplitBulk(t, z);
  }

  lemma TooDeep(items: seq<Reply>, z: string)
    ensures ParseItem(Encode(Arr(|items|, items)) + z, MAX_DEPTH) == Bad
  {
    SplitArray(|items|, EncodeAll(items), z);
    assert Encode(Arr(|items|, items)) == "*" + Decimal(|items|) + CRLF + EncodeAll(items);
  }

  lemma ArrayBack(r: Reply, z: string, depth: nat)
    requires r.Arr? && r.elements == |r.items| && depth < MAX_DEPTH
    requires ParseItems(EncodeAll(r.items) + z, |r.items|, depth + 1)
          == if depth + 1 + DepthAll(r.items) <= MAX_DEPTH then Items(r.items, z) else BadItems
    ensures ParseItem(Encode(r) + z, depth) == if depth + Depth(r) <= MAX_DEPTH then Item(r, z) else Bad
  {
    assert r == Arr(|r.items|, r.items) && Depth(r) == 1 + DepthAll(r.items);
    ParseArray(r.items, z, depth);
    if r.items == [] {
      assert EncodeAll(r.items) + z == z;
    }
  }

  /** Decode after encode: the same reply and nothing lost, unless some array lies inside 8 others. */
  lemma {:induction false} ParseEncode(r: Reply, z: string, depth: nat)
    requires Sayable(r) && depth <= MAX_DEPTH
    ensures ParseItem(Encode(r) + z, depth) == if depth + Depth(r) <= MAX_DEPTH then Item(r, z) else Bad
    decreases r, 0
  {
    if r.Arr? {
      if depth < MAX_DEPTH {
        ParseEncodeAll(r.items, z, depth + 1);
        ArrayBack(r, z, depth);
      } else {
        assert r == Arr(|r.items|, r.items) && Depth(r) > 0;
        TooDeep(r.items, z);
      }
    } else {
      SplitPlain(r, z, depth);
    }
  }

  lemma {:induction false} ParseEncodeAll(rs: seq<Reply>, z: string, depth: nat)
    requires forall i | 0 <= i < |rs| :: Sayable(rs[i])
    requires depth <= MAX_DEPTH
    ensures ParseItems(EncodeAll(rs) + z, |rs|, depth) == if depth + DepthAll(rs) <= MAX_DEPTH then Items(rs, z) else BadItems
    decreases rs, 1
  {
    if rs == [] {
      assert EncodeAll(rs) + z == z;
    } else {
      var tail := EncodeAll(rs[1..]) + z;
      FirstOfAll(rs, z);
      ParseEncode(rs[0], tail, depth);
      ParseEncodeAll(rs[1..], z, depth);
      ItemsCons(EncodeAll(rs) + z, |rs|, depth);
    }
  }

  lemma FirstOfAll(rs: seq<Reply>, z: string)
    requires rs != []
    ensures EncodeAll(rs) + z == Encode(rs[0]) + (EncodeAll(rs[1..]) + z)
    ensures [rs[0]] + rs[1..] == rs
    ensures DepthAll(rs) == if Depth(rs[0]) > DepthAll(rs[1..]) then Depth(rs[0]) else DepthAll(rs[1..])
  {
    assert Encode(rs[0]) + EncodeAll(rs[1..]) + z == Encode(rs[0]) + (EncodeAll(rs[1..]) + z);
  }

  /** The replies of a stream before the first one that nests too deep. */
  function Readable(rs: seq<Reply>): Stream {
    if rs == [] then Stream([], true)
    else if Depth(rs[0]) > MAX_DEPTH then Stream([], false)
    else var t := Readable(rs[1..]); Stream([rs[0]] + t.replies, t.ok)
  }

  /** A stream of encoded replies reads back as those replies, with an error exactly at the first too deep one. */
  lemma {:induction false} StreamBack(rs: seq<Reply>)
    requires forall i | 0 <= i < |rs| :: Sayable(rs[i])
    ensures ParseStream(EncodeAll(rs)) == Readable(rs)
  {
    if rs != [] {
      ParseEncode(rs[0], EncodeAll(rs[1..]), 0);
      StreamBack(rs[1..]);
    }
  }

  lemma {:induction false} AllReadable(rs: seq<Reply>)
    ensures Readable(rs).ok <==> forall i | 0 <= i < |rs| :: Depth(rs[i]) <= MAX_DEPTH
    ensures Readable(rs).ok ==> Readable(rs).replies == rs
  {
    if rs != [] {
      AllReadable(rs[1..]);
      assert rs == [rs[0]] + rs[1..];
    }
  }
}
