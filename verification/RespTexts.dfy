/**
 The byte strings that are replies, described by what they are built of: header
 numbers with or without a sign, one-line texts, data with any two bytes behind
 it.  The parser reads these and no others.
 */
module RespTexts {
  import opened RespGrammar
  import opened RespMachine
  import opened RespRoundTrip
  import RespPrinter

  // ---- header numbers

  const FIGURES: string := "0123456789"

  function Tens(k: nat): (p: nat)
    ensures p > 0
  {
    if k == 0 then 1 else 10 * Tens(k - 1)
  }

  /** A positional number to the base ten, the first figure weighing most. */
  function Weighed(vs: seq<nat>): nat {
    if vs == [] then 0 else vs[0] * Tens(|vs| - 1) + Weighed(vs[1..])
  }

  /** t is written with the figures of these values. */
  predicate Figures(t: string, vs: seq<nat>) {
    |t| == |vs| && forall i | 0 <= i < |t| :: vs[i] < 10 && t[i] == FIGURES[vs[i]]
  }

  lemma FiguresTail(t: string, vs: seq<nat>)
    requires Figures(t, vs) && t != ""
    ensures vs != [] && vs[0] < 10 && DigitVal(t[0]) == vs[0] && t[0] != '\r' && Figures(t[1..], vs[1..])
  {
  }

  lemma Spread(n: nat, v: nat, p: nat)
    ensures (10 * n + v) * p == n * (10 * p) + v * p
  {
  }

  lemma {:induction false} DigitsRead(t: string, vs: seq<nat>, z: string, n: nat)
    requires Figures(t, vs)
    ensures Digits(t + ("\r" + z), n) == n * Tens(|t|) + Weighed(vs)
  {
    hide Figures, DigitVal;
    SameLength(t, vs);
    if t == "" {
      assert t + ("\r" + z) == "\r" + z && n * Tens(0) == n;
    } else {
      FiguresTail(t, vs);
      assert (t + ("\r" + z))[1..] == t[1..] + ("\r" + z);
      DigitsRead(t[1..], vs[1..], z, 10 * n + vs[0]);
      Spread(n, vs[0], Tens(|t| - 1));
    }
  }

  lemma SameLength(t: string, vs: seq<nat>)
    requires Figures(t, vs)
    ensures |t| == |vs|
  {
  }

  datatype Sign = Unsigned | Plus | Minus

  function SignText(g: Sign): string {
    match g
    case Unsigned => ""
    case Plus => "+"
    case Minus => "-"
  }

  function Signed(g: Sign, n: nat): int {
    if g == Minus then 0 - n else n
  }

  /** A header of this value: a sign or none, figures, and a carriage return somewhere behind them. */
  lemma NumberRead(g: Sign, t: string, vs: seq<nat>, z: string)
    requires Figures(t, vs)
    ensures Number(SignText(g) + (t + ("\r" + z))) == Signed(g, Weighed(vs))
  {
    DigitsRead(t, vs, z, 0);
    var s := t + ("\r" + z);
    assert 0 * Tens(|t|) == 0;
    if g == Unsigned {
      assert "" + s == s;
      if t != "" { FiguresTail(t, vs); }
    } else {
      assert (SignText(g) + s)[1..] == s;
    }
  }

  lemma FigureOf(c: char)
    requires 0 <= DigitVal(c) < 10
    ensures c == FIGURES[DigitVal(c)]
  {
  }

  lemma {:induction false} DigitsMade(s: string, n: nat) returns (t: string, vs: seq<nat>, z: string)
    requires Digits(s, n) != -1
    ensures s == t + ("\r" + z) && Figures(t, vs)
    decreases |s|
  {
    if s[0] == '\r' {
      t, vs, z := "", [], s[1..];
    } else {
      var v := DigitVal(s[0]);
      FigureOf(s[0]);
      t, vs, z := DigitsMade(s[1..], 10 * n + v);
      t, vs := [s[0]] + t, [v] + vs;
      assert s == [s[0]] + s[1..];
    }
  }

  ghost predicate Reads(s: string, g: Sign, t: string, vs: seq<nat>, z: string) {
    s == SignText(g) + (t + ("\r" + z)) && Figures(t, vs)
  }

  lemma NumberMade(s: string) returns (g: Sign, t: string, vs: seq<nat>, z: string)
    requires Number(s) != -1
    ensures Reads(s, g, t, vs, z)
  {
    g := if s[0] == '-' then Minus else if s[0] == '+' then Plus else Unsigned;
    var u := if g == Unsigned then s else s[1..];
    t, vs, z := DigitsMade(u, 0);
    assert s == SignText(g) + u;
  }

  /** A header has another value than -1 exactly if it is a number of that value; everything else, and -1 itself, is -1. */
  lemma NumberIff(s: string, n: int)
    requires n != -1
    ensures Number(s) == n <==> exists g, t, vs, z :: Reads(s, g, t, vs, z) && Signed(g, Weighed(vs)) == n
  {
    if Number(s) == n {
      var g, t, vs, z := NumberMade(s);
      NumberRead(g, t, vs, z);
      assert Reads(s, g, t, vs, z) && Signed(g, Weighed(vs)) == n;
    }
    forall g, t, vs, z | Reads(s, g, t, vs, z) && Signed(g, Weighed(vs)) == n ensures Number(s) == n {
      NumberRead(g, t, vs, z);
    }
  }

  // ---- replies

  /** What a server wrote: each header as it spelt it, and whatever two bytes it put behind the data of a bulk. */
  datatype Written =
    | Line(error: bool, text: string)
    | Count(header: string)
    | Bulk(header: string, data: string, tail: string)
    | Multi(header: string, items: seq<Written>)

  function Heading(header: string): int {
    Number(header + CRLF)
  }

  /** Written so that it is a reply: data as long and items as many as the header says, none of either for a header below. */
  predicate Proper(w: Written) {
    match w
    case Line(_, text) => OneLine(text)
    case Count(h) => OneLine(h)
    case Bulk(h, data, tail) => OneLine(h) && if Heading(h) < 0 then data == tail == "" else |data| == Heading(h) && |tail| == 2
    case Multi(h, items) => OneLine(h) && |items| == (if Heading(h) < 0 then 0 else Heading(h))
                            && forall i | 0 <= i < |items| :: Proper(items[i])
  }

  function Text(w: Written): string
    decreases w, 0
  {
    match w
    case Line(error, text) => (if error then "-" else "+") + (text + CRLF)
    case Count(h) => ":" + (h + CRLF)
    case Bulk(h, data, tail) => "$" + (h + CRLF + (data + tail))
    case Multi(h, items) => "*" + (h + CRLF + Texts(items))
  }

  function Texts(ws: seq<Written>): string
    decreases ws, 1
  {
    if ws == [] then "" else Text(ws[0]) + Texts(ws[1..])
  }

  /** The reply meant: a bulk below zero and an array of -1 are nil, and another array below zero is an empty one of that length. */
  function Meaning(w: Written): Reply
    decreases w, 0
  {
    match w
    case Line(error, text) => if error then Error(text) else Status(text)
    case Count(h) => Integer(Heading(h))
    case Bulk(h, data, _) => if Heading(h) < 0 then Nil else Str(data)
    case Multi(h, items) => if Heading(h) == -1 then Nil else Arr(Heading(h), Meanings(items))
  }

  function Meanings(ws: seq<Written>): seq<Reply>
    decreases ws, 1
  {
    if ws == [] then [] else [Meaning(ws[0])] + Meanings(ws[1..])
  }

  /** How many `*` lie around the innermost item. */
  function Nesting(w: Written): nat
    decreases w, 0
  {
    match w
    case Multi(_, items) => 1 + NestingAll(items)
    case _ => 0
  }

  function NestingAll(ws: seq<Written>): nat
    decreases ws, 1
  {
    if ws == [] then 0
    else if Nesting(ws[0]) > NestingAll(ws[1..]) then Nesting(ws[0]) else NestingAll(ws[1..])
  }

  /** A line is scanned up to its end, wherever it lies. */
  lemma LineRead(kind: Kind, h: string, z: string)
    requires OneLine(h)
    ensures Scan(kind, h + CRLF + z) == RespGrammar.Line(kind, h, Heading(h), z)
  {
    var s := h + CRLF + z;
    NewlineAfter(h, z);
    NewlineAfter(h, "");
    assert h + CRLF + "" == h + CRLF;
    NumberStable(h + CRLF, z);
    assert s[..|h|] == h && s[|h| + 2..] == z;
  }

  lemma Behind(c: char, h: string, t: string, z: string)
    ensures var s := [c] + (h + CRLF + t) + z; s[0] == c && s[1..] == h + CRLF + (t + z)
  {
    assert h + CRLF + t + z == h + CRLF + (t + z);
  }

  lemma DataRead(data: string, tail: string, z: string)
    requires |tail| == 2
    ensures RespGrammar.Bulk(|data|, data + tail + z) == Leaf(Str(data), z)
  {
    var s := data + tail + z;
    assert s[..|data|] == data && s[|data| + 2..] == z;
  }

  /** A type byte in front of text that scans to a whole reply. */
  lemma LeafRead(s: string, r: Reply, z: string, depth: nat)
    requires s != "" && KindOf(s[0]) != Untyped && s[0] != '*' && Scan(KindOf(s[0]), s[1..]) == Leaf(r, z)
    ensures ParseItem(s, depth) == Item(r, z)
  {
  }

  lemma OneLineRead(c: char, h: string, z: string, depth: nat)
    requires OneLine(h) && c in "+-:"
    ensures ParseItem([c] + (h + CRLF) + z, depth)
         == Item(if c == '+' then Status(h) else if c == '-' then Error(h) else Integer(Heading(h)), z)
  {
    hide ParseItem, Scan, Heading;
    Behind(c, h, "", z);
    assert h + CRLF + "" == h + CRLF && "" + z == z;
    LineRead(KindOf(c), h, z);
    LeafRead([c] + (h + CRLF) + z, if c == '+' then Status(h) else if c == '-' then Error(h) else Integer(Heading(h)), z, depth);
  }

  /** A `$` header below zero is nil; otherwise so many bytes are the data, and two more are skipped whatever they are. */
  lemma BulkRead(h: string, data: string, tail: string, z: string, depth: nat)
    requires Proper(Written.Bulk(h, data, tail))
    ensures ParseItem("$" + (h + CRLF + (data + tail)) + z, depth) == Item(if Heading(h) < 0 then Nil else Str(data), z)
  {
    hide ParseItem, Scan, Heading;
    Behind('$', h, data + tail, z);
    LineRead(KString, h, data + tail + z);
    if Heading(h) < 0 {
      assert data + tail + z == z;
    } else {
      DataRead(data, tail, z);
    }
    LeafRead("$" + (h + CRLF + (data + tail)) + z, if Heading(h) < 0 then Nil else Str(data), z, depth);
  }

  /** A written reply that is no array. */
  lemma PlainRead(w: Written, z: string, depth: nat)
    requires Proper(w) && !w.Multi?
    ensures ParseItem(Text(w) + z, depth) == Item(Meaning(w), z)
  {
    hide ParseItem, Heading;
    match w
    case Line(error, text) => OneLineRead(if error then '-' else '+', text, z, depth);
    case Count(h) => OneLineRead(':', h, z, depth);
    case Bulk(h, data, tail) => BulkRead(h, data, tail, z, depth);
  }

  lemma MultiHead(w: Written, z: string)
    requires w.Multi? && OneLine(w.header)
    ensures var s := Text(w) + z; s != "" && s[0] == '*' && Scan(KArray, s[1..]) == RespGrammar.Multi(Heading(w.header), Texts(w.items) + z)
  {
    Behind('*', w.header, Texts(w.items), z);
    LineRead(KArray, w.header, Texts(w.items) + z);
  }

  lemma ArrayRead(s: string, n: int, rest: string, depth: nat)
    requires s != "" && s[0] == '*' && depth < MAX_DEPTH && Scan(KArray, s[1..]) == RespGrammar.Multi(n, rest)
    ensures ParseItem(s, depth)
         == if n == -1 then Item(Nil, rest) else if n <= 0 then Item(Arr(n, []), rest) else Closed(n, ParseItems(rest, n, depth + 1))
  {
    assert KindOf(s[0]) == KArray;
  }

  lemma MultiRead(w: Written, z: string, depth: nat)
    requires w.Multi? && Proper(w) && depth < MAX_DEPTH
    requires ParseItems(Texts(w.items) + z, |w.items|, depth + 1)
          == if depth + 1 + NestingAll(w.items) <= MAX_DEPTH then Items(Meanings(w.items), z) else BadItems
    ensures ParseItem(Text(w) + z, depth) == if depth + Nesting(w) <= MAX_DEPTH then Item(Meaning(w), z) else Bad
  {
    hide Text, Heading, ParseItem, ParseItems, Scan;
    MultiHead(w, z);
    ArrayRead(Text(w) + z, Heading(w.header), Texts(w.items) + z, depth);
    if w.items == [] {
      assert Texts(w.items) + z == z;
    }
  }

  /** Whatever is written properly is read as what it means, unless some array lies inside 8 others. */
  lemma {:induction false} WrittenRead(w: Written, z: string, depth: nat)
    requires Proper(w) && depth <= MAX_DEPTH
    ensures ParseItem(Text(w) + z, depth) == if depth + Nesting(w) <= MAX_DEPTH then Item(Meaning(w), z) else Bad
    decreases w, 0
  {
    if !w.Multi? {
      PlainRead(w, z, depth);
    } else if depth == MAX_DEPTH {
      MultiHead(w, z);
    } else {
      AllRead(w.items, z, depth + 1);
      MultiRead(w, z, depth);
    }
  }

  lemma {:induction false} AllRead(ws: seq<Written>, z: string, depth: nat)
    requires depth <= MAX_DEPTH && forall i | 0 <= i < |ws| :: Proper(ws[i])
    ensures ParseItems(Texts(ws) + z, |ws|, depth) == if depth + NestingAll(ws) <= MAX_DEPTH then Items(Meanings(ws), z) else BadItems
    decreases ws, 1
  {
    hide Proper, Text, Meaning, Nesting;
    if ws == [] {
      assert Texts(ws) + z == z;
    } else {
      assert Proper(ws[0]);
      var tail := Texts(ws[1..]) + z;
      assert Texts(ws) + z == Text(ws[0]) + tail;
      WrittenRead(ws[0], tail, depth);
      AllRead(ws[1..], z, depth);
      ItemsCons(Texts(ws) + z, |ws|, depth);
    }
  }

  // ---- nothing else is read

  lemma {:induction false} NoneBefore(s: string)
    requires Newline(s) < |s|
    ensures OneLine(s[..Newline(s)]) && s == s[..Newline(s)] + CRLF + s[Newline(s) + 2..]
  {
    var p := Newline(s);
    if p > 0 {
      var t := s[1..];
      NoneBefore(t);
      assert s[..p] == [s[0]] + t[..p - 1];
      FirstNotEnd(s[0], t, p - 1);
      assert s == [s[0]] + t && t[p - 1 + 2..] == s[p + 2..];
    }
  }

  lemma FirstNotEnd(c: char, t: string, p: nat)
    requires p < |t| && OneLine(t[..p]) && !(c == '\r' && t[0] == '\n')
    ensures OneLine([c] + t[..p])
  {
    var u := [c] + t[..p];
    forall i | 0 <= i < |u| - 1 ensures !(u[i] == '\r' && u[i + 1] == '\n') {
      if i > 0 { assert u[i] == t[..p][i - 1] && u[i + 1] == t[..p][i]; }
    }
  }

  /** The line behind a type byte. */
  lemma LineMade(s: string) returns (h: string, z: string)
    requires s != "" && KindOf(s[0]) != Untyped && Scan(KindOf(s[0]), s[1..]) != Wait
    ensures OneLine(h) && s == [s[0]] + (h + CRLF + z)
    ensures Scan(KindOf(s[0]), s[1..]) == RespGrammar.Line(KindOf(s[0]), h, Heading(h), z)
  {
    var t := s[1..];
    var p := Newline(t);
    NoneBefore(t);
    h, z := t[..p], t[p + 2..];
    LineRead(KindOf(s[0]), h, z);
    assert s == [s[0]] + t;
  }

  ghost predicate Made(w: Written, s: string, r: Reply, rest: string) {
    Proper(w) && s == Text(w) + rest && Meaning(w) == r
  }

  lemma LeafOf(s: string, depth: nat)
    requires ParseItem(s, depth).Item? && s[0] != '*'
    ensures var o := ParseItem(s, depth); KindOf(s[0]) != Untyped && Scan(KindOf(s[0]), s[1..]) == Leaf(o.reply, o.rest)
  {
  }

  lemma BulkMade(h: string, z: string, r: Reply, rest: string) returns (w: Written)
    requires OneLine(h) && RespGrammar.Bulk(Heading(h), z) == Leaf(r, rest)
    ensures Made(w, "$" + (h + CRLF + z), r, rest) && w.Bulk?
  {
    hide Heading;
    var n := Heading(h);
    if n < 0 {
      w := Written.Bulk(h, "", "");
      assert "$" + (h + CRLF + ("" + "")) + z == "$" + (h + CRLF + z);
    } else {
      w := Written.Bulk(h, z[..n], z[n..n + 2]);
      assert z == z[..n] + z[n..n + 2] + rest;
      assert "$" + (h + CRLF + (z[..n] + z[n..n + 2])) + rest == "$" + (h + CRLF + z);
    }
  }

  lemma PlainMade(s: string, depth: nat) returns (w: Written)
    requires ParseItem(s, depth).Item? && s[0] != '*'
    ensures var o := ParseItem(s, depth); Made(w, s, o.reply, o.rest) && !w.Multi?
  {
    hide Newline, Heading, ParseItem, Scan;
    LeafOf(s, depth);
    var h, z := LineMade(s);
    var o := ParseItem(s, depth);
    if s[0] == '$' {
      w := BulkMade(h, z, o.reply, o.rest);
    } else {
      w := if s[0] == ':' then Count(h) else Line(s[0] == '-', h);
      assert [s[0]] + (h + CRLF) + z == [s[0]] + (h + CRLF + z);
    }
  }

  lemma MultiLeaf(w: Written, s: string, z: string, r: Reply, rest: string)
    requires w.Multi? && OneLine(w.header) && s == "*" + (w.header + CRLF + z) && z == Texts(w.items) + rest
    requires var n := Heading(w.header);
      if n <= 0 then w.items == [] && r == (if n == -1 then Nil else Arr(n, []))
      else |w.items| == n && r == Arr(n, Meanings(w.items)) && forall i | 0 <= i < n :: Proper(w.items[i])
    ensures Made(w, s, r, rest)
  {
    hide Heading;
    var t := w.header + CRLF;
    assert "*" + (t + Texts(w.items)) + rest == "*" + (t + (Texts(w.items) + rest));
    assert Proper(w);
    assert s == Text(w) + rest;
    assert Meaning(w) == r;
  }

  lemma {:induction false} ItemMade(s: string, depth: nat) returns (w: Written)
    requires ParseItem(s, depth).Item? && depth <= MAX_DEPTH
    ensures var o := ParseItem(s, depth); Made(w, s, o.reply, o.rest) && depth + Nesting(w) <= MAX_DEPTH
    decreases |s|, 0
  {
    hide Text, Heading, Scan, Newline, Made, Proper, Meaning;
    if s[0] != '*' {
      w := PlainMade(s, depth);
    } else {
      StarOf(s, depth);
      var h, z := LineMade(s);
      var n, o := Heading(h), ParseItem(s, depth);
      ArrayRead(s, n, z, depth);
      var items := [];
      if n > 0 {
        items := ItemsMade(z, n, depth + 1);
      } else {
        assert z == Texts([]) + z;
      }
      w := Multi(h, items);
      MultiLeaf(w, s, z, o.reply, o.rest);
    }
  }

  lemma StarOf(s: string, depth: nat)
    requires ParseItem(s, depth).Item? && s[0] == '*'
    ensures depth < MAX_DEPTH && KindOf(s[0]) == KArray && Scan(KArray, s[1..]) != Wait
  {
  }

  lemma {:induction false} ItemsMade(s: string, n: nat, depth: nat) returns (ws: seq<Written>)
    requires ParseItems(s, n, depth).Items? && depth <= MAX_DEPTH
    ensures var o := ParseItems(s, n, depth);
      && |ws| == n && (forall i | 0 <= i < n :: Proper(ws[i])) && s == Texts(ws) + o.after && Meanings(ws) == o.replies
      && depth + NestingAll(ws) <= MAX_DEPTH
    decreases |s|, 1, n
  {
    hide Proper, Text, Meaning, Nesting;
    if n == 0 {
      ws := [];
      assert s == Texts(ws) + s;
    } else {
      var o := ParseItem(s, depth);
      ItemsCons(s, n, depth);
      var w := ItemMade(s, depth);
      var more := ItemsMade(o.rest, n - 1, depth);
      ws := [w] + more;
      TextsMore(w, more, ParseItems(s, n, depth).after);
    }
  }

  lemma TextsMore(w: Written, more: seq<Written>, after: string)
    ensures var ws := [w] + more;
      && Text(w) + (Texts(more) + after) == Texts(ws) + after
      && Meanings(ws) == [Meaning(w)] + Meanings(more)
      && NestingAll(ws) == if Nesting(w) > NestingAll(more) then Nesting(w) else NestingAll(more)
  {
    assert ([w] + more)[1..] == more;
    assert Text(w) + Texts(more) + after == Text(w) + (Texts(more) + after);
  }

  /** The parser reads a reply exactly where a server has written one with this meaning, nested no deeper than supported. */
  lemma ParsedIff(s: string, r: Reply, rest: string)
    ensures ParseItem(s, 0) == Item(r, rest) <==> exists w :: Made(w, s, r, rest) && Nesting(w) <= MAX_DEPTH
  {
    if ParseItem(s, 0) == Item(r, rest) {
      var w := ItemMade(s, 0);
      assert Made(w, s, r, rest) && Nesting(w) <= MAX_DEPTH;
    }
    forall w | Made(w, s, r, rest) && Nesting(w) <= MAX_DEPTH ensures ParseItem(s, 0) == Item(r, rest) {
      WrittenRead(w, rest, 0);
    }
  }

  /** A byte that announces no type is an error at once, at any depth. */
  lemma NoType(c: char, z: string, depth: nat)
    ensures ParseItem([c] + z, depth) == Bad <== c !in "+-:$*"
    ensures ParseItem("", depth) == More
  {
    assert ([c] + z)[0] == c;
  }

  /** A stream of written replies is read as what they mean, with no error behind them. */
  lemma {:induction false} StreamRead(ws: seq<Written>)
    requires forall i | 0 <= i < |ws| :: Proper(ws[i]) && Nesting(ws[i]) <= MAX_DEPTH
    ensures ParseStream(Texts(ws)) == Stream(Meanings(ws), true)
  {
    hide Proper, Text, Meaning, Nesting;
    if ws != [] {
      assert Proper(ws[0]);
      WrittenRead(ws[0], Texts(ws[1..]), 0);
      StreamRead(ws[1..]);
    }
  }

  // ---- how replies and commands are printed

  /** A number without a superfluous sign or zero. */
  predicate Shortest(h: string) {
    var t := if h != "" && h[0] == '-' then h[1..] else h;
    t != "" && (t[0] == '0' ==> |t| == 1 && h == t) && forall i | 0 <= i < |t| :: t[i] in FIGURES
  }

  lemma {:induction false} DecimalFigures(n: nat) returns (vs: seq<nat>)
    ensures Figures(Decimal(n), vs) && Weighed(vs) == n && vs != [] && (n > 0 ==> vs[0] > 0)
    decreases n
  {
    if n < 10 {
      vs := [n];
      assert Tens(0) == 1;
    } else {
      var us := DecimalFigures(n / 10);
      vs := us + [n % 10];
      WeighedMore(us, n % 10);
      FiguresMore(Decimal(n / 10), us, n % 10);
    }
  }

  lemma FiguresMore(t: string, vs: seq<nat>, v: nat)
    requires Figures(t, vs) && v < 10
    ensures Figures(t + [('0' as int + v) as char], vs + [v])
  {
    assert FIGURES[v] == ('0' as int + v) as char;
  }

  lemma {:induction false} WeighedMore(vs: seq<nat>, v: nat)
    ensures Weighed(vs + [v]) == 10 * Weighed(vs) + v
  {
    if vs == [] {
      assert [] + [v] == [v];
    } else {
      assert (vs + [v])[1..] == vs[1..] + [v];
      WeighedMore(vs[1..], v);
      Times(vs[0], Tens(|vs| - 1));
    }
  }

  lemma Times(v: nat, p: nat)
    ensures v * (10 * p) == 10 * (v * p)
  {
  }

  lemma NumberShortest(n: int)
    ensures Shortest(SignedDecimal(n)) && OneLine(SignedDecimal(n)) && Heading(SignedDecimal(n)) == n
  {
    NumberOf(n, "");
    assert SignedDecimal(n) + CRLF + "" == SignedDecimal(n) + CRLF;
    var m := if n < 0 then -n else n;
    var vs := DecimalFigures(m);
    var t := Decimal(m);
    assert t[0] == FIGURES[vs[0]];
    if m == 0 { assert Decimal(0) == "0"; }
    if n < 0 { assert SignedDecimal(n)[1..] == t; }
    assert SignedDecimal(n)[0] != '-' || n < 0;
  }

  /** As the protocol asks: shortest numbers, `-1` for nil, a line end behind all data, and a count below zero for no array. */
  predicate Canonical(w: Written) {
    match w
    case Line(_, _) => true
    case Count(h) => Shortest(h)
    case Bulk(h, data, tail) => Shortest(h) && if Heading(h) < 0 then h == "-1" else tail == "\r\n"
    case Multi(h, items) => Shortest(h) && Heading(h) >= 0 && forall i | 0 <= i < |items| :: Canonical(items[i])
  }

  ghost predicate Prints(w: Written, r: Reply) {
    Proper(w) && Canonical(w) && Text(w) == Encode(r) && Meaning(w) == r
  }

  lemma LineText(c: string, t: string)
    ensures c + (t + CRLF) == c + t + CRLF
  {
  }

  lemma BodyText(c: string, h: string, t: string)
    ensures c + (h + CRLF + t) == c + h + CRLF + t
  {
  }

  lemma DataText(h: string, t: string)
    ensures "$" + (h + CRLF + (t + "\r\n")) == "$" + h + CRLF + t + CRLF
  {
    BodyText("$", h, t + "\r\n");
    assert "$" + h + CRLF + (t + "\r\n") == "$" + h + CRLF + t + CRLF;
  }

  lemma PlainPrinted(r: Reply) returns (w: Written)
    requires Sayable(r) && !r.Arr?
    ensures Prints(w, r)
  {
    match r
    case Status(t) => w := LinePrinted(false, t);
    case Error(t) => w := LinePrinted(true, t);
    case Integer(n) => w := CountPrinted(n);
    case Nil => w := NilPrinted();
    case Str(t) => w := StrPrinted(t);
  }

  lemma LinePrinted(error: bool, t: string) returns (w: Written)
    requires OneLine(t)
    ensures Prints(w, if error then Error(t) else Status(t))
  {
    LineText(if error then "-" else "+", t);
    w := Line(error, t);
  }

  lemma CountPrinted(n: int) returns (w: Written)
    ensures Prints(w, Integer(n))
  {
    hide Heading, Shortest, SignedDecimal, OneLine;
    NumberShortest(n);
    LineText(":", SignedDecimal(n));
    w := Count(SignedDecimal(n));
  }

  lemma NilPrinted() returns (w: Written)
    ensures Prints(w, Nil)
  {
    hide Heading, Shortest, OneLine;
    NumberShortest(-1);
    MinusOne();
    w := Written.Bulk("-1", "", "");
    assert "-1" + CRLF + ("" + "") == "-1" + CRLF;
    LineText("$", "-1");
    assert "$" + "-1" == "$-1";
  }

  lemma MinusOne()
    ensures SignedDecimal(-1) == "-1"
  {
    assert Decimal(1) == "1";
  }

  lemma StrPrinted(t: string) returns (w: Written)
    ensures Prints(w, Str(t))
  {
    hide Heading, Shortest, OneLine, Decimal;
    NumberShortest(|t|);
    w := Written.Bulk(SignedDecimal(|t|), t, "\r\n");
    DataText(SignedDecimal(|t|), t);
  }

  lemma ArrayPrinted(items: seq<Written>, rs: seq<Reply>) returns (w: Written)
    requires |items| == |rs| && Texts(items) == EncodeAll(rs) && Meanings(items) == rs
    requires forall i | 0 <= i < |items| :: Proper(items[i]) && Canonical(items[i])
    ensures Prints(w, Arr(|rs|, rs))
  {
    hide Heading, Shortest, OneLine, Decimal, Texts, EncodeAll, Meanings;
    NumberShortest(|rs|);
    w := Multi(SignedDecimal(|rs|), items);
    BodyText("*", SignedDecimal(|rs|), EncodeAll(rs));
  }

  /** The text of a reply is its canonical one. */
  lemma {:induction false} Printed(r: Reply) returns (w: Written)
    requires Sayable(r)
    ensures Prints(w, r)
    decreases r, 0
  {
    if r.Arr? {
      var items := AllPrinted(r.items);
      w := ArrayPrinted(items, r.items);
    } else {
      w := PlainPrinted(r);
    }
  }

  lemma {:induction false} AllPrinted(rs: seq<Reply>) returns (ws: seq<Written>)
    requires forall i | 0 <= i < |rs| :: Sayable(rs[i])
    ensures |ws| == |rs| && Texts(ws) == EncodeAll(rs) && Meanings(ws) == rs
    ensures forall i | 0 <= i < |ws| :: Proper(ws[i]) && Canonical(ws[i])
    decreases rs, 1
  {
    hide Proper, Canonical, Text, Meaning, Encode;
    if rs == [] {
      ws := [];
    } else {
      var w := Printed(rs[0]);
      var more := AllPrinted(rs[1..]);
      ws := [w] + more;
      assert ws[1..] == more && [rs[0]] + rs[1..] == rs;
    }
  }

  /** The text of a command is that of the array of its arguments, each a bulk. */
  lemma CommandPrinted(argv: seq<string>) returns (w: Written)
    ensures Proper(w) && Canonical(w) && Text(w) == RespPrinter.CommandText(argv)
    ensures Meaning(w) == Arr(|argv|, RespPrinter.Strs(argv))
  {
    RespPrinter.StrsAt(argv);
    RespPrinter.ArgsAreBulks(argv);
    w := Printed(Arr(|argv|, RespPrinter.Strs(argv)));
  }
}
