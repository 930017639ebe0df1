/**
 Quoting a byte string and splitting a line back into arguments.  A line is a C
 string: it ends at its first NUL or at its end.  Characters are those of the C
 locale.
 */
module SdsQuoting {

  datatype Option<T> = None | Some(value: T)

  predicate IsSpace(c: char) {
    c == ' ' || 9 <= c as int <= 13
  }

  predicate IsPrint(c: char) {
    32 <= c as int < 127
  }

  predicate IsHex(c: char) {
    '0' <= c <= '9' || 'a' <= c <= 'f' || 'A' <= c <= 'F'
  }

  /** hex_digit_to_int */
  function HexVal(c: char): (v: nat)
    ensures v < 16
  {
    if '0' <= c <= '9' then c as int - '0' as int
    else if 'a' <= c <= 'f' then c as int - 'a' as int + 10
    else if 'A' <= c <= 'F' then c as int - 'A' as int + 10
    else 0
  }

  function HexDigit(v: nat): (c: char)
    requires v < 16
    ensures IsHex(c) && HexVal(c) == v
  {
    if v < 10 then ('0' as int + v) as char else ('a' as int + v - 10) as char
  }

  predicate Bytes(s: string) {
    forall i | 0 <= i < |s| :: s[i] as int < 256
  }

  // ---- quoting

  const BEL: char := 7 as char
  const BS: char := 8 as char

  /** One byte between quotes. */
  function Escaped(c: char): (e: string)
    ensures e != ""
  {
    if c == '\\' || c == '"' then ['\\', c]
    else if c == '\n' then "\\n"
    else if c == '\r' then "\\r"
    else if c == '\t' then "\\t"
    else if c == BEL then "\\a"
    else if c == BS then "\\b"
    else if IsPrint(c) then [c]
    else var v := c as int % 256; ['\\', 'x', HexDigit(v / 16), HexDigit(v % 16)]
  }

  function EscapedAll(p: string): string {
    if p == "" then "" else Escaped(p[0]) + EscapedAll(p[1..])
  }

  /** The quoted form of a byte string. */
  function Quoted(p: string): string {
    "\"" + EscapedAll(p) + "\""
  }

  method CatEscaped(s: string, c: char) returns (r: string)
    ensures r == s + Escaped(c)
  {
    if c == '\\' || c == '"' {
      r := s + ['\\', c];
    } else if c == '\n' {
      r := s + "\\n";
    } else if c == '\r' {
      r := s + "\\r";
    } else if c == '\t' {
      r := s + "\\t";
    } else if c == BEL {
      r := s + "\\a";
    } else if c == BS {
      r := s + "\\b";
    } else if IsPrint(c) {
      r := s + [c];
    } else {
      var v := c as int % 256;
      r := s + ['\\', 'x', HexDigit(v / 16), HexDigit(v % 16)];
    }
  }

  lemma Assoc(a: string, b: string, c: string)
    ensures a + (b + c) == a + b + c
  {
  }

  /** sdscatrepr */
  method CatRepr(s: string, p: string) returns (r: string)
    ensures r == s + Quoted(p)
  {
    r := s + "\"";
    ghost var goal := r + EscapedAll(p);
    assert p[0..] == p;
    for i := 0 to |p|
      invariant r + EscapedAll(p[i..]) == goal
    {
      assert p[i..][1..] == p[i + 1..];
      Assoc(r, Escaped(p[i]), EscapedAll(p[i + 1..]));
      r := CatEscaped(r, p[i]);
    }
    assert r + "" == r;
    r := r + "\"";
    assert s + "\"" + EscapedAll(p) + "\"" == s + Quoted(p);
  }

  // ---- splitting

  datatype Mode = Plain | Double | Single

  datatype Scanned = Tok(text: string, rest: string) | Bad

  /** The i-th byte of what is left of a line, NUL at its end. */
  function At(s: string, i: nat): char {
    if i < |s| then s[i] else '\0'
  }

  function Unescape(c: char): char {
    match c
    case 'n' => '\n'
    case 'r' => '\r'
    case 't' => '\t'
    case 'b' => BS
    case 'a' => BEL
    case _ => c
  }

  predicate HexEscape(s: string) {
    At(s, 0) == '\\' && At(s, 1) == 'x' && IsHex(At(s, 2)) && IsHex(At(s, 3))
  }

  function HexByte(s: string): char {
    (HexVal(At(s, 2)) * 16 + HexVal(At(s, 3))) as char
  }

  /** After a closing quote: a space or nothing at all. */
  function Closed(cur: string, s: string): Scanned
    requires s != ""
  {
    if At(s, 1) != '\0' && !IsSpace(At(s, 1)) then Bad else Tok(cur, s[1..])
  }

  /** The rest of a token whose bytes so far are cur. */
  function Token(s: string, cur: string, mode: Mode): (t: Scanned)
    ensures t.Tok? ==> |t.rest| <= |s| && (At(s, 0) != '\0' ==> |t.rest| < |s|)
    decreases |s|
  {
    var c := At(s, 0);
    match mode
    case Double =>
      if HexEscape(s) then Token(s[4..], cur + [HexByte(s)], Double)
      else if c == '\\' && At(s, 1) != '\0' then Token(s[2..], cur + [Unescape(s[1])], Double)
      else if c == '"' then Closed(cur, s)
      else if c == '\0' then Bad
      else Token(s[1..], cur + [c], Double)
    case Single =>
      if c == '\\' && At(s, 1) == '\'' then Token(s[2..], cur + ['\''], Single)
      else if c == '\'' then Closed(cur, s)
      else if c == '\0' then Bad
      else Token(s[1..], cur + [c], Single)
    case Plain =>
      if c == '\0' then Tok(cur, s)
      else if c == ' ' || c == '\n' || c == '\r' || c == '\t' then Tok(cur, s[1..])
      else if c == '"' then Token(s[1..], cur, Double)
      else if c == '\'' then Token(s[1..], cur, Single)
      else Token(s[1..], cur + [c], Plain)
  }

  function SkipBlanks(s: string): (t: string)
    ensures |t| <= |s|
  {
    if At(s, 0) != '\0' && IsSpace(At(s, 0)) then SkipBlanks(s[1..]) else s
  }

  function Push(text: string, rest: Option<seq<string>>): Option<seq<string>> {
    match rest
    case None => None
    case Some(more) => Some([text] + more)
  }

  /** All arguments of a line; None for unbalanced quotes or a closing quote followed by something else. */
  function Split(s: string): Option<seq<string>>
    decreases |s|
  {
    var t := SkipBlanks(s);
    if At(t, 0) == '\0' then Some([])
    else
      match Token(t, "", Plain)
      case Bad => None
      case Tok(text, rest) => Push(text, Split(rest))
  }

  // ---- splitting undoes quoting

  lemma FourAhead(h: char, l: char, z: string)
    ensures var s := ['\\', 'x', h, l] + z; At(s, 0) == '\\' && At(s, 1) == 'x' && At(s, 2) == h && At(s, 3) == l && s[4..] == z
  {
  }

  lemma TwoAhead(c: char, z: string)
    ensures var s := ['\\', c] + z; At(s, 0) == '\\' && At(s, 1) == c && s[1] == c && s[2..] == z
  {
  }

  lemma OneAhead(c: char, z: string)
    ensures var s := [c] + z; At(s, 0) == c && s[1..] == z && At(s, 1) == At(z, 0)
  {
  }

  lemma HexBack(c: char, z: string, cur: string)
    requires c as int < 256
    ensures var v := c as int; Token(['\\', 'x', HexDigit(v / 16), HexDigit(v % 16)] + z, cur, Double) == Token(z, cur + [c], Double)
  {
    var v := c as int;
    var s := ['\\', 'x', HexDigit(v / 16), HexDigit(v % 16)] + z;
    FourAhead(HexDigit(v / 16), HexDigit(v % 16), z);
    assert HexEscape(s) && HexByte(s) == c;
  }

  lemma ShortBack(e: char, z: string, cur: string)
    requires e != '\0' && e != 'x'
    ensures Token(['\\', e] + z, cur, Double) == Token(z, cur + [Unescape(e)], Double)
  {
    TwoAhead(e, z);
  }

  lemma PrintBack(c: char, z: string, cur: string)
    requires IsPrint(c) && c != '\\' && c != '"'
    ensures Token([c] + z, cur, Double) == Token(z, cur + [c], Double)
  {
    OneAhead(c, z);
  }

  /** As itself, as a letter behind a backslash, or as two hexadecimal digits. */
  lemma EscapedForms(c: char)
    requires c as int < 256
    ensures var e := Escaped(c); var v := c as int;
      if |e| == 1 then e == [c] && IsPrint(c) && c != '\\' && c != '"'
      else if |e| == 2 then e == ['\\', e[1]] && e[1] != '\0' && e[1] != 'x' && Unescape(e[1]) == c
      else e == ['\\', 'x', HexDigit(v / 16), HexDigit(v % 16)]
  {
    hide HexDigit;
    InByte(c as int);
    if c == '\\' || c == '"' {
      assert Unescape(c) == c;
    } else if c == '\n' || c == '\r' || c == '\t' || c == BEL || c == BS {
      assert |Escaped(c)| == 2;
    }
  }

  lemma InByte(v: nat)
    requires v < 256
    ensures v % 256 == v
  {
  }

  lemma EscapedBack(c: char, z: string, cur: string)
    requires c as int < 256
    ensures Token(Escaped(c) + z, cur, Double) == Token(z, cur + [c], Double)
  {
    hide Token, Escaped, Unescape, HexDigit, IsPrint;
    var e := Escaped(c);
    EscapedForms(c);
    if |e| == 1 {
      PrintBack(c, z, cur);
    } else if |e| == 2 {
      ShortBack(e[1], z, cur);
    } else {
      HexBack(c, z, cur);
    }
  }

  lemma {:induction false} EscapedAllBack(p: string, z: string, cur: string)
    requires Bytes(p)
    ensures Token(EscapedAll(p) + z, cur, Double) == Token(z, cur + p, Double)
  {
    if p == "" {
      assert EscapedAll(p) + z == z && cur + p == cur;
    } else {
      assert Escaped(p[0]) + EscapedAll(p[1..]) + z == Escaped(p[0]) + (EscapedAll(p[1..]) + z);
      EscapedBack(p[0], EscapedAll(p[1..]) + z, cur);
      EscapedAllBack(p[1..], z, cur + [p[0]]);
      assert cur + [p[0]] + p[1..] == cur + p;
    }
  }

  lemma Around(body: string, z: string)
    ensures "\"" + body + "\"" + z == ['"'] + (body + ("\"" + z))
  {
  }

  /** One quoted argument, with whatever follows it. */
  lemma QuotedBack(p: string, z: string)
    requires Bytes(p)
    ensures Token(Quoted(p) + z, "", Plain) == if At(z, 0) != '\0' && !IsSpace(At(z, 0)) then Bad else Tok(p, z)
  {
    hide EscapedAll;
    var tail := EscapedAll(p) + ("\"" + z);
    Around(EscapedAll(p), z);
    OneAhead('"', tail);
    EscapedAllBack(p, "\"" + z, "");
    assert "" + p == p;
    OneAhead('"', z);
  }

  /** Quoted arguments with one space between two of them. */
  function Line(args: seq<string>): string {
    if args == [] then ""
    else if |args| == 1 then Quoted(args[0])
    else Quoted(args[0]) + (" " + Line(args[1..]))
  }

  lemma {:induction false} SplitQuoted(args: seq<string>, lead: string)
    requires forall i | 0 <= i < |args| :: Bytes(args[i])
    requires lead == "" || lead == " "
    ensures Split(lead + Line(args)) == Some(args)
    decreases |args|
  {
    var s := lead + Line(args);
    if args == [] {
      assert s == lead;
    } else {
      var z := if |args| == 1 then "" else " " + Line(args[1..]);
      assert Line(args) == Quoted(args[0]) + z;
      assert SkipBlanks(s) == Line(args) by { Skipped(lead, Line(args)); }
      QuotedBack(args[0], z);
      SplitQuoted(args[1..], if |args| == 1 then "" else " ");
      assert args == [args[0]] + args[1..];
    }
  }

  lemma Skipped(lead: string, t: string)
    requires lead == "" || lead == " "
    requires t != "" && t[0] == '"'
    ensures SkipBlanks(lead + t) == t
  {
    if lead == "" {
      assert lead + t == t;
    } else {
      OneAhead(' ', t);
      assert lead + t == [' '] + t;
    }
  }

  /** Any list of byte strings, with NULs, quotes, backslashes and text that looks like an escape, splits back to itself. */
  lemma RoundTrip(args: seq<string>)
    requires forall i | 0 <= i < |args| :: Bytes(args[i])
    ensures Split(Line(args)) == Some(args)
  {
    SplitQuoted(args, "");
    assert "" + Line(args) == Line(args);
  }

  // ---- the splitting loops

  method ByteAt(line: string, p: nat, k: nat) returns (c: char)
    requires p <= |line|
    ensures c == At(line[p..], k)
  {
    c := if p + k < |line| then line[p + k] else '\0';
  }

  /** One turn of the token loop: where it goes on, or how it ends. */
  datatype Next = Going(p: nat, cur: string, mode: Mode) | Finished(p: nat, cur: string) | Failed

  ghost predicate Agrees(line: string, p: nat, cur: string, mode: Mode, n: Next)
    requires p <= |line|
  {
    match n
    case Going(q, more, next) => p < q <= |line| && Token(line[p..], cur, mode) == Token(line[q..], more, next)
    case Finished(q, text) => q <= |line| && Token(line[p..], cur, mode) == Tok(text, line[q..])
    case Failed => Token(line[p..], cur, mode) == Bad
  }

  lemma Ahead(line: string, p: nat, k: nat)
    requires p + k <= |line|
    ensures line[p..][k..] == line[p + k..]
  {
  }

  method CloseQuote(line: string, p: nat, cur: string, ghost mode: Mode) returns (n: Next)
    requires p < |line| && Token(line[p..], cur, mode) == Closed(cur, line[p..])
    ensures Agrees(line, p, cur, mode, n)
  {
    var c := ByteAt(line, p, 1);
    Ahead(line, p, 1);
    if c != '\0' && !IsSpace(c) { return Failed; }
    n := Finished(p + 1, cur);
  }

  method TurnDouble(line: string, p: nat, cur: string) returns (n: Next)
    requires p <= |line|
    ensures Agrees(line, p, cur, Double, n)
  {
    var c := ByteAt(line, p, 0);
    var d := ByteAt(line, p, 1);
    var h := ByteAt(line, p, 2);
    var l := ByteAt(line, p, 3);
    if c == '\\' && d == 'x' && IsHex(h) && IsHex(l) {
      Ahead(line, p, 4);
      n := Going(p + 4, cur + [(HexVal(h) * 16 + HexVal(l)) as char], Double);
    } else if c == '\\' && d != '\0' {
      Ahead(line, p, 2);
      n := Going(p + 2, cur + [Unescape(d)], Double);
    } else if c == '"' {
      n := CloseQuote(line, p, cur, Double);
    } else if c == '\0' {
      n := Failed;
    } else {
      Ahead(line, p, 1);
      n := Going(p + 1, cur + [c], Double);
    }
  }

  method TurnSingle(line: string, p: nat, cur: string) returns (n: Next)
    requires p <= |line|
    ensures Agrees(line, p, cur, Single, n)
  {
    var c := ByteAt(line, p, 0);
    var d := ByteAt(line, p, 1);
    if c == '\\' && d == '\'' {
      Ahead(line, p, 2);
      n := Going(p + 2, cur + ['\''], Single);
    } else if c == '\'' {
      n := CloseQuote(line, p, cur, Single);
    } else if c == '\0' {
      n := Failed;
    } else {
      Ahead(line, p, 1);
      n := Going(p + 1, cur + [c], Single);
    }
  }

  method TurnPlain(line: string, p: nat, cur: string) returns (n: Next)
    requires p <= |line|
    ensures Agrees(line, p, cur, Plain, n)
  {
    var c := ByteAt(line, p, 0);
    if c != '\0' { Ahead(line, p, 1); }
    match c
    case '\0' => n := Finished(p, cur);
    case ' ' | '\n' | '\r' | '\t' => n := Finished(p + 1, cur);
    case '"' => n := Going(p + 1, cur, Double);
    case '\'' => n := Going(p + 1, cur, Single);
    case _ => n := Going(p + 1, cur + [c], Plain);
  }

  /** The loop over one token. */
  method GetToken(line: string, start: nat) returns (ok: bool, text: string, p: nat)
    requires start <= |line|
    ensures Token(line[start..], "", Plain) == if ok && p <= |line| then Tok(text, line[p..]) else Bad
    ensures p <= |line|
  {
    ghost var goal := Token(line[start..], "", Plain);
    text, p := "", start;
    var mode, done := Plain, false;
    while !done
      invariant p <= |line|
      invariant goal == if done then Tok(text, line[p..]) else Token(line[p..], text, mode)
      decreases !done, |line| - p
    {
      var n;
      match mode {
        case Double => n := TurnDouble(line, p, text);
        case Single => n := TurnSingle(line, p, text);
        case Plain => n := TurnPlain(line, p, text);
      }
      match n
      case Failed => return false, "", 0;
      case Finished(q, cur) => p, text, done := q, cur, true;
      case Going(q, cur, next) => p, text, mode := q, cur, next;
    }
    ok := true;
  }

  /** sdssplitargs */
  method SplitArgs(line: string) returns (vector: Option<seq<string>>)
    ensures vector == Split(line)
  {
    var argv, p := [], 0;
    ghost var goal := Split(line);
    assert line[0..] == line;
    if goal.Some? { assert [] + goal.value == goal.value; }
    while true
      invariant p <= |line| && goal == Before(argv, Split(line[p..]))
      decreases |line| - p
    {
      p := Blanks(line, p);
      var c := ByteAt(line, p, 0);
      if c == '\0' {
        assert argv + [] == argv;
        return Some(argv);
      }
      ghost var t := line[p..];
      assert SkipBlanks(t) == t;
      var ok, current, q := GetToken(line, p);
      if !ok { return None; }
      SplitStep(t, current, line[q..]);
      BeforePush(argv, current, Split(line[q..]));
      argv, p := argv + [current], q;
    }
  }

  function Before(argv: seq<string>, rest: Option<seq<string>>): Option<seq<string>> {
    match rest
    case None => None
    case Some(more) => Some(argv + more)
  }

  lemma SplitStep(t: string, text: string, rest: string)
    requires At(t, 0) != '\0' && SkipBlanks(t) == t && Token(t, "", Plain) == Tok(text, rest)
    ensures Split(t) == Push(text, Split(rest)) && |rest| < |t|
  {
  }

  lemma BeforePush(argv: seq<string>, text: string, rest: Option<seq<string>>)
    ensures Before(argv, Push(text, rest)) == Before(argv + [text], rest)
  {
    if rest.Some? {
      assert argv + ([text] + rest.value) == argv + [text] + rest.value;
    }
  }

  method Blanks(line: string, start: nat) returns (p: nat)
    requires start <= |line|
    ensures p <= |line| && p >= start && line[p..] == SkipBlanks(line[start..])
    ensures Split(line[p..]) == Split(line[start..])
    ensures SkipBlanks(line[p..]) == line[p..]
  {
    p := start;
    var c := ByteAt(line, p, 0);
    while c != '\0' && IsSpace(c)
      invariant start <= p <= |line| && c == At(line[p..], 0)
      invariant SkipBlanks(line[p..]) == SkipBlanks(line[start..])
      decreases |line| - p
    {
      Ahead(line, p, 1);
      p := p + 1;
      c := ByteAt(line, p, 0);
    }
  }
}
