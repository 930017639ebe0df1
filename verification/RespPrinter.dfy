/**
 Commands: an array of bulk strings, printed into a buffer of exactly the length
 computed beforehand, and read back by the reply parser.
 */
module RespPrinter {
  import opened CInts
  import opened RespGrammar
  import opened RespRoundTrip

  /** How a call of a formatter ends. */
  datatype Printed =
    | Text(text: string, returned: int)
    | NoMemory      // the allocation fails: -1 is returned
    | Overrun       // bytes are written outside the buffer
    | Aborts        // the closing assertion on the length fails

  function ArgText(a: string): string {
    "$" + Decimal(|a|) + CRLF + a + CRLF
  }

  function ArgsText(argv: seq<string>): string {
    if argv == [] then "" else ArgsText(argv[..|argv|-1]) + ArgText(argv[|argv|-1])
  }

  /** The protocol text of a command. */
  function CommandText(argv: seq<string>): string {
    "*" + Decimal(|argv|) + CRLF + ArgsText(argv)
  }

  function Strs(argv: seq<string>): seq<Reply> {
    if argv == [] then [] else Strs(argv[..|argv|-1]) + [Str(argv[|argv|-1])]
  }

  lemma {:induction false} StrsAt(argv: seq<string>)
    ensures |Strs(argv)| == |argv| && forall i | 0 <= i < |argv| :: Strs(argv)[i] == Str(argv[i])
  {
    if argv != [] { StrsAt(argv[..|argv|-1]); }
  }

  lemma {:induction false} EncodeAllAppend(rs: seq<Reply>, r: Reply)
    ensures EncodeAll(rs + [r]) == EncodeAll(rs) + Encode(r)
    ensures DepthAll(rs + [r]) == if Depth(r) > DepthAll(rs) then Depth(r) else DepthAll(rs)
  {
    if rs == [] {
      assert rs + [r] == [r] && [r][1..] == [];
    } else {
      assert (rs + [r])[1..] == rs[1..] + [r];
      EncodeAllAppend(rs[1..], r);
      assert Encode(rs[0]) + (EncodeAll(rs[1..]) + Encode(r)) == (Encode(rs[0]) + EncodeAll(rs[1..])) + Encode(r);
    }
  }

  lemma {:induction false} ArgsAreBulks(argv: seq<string>)
    ensures ArgsText(argv) == EncodeAll(Strs(argv)) && DepthAll(Strs(argv)) == 0
  {
    if argv != [] {
      var a := argv[|argv|-1];
      ArgsAreBulks(argv[..|argv|-1]);
      EncodeAllAppend(Strs(argv[..|argv|-1]), Str(a));
    }
  }

  /** The reply parser turns a printed command back into its arguments, leaving what follows it. */
  lemma CommandBack(argv: seq<string>, z: string)
    ensures ParseItem(CommandText(argv) + z, 0) == Item(Arr(|argv|, Strs(argv)), z)
  {
    StrsAt(argv);
    ArgsAreBulks(argv);
    ParseEncode(Arr(|argv|, Strs(argv)), z, 0);
  }

  // ---- lengths

  lemma DecimalLength(v: nat)
    ensures v < 10 ==> |Decimal(v)| == 1
    ensures 10 <= v < 100 ==> |Decimal(v)| == 2
    ensures 100 <= v < 1000 ==> |Decimal(v)| == 3
    ensures 1000 <= v < 10000 ==> |Decimal(v)| == 4
    ensures v >= 10000 ==> |Decimal(v)| == 4 + |Decimal(v / 10000)|
  {
    if v >= 10 {
      var a := v / 10;
      assert |Decimal(v)| == 1 + |Decimal(a)|;
      if a >= 10 {
        var b := a / 10;
        assert |Decimal(a)| == 1 + |Decimal(b)|;
        if b >= 10 {
          var c := b / 10;
          assert |Decimal(b)| == 1 + |Decimal(c)|;
          if c >= 10 {
            assert |Decimal(c)| == 1 + |Decimal(c / 10)|;
            assert c / 10 == v / 10000;
          }
        }
      }
    }
  }

  /** countDigits */
  method CountDigits(v: nat) returns (result: nat)
    ensures result == |Decimal(v)|
  {
    var w := v;
    result := 1;
    while true
      invariant result - 1 + |Decimal(w)| == |Decimal(v)|
      decreases w
    {
      DecimalLength(w);
      if w < 10 { return; }
      if w < 100 { return result + 1; }
      if w < 1000 { return result + 2; }
      if w < 10000 { return result + 3; }
      w := w / 10000;
      result := result + 4;
    }
  }

  /** bulklen */
  method BulkLen(len: nat) returns (n: nat)
    ensures forall a: string :: |a| == len ==> n == |ArgText(a)|
  {
    var d := CountDigits(len);
    n := 1 + d + 2 + len + 2;
  }

  /** The sum of the lengths, as the unsigned 64-bit total of the sds formatter. */
  method TotalLength(argv: seq<string>) returns (totlen: nat)
    ensures totlen == |CommandText(argv)|
  {
    var d := CountDigits(|argv|);
    totlen := 1 + d + 2;
    for j := 0 to |argv|
      invariant totlen == 1 + d + 2 + |ArgsText(argv[..j])|
    {
      var n := BulkLen(|argv[j]|);
      ArgsNext(argv, j);
      totlen := totlen + n;
    }
    assert argv[..|argv|] == argv;
  }

  /** The same sum, kept in an int. */
  method TotalInt(argv: seq<string>) returns (totlen: int)
    ensures totlen == AsInt(|CommandText(argv)|)
  {
    var d := CountDigits(|argv|);
    totlen := AsInt(1 + d + 2);
    for j := 0 to |argv|
      invariant totlen == AsInt(1 + d + 2 + |ArgsText(argv[..j])|)
    {
      var n := BulkLen(|argv[j]|);
      ArgsNext(argv, j);
      AsIntAdd(1 + d + 2 + |ArgsText(argv[..j])|, n);
      totlen := AsInt(totlen + n);
    }
    assert argv[..|argv|] == argv;
  }

  // ---- sds number printing

  method Reverse(s: array<char>, l: nat)
    requires l <= s.Length
    modifies s
    ensures forall k | 0 <= k < l :: s[k] == old(s[l - 1 - k])
    ensures forall k | l <= k < s.Length :: s[k] == old(s[k])
  {
    var i, p := 0, l - 1;
    while i < p
      invariant 0 <= i <= l && p == l - 1 - i && i <= p + 1
      invariant forall k | 0 <= k < i :: s[k] == old(s[l - 1 - k])
      invariant forall k | p < k < l :: s[k] == old(s[l - 1 - k])
      invariant forall k | i <= k <= p :: s[k] == old(s[k])
      invariant forall k | l <= k < s.Length :: s[k] == old(s[k])
    {
      s[i], s[p] := s[p], s[i];
      i, p := i + 1, p - 1;
    }
  }

  /** The digits of w, least significant first, as the loop of sdsull2str leaves them. */
  function Reversed(a: string): (r: string)
    ensures |r| == |a|
  {
    if a == "" then "" else [a[|a|-1]] + Reversed(a[..|a|-1])
  }

  lemma {:induction false} ReversedAt(a: string, k: nat)
    requires k < |a|
    ensures |Reversed(a)| == |a| && Reversed(a)[k] == a[|a| - 1 - k]
  {
    if |a| > 1 { ReversedAt(a[..|a|-1], if k > 0 then k - 1 else 0); }
  }

  function Digit(w: nat): char {
    ('0' as int + w % 10) as char
  }

  lemma DecimalTail(w: nat)
    ensures Reversed(Decimal(w)) == [Digit(w)] + if w < 10 then "" else Reversed(Decimal(w / 10))
  {
    if w >= 10 {
      assert Decimal(w)[..|Decimal(w)|-1] == Decimal(w / 10);
    } else {
      assert Decimal(w)[..0] == "";
    }
  }

  /** What the digit loop still has to write once v is left; nothing at 0. */
  function Remaining(v: nat): string {
    if v == 0 then "" else Reversed(Decimal(v))
  }

  lemma DigitStep(all: string, done: string, v: nat)
    requires all == done + Reversed(Decimal(v))
    ensures all == done + [Digit(v)] + Remaining(v / 10)
  {
    DecimalTail(v);
    if v < 10 { assert v / 10 == 0; }
  }

  lemma RoomLeft(all: string, done: string, v: nat)
    requires all == done + Reversed(Decimal(v))
    ensures |done| < |all|
  {
    ReversedAt(Decimal(v), 0);
  }

  method PutChar(s: array<char>, l: nat, c: char)
    requires l < s.Length
    modifies s
    ensures s[..l + 1] == old(s[..l]) + [c]
    ensures forall k | 0 <= k < s.Length && k != l :: s[k] == old(s[k])
  {
    s[l] := c;
  }

  /** The do loop of sdsull2str and sdsll2str. */
  method DigitsBackwards(s: array<char>, value: nat) returns (l: nat)
    requires |Decimal(value)| <= s.Length
    modifies s
    ensures l == |Decimal(value)| && s[..l] == Reversed(Decimal(value))
  {
    ghost var all := Reversed(Decimal(value));
    ReversedAt(Decimal(value), 0);
    var v := value;
    l := 0;
    assert s[..0] + all == all;
    DigitStep(all, s[..0], v);
    PutChar(s, l, Digit(v));
    l := l + 1;
    v := v / 10;
    while v != 0
      invariant l <= |all| && all == s[..l] + Remaining(v)
      decreases v
    {
      RoomLeft(all, s[..l], v);
      DigitStep(all, s[..l], v);
      PutChar(s, l, Digit(v));
      l := l + 1;
      v := v / 10;
    }
    assert s[..l] + "" == s[..l];
  }

  lemma ReversedTwice(a: string, back: string, l: nat)
    requires l == |a| == |back|
    requires forall k | 0 <= k < l :: back[k] == Reversed(a)[l - 1 - k]
    ensures back == a
  {
    forall k | 0 <= k < l ensures back[k] == a[k] { ReversedAt(a, l - 1 - k); }
  }

  /** sdsll2str: the digits of the magnitude backwards, a sign, then a reversal in place. */
  method Ll2Str(s: array<char>, value: int) returns (l: nat)
    requires |SignedDecimal(value)| < s.Length
    modifies s
    ensures l == |SignedDecimal(value)| && s[..l] == SignedDecimal(value) && s[l] == '\0'
  {
    var v := if value < 0 then -value else value;
    l := DigitsBackwards(s, v);
    ReversedSign(v);
    if value < 0 {
      PutChar(s, l, '-');
      l := l + 1;
    }
    s[l] := '\0';
    ghost var back := s[..l];
    assert back == Reversed(SignedDecimal(value));
    Reverse(s, l);
    ReversedTwice(SignedDecimal(value), s[..l], l);
  }

  lemma ReversedSign(v: nat)
    ensures Reversed("-" + Decimal(v)) == Reversed(Decimal(v)) + "-"
    ensures |Reversed(Decimal(v))| == |Decimal(v)|
  {
    ReversedAt(Decimal(v), 0);
    ReversedAt("-" + Decimal(v), 0);
    ghost var a := "-" + Decimal(v);
    forall k | 0 <= k < |a| ensures Reversed(a)[k] == (Reversed(Decimal(v)) + "-")[k] {
      ReversedAt(a, k);
      if k < |Decimal(v)| { ReversedAt(Decimal(v), k); }
    }
  }

  /** sdsull2str */
  method Ull2Str(s: array<char>, value: nat) returns (l: nat)
    requires |Decimal(value)| < s.Length
    modifies s
    ensures l == |Decimal(value)| && s[..l] == Decimal(value) && s[l] == '\0'
  {
    l := DigitsBackwards(s, value);
    ReversedAt(Decimal(value), 0);
    s[l] := '\0';
    ghost var back := s[..l];
    assert back == Reversed(Decimal(value));
    Reverse(s, l);
    ReversedTwice(Decimal(value), s[..l], l);
  }

  // ---- the formatters

  /** sprintf and memcpy at a moving position. */
  method Put(cmd: array<char>, pos: nat, text: string) returns (pos': nat)
    requires pos + |text| <= cmd.Length
    modifies cmd
    ensures pos' == pos + |text| && cmd[..pos'] == old(cmd[..pos]) + text
  {
    for i := 0 to |text|
      invariant cmd[..pos + i] == old(cmd[..pos]) + text[..i]
    {
      ghost var done := cmd[..pos + i];
      cmd[pos + i] := text[i];
      assert cmd[..pos + i + 1] == done + [text[i]];
      assert text[..i + 1] == text[..i] + [text[i]];
    }
    assert text[..|text|] == text;
    pos' := pos + |text|;
  }

  lemma {:induction false} ArgsShorter(argv: seq<string>, j: nat)
    requires j <= |argv|
    ensures |ArgsText(argv[..j])| <= |ArgsText(argv)|
  {
    if j == |argv| {
      assert argv[..j] == argv;
    } else {
      assert argv[..|argv|-1][..j] == argv[..j];
      ArgsShorter(argv[..|argv|-1], j);
    }
  }

  lemma ArgsNext(argv: seq<string>, j: nat)
    requires j < |argv|
    ensures ArgsText(argv[..j+1]) == ArgsText(argv[..j]) + ArgText(argv[j])
  {
    assert argv[..j+1][..j] == argv[..j];
  }

  /** One argument, as both loops write it: header, data, line end. */
  method PutArg(cmd: array<char>, pos: nat, a: string) returns (pos': nat)
    requires pos + |ArgText(a)| <= cmd.Length
    modifies cmd
    ensures pos' == pos + |ArgText(a)| && cmd[..pos'] == old(cmd[..pos]) + ArgText(a)
  {
    ghost var done := cmd[..pos];
    pos' := Put(cmd, pos, "$" + Decimal(|a|) + CRLF);
    pos' := Put(cmd, pos', a);
    pos' := Put(cmd, pos', CRLF);
    assert done + ("$" + Decimal(|a|) + CRLF) + a + CRLF == done + ArgText(a);
  }

  /**
   What comes of printing into a buffer whose size is computed in an int: malloc gets totlen + 1,
   which fails when negative and is too small when it has wrapped around to less than the text.
   */
  function BufferResult(argv: seq<string>): Printed {
    var total := |CommandText(argv)|;
    var size := AsInt(AsInt(total) + 1);
    if size < 0 then NoMemory else if size == total + 1 then Text(CommandText(argv), total) else Overrun
  }

  /** The command is printed exactly when text and terminator together stay below 2^31 bytes. */
  lemma BufferIff(argv: seq<string>)
    ensures BufferResult(argv).Text? <==> |CommandText(argv)| + 1 < INT_RANGE
    ensures BufferResult(argv).Text? ==> BufferResult(argv) == Text(CommandText(argv), |CommandText(argv)|)
    ensures !BufferResult(argv).Aborts?
  {
    AsIntAdd(|CommandText(argv)|, 1);
  }

  /** A longer one asks for a negative number of bytes, or for too few, depending on what 32 bits keep of its length. */
  lemma BufferFails(argv: seq<string>)
    requires |CommandText(argv)| + 1 >= INT_RANGE
    ensures BufferResult(argv) == if (|CommandText(argv)| + 1) % UINT_RANGE >= INT_RANGE then NoMemory else Overrun
  {
    var n := |CommandText(argv)| + 1;
    BufferIff(argv);
    AsIntAdd(n - 1, 1);
    var k := AsIntWraps(n);
    var q, r := n / UINT_RANGE, n % UINT_RANGE;
    assert n == q * UINT_RANGE + r;
    assert AsInt(n) == (q + k) * UINT_RANGE + r;
    if r < INT_RANGE {
      assert q + k == 0;
    } else {
      assert q + k == -1;
    }
  }

  /** redisFormatCommandArgv */
  method FormatCommandArgv(argv: seq<string>) returns (o: Printed, cmd: array?<char>)
    requires |argv| < INT_RANGE
    ensures o == BufferResult(argv)
    ensures o.Text? ==> cmd != null && fresh(cmd) && cmd.Length == o.returned + 1
                        && cmd[..o.returned] == o.text && cmd[o.returned] == '\0'
  {
    var totlen := TotalInt(argv);
    o, cmd := PrintInto(argv, totlen);
  }

  /** From the allocation on, shared with redisvFormatCommand. */
  method PrintInto(argv: seq<string>, totlen: int) returns (o: Printed, cmd: array?<char>)
    requires totlen == AsInt(|CommandText(argv)|)
    ensures o == BufferResult(argv)
    ensures o.Text? ==> cmd != null && fresh(cmd) && cmd.Length == o.returned + 1
                        && cmd[..o.returned] == o.text && cmd[o.returned] == '\0'
  {
    var size := AsInt(totlen + 1);
    BufferIff(argv);
    if size < 0 { return NoMemory, null; }
    if size != |CommandText(argv)| + 1 { return Overrun, null; }
    cmd := PutCommand(argv, totlen);
    o := Text(cmd[..totlen], totlen);
  }

  /** The printing half: every byte of the buffer is written, and none outside it. */
  method PutCommand(argv: seq<string>, totlen: nat) returns (cmd: array<char>)
    requires totlen == |CommandText(argv)|
    ensures fresh(cmd) && cmd.Length == totlen + 1
    ensures cmd[..totlen] == CommandText(argv) && cmd[totlen] == '\0'
  {
    cmd := new char[totlen + 1];
    var pos := Put(cmd, 0, "*" + Decimal(|argv|) + CRLF);
    pos := PutArgs(cmd, pos, argv, "*" + Decimal(|argv|) + CRLF);
    cmd[pos] := '\0';
  }

  method PutArgs(cmd: array<char>, start: nat, argv: seq<string>, ghost head: string) returns (pos: nat)
    requires start == |head| && start + |ArgsText(argv)| <= cmd.Length && cmd[..start] == head
    modifies cmd
    ensures pos == |head| + |ArgsText(argv)| && cmd[..pos] == head + ArgsText(argv)
  {
    pos := start;
    for j := 0 to |argv|
      invariant pos == |head| + |ArgsText(argv[..j])| <= cmd.Length
      invariant cmd[..pos] == head + ArgsText(argv[..j])
    {
      ArgsShorter(argv, j + 1);
      ArgsNext(argv, j);
      Joined(head, ArgsText(argv[..j]), ArgText(argv[j]));
      pos := PutArg(cmd, pos, argv[j]);
    }
    assert argv[..|argv|] == argv;
  }

  lemma Joined(a: string, b: string, c: string)
    ensures a + b + c == a + (b + c)
  {
  }

  /** What sdscatfmt's %u makes of a size_t: the low 32 bits. */
  function Low32(len: nat): nat {
    len % UINT_RANGE
  }

  function SdsArgText(a: string): string {
    "$" + Decimal(Low32(|a|)) + CRLF + a + CRLF
  }

  function SdsArgsText(argv: seq<string>): string {
    if argv == [] then "" else SdsArgsText(argv[..|argv|-1]) + SdsArgText(argv[|argv|-1])
  }

  function SdsCommandText(argv: seq<string>): string {
    "*" + Decimal(|argv|) + CRLF + SdsArgsText(argv)
  }

  lemma {:induction false} DecimalShort(v: nat, k: nat)
    requires k > 0 && v < Pow10(k)
    ensures |Decimal(v)| <= k
    decreases k
  {
    if v >= 10 { DecimalShort(v / 10, k - 1); }
  }

  function Pow10(k: nat): nat {
    if k == 0 then 1 else 10 * Pow10(k - 1)
  }

  const LLSTR_SIZE: nat := 21

  lemma DigitsFit(v: nat)
    requires v < UINT_RANGE
    ensures |Decimal(v)| <= 10
  {
    assert Pow10(5) == 100000;
    assert Pow10(10) == 100000 * Pow10(5);
    DecimalShort(v, 10);
  }

  /** The %u and %i directives of sdscatfmt. */
  method CatUnsigned(cmd: string, v: nat) returns (out: string)
    requires v < UINT_RANGE
    ensures out == cmd + Decimal(v)
  {
    DigitsFit(v);
    var buf := new char[LLSTR_SIZE];
    var l := Ull2Str(buf, v);
    out := cmd + buf[..l];
  }

  method CatSigned(cmd: string, v: int) returns (out: string)
    requires -INT_RANGE <= v < INT_RANGE
    ensures out == cmd + SignedDecimal(v)
  {
    DigitsFit(if v < 0 then -v else v);
    var buf := new char[LLSTR_SIZE];
    var l := Ll2Str(buf, v);
    out := cmd + buf[..l];
  }

  /** The header of an argument, as sdscatfmt prints it. */
  function SdsHeader(a: string): string {
    "$" + Decimal(Low32(|a|)) + CRLF
  }

  /** sdscatfmt keeps its position in an int: no header may end beyond it. */
  predicate Reaches(cmd: string, a: string) {
    |cmd| + |SdsHeader(a)| < INT_RANGE
  }

  method CatArg(cmd: string, a: string) returns (out: string)
    ensures out == cmd + SdsArgText(a)
  {
    out := CatUnsigned(cmd + "$", Low32(|a|));
    out := out + CRLF;
    out := out + a;
    out := out + CRLF;
    assert cmd + "$" + Decimal(Low32(|a|)) + CRLF + a + CRLF == cmd + SdsArgText(a);
  }

  function SdsHead(argv: seq<string>): string {
    "*" + Decimal(|argv|) + CRLF
  }

  predicate ReachesAt(head: string, argv: seq<string>, j: nat)
    requires j < |argv|
  {
    Reaches(head + SdsArgsText(argv[..j]), argv[j])
  }

  /** Every header is printed where it belongs. */
  predicate AllReach(head: string, argv: seq<string>) {
    forall j | 0 <= j < |argv| :: ReachesAt(head, argv, j)
  }

  /**
   What comes of printing into an sds string: headers carry the low 32 bits of each length, the
   assertion compares with the sum of the true lengths, and that sum is returned as an int.
   */
  function SdsResult(argv: seq<string>): Printed {
    if !AllReach(SdsHead(argv), argv) then Overrun
    else if |SdsCommandText(argv)| != |CommandText(argv)| then Aborts
    else Text(SdsCommandText(argv), AsInt(|CommandText(argv)|))
  }

  method CatHead(argc: nat) returns (cmd: string)
    requires argc < INT_RANGE
    ensures cmd == "*" + Decimal(argc) + CRLF
  {
    cmd := CatSigned("*", argc);
    cmd := cmd + CRLF;
  }

  /** One argument, if its header can be printed where it belongs. */
  method CatWithin(cmd: string, a: string) returns (ok: bool, out: string)
    ensures ok == Reaches(cmd, a) && (ok ==> out == cmd + SdsArgText(a))
  {
    var d := CountDigits(Low32(|a|));
    out := cmd;
    ok := |cmd| + 1 + d + 2 < INT_RANGE;
    if ok {
      out := CatArg(cmd, a);
    }
  }

  /** The loop over the arguments. */
  method CatArgs(start: string, argv: seq<string>) returns (ok: bool, cmd: string)
    ensures ok == AllReach(start, argv)
    ensures ok ==> cmd == start + SdsArgsText(argv)
  {
    cmd, ok := start, true;
    assert start + SdsArgsText(argv[..0]) == start;
    for j := 0 to |argv|
      invariant ok && cmd == start + SdsArgsText(argv[..j])
      invariant forall k | 0 <= k < j :: ReachesAt(start, argv, k)
    {
      ok, cmd := CatWithin(cmd, argv[j]);
      assert ok == ReachesAt(start, argv, j);
      if !ok { return; }
      SdsArgsNext(argv, j);
      Joined(start, SdsArgsText(argv[..j]), SdsArgText(argv[j]));
    }
    assert argv[..|argv|] == argv;
  }

  /** redisFormatSdsCommandArgv */
  method FormatSdsCommandArgv(argv: seq<string>) returns (o: Printed)
    requires |argv| < INT_RANGE
    ensures o == SdsResult(argv)
  {
    var totlen := TotalLength(argv);
    var head := CatHead(|argv|);
    var ok, cmd := CatArgs(head, argv);
    if !ok { return Overrun; }
    if |cmd| != totlen { return Aborts; }
    o := Text(cmd, AsInt(totlen));
  }

  lemma SdsArgsNext(argv: seq<string>, j: nat)
    requires j < |argv|
    ensures SdsArgsText(argv[..j+1]) == SdsArgsText(argv[..j]) + SdsArgText(argv[j])
  {
    assert argv[..j+1][..j] == argv[..j];
  }

  // ---- when the two agree

  /** Every length fits the unsigned int that the sds formatter's directive takes. */
  predicate Short(argv: seq<string>) {
    forall i | 0 <= i < |argv| :: |argv[i]| < UINT_RANGE
  }

  lemma SameArg(a: string)
    requires |a| < UINT_RANGE
    ensures SdsArgText(a) == ArgText(a)
  {
    assert Low32(|a|) == |a|;
  }

  lemma {:induction false} SameArgs(argv: seq<string>)
    requires Short(argv)
    ensures SdsArgsText(argv) == ArgsText(argv)
  {
    if argv != [] {
      var last := |argv| - 1;
      forall i | 0 <= i < last ensures |argv[..last][i]| < UINT_RANGE { assert argv[..last][i] == argv[i]; }
      SameArgs(argv[..last]);
      SameArg(argv[last]);
    }
  }

  lemma {:induction false} LongerNumber(n: nat, k: nat)
    requires n <= k
    ensures |Decimal(n)| <= |Decimal(k)|
    decreases k
  {
    if n >= 10 { LongerNumber(n / 10, k / 10); }
  }

  lemma {:induction false} SdsShorter(argv: seq<string>)
    ensures |SdsArgsText(argv)| <= |ArgsText(argv)|
  {
    if argv != [] {
      SdsShorter(argv[..|argv|-1]);
      LongerNumber(Low32(|argv[|argv|-1]|), |argv[|argv|-1]|);
    }
  }

  /** The number a header carries can be read off it. */
  lemma HeaderNumber(n: nat, a: string)
    ensures Number(("$" + Decimal(n) + CRLF + a + CRLF)[1..]) == n
  {
    NumberOf(n, a + CRLF);
    assert ("$" + Decimal(n) + CRLF + a + CRLF)[1..] == SignedDecimal(n) + CRLF + (a + CRLF);
  }

  lemma SameHeader(a: string)
    requires SdsArgText(a) == ArgText(a)
    ensures |a| < UINT_RANGE
  {
    HeaderNumber(Low32(|a|), a);
    HeaderNumber(|a|, a);
  }

  lemma SameEnds(x: string, a: string, y: string, b: string)
    requires x + a == y + b && |x| <= |y| && |a| <= |b|
    ensures x == y && a == b
  {
    assert x == (x + a)[..|x|] && y == (y + b)[..|y|];
    assert a == (x + a)[|x|..] && b == (y + b)[|y|..];
  }

  lemma {:induction false} OnlyShort(argv: seq<string>)
    requires SdsArgsText(argv) == ArgsText(argv)
    ensures Short(argv)
  {
    if argv != [] {
      var last := |argv| - 1;
      SdsShorter(argv[..last]);
      LongerNumber(Low32(|argv[last]|), |argv[last]|);
      SameEnds(SdsArgsText(argv[..last]), SdsArgText(argv[last]), ArgsText(argv[..last]), ArgText(argv[last]));
      OnlyShort(argv[..last]);
      SameHeader(argv[last]);
      assert forall i | 0 <= i < last :: argv[..last][i] == argv[i];
    }
  }

  /** The two texts are the same exactly when every length fits 32 bits. */
  lemma SameTextIff(argv: seq<string>)
    ensures SdsCommandText(argv) == CommandText(argv) <==> Short(argv)
  {
    var head := "*" + Decimal(|argv|) + CRLF;
    if Short(argv) { SameArgs(argv); }
    if SdsCommandText(argv) == CommandText(argv) {
      assert SdsArgsText(argv) == (head + SdsArgsText(argv))[|head|..];
      assert ArgsText(argv) == (head + ArgsText(argv))[|head|..];
      OnlyShort(argv);
    }
  }

  lemma {:induction false} ArgFits(argv: seq<string>, j: nat)
    requires j < |argv|
    ensures |ArgsText(argv[..j])| + |ArgText(argv[j])| <= |ArgsText(argv)|
  {
    ArgsNext(argv, j);
    ArgsShorter(argv, j + 1);
  }

  /** A text below 2^31 bytes has short arguments and puts every header within reach. */
  lemma SmallReaches(argv: seq<string>)
    requires |CommandText(argv)| < INT_RANGE
    ensures Short(argv) && AllReach(SdsHead(argv), argv)
  {
    forall j | 0 <= j < |argv|
      ensures |argv[j]| < UINT_RANGE && ReachesAt(SdsHead(argv), argv, j)
    {
      ArgFits(argv, j);
      SdsShorter(argv[..j]);
      LongerNumber(Low32(|argv[j]|), |argv[j]|);
    }
  }

  /** The sds formatter prints the command and returns its length exactly below 2^31 bytes. */
  lemma SdsIff(argv: seq<string>)
    ensures SdsResult(argv) == Text(CommandText(argv), |CommandText(argv)|) <==> |CommandText(argv)| < INT_RANGE
  {
    if |CommandText(argv)| < INT_RANGE {
      SmallReaches(argv);
      SameTextIff(argv);
    }
  }

  /** Both formatters succeed alike exactly when the command and a terminator fit 2^31 - 1 bytes. */
  lemma FormattersAgree(argv: seq<string>)
    ensures BufferResult(argv).Text? && SdsResult(argv) == BufferResult(argv) <==> |CommandText(argv)| + 1 < INT_RANGE
  {
    BufferIff(argv);
    SdsIff(argv);
  }
}
