/**
 Format strings of literals, spaces, %s, %b and %%: the format is cut at its own
 spaces, and only then are the values put in.
 */
module RespFormat {
  import opened CInts
  import opened RespPrinter

  /** What strlen sees of a value: the bytes before the first NUL. */
  function CString(a: string): string {
    if a == "" || a[0] == '\0' then "" else [a[0]] + CString(a[1..])
  }

  predicate Directive(f: string) {
    |f| > 1 && f[0] == '%'
  }

  /** A C string whose directives are %s, %b and %%, with no more values used than the caller gives. */
  predicate Supported(f: string, given: nat) {
    if f == "" then true
    else if !Directive(f) then f[0] != '\0' && Supported(f[1..], given)
    else if f[1] == '%' then Supported(f[2..], given)
    else (f[1] == 's' || f[1] == 'b') && given > 0 && Supported(f[2..], given - 1)
  }

  /** The format up to its first space. */
  function Word(f: string): (w: string)
    ensures |w| <= |f|
  {
    if f == "" || f[0] == ' ' then "" else [f[0]] + Word(f[1..])
  }

  /** How many values a word uses. */
  function Uses(w: string): nat {
    if w == "" then 0
    else if !Directive(w) then Uses(w[1..])
    else Uses(w[2..]) + if w[1] == '%' then 0 else 1
  }

  /** A word with its values put in. */
  function Expand(w: string, args: seq<string>): string
    requires Uses(w) <= |args|
  {
    if w == "" then ""
    else if !Directive(w) then [w[0]] + Expand(w[1..], args)
    else if w[1] == '%' then "%" + Expand(w[2..], args)
    else (if w[1] == 's' then CString(args[0]) else args[0]) + Expand(w[2..], args[1..])
  }

  lemma {:induction false} WordUses(f: string, given: nat)
    requires Supported(f, given)
    ensures Uses(Word(f)) <= given && Supported(f[|Word(f)|..], given - Uses(Word(f)))
    decreases |f|
  {
    if f == "" || f[0] == ' ' {
      assert f[0..] == f;
    } else if !Directive(f) {
      hide Word;
      WordUses(f[1..], given);
      StepOne(f);
    } else {
      hide Word;
      assert f[1] != ' ';
      WordUses(f[2..], if f[1] == '%' then given else given - 1);
      StepTwo(f);
    }
  }

  lemma StepOne(f: string)
    requires f != "" && f[0] != ' '
    ensures Word(f) == [f[0]] + Word(f[1..]) && Word(f)[1..] == Word(f[1..])
    ensures f[|Word(f)|..] == f[1..][|Word(f[1..])|..]
    ensures !Directive(f) ==> !Directive(Word(f))
  {
  }

  lemma StepTwo(f: string)
    requires |f| > 1 && f[0] != ' ' && f[1] != ' '
    ensures |Word(f)| > 1 && Word(f)[0] == f[0] && Word(f)[1] == f[1] && Word(f)[2..] == Word(f[2..])
    ensures f[|Word(f)|..] == f[2..][|Word(f[2..])|..]
  {
    StepOne(f);
    StepOne(f[1..]);
    assert f[1..][1..] == f[2..];
  }

  /** The arguments a format stands for: one for each of its words, however many bytes the values hold. */
  function Tokens(f: string, args: seq<string>): seq<string>
    requires Supported(f, |args|)
    decreases |f|
  {
    if f == "" then []
    else if f[0] == ' ' then Tokens(f[1..], args)
    else
      WordUses(f, |args|);
      var w := Word(f);
      [Expand(w, args)] + Tokens(f[|w|..], args[Uses(w)..])
  }

  /** What is still to come when the argument under construction holds cur. */
  function Pending(touched: bool, cur: string, f: string, args: seq<string>): seq<string>
    requires Supported(f, |args|)
  {
    if !touched then Tokens(f, args)
    else
      WordUses(f, |args|);
      var w := Word(f);
      [cur + Expand(w, args)] + Tokens(f[|w|..], args[Uses(w)..])
  }

  lemma PendingSpace(touched: bool, cur: string, f: string, args: seq<string>)
    requires Supported(f, |args|) && f != "" && f[0] == ' '
    ensures Supported(f[1..], |args|)
    ensures Pending(touched, cur, f, args) == (if touched then [cur] else []) + Pending(false, "", f[1..], args)
  {
    assert Word(f) == "" && f[0..] == f && args[0..] == args && cur + "" == cur;
  }

  lemma PendingOpen(f: string, args: seq<string>)
    requires Supported(f, |args|) && f != "" && f[0] != ' '
    ensures Pending(false, "", f, args) == Pending(true, "", f, args)
  {
    WordUses(f, |args|);
    assert "" + Expand(Word(f), args) == Expand(Word(f), args);
  }

  lemma ExpandLiteral(w: string, c: char, cur: string, args: seq<string>)
    requires w != "" && !Directive(w) && w[0] == c && Uses(w) <= |args|
    ensures Uses(w) == Uses(w[1..]) && cur + Expand(w, args) == cur + [c] + Expand(w[1..], args)
  {
    assert Expand(w, args) == [c] + Expand(w[1..], args);
    Assoc(cur, [c], Expand(w[1..], args));
  }

  lemma PendingLiteral(cur: string, f: string, args: seq<string>)
    requires Supported(f, |args|) && f != "" && f[0] != ' ' && !Directive(f)
    ensures Supported(f[1..], |args|)
    ensures Pending(true, cur, f, args) == Pending(true, cur + [f[0]], f[1..], args)
  {
    WordUses(f, |args|);
    WordUses(f[1..], |args|);
    var w, w' := Word(f), Word(f[1..]);
    assert w != "" && w[0] == f[0] && !Directive(w) && w[1..] == w' && f[|w|..] == f[1..][|w'|..] by { StepOne(f); }
    ExpandLiteral(w, f[0], cur, args);
  }

  /** What the directive at the front of a word adds, and the values left after it. */
  function Value(f: string, args: seq<string>): string
    requires Directive(f) && (f[1] != '%' ==> args != [])
  {
    if f[1] == '%' then "%" else if f[1] == 's' then CString(args[0]) else args[0]
  }

  function Left(f: string, args: seq<string>): seq<string>
    requires Directive(f) && (f[1] != '%' ==> args != [])
  {
    if f[1] == '%' then args else args[1..]
  }

  lemma Assoc<T>(a: seq<T>, b: seq<T>, c: seq<T>)
    ensures a + (b + c) == a + b + c
  {
  }

  lemma ExpandDirective(w: string, v: string, cur: string, args: seq<string>, left: seq<string>)
    requires Directive(w) && Uses(w) <= |args| && (w[1] != '%' ==> args != [])
    requires v == Value(w, args) && left == Left(w, args)
    ensures Uses(w[2..]) <= |left| && args[Uses(w)..] == left[Uses(w[2..])..]
    ensures cur + Expand(w, args) == cur + v + Expand(w[2..], left)
  {
    assert Expand(w, args) == v + Expand(w[2..], left);
    Assoc(cur, v, Expand(w[2..], left));
  }

  lemma PendingDirective(cur: string, f: string, args: seq<string>)
    requires Supported(f, |args|) && Directive(f)
    ensures f[1] != '%' ==> args != []
    ensures Supported(f[2..], |Left(f, args)|)
    ensures Pending(true, cur, f, args) == Pending(true, cur + Value(f, args), f[2..], Left(f, args))
  {
    var left := Left(f, args);
    WordUses(f, |args|);
    WordUses(f[2..], |left|);
    var w, w' := Word(f), Word(f[2..]);
    assert |w| > 1 && w[0] == f[0] && w[1] == f[1] && w[2..] == w' && f[|w|..] == f[2..][|w'|..] by { StepTwo(f); }
    ExpandDirective(w, Value(f, args), cur, args, left);
  }

  /** strlen, and the copy of that many bytes. */
  method CopyCString(arg: string) returns (text: string)
    ensures text == CString(arg)
  {
    var size := 0;
    ghost var whole := CString(arg);
    assert arg[0..] == arg && "" + whole == whole;
    while size < |arg| && arg[size] != '\0'
      invariant size <= |arg|
      invariant whole == arg[..size] + CString(arg[size..])
    {
      ghost var rest := CString(arg[size + 1..]);
      Assoc(arg[..size], [arg[size]], rest);
      assert arg[size..][1..] == arg[size + 1..];
      assert arg[..size + 1] == arg[..size] + [arg[size]];
      size := size + 1;
    }
    text := arg[..size];
  }

  /** One more argument, unless the vector would need more places than an int can count. */
  method Push(argv: seq<string>, totlen: int, arg: string) returns (ok: bool, argv': seq<string>, totlen': int)
    requires |argv| < INT_RANGE && totlen == AsInt(|ArgsText(argv)|)
    ensures ok == (|argv| + 1 < INT_RANGE) && argv' == (if ok then argv + [arg] else argv)
    ensures totlen' == AsInt(|ArgsText(argv')|)
  {
    ok, argv', totlen' := AsInt(|argv| + 1) > 0, argv, totlen;
    if ok {
      argv' := argv + [arg];
      var n := BulkLen(|arg|);
      AsIntAdd(|ArgsText(argv)|, n);
      totlen' := AsInt(totlen + n);
      assert argv'[..|argv|] == argv;
    }
  }

  /** One interpolated directive: the bytes it adds and the values left. */
  method Interpolate(d: char, args: seq<string>, ghost f: string) returns (text: string, left: seq<string>)
    requires Supported(f, |args|) && Directive(f) && f[1] == d
    ensures text == Value(f, args) && left == Left(f, args)
  {
    match d
    case 's' =>
      text := CopyCString(args[0]);
      left := args[1..];
    case 'b' =>
      text, left := args[0], args[1..];
    case _ =>
      text, left := "%", args;
  }

  lemma PendingByte(touched: bool, cur: string, f: string, args: seq<string>)
    requires Supported(f, |args|) && f != "" && f[0] != ' ' && !Directive(f)
    requires !touched ==> cur == ""
    ensures Supported(f[1..], |args|)
    ensures Pending(touched, cur, f, args) == Pending(true, cur + [f[0]], f[1..], args)
  {
    if !touched { PendingOpen(f, args); }
    PendingLiteral(cur, f, args);
  }

  /** A byte that starts no directive: a space closes the argument under construction, anything else extends it. */
  method TakeByte(b: char, touched: bool, curarg: string, argv: seq<string>, totlen: int, ghost f: string, ghost args: seq<string>)
      returns (ok: bool, touched': bool, curarg': string, argv': seq<string>, totlen': int)
    requires Supported(f, |args|) && f != "" && !Directive(f) && f[0] == b
    requires !touched ==> curarg == ""
    requires |argv| < INT_RANGE && totlen == AsInt(|ArgsText(argv)|)
    ensures !touched' ==> curarg' == ""
    ensures |argv'| < INT_RANGE && totlen' == AsInt(|ArgsText(argv')|)
    ensures Supported(f[1..], |args|)
    ensures ok ==> argv' + Pending(touched', curarg', f[1..], args) == argv + Pending(touched, curarg, f, args)
    ensures !ok ==> |argv + Pending(touched, curarg, f, args)| >= INT_RANGE
  {
    ok, touched', curarg', argv', totlen' := true, touched, curarg, argv, totlen;
    if b == ' ' {
      PendingSpace(touched, curarg, f, args);
      ghost var after := Pending(false, "", f[1..], args);
      if touched {
        ok, argv', totlen' := Push(argv, totlen, curarg);
        touched', curarg' := false, "";
        Assoc(argv, [curarg], after);
      } else {
        assert [] + after == after;
      }
    } else {
      PendingByte(touched, curarg, f, args);
      touched', curarg' := true, curarg + [b];
    }
  }

  /** A directive: its bytes join the argument under construction, and count as touching it even when there are none. */
  method TakeDirective(d: char, touched: bool, curarg: string, args: seq<string>, ghost f: string) returns (curarg': string, args': seq<string>)
    requires Supported(f, |args|) && Directive(f) && f[1] == d
    requires !touched ==> curarg == ""
    ensures Supported(f[2..], |args'|)
    ensures Pending(true, curarg', f[2..], args') == Pending(touched, curarg, f, args)
  {
    if !touched { PendingOpen(f, args); }
    PendingDirective(curarg, f, args);
    var text, left := Interpolate(d, args, f);
    curarg', args' := curarg + text, left;
  }

  lemma Untouched(f: string, args: seq<string>)
    requires Supported(f, |args|)
    ensures f[0..] == f && AsInt(|ArgsText([])|) == 0
    ensures [] + Pending(false, "", f, args) == Tokens(f, args)
  {
    assert f[0..] == f && [] + Tokens(f, args) == Tokens(f, args);
  }

  /** The scanning loop of redisvFormatCommand: the arguments collected, and the length of their text in an int. */
  method Tokenise(format: string, given: seq<string>) returns (ok: bool, argv: seq<string>, totlen: int)
    requires Supported(format, |given|)
    ensures ok == (|Tokens(format, given)| < INT_RANGE)
    ensures ok ==> argv == Tokens(format, given) && totlen == AsInt(|ArgsText(argv)|)
  {
    hide Pending, Tokens, ArgsText, AsInt, Supported;
    var curarg, touched := "", false;
    ok, argv, totlen := true, [], 0;
    var c, args := 0, given;
    Untouched(format, given);
    while c < |format|
      invariant c <= |format| && Supported(format[c..], |args|)
      invariant !touched ==> curarg == ""
      invariant Tokens(format, given) == argv + Pending(touched, curarg, format[c..], args)
      invariant |argv| < INT_RANGE && totlen == AsInt(|ArgsText(argv)|)
    {
      ghost var f := format[c..];
      assert f[1..] == format[c + 1..] && f[0] == format[c];
      if format[c] != '%' || c + 1 == |format| {
        ok, touched, curarg, argv, totlen := TakeByte(format[c], touched, curarg, argv, totlen, f, args);
        if !ok { return; }
      } else {
        assert f[2..] == format[c + 2..] && f[1] == format[c + 1];
        curarg, args := TakeDirective(format[c + 1], touched, curarg, args, f);
        touched := true;
        c := c + 1;
      }
      c := c + 1;
    }
    assert format[c..] == "";
    ok, argv, totlen := TakeLast(touched, curarg, argv, totlen, args);
  }

  /** The last argument, if one is under construction. */
  method TakeLast(touched: bool, curarg: string, argv: seq<string>, totlen: int, ghost args: seq<string>)
      returns (ok: bool, argv': seq<string>, totlen': int)
    requires |argv| < INT_RANGE && totlen == AsInt(|ArgsText(argv)|)
    ensures var all := argv + Pending(touched, curarg, "", args);
      ok == (|all| < INT_RANGE) && (ok ==> argv' == all && totlen' == AsInt(|ArgsText(argv')|))
  {
    ok, argv', totlen' := true, argv, totlen;
    if touched {
      PendingEnd(curarg, args);
      ok, argv', totlen' := Push(argv, totlen, curarg);
    }
  }

  lemma PendingEnd(cur: string, args: seq<string>)
    ensures Pending(true, cur, "", args) == [cur]
  {
    assert cur + "" == cur;
  }

  /** What comes of a format: more arguments than an int can count are refused, all others printed as a vector. */
  function FormatResult(tokens: seq<string>): Printed {
    if |tokens| < INT_RANGE then BufferResult(tokens) else NoMemory
  }

  lemma {:induction false} ArgsLong(argv: seq<string>)
    ensures |ArgsText(argv)| >= |argv|
  {
    if argv != [] { ArgsLong(argv[..|argv|-1]); }
  }

  /** The command of a format is printed exactly when text and terminator together stay below 2^31 bytes. */
  lemma FormatIff(tokens: seq<string>)
    ensures FormatResult(tokens).Text? <==> |CommandText(tokens)| + 1 < INT_RANGE
    ensures FormatResult(tokens).Text? ==> FormatResult(tokens) == Text(CommandText(tokens), |CommandText(tokens)|)
  {
    ArgsLong(tokens);
    BufferIff(tokens);
  }

  /** redisvFormatCommand */
  method FormatCommand(format: string, given: seq<string>) returns (o: Printed, cmd: array?<char>)
    requires Supported(format, |given|)
    ensures o == FormatResult(Tokens(format, given))
    ensures o.Text? ==> cmd != null && fresh(cmd) && cmd.Length == o.returned + 1
                        && cmd[..o.returned] == o.text && cmd[o.returned] == '\0'
  {
    var ok, argv, totlen := Tokenise(format, given);
    if !ok { return NoMemory, null; }
    var d := CountDigits(|argv|);
    AsIntAdd(|ArgsText(argv)|, 1 + d + 2);
    totlen := AsInt(totlen + 1 + d + 2);
    o, cmd := PrintInto(argv, totlen);
  }

  // ---- values never split or end an argument

  /** How many arguments come out is decided by the format alone. */
  lemma {:induction false} CountFixed(f: string, a: seq<string>, b: seq<string>)
    requires |a| == |b| && Supported(f, |a|)
    ensures |Tokens(f, a)| == |Tokens(f, b)|
    decreases |f|
  {
    if f != "" {
      if f[0] == ' ' {
        CountFixed(f[1..], a, b);
      } else {
        WordUses(f, |a|);
        CountFixed(f[|Word(f)|..], a[Uses(Word(f))..], b[Uses(Word(f))..]);
      }
    }
  }

  /** One %b for each value, with a space in front of every one. */
  function Binary(n: nat): string {
    if n == 0 then "" else " %b" + Binary(n - 1)
  }

  lemma BinaryStep(tail: string, args: seq<string>)
    requires args != [] && Supported(tail, |args| - 1) && (tail == "" || tail[0] == ' ')
    ensures Supported("%b" + tail, |args|) && Tokens("%b" + tail, args) == [args[0]] + Tokens(tail, args[1..])
  {
    var f := "%b" + tail;
    assert f[2..] == tail;
    PendingOpen(f, args);
    PendingDirective("", f, args);
    assert "" + args[0] == args[0];
    if tail == "" {
      PendingEnd(args[0], args[1..]);
      assert [args[0]] + [] == [args[0]];
    } else {
      PendingSpace(true, args[0], tail, args[1..]);
    }
  }

  /** Any values at all, empty ones and ones with spaces and line ends included, come through %b as they are. */
  lemma {:induction false} BinaryExact(args: seq<string>)
    ensures Supported(Binary(|args|), |args|) && Tokens(Binary(|args|), args) == args
  {
    if args != [] {
      BinaryExact(args[1..]);
      var tail := Binary(|args| - 1);
      BinaryStep(tail, args);
      assert Binary(|args|)[1..] == "%b" + tail;
      assert args == [args[0]] + args[1..];
    }
  }

  /** The same holds for %s of values without a NUL; a NUL cuts the value, not the argument. */
  lemma {:induction false} CStringWhole(a: string)
    ensures CString(a) == a <==> '\0' !in a
  {
    if a == "" {
    } else if a[0] == '\0' {
      assert a[0] in a;
    } else {
      CStringWhole(a[1..]);
      assert a == [a[0]] + a[1..];
      assert ([a[0]] + CString(a[1..]))[1..] == CString(a[1..]);
    }
  }
}
