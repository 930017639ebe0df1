/**
 What a format of literals, spaces, %s, %b and %% stands for, described by what
 it is built of: words with spaces around them, each a row of pieces.
 */
module RespWords {
  import opened RespFormat

  datatype Piece = Literal(c: char) | CText | Bytes | Percent

  function Spelt(p: Piece): (t: string)
    ensures t != ""
  {
    match p
    case Literal(c) => [c]
    case CText => "%s"
    case Bytes => "%b"
    case Percent => "%%"
  }

  function SpeltAll(ps: seq<Piece>): string {
    if ps == [] then "" else Spelt(ps[0]) + SpeltAll(ps[1..])
  }

  predicate TakesValue(p: Piece) {
    p.CText? || p.Bytes?
  }

  /** How many values pieces take. */
  function Takes(ps: seq<Piece>): nat {
    if ps == [] then 0 else (if TakesValue(ps[0]) then 1 else 0) + Takes(ps[1..])
  }

  /** What pieces stand for, each that takes a value given the next one. */
  function Filled(ps: seq<Piece>, args: seq<string>): string
    requires Takes(ps) <= |args|
  {
    if ps == [] then ""
    else
      match ps[0]
      case Literal(c) => [c] + Filled(ps[1..], args)
      case CText => CString(args[0]) + Filled(ps[1..], args[1..])
      case Bytes => args[0] + Filled(ps[1..], args[1..])
      case Percent => "%" + Filled(ps[1..], args)
  }

  /** A literal is no space and no NUL; a percent sign is one only where the format ends behind it. */
  predicate Plain(ps: seq<Piece>, end: string) {
    forall i | 0 <= i < |ps| && ps[i].Literal? ::
      ps[i].c != ' ' && ps[i].c != '\0' && (ps[i].c == '%' ==> i == |ps| - 1 && end == "")
  }

  /** A word is what lies before a space or the end of the format. */
  predicate Stops(end: string) {
    end == "" || end[0] == ' '
  }

  /** strlen: the longest beginning without a NUL. */
  lemma {:induction false} CStringIs(a: string)
    ensures CString(a) <= a && '\0' !in CString(a)
    ensures CString(a) != a ==> a[|CString(a)|] == '\0'
  {
    if a != "" && a[0] != '\0' {
      CStringIs(a[1..]);
      assert a == [a[0]] + a[1..];
    }
  }

  lemma OneLetter(c: char, z: string)
    requires c != '\0' && c != ' ' && (c == '%' ==> z == "")
    ensures var f := [c] + z; f[1..] == z && !Directive(f)
  {
  }

  lemma TwoLetters(p: Piece, z: string)
    requires !p.Literal?
    ensures var f := Spelt(p) + z; f[2..] == z && Directive(f) && f[1] == Spelt(p)[1]
  {
  }

  lemma PlainTail(ps: seq<Piece>, end: string)
    requires ps != [] && Plain(ps, end)
    ensures Plain(ps[1..], end)
    ensures ps[0].Literal? ==>
      ps[0].c != '\0' && ps[0].c != ' ' && (ps[0].c == '%' ==> SpeltAll(ps[1..]) + end == "" && SpeltAll(ps[1..]) == "")
  {
    var more := ps[1..];
    forall i | 0 <= i < |more| && more[i].Literal?
      ensures more[i].c != ' ' && more[i].c != '\0' && (more[i].c == '%' ==> i == |more| - 1 && end == "")
    {
      assert more[i] == ps[i + 1];
    }
  }

  lemma FrontOf(ps: seq<Piece>, end: string)
    requires ps != []
    ensures SpeltAll(ps) + end == Spelt(ps[0]) + (SpeltAll(ps[1..]) + end)
  {
    assert Spelt(ps[0]) + SpeltAll(ps[1..]) + end == Spelt(ps[0]) + (SpeltAll(ps[1..]) + end);
  }

  /** The word is cut off whole. */
  lemma {:induction false} WordCut(ps: seq<Piece>, end: string)
    requires Plain(ps, end) && Stops(end)
    ensures var w := SpeltAll(ps); Word(w + end) == w && (w + end)[|w|..] == end
  {
    hide Plain, Word;
    if ps == [] {
      NoWord(end);
      assert SpeltAll(ps) + end == end;
    } else {
      PlainTail(ps, end);
      FrontOf(ps, end);
      WordCut(ps[1..], end);
      var f, rest := SpeltAll(ps) + end, SpeltAll(ps[1..]) + end;
      if ps[0].Literal? {
        OneLetter(ps[0].c, rest);
        StepOne(f);
      } else {
        TwoLetters(ps[0], rest);
        StepTwo(f);
        assert Word(f) == [f[0], f[1]] + Word(f)[2..];
      }
    }
  }

  lemma NoWord(end: string)
    requires Stops(end)
    ensures Word(end) == "" && end[0..] == end
  {
  }

  /** A format is supported if what follows its word is, with the values the word leaves. */
  lemma {:induction false} WordSupported(ps: seq<Piece>, end: string, given: nat)
    requires Plain(ps, end)
    ensures Supported(SpeltAll(ps) + end, given) <==> Takes(ps) <= given && Supported(end, given - Takes(ps))
  {
    hide Plain;
    if ps == [] {
      assert SpeltAll(ps) + end == end;
    } else {
      PlainTail(ps, end);
      FrontOf(ps, end);
      WordSupported(ps[1..], end, if TakesValue(ps[0]) && given > 0 then given - 1 else given);
      var rest := SpeltAll(ps[1..]) + end;
      if ps[0].Literal? {
        OneLetter(ps[0].c, rest);
      } else {
        TwoLetters(ps[0], rest);
      }
    }
  }

  lemma {:induction false} WordFilled(ps: seq<Piece>, end: string, args: seq<string>)
    requires Plain(ps, end) && Takes(ps) <= |args|
    ensures Uses(SpeltAll(ps)) == Takes(ps) && Expand(SpeltAll(ps), args) == Filled(ps, args)
  {
    hide Plain;
    if ps != [] {
      PlainTail(ps, end);
      var more := SpeltAll(ps[1..]);
      WordFilled(ps[1..], end, if TakesValue(ps[0]) then args[1..] else args);
      if ps[0].Literal? {
        OneLetter(ps[0].c, more);
      } else {
        TwoLetters(ps[0], more);
      }
    }
  }

  // ---- whole formats

  /** A word with the spaces in front of it. */
  datatype Slot = Slot(gap: nat, pieces: seq<Piece>)

  function Spaces(k: nat): (t: string)
    ensures |t| == k && forall i | 0 <= i < k :: t[i] == ' '
  {
    seq(k, _ => ' ')
  }

  function FormatOf(slots: seq<Slot>, end: nat): string {
    if slots == [] then Spaces(end)
    else Spaces(slots[0].gap) + (SpeltAll(slots[0].pieces) + FormatOf(slots[1..], end))
  }

  function AllTake(slots: seq<Slot>): nat {
    if slots == [] then 0 else Takes(slots[0].pieces) + AllTake(slots[1..])
  }

  /** One argument for each word, the values going to the pieces in order. */
  function Arguments(slots: seq<Slot>, args: seq<string>): seq<string>
    requires AllTake(slots) <= |args|
  {
    if slots == [] then []
    else [Filled(slots[0].pieces, args)] + Arguments(slots[1..], args[Takes(slots[0].pieces)..])
  }

  /** Words that are not empty, with at least one space between two of them. */
  predicate Proper(slots: seq<Slot>, end: nat) {
    slots == [] || (
      && slots[0].pieces != [] && Plain(slots[0].pieces, FormatOf(slots[1..], end)) && Stops(FormatOf(slots[1..], end))
      && Proper(slots[1..], end))
  }

  lemma {:induction false} SpacesSkipped(k: nat, f: string, args: seq<string>)
    ensures Supported(Spaces(k) + f, |args|) <==> Supported(f, |args|)
    ensures Supported(f, |args|) ==> Tokens(Spaces(k) + f, args) == Tokens(f, args)
    decreases k
  {
    if k == 0 {
      assert Spaces(k) + f == f;
    } else {
      SpacesSkipped(k - 1, f, args);
      assert (Spaces(k) + f)[1..] == Spaces(k - 1) + f;
    }
  }

  lemma WordFront(ps: seq<Piece>, end: string)
    requires ps != [] && Plain(ps, end)
    ensures var f := SpeltAll(ps) + end; f != "" && f[0] != ' '
  {
    FrontOf(ps, end);
    PlainTail(ps, end);
  }

  lemma SplitOff(f: string, args: seq<string>, w: string, end: string)
    requires Supported(f, |args|) && f != "" && f[0] != ' '
    requires w == Word(f) && end == f[|w|..]
    ensures Uses(w) <= |args| && Supported(end, |args| - Uses(w))
    ensures Tokens(f, args) == [Expand(w, args)] + Tokens(end, args[Uses(w)..])
  {
    WordUses(f, |args|);
  }

  lemma TakeWord(ps: seq<Piece>, end: string, args: seq<string>)
    requires ps != [] && Plain(ps, end) && Stops(end)
    ensures Supported(SpeltAll(ps) + end, |args|) <==> Takes(ps) <= |args| && Supported(end, |args| - Takes(ps))
    ensures Supported(SpeltAll(ps) + end, |args|) ==>
      Tokens(SpeltAll(ps) + end, args) == [Filled(ps, args)] + Tokens(end, args[Takes(ps)..])
  {
    hide Plain, Supported, Tokens, Word, Expand, Filled;
    var f := SpeltAll(ps) + end;
    WordSupported(ps, end, |args|);
    if Supported(f, |args|) {
      WordFront(ps, end);
      WordCut(ps, end);
      WordFilled(ps, end, args);
      SplitOff(f, args, SpeltAll(ps), end);
    }
  }

  /** Every format made of words stands for its words filled with the values, in order; there must be a value for each piece that takes one. */
  lemma {:induction false} FormatRead(slots: seq<Slot>, end: nat, args: seq<string>)
    requires Proper(slots, end)
    ensures Supported(FormatOf(slots, end), |args|) <==> AllTake(slots) <= |args|
    ensures AllTake(slots) <= |args| ==> Tokens(FormatOf(slots, end), args) == Arguments(slots, args)
  {
    hide Plain, Tokens, Supported, Filled;
    if slots == [] {
      SpacesSkipped(end, "", args);
      assert Spaces(end) + "" == Spaces(end);
      NothingRead(args);
    } else {
      var ps, rest := slots[0].pieces, FormatOf(slots[1..], end);
      SpacesSkipped(slots[0].gap, SpeltAll(ps) + rest, args);
      TakeWord(ps, rest, args);
      if Takes(ps) <= |args| {
        FormatRead(slots[1..], end, args[Takes(ps)..]);
      }
    }
  }

  lemma NothingRead(args: seq<string>)
    ensures Supported("", |args|) && Tokens("", args) == []
  {
  }

  // ---- no other format is supported

  lemma {:induction false} WordMade(f: string, given: nat) returns (ps: seq<Piece>, end: string)
    requires Supported(f, given)
    ensures f == SpeltAll(ps) + end && Plain(ps, end) && Stops(end)
    ensures f != "" && f[0] != ' ' ==> ps != []
    decreases |f|
  {
    if Stops(f) {
      ps, end := [], f;
      assert f == SpeltAll(ps) + end;
    } else {
      var p := if !Directive(f) then Literal(f[0]) else if f[1] == 's' then CText else if f[1] == 'b' then Bytes else Percent;
      var z := f[|Spelt(p)|..];
      assert f == Spelt(p) + z;
      var more;
      more, end := WordMade(z, if TakesValue(p) then given - 1 else given);
      ps := [p] + more;
      PieceMore(p, more, end);
    }
  }

  lemma PieceMore(p: Piece, more: seq<Piece>, end: string)
    requires Plain(more, end)
    requires p.Literal? ==> p.c != ' ' && p.c != '\0' && (p.c == '%' ==> SpeltAll(more) + end == "")
    ensures Plain([p] + more, end) && SpeltAll([p] + more) + end == Spelt(p) + (SpeltAll(more) + end)
  {
    var ps := [p] + more;
    assert ps[1..] == more;
    FrontOf(ps, end);
    forall i | 0 <= i < |ps| && ps[i].Literal?
      ensures ps[i].c != ' ' && ps[i].c != '\0' && (ps[i].c == '%' ==> i == |ps| - 1 && end == "")
    {
      if i > 0 { assert ps[i] == more[i - 1]; }
    }
  }

  lemma {:induction false} SpacesMade(f: string) returns (k: nat, z: string)
    ensures f == Spaces(k) + z && (z == "" || z[0] != ' ')
  {
    if f != "" && f[0] == ' ' {
      k, z := SpacesMade(f[1..]);
      k := k + 1;
      assert f == [' '] + f[1..] && Spaces(k) == [' '] + Spaces(k - 1);
    } else {
      k, z := 0, f;
    }
  }

  lemma SlotMore(slot: Slot, more: seq<Slot>, end: nat)
    ensures var slots := [slot] + more;
      FormatOf(slots, end) == Spaces(slot.gap) + (SpeltAll(slot.pieces) + FormatOf(more, end)) && slots[1..] == more
  {
    assert ([slot] + more)[1..] == more;
  }

  /** The words of a supported format. */
  lemma {:induction false} FormatMade(f: string, args: seq<string>) returns (slots: seq<Slot>, end: nat)
    requires Supported(f, |args|)
    ensures f == FormatOf(slots, end) && Proper(slots, end)
    decreases |f|
  {
    hide Plain, Tokens, Supported;
    var k, z := SpacesMade(f);
    SpacesSkipped(k, z, args);
    if z == "" {
      slots, end := [], k;
    } else {
      var ps, rest := WordMade(z, |args|);
      WordFront(ps, rest);
      TakeWord(ps, rest, args);
      FrontOf(ps, rest);
      var more;
      more, end := FormatMade(rest, args[Takes(ps)..]);
      slots := [Slot(k, ps)] + more;
      SlotMore(Slot(k, ps), more, end);
    }
  }

  ghost predicate Made(slots: seq<Slot>, end: nat, f: string) {
    f == FormatOf(slots, end) && Proper(slots, end)
  }

  /** A format is supported, with so many values at least, exactly if it is made of words; what it then stands for is FormatRead. */
  lemma SupportedIff(f: string, args: seq<string>)
    ensures Supported(f, |args|) <==> exists slots, end :: Made(slots, end, f) && AllTake(slots) <= |args|
  {
    if Supported(f, |args|) {
      var slots, end := FormatMade(f, args);
      FormatRead(slots, end, args);
      assert Made(slots, end, f) && AllTake(slots) <= |args|;
    }
    forall slots, end | Made(slots, end, f) && AllTake(slots) <= |args| ensures Supported(f, |args|) {
      FormatRead(slots, end, args);
    }
  }
}
