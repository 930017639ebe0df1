/**
 The lines sdssplitargs accepts, described by what they are built of, and what
 it answers for each of them.  A word is unquoted text, possibly ending in a
 double-quoted or a single-quoted form; a line is words with blanks around them.
 */
module SdsWords {
  import opened SdsQuoting

  // ---- double quotes

  /** What may stand between double quotes. */
  datatype Piece = Self(c: char) | Letter(c: char) | Code(h: char, l: char)

  function Text(p: Piece): (t: string)
    ensures t != ""
  {
    match p
    case Self(c) => [c]
    case Letter(c) => ['\\', c]
    case Code(h, l) => ['\\', 'x', h, l]
  }

  function Meaning(p: Piece): char {
    match p
    case Self(c) => c
    case Letter(c) => Unescape(c)
    case Code(h, l) => (16 * HexVal(h) + HexVal(l)) as char
  }

  /** A piece that is read as such when z follows it. */
  predicate Fits(p: Piece, z: string) {
    match p
    case Self(c) => c != '\\' && c != '"' && c != '\0'
    case Letter(c) => c != '\0' && !(c == 'x' && IsHex(At(z, 0)) && IsHex(At(z, 1)))
    case Code(h, l) => IsHex(h) && IsHex(l)
  }

  function Texts(ps: seq<Piece>): string {
    if ps == [] then "" else Text(ps[0]) + Texts(ps[1..])
  }

  function Meanings(ps: seq<Piece>): string {
    if ps == [] then "" else [Meaning(ps[0])] + Meanings(ps[1..])
  }

  predicate AllFit(ps: seq<Piece>, z: string) {
    ps == [] || (Fits(ps[0], Texts(ps[1..]) + z) && AllFit(ps[1..], z))
  }

  lemma PieceRead(p: Piece, z: string, cur: string)
    requires Fits(p, z)
    ensures Token(Text(p) + z, cur, Double) == Token(z, cur + [Meaning(p)], Double)
  {
    match p
    case Self(c) => OneAhead(c, z);
    case Letter(c) =>
      TwoAhead(c, z);
      BehindTwo('\\', c, z);
    case Code(h, l) => FourAhead(h, l, z);
  }

  lemma BehindTwo(b: char, c: char, z: string)
    ensures var s := [b, c] + z; At(s, 2) == At(z, 0) && At(s, 3) == At(z, 1)
  {
  }

  lemma {:induction false} PiecesRead(ps: seq<Piece>, z: string, cur: string)
    requires AllFit(ps, z)
    ensures Token(Texts(ps) + z, cur, Double) == Token(z, cur + Meanings(ps), Double)
  {
    hide Token, Fits, Text, Meaning;
    if ps == [] {
      assert Texts(ps) + z == z && cur + Meanings(ps) == cur;
    } else {
      var y := Texts(ps[1..]) + z;
      Assoc(Text(ps[0]), Texts(ps[1..]), z);
      PieceRead(ps[0], y, cur);
      PiecesRead(ps[1..], z, cur + [Meaning(ps[0])]);
      Assoc(cur, [Meaning(ps[0])], Meanings(ps[1..]));
    }
  }

  // ---- single quotes

  /** Between single quotes a quote is written behind a backslash, every other byte as itself. */
  function Guarded(v: string): string {
    if v == "" then "" else (if v[0] == '\'' then "\\'" else [v[0]]) + Guarded(v[1..])
  }

  predicate NoNul(v: string) {
    forall i | 0 <= i < |v| :: v[i] != '\0'
  }

  predicate EndsInBackslash(v: string) {
    v != "" && v[|v| - 1] == '\\'
  }

  lemma GuardedFront(v: string, z: string)
    requires v != "" || At(z, 0) != '\''
    ensures At(Guarded(v) + z, 0) != '\''
  {
    if v == "" { assert Guarded(v) + z == z; }
  }

  lemma {:induction false} GuardedRead(v: string, z: string, cur: string)
    requires NoNul(v) && !EndsInBackslash(v)
    ensures Token(Guarded(v) + z, cur, Single) == Token(z, cur + v, Single)
  {
    if v == "" {
      assert Guarded(v) + z == z && cur + v == cur;
    } else {
      var y := Guarded(v[1..]) + z;
      assert cur + v == cur + [v[0]] + v[1..];
      GuardedRead(v[1..], z, cur + [v[0]]);
      if v[0] == '\'' {
        assert Guarded(v) + z == ['\\', '\''] + y;
        TwoAhead('\'', y);
      } else {
        assert Guarded(v) + z == [v[0]] + y;
        OneAhead(v[0], y);
        if v[0] == '\\' { GuardedFront(v[1..], z); }
      }
    }
  }

  // ---- words

  datatype Form = Bare | Quotes(pieces: seq<Piece>) | Apostrophes(content: string)

  datatype Word = Word(plain: string, form: Form)

  /** The bytes that end an unquoted word. */
  predicate Ends(c: char) {
    c == ' ' || c == '\n' || c == '\r' || c == '\t'
  }

  predicate IsPlain(c: char) {
    c != '\0' && !Ends(c) && c != '"' && c != '\''
  }

  predicate AllPlain(v: string) {
    forall i | 0 <= i < |v| :: IsPlain(v[i])
  }

  function FormText(f: Form): string {
    match f
    case Bare => ""
    case Quotes(ps) => "\"" + Texts(ps) + "\""
    case Apostrophes(v) => "'" + Guarded(v) + "'"
  }

  function FormValue(f: Form): string {
    match f
    case Bare => ""
    case Quotes(ps) => Meanings(ps)
    case Apostrophes(v) => v
  }

  function Written(w: Word): string {
    w.plain + FormText(w.form)
  }

  function Value(w: Word): string {
    w.plain + FormValue(w.form)
  }

  /** A form that is read as such when z follows it. */
  predicate Stands(f: Form, z: string) {
    match f
    case Bare => At(z, 0) == '\0' || Ends(At(z, 0))
    case Quotes(ps) => AllFit(ps, "\"" + z) && (At(z, 0) == '\0' || IsSpace(At(z, 0)))
    case Apostrophes(v) => NoNul(v) && !EndsInBackslash(v) && (At(z, 0) == '\0' || IsSpace(At(z, 0)))
  }

  lemma {:induction false} PlainRead(v: string, z: string, cur: string)
    requires AllPlain(v)
    ensures Token(v + z, cur, Plain) == Token(z, cur + v, Plain)
  {
    if v == "" {
      assert v + z == z && cur + v == cur;
    } else {
      assert IsPlain(v[0]);
      assert v + z == [v[0]] + (v[1..] + z) && cur + v == cur + [v[0]] + v[1..];
      OneAhead(v[0], v[1..] + z);
      PlainRead(v[1..], z, cur + [v[0]]);
    }
  }

  /** What is left after a word: a blank that ended it is gone. */
  function After(f: Form, z: string): string {
    if f.Bare? && At(z, 0) != '\0' then z[1..] else z
  }

  lemma Wrapped(q: char, body: string, z: string)
    ensures var s := [q] + body + [q] + z; At(s, 0) == q && s[1..] == body + ([q] + z)
  {
  }

  lemma QuotesRead(ps: seq<Piece>, z: string, cur: string)
    requires Stands(Quotes(ps), z)
    ensures Token("\"" + Texts(ps) + "\"" + z, cur, Plain) == Tok(cur + Meanings(ps), z)
  {
    hide Texts, Meanings, AllFit;
    Wrapped('"', Texts(ps), z);
    PiecesRead(ps, "\"" + z, cur);
    OneAhead('"', z);
  }

  lemma ApostrophesRead(v: string, z: string, cur: string)
    requires Stands(Apostrophes(v), z)
    ensures Token("'" + Guarded(v) + "'" + z, cur, Plain) == Tok(cur + v, z)
  {
    hide Guarded;
    Wrapped('\'', Guarded(v), z);
    GuardedRead(v, "'" + z, cur);
    OneAhead('\'', z);
  }

  lemma FormRead(f: Form, z: string, cur: string)
    requires Stands(f, z)
    ensures Token(FormText(f) + z, cur, Plain) == Tok(cur + FormValue(f), After(f, z))
  {
    match f
    case Bare => assert FormText(f) + z == z && cur + FormValue(f) == cur;
    case Quotes(ps) => QuotesRead(ps, z, cur);
    case Apostrophes(v) => ApostrophesRead(v, z, cur);
  }

  /** A word comes back as its value. */
  lemma WordRead(w: Word, z: string)
    requires AllPlain(w.plain) && Stands(w.form, z)
    ensures Token(Written(w) + z, "", Plain) == Tok(Value(w), After(w.form, z))
  {
    hide Token, FormText, FormValue;
    Assoc(w.plain, FormText(w.form), z);
    PlainRead(w.plain, FormText(w.form) + z, "");
    assert "" + w.plain == w.plain;
    FormRead(w.form, z, w.plain);
  }

  // ---- lines

  datatype Slot = Slot(blanks: string, word: Word)

  predicate AllSpace(v: string) {
    forall i | 0 <= i < |v| :: IsSpace(v[i])
  }

  /** Words with blanks before each, then the rest of the line. */
  function LineOf(slots: seq<Slot>, end: string): string {
    if slots == [] then end else slots[0].blanks + (Written(slots[0].word) + LineOf(slots[1..], end))
  }

  function Values(slots: seq<Slot>): seq<string> {
    if slots == [] then [] else [Value(slots[0].word)] + Values(slots[1..])
  }

  /** Every word is read as such where it stands. */
  predicate Proper(slots: seq<Slot>, end: string) {
    slots == [] || (
      && AllSpace(slots[0].blanks)
      && AllPlain(slots[0].word.plain)
      && Stands(slots[0].word.form, LineOf(slots[1..], end))
      && Begins(slots[0].word)
      && Proper(slots[1..], end))
  }

  /** A word begins with something that no blank is: vertical tab and form feed are blanks, but do not end a word. */
  predicate Begins(w: Word) {
    if w.plain == "" then !w.form.Bare? else !IsSpace(w.plain[0])
  }

  /** What may follow the last word: blanks up to the end of the line. */
  predicate Ending(end: string) {
    At(SkipBlanks(end), 0) == '\0'
  }

  lemma {:induction false} BlanksSkipped(b: string, z: string)
    requires AllSpace(b)
    ensures SkipBlanks(b + z) == SkipBlanks(z)
  {
    if b == "" {
      assert b + z == z;
    } else {
      assert IsSpace(b[0]);
      assert b + z == [b[0]] + (b[1..] + z);
      OneAhead(b[0], b[1..] + z);
      BlanksSkipped(b[1..], z);
    }
  }

  lemma SplitSkips(s: string, t: string)
    requires SkipBlanks(s) == SkipBlanks(t)
    ensures Split(s) == Split(t)
  {
  }

  lemma SkipsOne(z: string)
    requires z != "" && Ends(z[0])
    ensures SkipBlanks(z[1..]) == SkipBlanks(z)
  {
  }

  lemma AfterSplits(f: Form, z: string)
    requires Stands(f, z)
    ensures Split(After(f, z)) == Split(z)
  {
    if f.Bare? && At(z, 0) != '\0' {
      SkipsOne(z);
      SplitSkips(After(f, z), z);
    }
  }

  lemma WordFront(w: Word, z: string)
    requires AllPlain(w.plain) && Begins(w)
    ensures var s := Written(w) + z; At(s, 0) != '\0' && SkipBlanks(s) == s
  {
    if w.plain != "" { assert IsPlain(w.plain[0]); }
  }

  lemma SplitWord(slot: Slot, z: string)
    requires AllSpace(slot.blanks) && AllPlain(slot.word.plain) && Stands(slot.word.form, z) && Begins(slot.word)
    ensures Split(slot.blanks + (Written(slot.word) + z)) == Push(Value(slot.word), Split(z))
  {
    hide Token, SkipBlanks, Stands, Written, Value, Begins, IsSpace;
    var t := Written(slot.word) + z;
    BlanksSkipped(slot.blanks, t);
    SplitSkips(slot.blanks + t, t);
    WordFront(slot.word, z);
    WordRead(slot.word, z);
    SplitStep(t, Value(slot.word), After(slot.word.form, z));
    AfterSplits(slot.word.form, z);
  }

  /** A line of words splits to their values, in order. */
  lemma {:induction false} LineRead(slots: seq<Slot>, end: string)
    requires Proper(slots, end) && Ending(end)
    ensures Split(LineOf(slots, end)) == Some(Values(slots))
  {
    hide Written, Value, Stands, Begins, AllSpace, AllPlain;
    if slots == [] {
      assert LineOf(slots, end) == end;
    } else {
      LineRead(slots[1..], end);
      SplitWord(slots[0], LineOf(slots[1..], end));
    }
  }

  // ---- no other lines are accepted

  lemma LastQuote(s: string, cur: string)
    requires Token(s, cur, Double).Tok? && At(s, 0) == '"'
    ensures var t := Token(s, cur, Double);
      s == "\"" + t.rest && t.text == cur && Stands(Quotes([]), t.rest)
  {
    assert s == ['"'] + s[1..];
  }

  lemma OnePiece(s: string, cur: string) returns (p: Piece, z: string)
    requires Token(s, cur, Double).Tok? && At(s, 0) != '"'
    ensures s == Text(p) + z && Fits(p, z)
    ensures Token(s, cur, Double) == Token(z, cur + [Meaning(p)], Double)
  {
    hide Token, HexVal, Unescape, IsHex, Closed;
    NotAtEnd(s, cur);
    if HexEscape(s) {
      p, z := Code(s[2], s[3]), s[4..];
    } else if s[0] == '\\' {
      p, z := Letter(s[1]), s[2..];
      assert s == ['\\', s[1]] + z;
      BehindTwo('\\', s[1], z);
    } else {
      p, z := Self(s[0]), s[1..];
    }
    assert s == Text(p) + z;
    PieceRead(p, z, cur);
  }

  lemma {:induction false} NotAtEnd(s: string, cur: string)
    requires Token(s, cur, Double).Tok? && At(s, 0) != '"'
    ensures s != "" && s[0] != '\0' && (s[0] == '\\' ==> |s| > 1 && s[1] != '\0')
    ensures HexEscape(s) ==> |s| >= 4
  {
    if s[0] == '\\' && At(s, 1) == '\0' {
      AtEnd(s[1..], cur + [s[0]]);
    }
  }

  lemma AtEnd(s: string, cur: string)
    requires At(s, 0) == '\0'
    ensures Token(s, cur, Double) == Bad
  {
  }

  /** What was read between double quotes consists of pieces and the closing quote. */
  lemma {:induction false} InsideQuotes(s: string, cur: string) returns (ps: seq<Piece>)
    requires Token(s, cur, Double).Tok?
    ensures var t := Token(s, cur, Double);
      s == Texts(ps) + ("\"" + t.rest) && t.text == cur + Meanings(ps) && Stands(Quotes(ps), t.rest)
    decreases |s|
  {
    hide Token, Text, Meaning, Fits, Stands;
    var t := Token(s, cur, Double);
    if At(s, 0) == '"' {
      LastQuote(s, cur);
      ps := [];
      assert s == "" + ("\"" + t.rest) && cur == cur + "";
    } else {
      var p, z := OnePiece(s, cur);
      var more := InsideQuotes(z, cur + [Meaning(p)]);
      ps := [p] + more;
      FirstPiece(p, more, t.rest);
      Assoc(Text(p), Texts(more), "\"" + t.rest);
      Assoc(cur, [Meaning(p)], Meanings(more));
    }
  }

  lemma FirstPiece(p: Piece, more: seq<Piece>, rest: string)
    requires Fits(p, Texts(more) + ("\"" + rest)) && Stands(Quotes(more), rest)
    ensures var ps := [p] + more; Texts(ps) == Text(p) + Texts(more) && Meanings(ps) == [Meaning(p)] + Meanings(more)
    ensures Stands(Quotes([p] + more), rest)
  {
    assert ([p] + more)[1..] == more;
  }

  lemma LastApostrophe(s: string, cur: string)
    requires Token(s, cur, Single).Tok? && At(s, 0) == '\''
    ensures var t := Token(s, cur, Single);
      s == "'" + t.rest && t.text == cur && Stands(Apostrophes(""), t.rest)
  {
    assert s == ['\''] + s[1..];
  }

  /** One byte of the content. */
  function Guard(d: char): (g: string)
    ensures g != ""
  {
    if d == '\'' then "\\'" else [d]
  }

  lemma OneByte(s: string, cur: string) returns (d: char, z: string)
    requires Token(s, cur, Single).Tok? && At(s, 0) != '\''
    ensures s == Guard(d) + z && d != '\0' && (d == '\\' ==> At(z, 0) != '\'')
    ensures Token(s, cur, Single) == Token(z, cur + [d], Single)
  {
    if s[0] == '\\' && At(s, 1) == '\'' {
      d, z := '\'', s[2..];
      assert s == ['\\', '\''] + z;
    } else {
      d, z := s[0], s[1..];
      assert s == [d] + z;
    }
  }

  lemma FirstByte(d: char, more: string, rest: string)
    requires d != '\0' && Stands(Apostrophes(more), rest)
    requires d == '\\' ==> At(Guarded(more) + ("'" + rest), 0) != '\''
    ensures Guarded([d] + more) == Guard(d) + Guarded(more) && Stands(Apostrophes([d] + more), rest)
  {
    assert ([d] + more)[1..] == more;
    if more == "" { assert Guarded(more) + ("'" + rest) == ['\''] + rest; }
  }

  /** What was read between single quotes is the content, guarded, and the closing quote. */
  lemma {:induction false} InsideApostrophes(s: string, cur: string) returns (v: string)
    requires Token(s, cur, Single).Tok?
    ensures var t := Token(s, cur, Single);
      s == Guarded(v) + ("'" + t.rest) && t.text == cur + v && Stands(Apostrophes(v), t.rest)
    decreases |s|
  {
    hide Token, Guard, Stands, Guarded;
    var t := Token(s, cur, Single);
    if At(s, 0) == '\'' {
      LastApostrophe(s, cur);
      NothingGuarded();
      v := "";
      assert s == "" + ("'" + t.rest) && cur == cur + "";
    } else {
      var d, z := OneByte(s, cur);
      var more := InsideApostrophes(z, cur + [d]);
      v := [d] + more;
      FirstByte(d, more, t.rest);
      Assoc(Guard(d), Guarded(more), "'" + t.rest);
      Assoc(cur, [d], more);
    }
  }

  lemma NothingGuarded()
    ensures Guarded("") == ""
  {
  }

  /** s is the word and z, of which reading the word leaves t.rest. */
  ghost predicate Reads(s: string, cur: string, t: Scanned, w: Word, z: string) {
    && t.Tok? && s == Written(w) + z && t.text == cur + Value(w) && t.rest == After(w.form, z)
    && AllPlain(w.plain) && Stands(w.form, z)
  }

  lemma FormIs(s: string, cur: string) returns (f: Form, z: string)
    requires Token(s, cur, Plain).Tok? && !IsPlain(At(s, 0))
    ensures Reads(s, cur, Token(s, cur, Plain), Word("", f), z)
  {
    var c, t := At(s, 0), Token(s, cur, Plain);
    if c == '"' {
      var ps := InsideQuotes(s[1..], cur);
      f, z := Quotes(ps), t.rest;
      Wrapped('"', Texts(ps), z);
      assert s == ['"'] + s[1..] && s == FormText(f) + z;
    } else if c == '\'' {
      var v := InsideApostrophes(s[1..], cur);
      f, z := Apostrophes(v), t.rest;
      Wrapped('\'', Guarded(v), z);
      assert s == ['\''] + s[1..] && s == FormText(f) + z;
    } else {
      f, z := Bare, s;
      assert s == FormText(f) + z && cur == cur + FormValue(f);
    }
    EmptyPlain(f);
  }

  lemma EmptyPlain(f: Form)
    ensures var w := Word("", f); Written(w) == FormText(f) && Value(w) == FormValue(f) && AllPlain(w.plain)
  {
  }

  lemma MorePlain(c: char, s: string, cur: string, t: Scanned, w: Word, z: string)
    requires IsPlain(c) && Reads(s, cur + [c], t, w, z)
    ensures Reads([c] + s, cur, t, Word([c] + w.plain, w.form), z)
  {
    hide Stands, After, FormText, FormValue;
    var v := Word([c] + w.plain, w.form);
    PlainInFront(c, w);
    Assoc(cur, [c], Value(w));
    Assoc([c], Written(w), z);
  }

  lemma PlainInFront(c: char, w: Word)
    ensures var v := Word([c] + w.plain, w.form); Written(v) == [c] + Written(w) && Value(v) == [c] + Value(w)
  {
    Assoc([c], w.plain, FormText(w.form));
    Assoc([c], w.plain, FormValue(w.form));
  }

  lemma {:induction false} InsideWord(s: string, cur: string) returns (w: Word, z: string)
    requires Token(s, cur, Plain).Tok?
    ensures Reads(s, cur, Token(s, cur, Plain), w, z)
    decreases |s|
  {
    hide Reads;
    var c := At(s, 0);
    if IsPlain(c) {
      var more;
      more, z := InsideWord(s[1..], cur + [c]);
      MorePlain(c, s[1..], cur, Token(s, cur, Plain), more, z);
      w := Word([c] + more.plain, more.form);
      assert s == [c] + s[1..];
    } else {
      var f;
      f, z := FormIs(s, cur);
      w := Word("", f);
    }
  }

  lemma MoreSpace(c: char, b: string)
    requires IsSpace(c) && AllSpace(b)
    ensures AllSpace([c] + b)
  {
  }

  /** The blanks in front. */
  lemma {:induction false} InsideBlanks(s: string) returns (b: string)
    ensures s == b + SkipBlanks(s) && AllSpace(b)
  {
    hide AllSpace, IsSpace;
    if At(s, 0) != '\0' && IsSpace(At(s, 0)) {
      var more := InsideBlanks(s[1..]);
      b := [s[0]] + more;
      MoreSpace(s[0], more);
      assert s == [s[0]] + s[1..];
      Assoc([s[0]], more, SkipBlanks(s[1..]));
    } else {
      b := "";
      NoSpace();
      assert s == b + s;
    }
  }

  lemma NoSpace()
    ensures AllSpace("")
  {
  }

  lemma WordBegins(w: Word, z: string)
    requires var s := Written(w) + z; At(s, 0) != '\0' && !IsSpace(At(s, 0))
    requires AllPlain(w.plain) && Stands(w.form, z)
    ensures Begins(w)
  {
    if w.plain == "" {
      assert Written(w) == FormText(w.form);
    } else {
      assert (Written(w) + z)[0] == w.plain[0];
    }
  }

  lemma SkipStops(s: string)
    ensures var t := SkipBlanks(s); At(t, 0) == '\0' || !IsSpace(At(t, 0))
  {
  }

  lemma PutInFront(slot: Slot, more: seq<Slot>, end: string)
    requires AllSpace(slot.blanks) && AllPlain(slot.word.plain) && Begins(slot.word)
    requires Stands(slot.word.form, LineOf(more, end)) && Proper(more, end)
    ensures var slots := [slot] + more;
      && Proper(slots, end) && Values(slots) == [Value(slot.word)] + Values(more)
      && LineOf(slots, end) == slot.blanks + (Written(slot.word) + LineOf(more, end))
  {
    assert ([slot] + more)[1..] == more;
  }

  /** The words of an accepted line. */
  lemma {:induction false} LineMade(s: string) returns (slots: seq<Slot>, end: string)
    requires Split(s).Some?
    ensures s == LineOf(slots, end) && Proper(slots, end) && Ending(end) && Split(s) == Some(Values(slots))
    decreases |s|
  {
    hide Token, Stands, Written, Value, Begins, IsSpace, AllSpace, AllPlain, Ends;
    var t := SkipBlanks(s);
    var b := InsideBlanks(s);
    SkipStops(s);
    if At(t, 0) == '\0' {
      slots, end := [], s;
    } else {
      var w, z := InsideWord(t, "");
      assert "" + Value(w) == Value(w);
      WordBegins(w, z);
      AfterSplits(w.form, z);
      ShorterAfter(w, z);
      slots, end := LineMade(z);
      LineRead(slots, end);
      SplitWord(Slot(b, w), z);
      PutInFront(Slot(b, w), slots, end);
      slots := [Slot(b, w)] + slots;
    }
  }

  lemma ShorterAfter(w: Word, z: string)
    requires Begins(w)
    ensures |z| < |Written(w) + z|
  {
  }

  ghost predicate Made(slots: seq<Slot>, end: string, s: string) {
    s == LineOf(slots, end) && Proper(slots, end) && Ending(end)
  }

  /** A line has these arguments exactly if it is made of words with these values; no other line has any. */
  lemma SplitIff(s: string, args: seq<string>)
    ensures Split(s) == Some(args) <==> exists slots, end :: Made(slots, end, s) && args == Values(slots)
  {
    if Split(s) == Some(args) {
      var slots, end := LineMade(s);
      assert Made(slots, end, s);
    }
    forall slots, end | Made(slots, end, s) && args == Values(slots) ensures Split(s) == Some(args) {
      LineRead(slots, end);
    }
  }

  // ---- what a caller can check piece by piece

  /** A form that is read as such before any blank and at the end of a line. */
  predicate Sound(f: Form) {
    match f
    case Bare => true
    case Quotes(ps) => AllFit(ps, "\"")
    case Apostrophes(v) => NoNul(v) && !EndsInBackslash(v)
  }

  predicate SoundSlot(slot: Slot) {
    AllSpace(slot.blanks) && AllPlain(slot.word.plain) && Begins(slot.word) && Sound(slot.word.form)
  }

  /** A gap between two words, or behind the last one. */
  predicate Gap(b: string) {
    AllSpace(b) && b != "" && Ends(b[0])
  }

  lemma SeenAlike(t: string, z: string)
    ensures var y := t + "\""; var x := t + ("\"" + z); At(y, 0) == At(x, 0) && (At(y, 0) != '"' ==> At(y, 1) == At(x, 1))
  {
    if t == "" {
      assert t + "\"" == "\"" && t + ("\"" + z) == ['"'] + z;
    }
  }

  lemma {:induction false} FitAnywhere(ps: seq<Piece>, z: string)
    requires AllFit(ps, "\"")
    ensures AllFit(ps, "\"" + z)
  {
    if ps != [] {
      FitAnywhere(ps[1..], z);
      SeenAlike(Texts(ps[1..]), z);
    }
  }

  lemma SoundStands(f: Form, z: string)
    requires Sound(f) && (z == "" || Ends(z[0]))
    ensures Stands(f, z)
  {
    hide AllFit;
    if f.Quotes? { FitAnywhere(f.pieces, z); }
  }

  lemma EndingBlanks(end: string)
    requires AllSpace(end)
    ensures Ending(end)
  {
    BlanksSkipped(end, "");
    assert end + "" == end;
  }

  /** Words in any of the three forms, with any gaps between them, come back. */
  lemma {:induction false} WordsBack(slots: seq<Slot>, end: string)
    requires forall i | 0 <= i < |slots| :: SoundSlot(slots[i])
    requires forall i | 0 < i < |slots| :: Gap(slots[i].blanks)
    requires end == "" || Gap(end)
    ensures Proper(slots, end) && Split(LineOf(slots, end)) == Some(Values(slots))
  {
    hide Begins, AllPlain, Sound, Stands, Written, Value;
    EndingBlanks(end);
    if slots != [] {
      WordsBack(slots[1..], end);
      var z := LineOf(slots[1..], end);
      if |slots| > 1 { assert z[0] == slots[1].blanks[0]; }
      SoundStands(slots[0].word.form, z);
      assert SoundSlot(slots[0]);
    }
    LineRead(slots, end);
  }

  /** Words without blanks, quotes or NULs, with one string of blanks before each. */
  function Unquoted(words: seq<string>, blanks: seq<string>): (slots: seq<Slot>)
    requires |words| == |blanks|
    ensures |slots| == |words| && forall i | 0 <= i < |slots| :: slots[i] == Slot(blanks[i], Word(words[i], Bare))
  {
    seq(|words|, i requires 0 <= i < |words| => Slot(blanks[i], Word(words[i], Bare)))
  }

  predicate Unspaced(v: string) {
    v != "" && AllPlain(v) && forall i | 0 <= i < |v| :: !IsSpace(v[i])
  }

  lemma {:induction false} UnquotedValues(words: seq<string>, slots: seq<Slot>)
    requires |words| == |slots| && forall i | 0 <= i < |slots| :: slots[i].word == Word(words[i], Bare)
    ensures Values(slots) == words
  {
    if words != [] {
      UnquotedValues(words[1..], slots[1..]);
      assert Value(slots[0].word) == words[0];
      assert words == [words[0]] + words[1..];
    }
  }

  lemma UnquotedBack(words: seq<string>, blanks: seq<string>, end: string)
    requires |words| == |blanks|
    requires forall i | 0 <= i < |words| :: Unspaced(words[i]) && AllSpace(blanks[i]) && (i > 0 ==> Gap(blanks[i]))
    requires end == "" || Gap(end)
    ensures Split(LineOf(Unquoted(words, blanks), end)) == Some(words)
  {
    hide AllPlain, Gap, LineOf, Values, AllSpace;
    var slots := Unquoted(words, blanks);
    forall i | 0 <= i < |slots| ensures SoundSlot(slots[i]) {
      assert Unspaced(words[i]);
    }
    WordsBack(slots, end);
    UnquotedValues(words, slots);
  }

  // ---- the exact limit of single quotes, and the lines refused

  lemma NoBackslash(s: string, v: string, z: string)
    requires Token(s, "", Single) == Tok(v, z)
    ensures !EndsInBackslash(v)
  {
    var u := InsideApostrophes(s, "");
    assert "" + u == u;
  }

  /** A single-quoted form comes back exactly if its content does not end in a backslash. */
  lemma ApostrophesIff(v: string, z: string)
    requires NoNul(v) && (At(z, 0) == '\0' || IsSpace(At(z, 0)))
    ensures Token("'" + Guarded(v) + "'" + z, "", Plain) == Tok(v, z) <==> !EndsInBackslash(v)
  {
    var s := "'" + Guarded(v) + "'" + z;
    if !EndsInBackslash(v) {
      ApostrophesRead(v, z, "");
      assert "" + v == v;
    } else if Token(s, "", Plain) == Tok(v, z) {
      Wrapped('\'', Guarded(v), z);
      NoBackslash(s[1..], v, z);
    }
  }

  /** Neither a closing quote: the text between quotes runs to the end of the line. */
  lemma UnclosedQuotes(plain: string, ps: seq<Piece>, z: string)
    requires AllPlain(plain) && AllFit(ps, z) && At(z, 0) == '\0'
    ensures Token(plain + ("\"" + (Texts(ps) + z)), "", Plain) == Bad
  {
    var y := Texts(ps) + z;
    PlainRead(plain, "\"" + y, "");
    OneAhead('"', y);
    PiecesRead(ps, z, "" + plain);
  }

  lemma UnclosedApostrophes(plain: string, v: string, z: string)
    requires AllPlain(plain) && NoNul(v) && !EndsInBackslash(v) && At(z, 0) == '\0'
    ensures Token(plain + ("'" + (Guarded(v) + z)), "", Plain) == Bad
  {
    var y := Guarded(v) + z;
    PlainRead(plain, "'" + y, "");
    OneAhead('\'', y);
    GuardedRead(v, z, "" + plain);
  }

  /** A closing quote with something else right behind it. */
  lemma Glued(w: Word, z: string)
    requires AllPlain(w.plain) && At(z, 0) != '\0' && !IsSpace(At(z, 0))
    requires match w.form
      case Bare => false
      case Quotes(ps) => AllFit(ps, "\"" + z)
      case Apostrophes(v) => NoNul(v) && !EndsInBackslash(v)
    ensures Token(Written(w) + z, "", Plain) == Bad
  {
    Assoc(w.plain, FormText(w.form), z);
    PlainRead(w.plain, FormText(w.form) + z, "");
    var cur := "" + w.plain;
    match w.form
    case Quotes(ps) =>
      Wrapped('"', Texts(ps), z);
      PiecesRead(ps, "\"" + z, cur);
      OneAhead('"', z);
    case Apostrophes(v) =>
      Wrapped('\'', Guarded(v), z);
      GuardedRead(v, "'" + z, cur);
      OneAhead('\'', z);
  }

  /** One refused word refuses the whole line. */
  lemma {:induction false} LineRefused(slots: seq<Slot>, b: string, t: string)
    requires Proper(slots, b + t) && AllSpace(b)
    requires At(t, 0) != '\0' && !IsSpace(At(t, 0)) && Token(t, "", Plain) == Bad
    ensures Split(LineOf(slots, b + t)) == None
  {
    hide Token, Written, Value, Stands, Begins, AllPlain;
    if slots == [] {
      BlanksSkipped(b, t);
      assert SkipBlanks(b + t) == t;
    } else {
      LineRefused(slots[1..], b, t);
      SplitWord(slots[0], LineOf(slots[1..], b + t));
    }
  }

  // ---- the tables

  const ESCAPED_BYTES: seq<int> := [34, 92, 10, 13, 9, 7, 8]
  const ESCAPE_LETTERS: string := "\"\\nrtab"

  /** Quote, backslash, line feed, carriage return, tab, bell and backspace have a letter; every other printable byte stands for itself. */
  lemma LettersAre(c: char)
    requires c as int < 256
    ensures forall i | 0 <= i < 7 ::
      Escaped(ESCAPED_BYTES[i] as char) == ['\\', ESCAPE_LETTERS[i]] && Unescape(ESCAPE_LETTERS[i]) == ESCAPED_BYTES[i] as char
    ensures c !in ESCAPE_LETTERS ==> Unescape(c) == c
    ensures c as int !in ESCAPED_BYTES ==> if 32 <= c as int <= 126 then Escaped(c) == [c] else |Escaped(c)| == 4
  {
    hide HexDigit;
    InByte(c as int);
  }

  const LOWER_DIGITS: string := "0123456789abcdef"
  const UPPER_DIGITS: string := "0123456789ABCDEF"

  lemma DigitsAre(v: nat)
    requires v < 16
    ensures HexDigit(v) == LOWER_DIGITS[v] && HexVal(LOWER_DIGITS[v]) == HexVal(UPPER_DIGITS[v]) == v
    ensures IsHex(LOWER_DIGITS[v]) && IsHex(UPPER_DIGITS[v])
  {
  }

  /** A byte that is not printable and has no letter is written as its two hexadecimal digits in lower case. */
  lemma CodesAre(c: char)
    requires c as int < 256 && c as int !in ESCAPED_BYTES && !(32 <= c as int <= 126)
    ensures var v := c as int; Escaped(c) == ['\\', 'x', LOWER_DIGITS[v / 16], LOWER_DIGITS[v % 16]]
  {
    hide HexDigit, HexVal, IsHex;
    var v := c as int;
    InByte(v);
    DigitsAre(v / 16);
    DigitsAre(v % 16);
  }

  lemma SpacesAre(c: char)
    ensures IsSpace(c) <==> c as int in [32, 9, 10, 11, 12, 13]
    ensures IsHex(c) <==> c in LOWER_DIGITS + UPPER_DIGITS
  {
    if IsHex(c) {
      var v := HexVal(c);
      assert c == LOWER_DIGITS[v] || c == UPPER_DIGITS[v];
    }
  }
}
