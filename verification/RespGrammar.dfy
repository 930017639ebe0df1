/**
 The Redis reply grammar as a plain recursive-descent parser over one complete
 buffer, and the text of a reply.  A byte is a `char`.
 */
module RespGrammar {

  datatype Reply =
    | Str(text: string)
    | Status(text: string)
    | Error(text: string)
    | Integer(n: int)
    | Nil
    | Arr(elements: int, items: seq<Reply>)

  datatype Outcome =
    | Item(reply: Reply, rest: string)
    | More       // the buffer ends inside the item
    | Bad        // protocol error

  datatype ListOutcome =
    | Items(replies: seq<Reply>, after: string)
    | MoreItems
    | BadItems

  const MAX_DEPTH: nat := 8

  /** The first position of CR LF, or |s| if there is none. */
  function Newline(s: string): (p: nat)
    ensures p <= |s|
    ensures p < |s| ==> p + 1 < |s| && s[p] == '\r' && s[p + 1] == '\n'
  {
    if |s| < 2 then |s|
    else if s[0] == '\r' && s[1] == '\n' then 0
    else 1 + Newline(s[1..])
  }

  function DigitVal(c: char): int {
    c as int - '0' as int
  }

  /** The digits up to the first CR, on top of v; -1 if anything else comes before it. */
  function Digits(s: string, v: nat): (r: int)
    ensures r >= -1
  {
    if s == "" then -1
    else if s[0] == '\r' then v
    else if 0 <= DigitVal(s[0]) < 10 then Digits(s[1..], 10 * v + DigitVal(s[0]))
    else -1
  }

  function Negated(r: int): int {
    if r == -1 then -1 else -r
  }

  /** The number a header line starts with: an optional sign, then digits; -1 for anything else. */
  function Number(s: string): int {
    if s == "" then -1
    else if s[0] == '-' then Negated(Digits(s[1..], 0))
    else if s[0] == '+' then Digits(s[1..], 0)
    else Digits(s, 0)
  }

  datatype Kind = Untyped | KError | KStatus | KInteger | KString | KArray

  /** The item type a byte announces; Untyped for a byte that announces none. */
  function KindOf(c: char): Kind {
    match c
    case '-' => KError
    case '+' => KStatus
    case ':' => KInteger
    case '$' => KString
    case '*' => KArray
    case _ => Untyped
  }

  /** What follows a type byte: not all there yet, a whole reply, or the header of n > 0 items. */
  datatype Token =
    | Wait
    | Leaf(reply: Reply, rest: string)
    | Opens(n: int, rest: string)

  /** A `$` header of n, with what follows its line; the two bytes after the data are skipped unread. */
  function Bulk(n: int, data: string): Token {
    if n < 0 then Leaf(Nil, data)
    else if |data| < n + 2 then Wait
    else Leaf(Str(data[..n]), data[n+2..])
  }

  /** A `*` header of n. */
  function Multi(n: int, rest: string): Token {
    if n == -1 then Leaf(Nil, rest)
    else if n <= 0 then Leaf(Arr(n, []), rest)
    else Opens(n, rest)
  }

  function Line(kind: Kind, text: string, n: int, rest: string): Token {
    match kind
    case KError => Leaf(Error(text), rest)
    case KStatus => Leaf(Status(text), rest)
    case KInteger => Leaf(Integer(n), rest)
    case KString => Bulk(n, rest)
    case KArray => Multi(n, rest)
    case Untyped => Wait
  }

  function Scan(kind: Kind, s: string): (t: Token)
    ensures t.Leaf? ==> |t.rest| < |s|
    ensures t.Opens? ==> |t.rest| < |s| && t.n > 0
  {
    var p := Newline(s);
    if p == |s| then Wait else Line(kind, s[..p], Number(s), s[p+2..])
  }

  /** One reply lying inside `depth` arrays. */
  function ParseItem(s: string, depth: nat): (o: Outcome)
    ensures o.Item? ==> |o.rest| < |s|
    decreases |s|, 0
  {
    if s == "" then More
    else if KindOf(s[0]) == Untyped then Bad
    else if s[0] == '*' && depth >= MAX_DEPTH then Bad
    else
      match Scan(KindOf(s[0]), s[1..])
      case Wait => More
      case Leaf(r, rest) => Item(r, rest)
      case Opens(n, rest) =>
        match ParseItems(rest, n, depth + 1)
        case Items(rs, after) => Item(Arr(n, rs), after)
        case MoreItems => More
        case BadItems => Bad
  }

  /** n replies in a row. */
  function ParseItems(s: string, n: nat, depth: nat): (o: ListOutcome)
    ensures o.Items? ==> |o.after| <= |s| && |o.replies| == n
    decreases |s|, 1, n
  {
    if n == 0 then Items([], s)
    else
      match ParseItem(s, depth)
      case More => MoreItems
      case Bad => BadItems
      case Item(r, rest) =>
        match ParseItems(rest, n - 1, depth)
        case Items(rs, after) => Items([r] + rs, after)
        case MoreItems => MoreItems
        case BadItems => BadItems
  }

  function Cons(r: Reply, o: ListOutcome): ListOutcome {
    match o
    case Items(rs, after) => Items([r] + rs, after)
    case _ => o
  }

  lemma ItemsCons(s: string, n: nat, depth: nat)
    requires n > 0
    ensures ParseItems(s, n, depth) ==
      match ParseItem(s, depth)
      case More => MoreItems
      case Bad => BadItems
      case Item(r, rest) => Cons(r, ParseItems(rest, n - 1, depth))
  {
  }

  datatype Stream = Stream(replies: seq<Reply>, ok: bool)

  /** All complete replies of a buffer, and whether a protocol error follows them. */
  function ParseStream(s: string): Stream
    decreases |s|
  {
    match ParseItem(s, 0)
    case More => Stream([], true)
    case Bad => Stream([], false)
    case Item(r, rest) => var t := ParseStream(rest); Stream([r] + t.replies, t.ok)
  }

  // ---- the text of a reply

  function Decimal(n: nat): (s: string)
    ensures s != "" && forall i | 0 <= i < |s| :: 0 <= DigitVal(s[i]) < 10
    decreases n
  {
    if n < 10 then [('0' as int + n) as char]
    else Decimal(n / 10) + [('0' as int + n % 10) as char]
  }

  function SignedDecimal(n: int): string {
    if n < 0 then "-" + Decimal(-n) else Decimal(n)
  }

  const CRLF: string := "\r\n"

  predicate OneLine(s: string) {
    forall i | 0 <= i < |s| - 1 :: !(s[i] == '\r' && s[i + 1] == '\n')
  }

  /** What a server can say: one-line statuses and errors, arrays with as many items as announced. */
  predicate Sayable(r: Reply) {
    match r
    case Status(t) => OneLine(t)
    case Error(t) => OneLine(t)
    case Arr(n, items) => n == |items| && forall i | 0 <= i < |items| :: Sayable(items[i])
    case _ => true
  }

  function Encode(r: Reply): string
    decreases r, 0
  {
    match r
    case Status(t) => "+" + t + CRLF
    case Error(t) => "-" + t + CRLF
    case Integer(n) => ":" + SignedDecimal(n) + CRLF
    case Nil => "$-1" + CRLF
    case Str(t) => "$" + Decimal(|t|) + CRLF + t + CRLF
    case Arr(n, items) => "*" + Decimal(|items|) + CRLF + EncodeAll(items)
  }

  function EncodeAll(rs: seq<Reply>): string
    decreases rs, 1
  {
    if rs == [] then "" else Encode(rs[0]) + EncodeAll(rs[1..])
  }

  /** How many arrays deep a reply is. */
  function Depth(r: Reply): nat
    decreases r, 0
  {
    match r
    case Arr(_, items) => 1 + DepthAll(items)
    case _ => 0
  }

  function DepthAll(rs: seq<Reply>): nat
    decreases rs, 1
  {
    if rs == [] then 0
    else if Depth(rs[0]) > DepthAll(rs[1..]) then Depth(rs[0]) else DepthAll(rs[1..])
  }
}
