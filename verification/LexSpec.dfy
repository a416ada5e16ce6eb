/** The one-shot meaning of the lexer: what one call of `Lexer::next` returns, as a function of the
    stream received so far and of where the lexer stands in it. There is no buffer, no compaction and
    no resume state here; class `Lexer` carries those and is proved to compute exactly this. */
module LexSpec {
  import opened Tokens

  /** What a lexer remembers between tokens. `pos` is a stream offset. */
  datatype LexState = LexState(
    pos: nat,
    lineStart: bool,
    spaces: nat,
    depth: nat,
    literal: Option<nat>,
    error: Option<SyntaxError>)

  const START := LexState(0, true, 0, 0, None, None)

  datatype LexResult = Got(token: Token) | NeedMore | EndOfInput | Failed(error: SyntaxError)

  datatype Lexed = Lexed(result: LexResult, after: LexState)

  // ---- Scans: how far a token reaches ----

  datatype Scan = Stop(at: nat) | Fault(kind: SyntaxErrorKind, at: nat)

  /** Scans atom characters from `i`, for an atom that began at `start`. */
  function AtomScan(input: seq<byte>, start: nat, i: nat, chars: LexMode, max: nat): (r: Scan)
    requires start <= i <= |input|
    ensures r.Stop? ==> i <= r.at <= |input|
    decreases |input| - i
  {
    if i < |input| && IsAtomChar(input[i], chars) then
      if i - start >= max then Fault(TokenTooLong, start)
      else AtomScan(input, start, i + 1, chars, max)
    else Stop(i)
  }

  predicate EndsText(c: byte, stopAtBracket: bool) {
    c == CR || c == LF || (stopAtBracket && c == RBRACKET)
  }

  /** Scans free text from `i`, for a text token that began at `start`. */
  function TextScan(input: seq<byte>, start: nat, i: nat, stopAtBracket: bool, max: nat): (r: Scan)
    requires start <= i <= |input|
    ensures r.Stop? ==> i <= r.at <= |input|
    decreases |input| - i
  {
    if i < |input| && !EndsText(input[i], stopAtBracket) then
      if i - start >= max then Fault(TokenTooLong, start)
      else if input[i] == NUL then Fault(InvalidCharacter, i)
      else TextScan(input, start, i + 1, stopAtBracket, max)
    else Stop(i)
  }

  /** `Closed(end)`: the closing quote is the byte before `end`. `Open(escaped)`: the input ran out,
      just after a backslash when `escaped`. */
  datatype QuotedEnd = Closed(end: nat) | Open(escaped: bool) | BadQuoted(kind: SyntaxErrorKind, at: nat)

  /** Scans a quoted string whose opening quote is at `start`, from `i`. */
  function QuotedScan(input: seq<byte>, start: nat, i: nat, escaped: bool, max: nat): (r: QuotedEnd)
    requires start < i <= |input|
    ensures r.Closed? ==> i < r.end <= |input|
    decreases |input| - i
  {
    if i == |input| then Open(escaped)
    else if i - start >= max then BadQuoted(TokenTooLong, start)
    else if escaped then
      if input[i] != DQUOTE && input[i] != BACKSLASH then BadQuoted(BadEscape, i)
      else QuotedScan(input, start, i + 1, false, max)
    else if input[i] == BACKSLASH then QuotedScan(input, start, i + 1, true, max)
    else if input[i] == DQUOTE then Closed(i + 1)
    else if input[i] == CR || input[i] == LF then BadQuoted(UnterminatedQuoted, i)
    else if input[i] == NUL then BadQuoted(InvalidCharacter, i)
    else QuotedScan(input, start, i + 1, false, max)
  }

  /** The content of a quoted string, from raw index `i`: the loop of `lex_quoted` that drops the
      closing quote and the backslashes. */
  function Unescape(raw: seq<byte>, i: nat): seq<byte>
    decreases |raw| - i
  {
    if i + 1 >= |raw| then []
    else if raw[i] == BACKSLASH then [raw[i + 1]] + Unescape(raw, i + 2)
    else [raw[i]] + Unescape(raw, i + 1)
  }

  /** The largest number64 of RFC 9051. */
  const MAX_NUMBER: nat := 0x7FFF_FFFF_FFFF_FFFF

  datatype DigitRun = Digits(end: nat, value: nat) | Overflow(at: nat)

  /** Reads digits from `i`, `value` being what the digits before `i` amount to. */
  function ReadDigits(input: seq<byte>, i: nat, value: nat): (r: DigitRun)
    requires i <= |input|
    ensures r.Digits? ==> i <= r.end <= |input|
    decreases |input| - i
  {
    if i < |input| && IsDigit(input[i]) then
      if value > (MAX_NUMBER - (input[i] - ZERO)) / 10 then Overflow(i)
      else ReadDigits(input, i + 1, value * 10 + (input[i] - ZERO))
    else Digits(i, value)
  }

  datatype Header = HeaderOk(end: nat, size: nat) | HeaderShort(at: nat) | HeaderBad(kind: SyntaxErrorKind, at: nat)

  /** The fixed tail of a literal header, of which `expected` is still to come. */
  function HeaderTail(input: seq<byte>, i: nat, expected: seq<byte>, size: nat): (r: Header)
    requires i <= |input|
    ensures r.HeaderOk? ==> r.end == i + |expected| <= |input|
    decreases |expected|
  {
    if expected == [] then HeaderOk(i, size)
    else if i == |input| then HeaderShort(i)
    else if input[i] != expected[0] then HeaderBad(BadLiteral, i)
    else HeaderTail(input, i + 1, expected[1..], size)
  }

  /** A literal header whose opening brace is just before `i`. */
  function HeaderScan(input: seq<byte>, i: nat): (r: Header)
    requires i <= |input|
    ensures r.HeaderOk? ==> i + 4 <= r.end <= |input|
  {
    match ReadDigits(input, i, 0)
    case Overflow(at) => HeaderBad(NumberTooLarge, at)
    case Digits(end, size) =>
      if end == |input| then HeaderShort(end)
      else if end == i then HeaderBad(BadLiteral, end)
      else HeaderTail(input, if input[end] == PLUS then end + 1 else end, [RBRACE, CR, LF], size)
  }

  // ---- Outcomes ----

  function Fail(s: LexState, kind: SyntaxErrorKind, at: nat): Lexed {
    var e := SyntaxError(kind, at);
    Lexed(Failed(e), s.(error := Some(e)))
  }

  /** A token of `kind` with the bytes `raw`, at the current position. */
  function Made(s: LexState, kind: TokenKind, raw: seq<byte>): Token {
    Token(kind, s.spaces, s.pos, raw, [], 0, false, [])
  }

  /** The state once a token of `n` bytes has been taken. */
  function Consumed(s: LexState, n: nat): LexState {
    s.(pos := s.pos + n, spaces := 0, lineStart := s.lineStart && n == 0)
  }

  /** Counts and drops separating spaces; on a run beyond the limit, the error is in the state. */
  function SkipSpaces(max: nat, s: LexState, input: seq<byte>): (t: LexState)
    requires s.pos <= |input|
    ensures s.pos <= t.pos <= |input|
    ensures t.depth == s.depth && t.literal == s.literal
    ensures t.error == s.error || t.error.Some?
    ensures t.error.None? && t.pos < |input| ==> input[t.pos] != SP
    decreases |input| - s.pos
  {
    if s.pos < |input| && input[s.pos] == SP then
      if s.spaces >= max then s.(error := Some(SyntaxError(TokenTooLong, s.pos)))
      else SkipSpaces(max, s.(pos := s.pos + 1, spaces := s.spaces + 1, lineStart := false), input)
    else s
  }

  function Starved(s: LexState, fin: bool): Lexed {
    if !fin then Lexed(NeedMore, s)
    else if s.lineStart && s.spaces == 0 then Lexed(EndOfInput, s)
    else Fail(s, UnexpectedEnd, s.pos)
  }

  // ---- Which kind of token begins here ----

  datatype Shape =
    | LineEnd
    | Opener(kind: TokenKind)
    | Closer(kind: TokenKind)
    | Word(chars: LexMode, classify: bool)
    | QuotedString
    | LiteralHeader(binary: bool)
    | FreeText(stopAtBracket: bool)
    | LoneTilde
    | Unacceptable

  function GeneralShape(mode: LexMode, input: seq<byte>, p: nat, fin: bool): Shape
    requires p < |input|
  {
    var c := input[p];
    if c == LPAREN then Opener(LParen)
    else if c == RPAREN then Closer(RParen)
    else if c == LBRACKET && mode == NormalMode then Opener(LBracket)
    else if c == RBRACKET && mode == NormalMode then Closer(RBracket)
    else if c == DQUOTE then QuotedString
    else if c == LBRACE then LiteralHeader(false)
    else if c == TILDE && p + 1 == |input| && !fin then LoneTilde
    else if c == TILDE && p + 1 < |input| && input[p + 1] == LBRACE then LiteralHeader(true)
    else if IsControl(c) then Unacceptable
    else Word(mode, mode == NormalMode)
  }

  function ShapeAt(mode: LexMode, input: seq<byte>, p: nat, fin: bool): Shape
    requires p < |input|
  {
    var c := input[p];
    if c == CR || c == LF then LineEnd
    else match mode
      case NormalMode => GeneralShape(mode, input, p, fin)
      case AstringMode => GeneralShape(mode, input, p, fin)
      case TextMode => FreeText(false)
      case RespTextMode => if c == LBRACKET then Opener(LBracket) else FreeText(false)
      case CodeNameMode =>
        if c == RBRACKET then Closer(RBracket)
        else if IsAtomChar(c, NormalMode) then Word(NormalMode, false)
        else FreeText(true)
      case CodeTextMode => if c == RBRACKET then Closer(RBracket) else FreeText(true)
  }

  // ---- One token of each shape ----

  function LexEol(s: LexState, input: seq<byte>, fin: bool): Lexed
    requires s.pos < |input|
  {
    if input[s.pos] == LF then Fail(s, BadLineEnding, s.pos)
    else if s.pos + 1 == |input| then
      if fin then Fail(s, UnexpectedEnd, s.pos + 1) else Lexed(NeedMore, s)
    else if input[s.pos + 1] != LF then Fail(s, BadLineEnding, s.pos)
    else Lexed(Got(Made(s, Eol, [CR, LF])), Consumed(s, 2).(lineStart := true, depth := 0))
  }

  function LexOpen(limits: Limits, s: LexState, kind: TokenKind, input: seq<byte>): Lexed
    requires s.pos < |input|
  {
    if s.depth >= limits.maxDepth then Fail(s, NestingTooDeep, s.pos)
    else Lexed(Got(Made(s, kind, [input[s.pos]])), Consumed(s, 1).(depth := s.depth + 1))
  }

  function LexClose(s: LexState, kind: TokenKind, input: seq<byte>): Lexed
    requires s.pos < |input|
  {
    Lexed(Got(Made(s, kind, [input[s.pos]])), Consumed(s, 1).(depth := if s.depth > 0 then s.depth - 1 else 0))
  }

  predicate AllDigits(raw: seq<byte>) {
    forall i :: 0 <= i < |raw| ==> IsDigit(raw[i])
  }

  /** An atom with the bytes `raw`; NIL and numbers are told apart only when `classify`. */
  function Classified(s: LexState, classify: bool, raw: seq<byte>): Lexed {
    var token := Made(s, Atom, raw);
    if !classify then Lexed(Got(token), Consumed(s, |raw|))
    else if EqualsNil(raw) then Lexed(Got(token.(kind := Nil)), Consumed(s, |raw|))
    else if !AllDigits(raw) then Lexed(Got(token), Consumed(s, |raw|))
    else
      match ReadDigits(raw, 0, 0)
      case Overflow(at) => Fail(s.(spaces := 0), NumberTooLarge, s.pos + at)
      case Digits(_, value) => Lexed(Got(token.(kind := Number, number := value)), Consumed(s, |raw|))
  }

  function AtomFound(s: LexState, found: Scan, classify: bool, input: seq<byte>, fin: bool): Lexed
    requires found.Stop? ==> s.pos <= found.at <= |input|
  {
    match found
    case Fault(kind, at) => Fail(s, kind, at)
    case Stop(end) =>
      if end == |input| && !fin then Lexed(NeedMore, s)
      else Classified(s, classify, input[s.pos .. end])
  }

  function LexAtom(limits: Limits, s: LexState, chars: LexMode, classify: bool, input: seq<byte>, fin: bool): Lexed
    requires s.pos < |input|
  {
    AtomFound(s, AtomScan(input, s.pos, s.pos, chars, limits.maxToken), classify, input, fin)
  }

  function QuotedFound(s: LexState, found: QuotedEnd, input: seq<byte>, fin: bool): Lexed
    requires found.Closed? ==> s.pos <= found.end <= |input|
  {
    match found
    case BadQuoted(kind, at) => Fail(s, kind, at)
    case Open(_) => if fin then Fail(s, UnexpectedEnd, |input|) else Lexed(NeedMore, s)
    case Closed(end) =>
      var raw := input[s.pos .. end];
      Lexed(Got(Made(s, Quoted, raw).(unescaped := Unescape(raw, 1))), Consumed(s, end - s.pos))
  }

  function LexQuoted(limits: Limits, s: LexState, input: seq<byte>, fin: bool): Lexed
    requires s.pos < |input|
  {
    QuotedFound(s, QuotedScan(input, s.pos, s.pos + 1, false, limits.maxToken), input, fin)
  }

  function HeaderFound(limits: Limits, s: LexState, binary: bool, found: Header, input: seq<byte>, fin: bool): Lexed
    requires found.HeaderOk? ==> s.pos <= found.end <= |input|
  {
    match found
    case HeaderBad(kind, at) => Fail(s, kind, at)
    case HeaderShort(at) => if fin then Fail(s, UnexpectedEnd, at) else Lexed(NeedMore, s)
    case HeaderOk(end, size) =>
      if size > limits.maxLiteral then Fail(s, LiteralTooLarge, s.pos)
      else
        var token := Made(s, LiteralBegin, input[s.pos .. end]);
        Lexed(Got(token.(number := size, binary := binary)), Consumed(s, end - s.pos).(literal := Some(size)))
  }

  function LexHeader(limits: Limits, s: LexState, binary: bool, input: seq<byte>, fin: bool): Lexed
    requires s.pos < |input| && (binary ==> s.pos + 1 < |input|)
  {
    HeaderFound(limits, s, binary, HeaderScan(input, s.pos + if binary then 2 else 1), input, fin)
  }

  function TextFound(s: LexState, found: Scan, input: seq<byte>, fin: bool): Lexed
    requires found.Stop? ==> s.pos <= found.at <= |input|
  {
    match found
    case Fault(kind, at) => Fail(s, kind, at)
    case Stop(end) =>
      if end == |input| && !fin then Lexed(NeedMore, s)
      else Lexed(Got(Made(s, Text, input[s.pos .. end])), Consumed(s, end - s.pos))
  }

  function LexText(limits: Limits, s: LexState, stopAtBracket: bool, input: seq<byte>, fin: bool): Lexed
    requires s.pos < |input|
  {
    TextFound(s, TextScan(input, s.pos, s.pos, stopAtBracket, limits.maxToken), input, fin)
  }

  function Min(a: nat, b: nat): nat {
    if a < b then a else b
  }

  function LexLiteral(s: LexState, input: seq<byte>, fin: bool): Lexed
    requires s.literal.Some? && s.pos <= |input|
  {
    if s.literal.value == 0 then
      Lexed(Got(Made(s, LiteralEnd, [])), Consumed(s, 0).(literal := None))
    else if s.pos == |input| then
      if fin then Fail(s, UnexpectedEnd, s.pos) else Lexed(NeedMore, s)
    else
      var chunk := Min(s.literal.value, |input| - s.pos);
      Lexed(Got(Made(s, LiteralData, []).(data := input[s.pos .. s.pos + chunk])),
            Consumed(s, chunk).(literal := Some(s.literal.value - chunk)))
  }

  // ---- One call of next() ----

  function LexShape(limits: Limits, s: LexState, shape: Shape, input: seq<byte>, fin: bool): Lexed
    requires s.pos < |input| && (shape == LiteralHeader(true) ==> s.pos + 1 < |input|)
  {
    match shape
    case LineEnd => LexEol(s, input, fin)
    case Opener(kind) => LexOpen(limits, s, kind, input)
    case Closer(kind) => LexClose(s, kind, input)
    case Word(chars, classify) => LexAtom(limits, s, chars, classify, input, fin)
    case QuotedString => LexQuoted(limits, s, input, fin)
    case LiteralHeader(binary) => LexHeader(limits, s, binary, input, fin)
    case FreeText(stop) => LexText(limits, s, stop, input, fin)
    case LoneTilde => Lexed(NeedMore, s)
    case Unacceptable => Fail(s, InvalidCharacter, s.pos)
  }

  /** The token after the spaces, or how the input ended. */
  function AfterSpaces(limits: Limits, t: LexState, mode: LexMode, input: seq<byte>, fin: bool): Lexed
    requires t.pos <= |input|
  {
    if t.error.Some? then Lexed(Failed(t.error.value), t)
    else if t.pos == |input| then Starved(t, fin)
    else LexShape(limits, t, ShapeAt(mode, input, t.pos, fin), input, fin)
  }

  /** What `next(mode)` returns, and the state it leaves, for a lexer in state `s` that has received
      `input` and, when `fin`, has been told that no more will come. */
  function Next(limits: Limits, s: LexState, mode: LexMode, input: seq<byte>, fin: bool): Lexed
    requires s.pos <= |input|
  {
    if s.error.Some? then Lexed(Failed(s.error.value), s)
    else if s.literal.Some? then LexLiteral(s, input, fin)
    else AfterSpaces(limits, SkipSpaces(limits.maxToken, s, input), mode, input, fin)
  }
}
