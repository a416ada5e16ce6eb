/** Printing tokens and lexing the result gives the tokens back. With losslessness, which is the other
    direction, this makes the normal-mode lexer the inverse of the printer on well-formed tokens. */
module PrintLex {
  import opened Tokens
  import opened LexSpec
  import opened ChunkIndependence
  import opened Lossless
  import opened Values

  /** A client that always asks for normal mode and refuses nothing. */
  const NORMAL: Client := Client(_ => NormalMode, (_, _) => None)

  // ---- Well-formed tokens ----

  predicate IsWord(t: Token) {
    t.kind == Atom || t.kind == Number || t.kind == Nil
  }

  predicate AllAtomChars(raw: seq<byte>) {
    forall i :: 0 <= i < |raw| ==> IsAtomChar(raw[i], NormalMode)
  }

  /** A literal header: its size in digits, perhaps a plus. */
  function HeaderForm(binary: bool, digits: seq<byte>, plus: bool): seq<byte> {
    HeaderStart(binary) + (digits + HeaderClose(plus))
  }

  function HeaderStart(binary: bool): seq<byte> {
    if binary then [TILDE, LBRACE] else [LBRACE]
  }

  function HeaderClose(plus: bool): seq<byte> {
    (if plus then [PLUS] else []) + [RBRACE, CR, LF]
  }

  ghost predicate ValidHeader(limits: Limits, t: Token) {
    exists digits: seq<byte>, plus: bool ::
      && t.raw == HeaderForm(t.binary, digits, plus)
      && digits != [] && AllDigits(digits) && t.number == Decimal(digits)
      && t.number <= MAX_NUMBER && t.number <= limits.maxLiteral
  }

  /** The raw bytes of a bracket or parenthesis. */
  function BracketByte(kind: TokenKind): byte {
    match kind
    case LParen => LPAREN
    case RParen => RPAREN
    case LBracket => LBRACKET
    case _ => RBRACKET
  }

  predicate IsOpener(kind: TokenKind) {
    kind == LParen || kind == LBracket
  }

  predicate IsCloser(kind: TokenKind) {
    kind == RParen || kind == RBracket
  }

  /** A token that normal mode can produce on its own, within the limits. */
  ghost predicate ValidToken(limits: Limits, t: Token) {
    && t.spaces <= limits.maxToken
    && (t.kind != Quoted ==> t.unescaped == [])
    && (t.kind != Number && t.kind != LiteralBegin ==> t.number == 0)
    && (t.kind != LiteralBegin ==> !t.binary)
    && (t.kind != LiteralData ==> t.data == [])
    && match t.kind
       case Atom =>
         0 < |t.raw| <= limits.maxToken && AllAtomChars(t.raw) && !EqualsNil(t.raw) && !AllDigits(t.raw)
       case Number =>
         0 < |t.raw| <= limits.maxToken && AllDigits(t.raw) && t.number == Decimal(t.raw) <= MAX_NUMBER
       case Nil => EqualsNil(t.raw) && 3 <= limits.maxToken
       case Quoted => Quotable(t.unescaped) && t.raw == QuotedForm(t.unescaped) && |t.raw| <= limits.maxToken
       case LiteralBegin => ValidHeader(limits, t)
       case LiteralData => t.raw == [] && t.data != [] && t.spaces == 0
       case LiteralEnd => t.raw == [] && t.spaces == 0
       case Eol => t.raw == [CR, LF]
       case Text => false
       case _ => t.raw == [BracketByte(t.kind)]
  }

  // ---- Well-formed lists of tokens ----

  /** Where the lexer stands once it has read a token from state `s`. */
  function Past(s: LexState, t: Token): LexState {
    LexState(
      s.pos + t.spaces + |t.Bytes()|,
      t.kind == Eol || (t.kind == LiteralEnd && s.lineStart),
      0,
      if IsOpener(t.kind) then s.depth + 1
      else if IsCloser(t.kind) then (if s.depth > 0 then s.depth - 1 else 0)
      else if t.kind == Eol then 0
      else s.depth,
      match t.kind
      case LiteralBegin => Some(t.number)
      case LiteralData => Some(0)
      case LiteralEnd => None
      case _ => s.literal,
      None)
  }

  function PastAll(tokens: seq<Token>): LexState {
    if tokens == [] then START
    else Past(PastAll(tokens[..|tokens| - 1]), tokens[|tokens| - 1])
  }

  /** A token that may come next in state `s`: it stands at its offset and does not nest too deeply. */
  ghost predicate Fits(limits: Limits, s: LexState, t: Token) {
    && ValidToken(limits, t)
    && t.offset == s.pos + t.spaces
    && (IsOpener(t.kind) ==> s.depth < limits.maxDepth)
    && Expected(s.literal, t)
  }

  /** Outside literals no content, and inside a literal the whole content and then the end. */
  predicate Expected(literal: Option<nat>, t: Token) {
    match literal
    case None => t.kind != LiteralData && t.kind != LiteralEnd
    case Some(left) => if left == 0 then t.kind == LiteralEnd else t.kind == LiteralData && |t.data| == left
  }

  /** Two tokens whose printed forms may touch: not two words, a literal8 header counting as one, and not
      a lone tilde before a literal header. */
  predicate MayTouch(t: Token, u: Token) {
    || u.spaces > 0
    || ((IsWord(t) ==> !IsWord(u) && !(u.kind == LiteralBegin && u.binary))
        && (IsWord(t) && t.raw == [TILDE] ==> u.kind != LiteralBegin))
  }

  /** The token at `k` fits where the ones before it lead, and may touch the last of them. */
  ghost predicate InPlace(limits: Limits, tokens: seq<Token>, k: nat)
    requires k < |tokens|
  {
    && Fits(limits, PastAll(tokens[..k]), tokens[k])
    && (k > 0 ==> MayTouch(tokens[k - 1], tokens[k]))
  }

  ghost predicate Printable(limits: Limits, tokens: seq<Token>) {
    forall k :: 0 <= k < |tokens| ==> InPlace(limits, tokens, k)
  }

  lemma PrintablePrefix(limits: Limits, tokens: seq<Token>, n: nat)
    requires n <= |tokens| && Printable(limits, tokens)
    ensures Printable(limits, tokens[..n])
  {
    forall k | 0 <= k < n ensures InPlace(limits, tokens[..n], k) {
      assert InPlace(limits, tokens, k) && tokens[..n][..k] == tokens[..k];
    }
  }

  // ---- A token where its bytes stand ----

  /** What stands at `p` does not continue the token before it. */
  ghost predicate EndsAt(t: Token, input: seq<byte>, p: nat) {
    IsWord(t) && p < |input| ==>
      !IsAtomChar(input[p], NormalMode) && (t.raw == [TILDE] ==> input[p] != LBRACE)
  }

  /** The token's spaces and bytes stand at `p`, and what follows does not continue it. */
  ghost predicate StandsAt(input: seq<byte>, p: nat, t: Token) {
    var start := p + t.spaces;
    var end := start + |t.Bytes()|;
    && end <= |input| && SpacesAt(input, p, start) && input[start .. end] == t.Bytes()
    && EndsAt(t, input, end)
  }

  lemma {:induction false} SkipsExactly(max: nat, s: LexState, input: seq<byte>, n: nat)
    requires s.pos + n <= |input| && SpacesAt(input, s.pos, s.pos + n) && s.spaces + n <= max
    requires s.pos + n < |input| ==> input[s.pos + n] != SP
    ensures SkipSpaces(max, s, input)
         == s.(pos := s.pos + n, spaces := s.spaces + n, lineStart := s.lineStart && n == 0)
    decreases n
  {
    if n > 0 {
      SkipsExactly(max, s.(pos := s.pos + 1, spaces := s.spaces + 1, lineStart := false), input, n - 1);
    }
  }

  lemma {:induction false} AtomScanReaches(input: seq<byte>, start: nat, i: nat, end: nat, max: nat)
    requires start <= i <= end <= |input| && end - start <= max
    requires AllAtomChars(input[i .. end]) && (end < |input| ==> !IsAtomChar(input[end], NormalMode))
    ensures AtomScan(input, start, i, NormalMode, max) == Stop(end)
    decreases end - i
  {
    if i < end {
      assert input[i .. end][0] == input[i];
      assert input[i .. end][1..] == input[i + 1 .. end];
      AtomScanReaches(input, start, i + 1, end, max);
    }
  }

  lemma WordLexes(limits: Limits, s: LexState, t: Token, input: seq<byte>)
    requires ValidToken(limits, t) && IsWord(t) && t.spaces == s.spaces && t.offset == s.pos
    requires s.pos + |t.raw| <= |input| && input[s.pos .. s.pos + |t.raw|] == t.raw
    requires s.pos + |t.raw| < |input| ==> !IsAtomChar(input[s.pos + |t.raw|], NormalMode)
    ensures s.pos < |input|
    ensures LexAtom(limits, s, NormalMode, true, input, true) == Lexed(Got(t), Consumed(s, |t.raw|))
  {
    AtomScanReaches(input, s.pos, s.pos, s.pos + |t.raw|, limits.maxToken);
    if t.kind == Number { NumbersAreExact(t.raw); }
  }

  lemma {:induction false} TailReads(input: seq<byte>, i: nat, expected: seq<byte>, size: nat)
    requires i + |expected| <= |input| && input[i .. i + |expected|] == expected
    ensures HeaderTail(input, i, expected, size) == HeaderOk(i + |expected|, size)
    decreases |expected|
  {
    if expected != [] {
      assert input[i .. i + |expected|][0] == input[i];
      assert input[i + 1 .. i + |expected|] == input[i .. i + |expected|][1..];
      TailReads(input, i + 1, expected[1..], size);
    }
  }

  ghost predicate StandsHere(input: seq<byte>, i: nat, bytes: seq<byte>) {
    i + |bytes| <= |input| && input[i .. i + |bytes|] == bytes
  }

  lemma PartsStand(input: seq<byte>, i: nat, first: seq<byte>, second: seq<byte>)
    requires StandsHere(input, i, first + second)
    ensures StandsHere(input, i, first) && StandsHere(input, i + |first|, second)
  {
    var both := first + second;
    assert both[..|first|] == first && both[|first|..] == second;
    assert input[i + |first| .. i + |both|] == input[i .. i + |both|][|first|..];
  }

  lemma CloseReads(input: seq<byte>, i: nat, plus: bool, size: nat)
    requires StandsHere(input, i, HeaderClose(plus))
    ensures i < |input| && !IsDigit(input[i])
    ensures HeaderTail(input, if input[i] == PLUS then i + 1 else i, [RBRACE, CR, LF], size)
         == HeaderOk(i + |HeaderClose(plus)|, size)
  {
    assert input[i] == HeaderClose(plus)[0];
    if plus { PartsStand(input, i, [PLUS], [RBRACE, CR, LF]); }
    TailReads(input, if plus then i + 1 else i, [RBRACE, CR, LF], size);
  }

  lemma HeaderReads(input: seq<byte>, i: nat, digits: seq<byte>, plus: bool)
    requires digits != [] && AllDigits(digits) && Decimal(digits) <= MAX_NUMBER
    requires StandsHere(input, i, digits + HeaderClose(plus))
    ensures HeaderScan(input, i) == HeaderOk(i + |digits + HeaderClose(plus)|, Decimal(digits))
  {
    var at := i + |digits|;
    PartsStand(input, i, digits, HeaderClose(plus));
    CloseReads(input, at, plus, Decimal(digits));
    ReadDigitsStops(input, i, i, at, 0);
    NumbersAreExact(digits);
  }

  lemma HeaderFormReads(input: seq<byte>, p: nat, binary: bool, digits: seq<byte>, plus: bool)
    requires digits != [] && AllDigits(digits) && Decimal(digits) <= MAX_NUMBER
    requires StandsHere(input, p, HeaderForm(binary, digits, plus))
    ensures StandsHere(input, p, HeaderStart(binary))
    ensures HeaderScan(input, p + |HeaderStart(binary)|) == HeaderOk(p + |HeaderForm(binary, digits, plus)|, Decimal(digits))
  {
    PartsStand(input, p, HeaderStart(binary), digits + HeaderClose(plus));
    HeaderReads(input, p + |HeaderStart(binary)|, digits, plus);
  }

  lemma HeaderBegins(input: seq<byte>, p: nat, binary: bool)
    requires StandsHere(input, p, HeaderStart(binary))
    ensures p < |input| && input[p] != SP && (binary ==> p + 1 < |input|)
    ensures ShapeAt(NormalMode, input, p, true) == LiteralHeader(binary)
  {
    assert input[p] == HeaderStart(binary)[0];
    if binary { assert input[p + 1] == HeaderStart(binary)[1]; }
  }

  /** A header within the limits, where it stands. */
  lemma HeaderFormLexes(limits: Limits, s: LexState, binary: bool, digits: seq<byte>, plus: bool, input: seq<byte>)
    requires digits != [] && AllDigits(digits) && Decimal(digits) <= MAX_NUMBER && Decimal(digits) <= limits.maxLiteral
    requires StandsHere(input, s.pos, HeaderForm(binary, digits, plus))
    ensures StandsHere(input, s.pos, HeaderStart(binary))
    ensures var raw := HeaderForm(binary, digits, plus); var size := Decimal(digits);
      LexHeader(limits, s, binary, input, true)
      == Lexed(Got(Made(s, LiteralBegin, raw).(number := size, binary := binary)),
               Consumed(s, |raw|).(literal := Some(size)))
  {
    HeaderFormReads(input, s.pos, binary, digits, plus);
  }

  lemma QuotedLexes(limits: Limits, s: LexState, t: Token, input: seq<byte>)
    requires t.kind == Quoted && Quotable(t.unescaped) && t.raw == QuotedForm(t.unescaped) && |t.raw| <= limits.maxToken
    requires t.number == 0 && !t.binary && t.data == [] && t.spaces == s.spaces && t.offset == s.pos
    requires s.pos + |t.raw| <= |input| && input[s.pos .. s.pos + |t.raw|] == t.raw
    ensures s.pos < |input| && input[s.pos] == DQUOTE
    ensures LexQuoted(limits, s, input, true) == Lexed(Got(t), Consumed(s, |t.raw|))
  {
    assert t.raw[0] == input[s.pos];
    QuotedFormLexes(limits, s, t.unescaped, input, true);
  }

  /** The state once the spaces before a token have been skipped. */
  function Skipped(s: LexState, n: nat): LexState {
    s.(pos := s.pos + n, spaces := n, lineStart := s.lineStart && n == 0)
  }

  /** A token outside literals that fits and stands where the lexer is. */
  ghost predicate Outside(limits: Limits, s: LexState, t: Token, input: seq<byte>) {
    s.error.None? && s.spaces == 0 && s.literal.None? && Fits(limits, s, t) && StandsAt(input, s.pos, t)
  }

  /** Past its spaces, the lexer reads it as a token of this shape. */
  ghost predicate ReadAs(limits: Limits, s: LexState, t: Token, input: seq<byte>, shape: Shape) {
    var u := Skipped(s, t.spaces);
    && u.pos < |input| && input[u.pos] != SP
    && ShapeAt(NormalMode, input, u.pos, true) == shape
    && (shape == LiteralHeader(true) ==> u.pos + 1 < |input|)
    && LexShape(limits, u, shape, input, true) == Lexed(Got(t), Past(s, t))
  }

  function ShapeOf(t: Token): Shape {
    if IsWord(t) then Word(NormalMode, true)
    else if t.kind == Quoted then QuotedString
    else if t.kind == LiteralBegin then LiteralHeader(t.binary)
    else if t.kind == Eol then LineEnd
    else if IsOpener(t.kind) then Opener(t.kind)
    else Closer(t.kind)
  }

  lemma PastPlain(s: LexState, t: Token)
    requires s.error.None? && s.literal.None? && (IsWord(t) || t.kind == Quoted) && t.raw != []
    ensures Past(s, t) == Consumed(Skipped(s, t.spaces), |t.raw|)
  {
  }

  lemma PastHeader(s: LexState, t: Token)
    requires s.error.None? && s.literal.None? && t.kind == LiteralBegin && t.raw != []
    ensures Past(s, t) == Consumed(Skipped(s, t.spaces), |t.raw|).(literal := Some(t.number))
  {
  }

  lemma WordBegins(t: Token, input: seq<byte>, p: nat)
    requires t.raw != [] && AllAtomChars(t.raw) && StandsHere(input, p, t.raw)
    requires t.raw == [TILDE] && p + 1 < |input| ==> input[p + 1] != LBRACE
    ensures input[p] != SP && ShapeAt(NormalMode, input, p, true) == Word(NormalMode, true)
  {
    assert input[p] == t.raw[0] && IsAtomChar(t.raw[0], NormalMode);
    if |t.raw| > 1 {
      assert input[p + 1] == t.raw[1] && IsAtomChar(t.raw[1], NormalMode);
    } else {
      assert t.raw == [t.raw[0]];
    }
  }

  lemma WordsAreAtomChars(limits: Limits, t: Token)
    requires ValidToken(limits, t) && IsWord(t)
    ensures t.raw != [] && AllAtomChars(t.raw) && t.Bytes() == t.raw
  {
  }

  lemma WordReads(limits: Limits, s: LexState, t: Token, input: seq<byte>)
    requires Outside(limits, s, t, input) && IsWord(t)
    ensures ReadAs(limits, s, t, input, ShapeOf(t))
  {
    var u := Skipped(s, t.spaces);
    WordsAreAtomChars(limits, t);
    WordLexes(limits, u, t, input);
    WordBegins(t, input, u.pos);
    PastPlain(s, t);
  }

  lemma OpenerReads(limits: Limits, s: LexState, t: Token, input: seq<byte>)
    requires Outside(limits, s, t, input) && IsOpener(t.kind)
    ensures ReadAs(limits, s, t, input, ShapeOf(t))
  {
    BracketStands(s.pos, t, input);
  }

  lemma CloserReads(limits: Limits, s: LexState, t: Token, input: seq<byte>)
    requires Outside(limits, s, t, input) && IsCloser(t.kind)
    ensures ReadAs(limits, s, t, input, ShapeOf(t))
  {
    BracketStands(s.pos, t, input);
  }

  lemma BracketStands(p: nat, t: Token, input: seq<byte>)
    requires t.raw == [BracketByte(t.kind)] && t.kind != LiteralData && StandsAt(input, p, t)
    ensures p + t.spaces < |input| && input[p + t.spaces] == BracketByte(t.kind)
  {
    assert input[p + t.spaces .. p + t.spaces + 1] == t.raw && input[p + t.spaces] == t.raw[0];
  }

  lemma LineEndStands(p: nat, t: Token, input: seq<byte>)
    requires t.raw == [CR, LF] && t.kind == Eol && StandsAt(input, p, t)
    ensures p + t.spaces + 1 < |input| && input[p + t.spaces] == CR && input[p + t.spaces + 1] == LF
  {
    var start := p + t.spaces;
    assert input[start .. start + 2] == t.raw && input[start] == t.raw[0] && input[start + 1] == t.raw[1];
  }

  lemma LineEndReads(limits: Limits, s: LexState, t: Token, input: seq<byte>)
    requires Outside(limits, s, t, input) && t.kind == Eol
    ensures ReadAs(limits, s, t, input, ShapeOf(t))
  {
    LineEndStands(s.pos, t, input);
  }

  lemma ReadAsHeader(limits: Limits, s: LexState, t: Token, input: seq<byte>)
    requires s.error.None? && s.literal.None? && t.kind == LiteralBegin && t.raw != []
    requires var p := s.pos + t.spaces;
      && p < |input| && input[p] != SP && (t.binary ==> p + 1 < |input|)
      && ShapeAt(NormalMode, input, p, true) == LiteralHeader(t.binary)
    requires var u := Skipped(s, t.spaces);
      LexHeader(limits, u, t.binary, input, true) == Lexed(Got(t), Consumed(u, |t.raw|).(literal := Some(t.number)))
    ensures ReadAs(limits, s, t, input, LiteralHeader(t.binary))
  {
    PastHeader(s, t);
  }

  lemma HeaderReadHere(limits: Limits, s: LexState, t: Token, digits: seq<byte>, plus: bool, input: seq<byte>)
    requires s.error.None? && s.literal.None? && t.offset == s.pos + t.spaces
    requires digits != [] && AllDigits(digits) && Decimal(digits) <= MAX_NUMBER && Decimal(digits) <= limits.maxLiteral
    requires t == Token(LiteralBegin, t.spaces, t.offset, HeaderForm(t.binary, digits, plus), [], Decimal(digits), t.binary, [])
    requires StandsHere(input, t.offset, t.raw)
    ensures ReadAs(limits, s, t, input, LiteralHeader(t.binary))
  {
    HeaderFormLexes(limits, Skipped(s, t.spaces), t.binary, digits, plus, input);
    HeaderBegins(input, t.offset, t.binary);
    ReadAsHeader(limits, s, t, input);
  }

  lemma HeaderIsRead(limits: Limits, s: LexState, t: Token, input: seq<byte>)
    requires Outside(limits, s, t, input) && t.kind == LiteralBegin
    ensures ReadAs(limits, s, t, input, ShapeOf(t))
  {
    var digits: seq<byte>, plus: bool :| t.raw == HeaderForm(t.binary, digits, plus)
      && digits != [] && AllDigits(digits) && t.number == Decimal(digits)
      && t.number <= MAX_NUMBER && t.number <= limits.maxLiteral;
    HeaderReadHere(limits, s, t, digits, plus, input);
  }

  lemma QuoteBegins(input: seq<byte>, p: nat)
    requires p < |input| && input[p] == DQUOTE
    ensures ShapeAt(NormalMode, input, p, true) == QuotedString
  {
  }

  lemma QuotedReads(limits: Limits, s: LexState, t: Token, input: seq<byte>)
    requires Outside(limits, s, t, input) && t.kind == Quoted
    ensures ReadAs(limits, s, t, input, ShapeOf(t))
  {
    QuotedLexes(limits, Skipped(s, t.spaces), t, input);
    QuoteBegins(input, s.pos + t.spaces);
    PastPlain(s, t);
  }

  lemma TokenReads(limits: Limits, s: LexState, t: Token, input: seq<byte>)
    requires Outside(limits, s, t, input)
    ensures ReadAs(limits, s, t, input, ShapeOf(t))
  {
    match t.kind
    case Quoted => QuotedReads(limits, s, t, input);
    case LiteralBegin => HeaderIsRead(limits, s, t, input);
    case Eol => LineEndReads(limits, s, t, input);
    case Atom => WordReads(limits, s, t, input);
    case Number => WordReads(limits, s, t, input);
    case Nil => WordReads(limits, s, t, input);
    case LParen => OpenerReads(limits, s, t, input);
    case LBracket => OpenerReads(limits, s, t, input);
    case RParen => CloserReads(limits, s, t, input);
    case RBracket => CloserReads(limits, s, t, input);
  }

  lemma ContentIs(limits: Limits, t: Token, literal: nat)
    requires ValidToken(limits, t) && Expected(Some(literal), t)
    ensures t.raw == [] && t.spaces == 0 && t.unescaped == [] && t.number == 0 && !t.binary
    ensures literal == 0 ==> t.data == []
  {
  }

  lemma ContentLexes(limits: Limits, s: LexState, t: Token, input: seq<byte>)
    requires s.error.None? && s.literal.Some? && s.spaces == 0 && Fits(limits, s, t) && StandsAt(input, s.pos, t)
    ensures LexLiteral(s, input, true) == Lexed(Got(t), Past(s, t))
  {
    ContentIs(limits, t, s.literal.value);
  }

  lemma ReadAfterSpaces(limits: Limits, s: LexState, t: Token, input: seq<byte>)
    requires s.error.None? && s.literal.None? && s.pos <= |input| && ReadAs(limits, s, t, input, ShapeOf(t))
    requires SkipSpaces(limits.maxToken, s, input) == Skipped(s, t.spaces)
    ensures Next(limits, s, NormalMode, input, true) == Lexed(Got(t), Past(s, t))
  {
  }

  lemma OutsideTokenLexes(limits: Limits, s: LexState, t: Token, input: seq<byte>)
    requires Outside(limits, s, t, input)
    ensures Next(limits, s, NormalMode, input, true) == Lexed(Got(t), Past(s, t))
  {
    TokenReads(limits, s, t, input);
    SkipsExactly(limits.maxToken, s, input, t.spaces);
    ReadAfterSpaces(limits, s, t, input);
  }

  /** A token that fits, standing where the lexer is, is the next token. */
  lemma TokenLexes(limits: Limits, s: LexState, t: Token, input: seq<byte>)
    requires s.error.None? && s.spaces == 0 && Fits(limits, s, t) && StandsAt(input, s.pos, t)
    ensures Next(limits, s, NormalMode, input, true) == Lexed(Got(t), Past(s, t))
  {
    if s.literal.Some? {
      ContentLexes(limits, s, t, input);
    } else {
      OutsideTokenLexes(limits, s, t, input);
    }
  }

  // ---- The whole list ----

  lemma {:induction false} PastPrinted(tokens: seq<Token>)
    ensures PastAll(tokens).pos == |Printed(tokens)| && PastAll(tokens).spaces == 0 && PastAll(tokens).error.None?
    decreases |tokens|
  {
    if tokens != [] { PastPrinted(tokens[..|tokens| - 1]); }
  }

  lemma {:induction false} PrintedPrefix(tokens: seq<Token>, k: nat)
    requires k <= |tokens|
    ensures Printed(tokens[..k]) <= Printed(tokens)
    decreases |tokens|
  {
    if k == |tokens| {
      assert tokens[..k] == tokens;
    } else {
      var front := tokens[..|tokens| - 1];
      PrintedPrefix(front, k);
      assert front[..k] == tokens[..k];
    }
  }

  /** The bytes of the next token begin with a byte that ends this one. */
  lemma NextByteEndsToken(limits: Limits, s: LexState, t: Token, u: Token)
    requires Fits(limits, s, t) && Fits(limits, Past(s, t), u)
    requires MayTouch(t, u) && u.spaces == 0 && IsWord(t)
    ensures EndsBefore(t, u)
  {
    if u.kind == LiteralBegin {
      var digits: seq<byte>, plus: bool :| u.raw == HeaderForm(u.binary, digits, plus);
    }
  }

  lemma PastAllStep(tokens: seq<Token>, k: nat)
    requires k < |tokens|
    ensures PastAll(tokens[..k + 1]) == Past(PastAll(tokens[..k]), tokens[k])
    ensures Printed(tokens[..k + 1]) == Printed(tokens[..k]) + Blanks(tokens[k].spaces) + tokens[k].Bytes()
  {
    assert tokens[..k + 1][..k] == tokens[..k];
  }

  lemma SlicesOf(pre: seq<byte>, n: nat, bytes: seq<byte>, input: seq<byte>)
    requires pre + Blanks(n) + bytes <= input
    ensures |pre| + n + |bytes| <= |input|
    ensures SpacesAt(input, |pre|, |pre| + n) && input[|pre| + n .. |pre| + n + |bytes|] == bytes
    ensures n == 0 && bytes != [] ==> |pre| < |input| && input[|pre|] == bytes[0]
    ensures n > 0 ==> |pre| < |input| && input[|pre|] == SP
  {
    var all := pre + Blanks(n) + bytes;
    assert all[|pre| + n..] == bytes;
    assert input[|pre| + n .. |all|] == all[|pre| + n..];
    forall i | |pre| <= i < |pre| + n ensures input[i] == SP {
      assert input[i] == all[i] == Blanks(n)[i - |pre|];
    }
  }

  lemma TokenInPrinted(tokens: seq<Token>, k: nat)
    requires k < |tokens|
    ensures Printed(tokens[..k]) + Blanks(tokens[k].spaces) + tokens[k].Bytes() <= Printed(tokens)
    ensures |Printed(tokens[..k + 1])| == |Printed(tokens[..k])| + tokens[k].spaces + |tokens[k].Bytes()|
  {
    PastAllStep(tokens, k);
    PrintedPrefix(tokens, k + 1);
  }

  /** What the printed form of a token is followed by does not continue it. */
  lemma FollowedProperly(limits: Limits, tokens: seq<Token>, k: nat)
    requires Printable(limits, tokens) && k < |tokens|
    ensures EndsAt(tokens[k], Printed(tokens), |Printed(tokens[..k + 1])|)
  {
    if k + 1 == |tokens| {
      assert tokens[..k + 1] == tokens;
    } else if IsWord(tokens[k]) {
      assert InPlace(limits, tokens, k) && InPlace(limits, tokens, k + 1);
      if tokens[k + 1].spaces == 0 { WordThenToken(limits, tokens, k); }
      TokenInPrinted(tokens, k + 1);
      NextEnds(tokens[k], tokens[k + 1], Printed(tokens[..k + 1]), Printed(tokens));
    }
  }

  lemma NextEnds(t: Token, u: Token, pre: seq<byte>, input: seq<byte>)
    requires pre + Blanks(u.spaces) + u.Bytes() <= input
    requires u.spaces == 0 ==> EndsBefore(t, u)
    ensures EndsAt(t, input, |pre|)
  {
    SlicesOf(pre, u.spaces, u.Bytes(), input);
  }

  /** The bytes of `u` do not continue the word `t`. */
  ghost predicate EndsBefore(t: Token, u: Token) {
    && u.Bytes() != []
    && !IsAtomChar(u.Bytes()[0], NormalMode)
    && (t.raw == [TILDE] ==> u.Bytes()[0] != LBRACE)
  }

  lemma WordThenToken(limits: Limits, tokens: seq<Token>, k: nat)
    requires k + 1 < |tokens| && InPlace(limits, tokens, k) && InPlace(limits, tokens, k + 1)
    requires IsWord(tokens[k]) && tokens[k + 1].spaces == 0
    ensures EndsBefore(tokens[k], tokens[k + 1])
  {
    PastAllStep(tokens, k);
    NextByteEndsToken(limits, PastAll(tokens[..k]), tokens[k], tokens[k + 1]);
  }

  lemma StandsInPrinted(limits: Limits, tokens: seq<Token>, k: nat)
    requires Printable(limits, tokens) && k < |tokens|
    ensures StandsAt(Printed(tokens), |Printed(tokens[..k])|, tokens[k])
  {
    TokenInPrinted(tokens, k);
    FollowedProperly(limits, tokens, k);
    Stands(Printed(tokens[..k]), tokens[k], Printed(tokens), |Printed(tokens[..k + 1])|);
  }

  lemma Stands(pre: seq<byte>, t: Token, input: seq<byte>, end: nat)
    requires pre + Blanks(t.spaces) + t.Bytes() <= input
    requires end == |pre| + t.spaces + |t.Bytes()| && EndsAt(t, input, end)
    ensures StandsAt(input, |pre|, t)
  {
    SlicesOf(pre, t.spaces, t.Bytes(), input);
  }

  /** The content of a literal follows its header, and nothing else of it follows the content. */
  lemma ContentStandsAlone(s: LexState, t: Token, u: Token)
    requires Expected(s.literal, t) && Expected(Past(s, t).literal, u)
    ensures t.kind == LiteralData ==> u.kind != LiteralData
  {
  }

  lemma ExpectedAt(limits: Limits, tokens: seq<Token>, k: nat)
    requires Printable(limits, tokens) && k < |tokens|
    ensures Expected(PastAll(tokens[..k]).literal, tokens[k])
  {
    var fits := InPlace(limits, tokens, k);
  }

  lemma PiecesApart(limits: Limits, tokens: seq<Token>, k: nat)
    requires Printable(limits, tokens) && 0 < k < |tokens|
    ensures tokens[k - 1].kind == LiteralData ==> tokens[k].kind != LiteralData
  {
    ExpectedAt(limits, tokens, k - 1);
    ExpectedAt(limits, tokens, k);
    PastAllStep(tokens, k - 1);
    ContentStandsAlone(PastAll(tokens[..k - 1]), tokens[k - 1], tokens[k]);
  }

  lemma NoPiecesMeet(limits: Limits, tokens: seq<Token>, k: nat)
    requires Printable(limits, tokens) && k < |tokens|
    ensures Merge(tokens[..k], tokens[k]) == tokens[..k + 1]
  {
    if k > 0 { PiecesApart(limits, tokens, k); }
    MergeApart(tokens, k);
  }

  lemma MergeApart(tokens: seq<Token>, k: nat)
    requires k < |tokens| && (k > 0 && tokens[k - 1].kind == LiteralData ==> tokens[k].kind != LiteralData)
    ensures Merge(tokens[..k], tokens[k]) == tokens[..k + 1]
  {
  }

  /** One well-formed token is read, and the state after it is where the next one is placed. */
  lemma ReadsNext(limits: Limits, tokens: seq<Token>, k: nat)
    requires Printable(limits, tokens) && k < |tokens|
    requires PastAll(tokens[..k]).pos <= |Printed(tokens)|
    ensures PastAll(tokens[..k + 1]).pos <= |Printed(tokens)|
    ensures Next(limits, PastAll(tokens[..k]), NormalMode, Printed(tokens), true)
         == Lexed(Got(tokens[k]), PastAll(tokens[..k + 1]))
  {
    PastPrinted(tokens[..k]);
    assert InPlace(limits, tokens, k);
    StandsInPrinted(limits, tokens, k);
    TokenLexes(limits, PastAll(tokens[..k]), tokens[k], Printed(tokens));
    PastAllStep(tokens, k);
    PastPrinted(tokens[..k + 1]);
    PrintedPrefix(tokens, k + 1);
  }

  lemma {:induction false} ReadsOn(limits: Limits, tokens: seq<Token>, k: nat)
    requires Printable(limits, tokens) && k <= |tokens|
    requires tokens == [] || tokens[|tokens| - 1].kind == Eol
    requires PastAll(tokens[..k]).pos <= |Printed(tokens)|
    ensures Rest(limits, NORMAL, PastAll(tokens[..k]), tokens[..k], Printed(tokens), true) == Tokenized(tokens, Clean)
    decreases |tokens| - k
  {
    RestStep(limits, NORMAL, PastAll(tokens[..k]), tokens[..k], Printed(tokens), true);
    if k < |tokens| {
      ReadsNext(limits, tokens, k);
      NoPiecesMeet(limits, tokens, k);
      ReadsOn(limits, tokens, k + 1);
    } else {
      assert tokens[..k] == tokens;
      PastPrinted(tokens);
      EndsBetweenLines(limits, tokens);
    }
  }

  lemma EndsBetweenLines(limits: Limits, tokens: seq<Token>)
    requires Printable(limits, tokens) && (tokens == [] || tokens[|tokens| - 1].kind == Eol)
    ensures var s := PastAll(tokens); s.lineStart && s.literal.None? && s.error.None?
  {
    if tokens != [] {
      assert InPlace(limits, tokens, |tokens| - 1);
      LineEndLeads(limits, PastAll(tokens[..|tokens| - 1]), tokens[|tokens| - 1]);
    }
  }

  lemma LineEndLeads(limits: Limits, s: LexState, t: Token)
    requires Fits(limits, s, t) && t.kind == Eol
    ensures var after := Past(s, t); after.lineStart && after.literal.None? && after.error.None?
  {
  }

  /** Print, then lex: every well-formed list of normal-mode tokens within the limits that ends its last
      line, printed with its spaces, lexes back to exactly that list and a clean end. */
  lemma PrintedTokensLexBack(limits: Limits, tokens: seq<Token>)
    requires Printable(limits, tokens)
    requires tokens == [] || tokens[|tokens| - 1].kind == Eol
    ensures OneShot(limits, NORMAL, Printed(tokens), true) == Tokenized(tokens, Clean)
  {
    assert tokens[..0] == [];
    ReadsOn(limits, tokens, 0);
  }
}
