/** What one call of `next` answers, mode by mode and byte by byte, in plain numbers: which byte begins what,
    how far the token reaches, and each error with its offset. None of it mentions how module LexSpec arrives
    at its answer. */
module LexTable {
  import opened Tokens
  import opened LexSpec
  import opened Values
  import opened PrintLex

  // ---- Where the call looks, and what it says ----

  /** After the spaces pending and those before `p`, not too many, the call looks at the byte at `p`. */
  ghost predicate Reaches(limits: Limits, s: LexState, input: seq<byte>, p: nat) {
    && s.error.None? && s.literal.None? && s.pos <= p < |input|
    && s.spaces + (p - s.pos) <= limits.maxToken
    && (forall i :: s.pos <= i < p ==> input[i] == 0x20) && input[p] != 0x20
  }

  /** A token of this kind and these bytes, standing at `p`. */
  ghost predicate Gives(x: Lexed, s: LexState, p: nat, kind: TokenKind, raw: seq<byte>, depth: nat)
    requires s.pos <= p
  {
    && x.result == Got(Token(kind, s.spaces + (p - s.pos), p, raw, [], 0, false, []))
    && x.after == LexState(p + |raw|, false, 0, depth, None, None)
  }

  ghost predicate Refuses(x: Lexed, kind: SyntaxErrorKind, at: nat) {
    x.result == Failed(SyntaxError(kind, at)) && x.after.error == Some(SyntaxError(kind, at))
  }

  /** The state in which the call looks at `p`. */
  function Looking(s: LexState, p: nat): LexState
    requires s.pos <= p
  {
    s.(pos := p, spaces := s.spaces + (p - s.pos), lineStart := s.lineStart && p == s.pos)
  }

  lemma LooksAt(limits: Limits, s: LexState, mode: LexMode, input: seq<byte>, fin: bool, p: nat)
    requires Reaches(limits, s, input, p)
    ensures Next(limits, s, mode, input, fin) == LexShape(limits, Looking(s, p), ShapeAt(mode, input, p, fin), input, fin)
  {
    SkipsExactly(limits.maxToken, s, input, p - s.pos);
  }

  // ---- Line ends, in every mode ----

  lemma BeginsLineEnd(limits: Limits, s: LexState, mode: LexMode, input: seq<byte>, fin: bool, p: nat)
    requires Reaches(limits, s, input, p) && (input[p] == 0x0D || input[p] == 0x0A)
    ensures Next(limits, s, mode, input, fin) == LexEol(Looking(s, p), input, fin)
  {
    LooksAt(limits, s, mode, input, fin, p);
    assert ShapeAt(mode, input, p, fin) == LineEnd;
  }

  /** CR and LF together are a line end, which ends all nesting. Either alone is an error; at the end of the
      input a CR alone is one after it. */
  lemma LineEnds(limits: Limits, s: LexState, mode: LexMode, input: seq<byte>, fin: bool, p: nat)
    requires Reaches(limits, s, input, p)
    ensures var x := Next(limits, s, mode, input, fin);
      && (input[p] == 0x0A ==> Refuses(x, BadLineEnding, p))
      && (input[p] == 0x0D && p + 1 < |input| && input[p + 1] != 0x0A ==> Refuses(x, BadLineEnding, p))
      && (input[p] == 0x0D && p + 1 == |input| && fin ==> Refuses(x, UnexpectedEnd, p + 1))
      && (input[p] == 0x0D && p + 1 == |input| && !fin ==> x.result == NeedMore)
      && (input[p] == 0x0D && p + 1 < |input| && input[p + 1] == 0x0A ==>
            && x.result == Got(Token(Eol, s.spaces + (p - s.pos), p, [0x0D, 0x0A], [], 0, false, []))
            && x.after == LexState(p + 2, true, 0, 0, None, None))
  {
    if input[p] == 0x0D || input[p] == 0x0A { BeginsLineEnd(limits, s, mode, input, fin, p); }
  }

  // ---- Brackets and parentheses ----

  /** Which kind of token this byte opens, if it does, in this mode. */
  lemma Opens(limits: Limits, s: LexState, mode: LexMode, input: seq<byte>, fin: bool, p: nat, kind: TokenKind)
    requires Reaches(limits, s, input, p)
    requires (kind == LBracket && input[p] == 0x5B && mode in {NormalMode, RespTextMode})
          || (kind == LParen && input[p] == 0x28 && mode in {NormalMode, AstringMode})
    ensures var x := Next(limits, s, mode, input, fin);
      if s.depth < limits.maxDepth then Gives(x, s, p, kind, [input[p]], s.depth + 1) else Refuses(x, NestingTooDeep, p)
  {
    LooksAt(limits, s, mode, input, fin, p);
  }

  /** Which it closes; a stray one closes nothing. */
  lemma Closes(limits: Limits, s: LexState, mode: LexMode, input: seq<byte>, fin: bool, p: nat, kind: TokenKind)
    requires Reaches(limits, s, input, p)
    requires (kind == RBracket && input[p] == 0x5D && mode in {NormalMode, CodeNameMode, CodeTextMode})
          || (kind == RParen && input[p] == 0x29 && mode in {NormalMode, AstringMode})
    ensures Gives(Next(limits, s, mode, input, fin), s, p, kind, [input[p]], if s.depth > 0 then s.depth - 1 else 0)
  {
    LooksAt(limits, s, mode, input, fin, p);
  }

  /** In normal and astring mode no control byte begins anything. */
  lemma Controls(limits: Limits, s: LexState, mode: LexMode, input: seq<byte>, fin: bool, p: nat)
    requires Reaches(limits, s, input, p) && mode in {NormalMode, AstringMode}
    requires (input[p] < 0x20 && input[p] != 0x0D && input[p] != 0x0A) || input[p] == 0x7F
    ensures Refuses(Next(limits, s, mode, input, fin), InvalidCharacter, p)
  {
    LooksAt(limits, s, mode, input, fin, p);
  }

  // ---- Free text ----

  /** The bytes that free text in this mode begins with. */
  predicate BeginsText(mode: LexMode, c: byte) {
    && c != 0x0D && c != 0x0A
    && match mode
       case TextMode => true
       case RespTextMode => c != 0x5B
       case CodeTextMode => c != 0x5D
       case CodeNameMode => c != 0x5D && !AtomByte(c, false)
       case _ => false
  }

  /** Whether a byte ends it: CR, LF and, in the two modes of a code, a closing bracket. */
  predicate EndsFreeText(mode: LexMode, c: byte) {
    c == 0x0D || c == 0x0A || (c == 0x5D && (mode == CodeNameMode || mode == CodeTextMode))
  }

  lemma {:induction false} TextReaches(input: seq<byte>, start: nat, i: nat, stop: bool, max: nat, end: nat)
    requires start <= i <= end <= |input| && i - start <= max
    requires forall k :: i <= k < end ==> !EndsText(input[k], stop) && input[k] != NUL
    ensures end - start <= max ==> TextScan(input, start, i, stop, max) == TextScan(input, start, end, stop, max)
    ensures end - start > max ==> TextScan(input, start, i, stop, max) == Fault(TokenTooLong, start)
    decreases end - i
  {
    if i < end && i - start < max {
      TextReaches(input, start, i + 1, stop, max, end);
    }
  }

  /** Free text reaches to `end`: to the first byte that ends it, to the first NUL or to the end of the input.
      It is a token there, unless it is too long, a NUL stands there, or more of it may come. */
  lemma FreeTextAnswers(limits: Limits, s: LexState, mode: LexMode, input: seq<byte>, fin: bool, p: nat, end: nat)
    requires Reaches(limits, s, input, p) && BeginsText(mode, input[p]) && p <= end <= |input|
    requires forall k :: p <= k < end ==> !EndsFreeText(mode, input[k]) && input[k] != 0x00
    requires end < |input| ==> EndsFreeText(mode, input[end]) || input[end] == 0x00
    ensures var x := Next(limits, s, mode, input, fin);
      && (end - p > limits.maxToken ==> Refuses(x, TokenTooLong, p))
      && (end - p == limits.maxToken && end < |input| && input[end] == 0x00 ==> Refuses(x, TokenTooLong, p))
      && (end - p < limits.maxToken && end < |input| && input[end] == 0x00 ==> Refuses(x, InvalidCharacter, end))
      && (end - p <= limits.maxToken && end == |input| && !fin ==> x.result == NeedMore)
      && (end - p <= limits.maxToken && (end < |input| ==> input[end] != 0x00) && (end == |input| ==> fin) ==>
            Gives(x, s, p, Text, input[p .. end], s.depth))
  {
    LooksAt(limits, s, mode, input, fin, p);
    var stop := mode == CodeNameMode || mode == CodeTextMode;
    assert ShapeAt(mode, input, p, fin) == FreeText(stop);
    TextReaches(input, p, p, stop, limits.maxToken, end);
  }

  // ---- Words ----

  /** A byte of a word: above space, not DEL, no quote, parenthesis or opening brace; and no bracket, unless
      brackets belong to words. */
  predicate AtomByte(c: byte, brackets: bool) {
    && c > 0x20 && c != 0x7F && c !in {0x22, 0x28, 0x29, 0x7B}
    && (brackets || c !in {0x5B, 0x5D})
  }

  lemma AtomBytes(c: byte, mode: LexMode)
    ensures IsAtomChar(c, mode) <==> AtomByte(c, mode == AstringMode)
  {
  }

  lemma {:induction false} WordReaches(input: seq<byte>, start: nat, i: nat, chars: LexMode, max: nat, end: nat)
    requires start <= i <= end <= |input| && i - start <= max
    requires forall k :: i <= k < end ==> IsAtomChar(input[k], chars)
    requires end < |input| ==> !IsAtomChar(input[end], chars)
    ensures AtomScan(input, start, i, chars, max) == if end - start <= max then Stop(end) else Fault(TokenTooLong, start)
    decreases end - i
  {
    if i < end && i - start < max {
      WordReaches(input, start, i + 1, chars, max, end);
    }
  }

  /** The bytes from `p` to `end` are a word, and what stands there is not part of it. */
  ghost predicate WordAt(input: seq<byte>, p: nat, end: nat, brackets: bool) {
    && p < end <= |input| && (forall k :: p <= k < end ==> AtomByte(input[k], brackets))
    && (end < |input| ==> !AtomByte(input[end], brackets))
  }

  lemma WordScanned(input: seq<byte>, p: nat, end: nat, chars: LexMode, max: nat)
    requires WordAt(input, p, end, chars == AstringMode)
    ensures AtomScan(input, p, p, chars, max) == if end - p <= max then Stop(end) else Fault(TokenTooLong, p)
  {
    forall k | p <= k < end ensures IsAtomChar(input[k], chars) { AtomBytes(input[k], chars); }
    if end < |input| { AtomBytes(input[end], chars); }
    WordReaches(input, p, p, chars, max, end);
  }

  /** A word where an astring or the name of a code is expected is an atom, whatever it looks like. */
  lemma PlainWords(limits: Limits, s: LexState, mode: LexMode, input: seq<byte>, fin: bool, p: nat, end: nat)
    requires Reaches(limits, s, input, p) && (mode == CodeNameMode || mode == AstringMode)
    requires WordAt(input, p, end, mode == AstringMode)
    requires mode == AstringMode && input[p] == 0x7E ==> p + 1 == |input| || input[p + 1] != 0x7B
    ensures var x := Next(limits, s, mode, input, fin);
      && (end - p > limits.maxToken && !(mode == AstringMode && input[p] == 0x7E && p + 1 == |input| && !fin) ==> Refuses(x, TokenTooLong, p))
      && (end - p <= limits.maxToken && end == |input| && !fin ==> x.result == NeedMore)
      && (end - p <= limits.maxToken && (end == |input| ==> fin) ==> Gives(x, s, p, Atom, input[p .. end], s.depth))
  {
    LooksAt(limits, s, mode, input, fin, p);
    AtomBytes(input[p], mode);
    WordScanned(input, p, end, if mode == AstringMode then AstringMode else NormalMode, limits.maxToken);
  }

  predicate SpellsNil(raw: seq<byte>) {
    |raw| == 3 && raw[0] in {0x4E, 0x6E} && raw[1] in {0x49, 0x69} && raw[2] in {0x4C, 0x6C}
  }

  lemma NilIsSpelled(raw: seq<byte>)
    ensures EqualsNil(raw) <==> SpellsNil(raw)
  {
  }

  lemma DigitBytes(raw: seq<byte>)
    ensures AllDigits(raw) <==> forall i :: 0 <= i < |raw| ==> 0x30 <= raw[i] <= 0x39
  {
  }

  /** A word in normal mode: NIL in any case; digits, a number if they amount to less than 2^63, or else an error
      at the first digit that makes them more; anything else an atom. */
  ghost predicate WordMeans(x: Lexed, s: LexState, p: nat, raw: seq<byte>)
    requires s.pos <= p
  {
    if SpellsNil(raw) then Gives(x, s, p, Nil, raw, s.depth)
    else if exists i :: 0 <= i < |raw| && !(0x30 <= raw[i] <= 0x39) then Gives(x, s, p, Atom, raw, s.depth)
    else
      && AllDigits(raw)
      && if Decimal(raw) < 0x8000_0000_0000_0000 then
           && x.result == Got(Token(Number, s.spaces + (p - s.pos), p, raw, [], Decimal(raw), false, []))
           && x.after == LexState(p + |raw|, false, 0, s.depth, None, None)
         else exists at :: OverflowsAt(raw, at) && Refuses(x, NumberTooLarge, p + at)
  }

  lemma ClassifiedMeans(s: LexState, p: nat, raw: seq<byte>)
    requires s.pos <= p && raw != [] && s.error.None? && s.literal.None?
    ensures WordMeans(Classified(Looking(s, p), true, raw), s, p, raw)
  {
    NilIsSpelled(raw);
    DigitBytes(raw);
    if AllDigits(raw) { NumbersAreExact(raw); }
  }

  lemma NormalWords(limits: Limits, s: LexState, input: seq<byte>, fin: bool, p: nat, end: nat)
    requires Reaches(limits, s, input, p) && WordAt(input, p, end, false)
    requires input[p] == 0x7E && p + 1 < |input| ==> input[p + 1] != 0x7B
    ensures var x := Next(limits, s, NormalMode, input, fin);
      && (end - p > limits.maxToken && !(input[p] == 0x7E && p + 1 == |input| && !fin) ==> Refuses(x, TokenTooLong, p))
      && (end - p <= limits.maxToken && end == |input| && !fin ==> x.result == NeedMore)
      && (end - p <= limits.maxToken && (end == |input| ==> fin) ==> WordMeans(x, s, p, input[p .. end]))
  {
    LooksAt(limits, s, NormalMode, input, fin, p);
    AtomBytes(input[p], NormalMode);
    WordScanned(input, p, end, NormalMode, limits.maxToken);
    if end - p <= limits.maxToken { ClassifiedMeans(s, p, input[p .. end]); }
  }

  // ---- Quoted strings ----

  lemma {:induction false} InsideReached(input: seq<byte>, p: nat, i: nat, content: seq<byte>, max: nat)
    requires p < i && Quotable(content) && i + |Escape(content)| <= |input| && i + |Escape(content)| - p <= max
    requires input[i .. i + |Escape(content)|] == Escape(content)
    ensures QuotedScan(input, p, i, false, max) == QuotedScan(input, p, i + |Escape(content)|, false, max)
    decreases |content|
  {
    if content != [] {
      var form, rest := EscapeByte(content[0]), Escape(content[1..]);
      var all := form + rest;
      assert input[i] == all[0] && (|form| == 2 ==> input[i + 1] == all[1]);
      assert input[i + |form| .. i + |all|] == all[|form|..] == rest;
      InsideReached(input, p, i + |form|, content[1..], max);
    }
  }

  /** A quote is at `p`, then the escaped form of some content, up to `end`, within the limit. */
  ghost predicate QuoteAt(limits: Limits, input: seq<byte>, p: nat, content: seq<byte>, end: nat) {
    && p < end <= |input| && input[p] == 0x22 && Quotable(content) && end - p <= limits.maxToken
    && input[p + 1 .. end] == Escape(content)
  }

  lemma BeginsQuote(limits: Limits, s: LexState, mode: LexMode, input: seq<byte>, fin: bool, p: nat)
    requires Reaches(limits, s, input, p) && mode in {NormalMode, AstringMode} && input[p] == 0x22
    ensures Next(limits, s, mode, input, fin) == LexQuoted(limits, Looking(s, p), input, fin)
    ensures Next(limits, s, mode, input, fin)
         == QuotedFound(Looking(s, p), QuotedScan(input, p, p + 1, false, limits.maxToken), input, fin)
  {
    LooksAt(limits, s, mode, input, fin, p);
    assert ShapeAt(mode, input, p, fin) == QuotedString;
  }

  lemma ScannedTo(limits: Limits, input: seq<byte>, p: nat, content: seq<byte>, end: nat)
    requires QuoteAt(limits, input, p, content, end)
    ensures QuotedScan(input, p, p + 1, false, limits.maxToken) == QuotedScan(input, p, end, false, limits.maxToken)
  {
    assert |Escape(content)| == |input[p + 1 .. end]| == end - (p + 1);
    InsideReached(input, p, p + 1, content, limits.maxToken);
  }

  lemma LooksAtQuote(limits: Limits, s: LexState, mode: LexMode, input: seq<byte>, fin: bool, p: nat, content: seq<byte>, end: nat)
    requires Reaches(limits, s, input, p) && mode in {NormalMode, AstringMode} && QuoteAt(limits, input, p, content, end)
    ensures Next(limits, s, mode, input, fin)
         == QuotedFound(Looking(s, p), QuotedScan(input, p, end, false, limits.maxToken), input, fin)
  {
    BeginsQuote(limits, s, mode, input, fin, p);
    ScannedTo(limits, input, p, content, end);
  }

  /** What ends a quoted string, or spoils it, is the byte at `end` that continues no such form. */
  lemma QuotedAnswers(limits: Limits, s: LexState, mode: LexMode, input: seq<byte>, fin: bool, p: nat, content: seq<byte>, end: nat)
    requires Reaches(limits, s, input, p) && mode in {NormalMode, AstringMode} && QuoteAt(limits, input, p, content, end)
    ensures var x := Next(limits, s, mode, input, fin);
      && (end == |input| && fin ==> Refuses(x, UnexpectedEnd, |input|))
      && (end == |input| && !fin ==> x.result == NeedMore)
      && (end < |input| && end - p == limits.maxToken ==> Refuses(x, TokenTooLong, p))
      && (end < |input| && end - p < limits.maxToken ==>
            && (input[end] == 0x0D || input[end] == 0x0A ==> Refuses(x, UnterminatedQuoted, end))
            && (input[end] == 0x00 ==> Refuses(x, InvalidCharacter, end)))
  {
    LooksAtQuote(limits, s, mode, input, fin, p, content, end);
  }

  /** A backslash is followed by a quote or a backslash, or it is an error, at the byte that follows. */
  lemma BackslashAnswers(limits: Limits, s: LexState, mode: LexMode, input: seq<byte>, fin: bool, p: nat, content: seq<byte>, end: nat)
    requires Reaches(limits, s, input, p) && mode in {NormalMode, AstringMode} && QuoteAt(limits, input, p, content, end)
    requires end < |input| && end - p < limits.maxToken && input[end] == 0x5C
    ensures var x := Next(limits, s, mode, input, fin);
      && (end + 1 == |input| && fin ==> Refuses(x, UnexpectedEnd, |input|))
      && (end + 1 == |input| && !fin ==> x.result == NeedMore)
      && (end + 1 < |input| && end + 1 - p == limits.maxToken ==> Refuses(x, TokenTooLong, p))
      && (end + 1 < |input| && end + 1 - p < limits.maxToken && input[end + 1] !in {0x22, 0x5C} ==> Refuses(x, BadEscape, end + 1))
  {
    LooksAtQuote(limits, s, mode, input, fin, p, content, end);
  }

  /** And a quote ends it: the token holds the content, and its bytes are the form. */
  lemma QuoteCloses(limits: Limits, s: LexState, mode: LexMode, input: seq<byte>, fin: bool, p: nat, content: seq<byte>, end: nat)
    requires Reaches(limits, s, input, p) && mode in {NormalMode, AstringMode} && QuoteAt(limits, input, p, content, end)
    requires end < |input| && end - p < limits.maxToken && input[end] == 0x22
    ensures var x := Next(limits, s, mode, input, fin);
      && x.result == Got(Token(Quoted, s.spaces + (p - s.pos), p, input[p .. end + 1], content, 0, false, []))
      && x.after == LexState(end + 1, false, 0, s.depth, None, None)
  {
    FormStands(limits, input, p, content, end);
    BeginsQuote(limits, s, mode, input, fin, p);
    QuotedFormLexes(limits, Looking(s, p), content, input, fin);
  }

  lemma FormStands(limits: Limits, input: seq<byte>, p: nat, content: seq<byte>, end: nat)
    requires QuoteAt(limits, input, p, content, end) && end < |input| && input[end] == 0x22
    ensures input[p .. end + 1] == QuotedForm(content) && |QuotedForm(content)| == end + 1 - p
  {
    assert input[p .. end + 1] == [input[p]] + input[p + 1 .. end] + [input[end]];
  }

  // ---- Literal headers ----

  /** A literal header begins at `p`, and its size, or what stands in its place, at `q`. */
  predicate HeaderAt(input: seq<byte>, p: nat, binary: bool, q: nat) {
    if binary then q == p + 2 <= |input| && input[p] == 0x7E && input[p + 1] == 0x7B
    else q == p + 1 <= |input| && input[p] == 0x7B
  }

  lemma LooksAtHeader(limits: Limits, s: LexState, mode: LexMode, input: seq<byte>, fin: bool, p: nat, binary: bool, q: nat)
    requires Reaches(limits, s, input, p) && mode in {NormalMode, AstringMode} && HeaderAt(input, p, binary, q)
    ensures Next(limits, s, mode, input, fin) == HeaderFound(limits, Looking(s, p), binary, HeaderScan(input, q), input, fin)
  {
    LooksAt(limits, s, mode, input, fin, p);
    assert ShapeAt(mode, input, p, fin) == LiteralHeader(binary);
  }

  lemma FoundMeans(limits: Limits, s: LexState, p: nat, binary: bool, found: Header, input: seq<byte>, fin: bool)
    requires s.error.None? && s.pos <= p && (found.HeaderOk? ==> p <= found.end <= |input|)
    ensures var x := HeaderFound(limits, Looking(s, p), binary, found, input, fin);
      && (found.HeaderBad? ==> Refuses(x, found.kind, found.at))
      && (found.HeaderShort? ==> if fin then Refuses(x, UnexpectedEnd, found.at) else x.result == NeedMore)
      && (found.HeaderOk? && found.size > limits.maxLiteral ==> Refuses(x, LiteralTooLarge, p))
      && (found.HeaderOk? && found.size <= limits.maxLiteral ==>
            && x.result == Got(Token(LiteralBegin, s.spaces + (p - s.pos), p, input[p .. found.end], [], found.size, binary, []))
            && (found.end > p ==> x.after == LexState(found.end, false, 0, s.depth, Some(found.size), None)))
  {
  }

  /** A size of digits from `q` to `end`. */
  ghost predicate SizeAt(input: seq<byte>, q: nat, end: nat) {
    && q <= end <= |input| && (forall k :: q <= k < end ==> 0x30 <= input[k] <= 0x39)
    && (end < |input| ==> !(0x30 <= input[end] <= 0x39))
  }

  lemma SizeDigits(input: seq<byte>, q: nat, end: nat)
    requires SizeAt(input, q, end)
    ensures AllDigits(input[q .. end])
    ensures Decimal(input[q .. end]) < 0x8000_0000_0000_0000 ==> ReadDigits(input, q, 0) == Digits(end, Decimal(input[q .. end]))
    ensures Decimal(input[q .. end]) >= 0x8000_0000_0000_0000 ==>
      exists at :: OverflowsAt(input[q .. end], at) && ReadDigits(input, q, 0) == Overflow(q + at)
  {
    ReadDigitsStops(input, q, q, end, 0);
    NumbersAreExact(input[q .. end]);
  }

  lemma SizeDecides(input: seq<byte>, q: nat, end: nat)
    requires SizeAt(input, q, end)
    ensures AllDigits(input[q .. end])
    ensures Decimal(input[q .. end]) >= 0x8000_0000_0000_0000 ==>
      exists at :: OverflowsAt(input[q .. end], at) && HeaderScan(input, q) == HeaderBad(NumberTooLarge, q + at)
    ensures Decimal(input[q .. end]) < 0x8000_0000_0000_0000 ==>
      && (end == |input| ==> HeaderScan(input, q) == HeaderShort(|input|))
      && (end == q < |input| ==> HeaderScan(input, q) == HeaderBad(BadLiteral, q))
  {
    SizeDigits(input, q, end);
  }

  /** A size of 2^63 or more is an error at the digit that makes it so; none at all, at what stands there. */
  lemma HeaderSizes(limits: Limits, s: LexState, mode: LexMode, input: seq<byte>, fin: bool, p: nat, binary: bool, q: nat, end: nat)
    requires Reaches(limits, s, input, p) && mode in {NormalMode, AstringMode}
    requires HeaderAt(input, p, binary, q) && SizeAt(input, q, end)
    ensures var x := Next(limits, s, mode, input, fin);
      && AllDigits(input[q .. end])
      && (Decimal(input[q .. end]) >= 0x8000_0000_0000_0000 ==>
            exists at :: OverflowsAt(input[q .. end], at) && Refuses(x, NumberTooLarge, q + at))
      && (Decimal(input[q .. end]) < 0x8000_0000_0000_0000 ==>
            && (end == |input| && fin ==> Refuses(x, UnexpectedEnd, |input|))
            && (end == |input| && !fin ==> x.result == NeedMore)
            && (end == q < |input| ==> Refuses(x, BadLiteral, q)))
  {
    LooksAtHeader(limits, s, mode, input, fin, p, binary, q);
    FoundMeans(limits, s, p, binary, HeaderScan(input, q), input, fin);
    SizeDecides(input, q, end);
  }

  /** What closes a header after the digits: perhaps a plus, and then these three bytes. */
  function HeaderEnd(plus: bool): seq<byte> {
    if plus then [0x2B, 0x7D, 0x0D, 0x0A] else [0x7D, 0x0D, 0x0A]
  }

  lemma {:induction false} TailReached(input: seq<byte>, i: nat, expected: seq<byte>, n: nat, size: nat)
    requires n <= |expected| && i + n <= |input| && input[i .. i + n] == expected[..n]
    ensures HeaderTail(input, i, expected, size) == HeaderTail(input, i + n, expected[n..], size)
    decreases n
  {
    if n > 0 {
      assert input[i] == input[i .. i + n][0] == expected[0];
      assert input[i + 1 .. i + n] == input[i .. i + n][1..] == expected[1..][..n - 1];
      TailReached(input, i + 1, expected[1..], n - 1, size);
      assert expected[1..][n - 1..] == expected[n..];
    }
  }

  lemma EndReached(input: seq<byte>, end: nat, plus: bool, n: nat, size: nat)
    requires end < |input| && end + n <= |input| && n <= |HeaderEnd(plus)|
    requires input[end .. end + n] == HeaderEnd(plus)[..n] && (input[end] == 0x2B ==> plus) && (plus ==> n > 0)
    ensures HeaderTail(input, if input[end] == PLUS then end + 1 else end, [RBRACE, CR, LF], size)
         == HeaderTail(input, end + n, HeaderEnd(plus)[n..], size)
  {
    if plus {
      assert input[end] == input[end .. end + n][0];
      assert input[end + 1 .. end + n] == input[end .. end + n][1..] == [RBRACE, CR, LF][..n - 1];
      TailReached(input, end + 1, [RBRACE, CR, LF], n - 1, size);
      assert HeaderEnd(true)[n..] == [RBRACE, CR, LF][n - 1..];
    } else {
      TailReached(input, end, [RBRACE, CR, LF], n, size);
    }
  }

  /** The digits, and then the first `n` bytes of what closes a header. */
  ghost predicate PartOfHeader(input: seq<byte>, q: nat, end: nat, plus: bool, n: nat) {
    && SizeAt(input, q, end) && q < end < |input|
    && AllDigits(input[q .. end]) && Decimal(input[q .. end]) < 0x8000_0000_0000_0000
    && n <= |HeaderEnd(plus)| && end + n <= |input| && input[end .. end + n] == HeaderEnd(plus)[..n]
    && (input[end] == 0x2B ==> plus) && (plus ==> n > 0)
  }

  lemma PartIsScanned(input: seq<byte>, q: nat, end: nat, plus: bool, n: nat)
    requires PartOfHeader(input, q, end, plus, n)
    ensures HeaderScan(input, q) == HeaderTail(input, end + n, HeaderEnd(plus)[n..], Decimal(input[q .. end]))
  {
    SizeDigits(input, q, end);
    EndReached(input, end, plus, n, Decimal(input[q .. end]));
  }

  lemma TailDecides(input: seq<byte>, i: nat, rest: seq<byte>, size: nat)
    requires i <= |input|
    ensures rest == [] ==> HeaderTail(input, i, rest, size) == HeaderOk(i, size)
    ensures rest != [] && i == |input| ==> HeaderTail(input, i, rest, size) == HeaderShort(i)
    ensures rest != [] && i < |input| && input[i] != rest[0] ==> HeaderTail(input, i, rest, size) == HeaderBad(BadLiteral, i)
  {
  }

  lemma PartDecides(input: seq<byte>, q: nat, end: nat, plus: bool, n: nat)
    requires PartOfHeader(input, q, end, plus, n)
    ensures var found := HeaderScan(input, q);
      if n < |HeaderEnd(plus)| then
        && (end + n == |input| ==> found == HeaderShort(|input|))
        && (end + n < |input| && input[end + n] != HeaderEnd(plus)[n] ==> found == HeaderBad(BadLiteral, end + n))
      else found == HeaderOk(end + n, Decimal(input[q .. end]))
  {
    PartIsScanned(input, q, end, plus, n);
    TailDecides(input, end + n, HeaderEnd(plus)[n..], Decimal(input[q .. end]));
  }

  /** After the digits come the first `n` bytes of what closes a header, and the input ends, or the header
      does, or the next byte decides. */
  lemma HeaderCloses(limits: Limits, s: LexState, mode: LexMode, input: seq<byte>, fin: bool, p: nat, binary: bool, q: nat, end: nat,
    plus: bool, n: nat)
    requires Reaches(limits, s, input, p) && mode in {NormalMode, AstringMode}
    requires HeaderAt(input, p, binary, q) && PartOfHeader(input, q, end, plus, n)
    ensures var x := Next(limits, s, mode, input, fin); var size := Decimal(input[q .. end]);
      if n < |HeaderEnd(plus)| then
        && (end + n == |input| && fin ==> Refuses(x, UnexpectedEnd, |input|))
        && (end + n == |input| && !fin ==> x.result == NeedMore)
        && (end + n < |input| && input[end + n] != HeaderEnd(plus)[n] ==> Refuses(x, BadLiteral, end + n))
      else if size > limits.maxLiteral then Refuses(x, LiteralTooLarge, p)
      else
        && x.result == Got(Token(LiteralBegin, s.spaces + (p - s.pos), p, input[p .. end + n], [], size, binary, []))
        && x.after == LexState(end + n, false, 0, s.depth, Some(size), None)
  {
    LooksAtHeader(limits, s, mode, input, fin, p, binary, q);
    FoundMeans(limits, s, p, binary, HeaderScan(input, q), input, fin);
    PartDecides(input, q, end, plus, n);
  }

  /** A tilde that ends what has come so far may begin one. */
  lemma TildeWaits(limits: Limits, s: LexState, mode: LexMode, input: seq<byte>, p: nat)
    requires Reaches(limits, s, input, p) && mode in {NormalMode, AstringMode} && input[p] == 0x7E && p + 1 == |input|
    ensures Next(limits, s, mode, input, false).result == NeedMore
  {
    LooksAt(limits, s, mode, input, false, p);
  }

  // ---- Spaces, literals and failures ----

  /** Spaces to the end: more is awaited, or the input has ended, cleanly only between lines and with none. */
  lemma SpacesToTheEnd(limits: Limits, s: LexState, mode: LexMode, input: seq<byte>, fin: bool)
    requires s.error.None? && s.literal.None? && s.pos <= |input| && s.spaces + (|input| - s.pos) <= limits.maxToken
    requires forall i :: s.pos <= i < |input| ==> input[i] == 0x20
    ensures var x := Next(limits, s, mode, input, fin);
      && (!fin ==> x.result == NeedMore)
      && (fin && s.lineStart && s.spaces == 0 && s.pos == |input| ==> x.result == EndOfInput)
      && (fin && !(s.lineStart && s.spaces == 0 && s.pos == |input|) ==> Refuses(x, UnexpectedEnd, |input|))
  {
    SkipsExactly(limits.maxToken, s, input, |input| - s.pos);
  }

  lemma {:induction false} SkipsTooMany(max: nat, s: LexState, input: seq<byte>, p: nat)
    requires s.error.None? && s.pos <= p < |input| && s.spaces + (p - s.pos) == max
    requires forall i :: s.pos <= i <= p ==> input[i] == 0x20
    ensures SkipSpaces(max, s, input).error == Some(SyntaxError(TokenTooLong, p))
    decreases p - s.pos
  {
    if s.pos < p {
      SkipsTooMany(max, s.(pos := s.pos + 1, spaces := s.spaces + 1, lineStart := false), input, p);
    }
  }

  /** The space that is one too many is an error where it stands. */
  lemma TooManySpaces(limits: Limits, s: LexState, mode: LexMode, input: seq<byte>, fin: bool, p: nat)
    requires s.error.None? && s.literal.None? && s.pos <= p < |input| && s.spaces + (p - s.pos) == limits.maxToken
    requires forall i :: s.pos <= i <= p ==> input[i] == 0x20
    ensures Refuses(Next(limits, s, mode, input, fin), TokenTooLong, p)
  {
    SkipsTooMany(limits.maxToken, s, input, p);
  }

  /** Inside a literal the mode and the bytes mean nothing: what has come of the content is handed out, up to
      what is owed, and then its end. */
  lemma InsideLiterals(limits: Limits, s: LexState, mode: LexMode, input: seq<byte>, fin: bool)
    requires s.error.None? && s.literal.Some? && s.pos <= |input|
    ensures var x := Next(limits, s, mode, input, fin); var left, come := s.literal.value, |input| - s.pos;
      && (left == 0 ==>
            && x.result == Got(Token(LiteralEnd, s.spaces, s.pos, [], [], 0, false, []))
            && x.after == s.(spaces := 0, literal := None))
      && (left > 0 && come == 0 && !fin ==> x.result == NeedMore && x.after == s)
      && (left > 0 && come == 0 && fin ==> Refuses(x, UnexpectedEnd, s.pos))
      && (left > 0 && come > 0 ==>
            var n := if left <= come then left else come;
            && x.result == Got(Token(LiteralData, s.spaces, s.pos, [], [], 0, false, input[s.pos .. s.pos + n]))
            && x.after == s.(pos := s.pos + n, spaces := 0, lineStart := false, literal := Some(left - n)))
  {
  }

  /** After an error every call answers with it. */
  lemma ErrorsAreSticky(limits: Limits, s: LexState, mode: LexMode, input: seq<byte>, fin: bool)
    requires s.error.Some? && s.pos <= |input|
    ensures Next(limits, s, mode, input, fin) == Lexed(Failed(s.error.value), s)
  {
  }

  // ---- Nothing is left out ----

  /** Every byte but a space begins, in every mode, just one of these. */
  lemma EveryByteIsCovered(mode: LexMode, c: byte)
    requires c != 0x20
    ensures var general := mode in {NormalMode, AstringMode};
      || c in {0x0D, 0x0A}
      || (c == 0x5B && mode in {NormalMode, RespTextMode}) || (c == 0x28 && general)
      || (c == 0x5D && mode in {NormalMode, CodeNameMode, CodeTextMode}) || (c == 0x29 && general)
      || (general && (c < 0x20 || c == 0x7F || c in {0x22, 0x7B} || AtomByte(c, mode == AstringMode)))
      || (mode == CodeNameMode && AtomByte(c, false))
      || BeginsText(mode, c)
  {
  }
}
