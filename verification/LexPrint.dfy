/** The converse of PrintLex: whatever lexes cleanly in normal mode is a well-formed list of tokens. So
    well-formedness is exact, and cleanly ending inputs and well-formed lists correspond one to one. */
module LexPrint {
  import opened Tokens
  import opened LexSpec
  import opened Stability
  import opened ChunkIndependence
  import opened Lossless
  import opened Values
  import opened PrintLex

  // ---- What the scans found ----

  lemma {:induction false} AtomScanStops(input: seq<byte>, start: nat, i: nat, max: nat)
    requires start <= i <= |input|
    ensures var scan := AtomScan(input, start, i, NormalMode, max);
      scan.Stop? ==>
        && AllAtomChars(input[i .. scan.at])
        && (scan.at < |input| ==> !IsAtomChar(input[scan.at], NormalMode))
        && (scan.at > i ==> scan.at - start <= max)
    decreases |input| - i
  {
    if i < |input| && IsAtomChar(input[i], NormalMode) && i - start < max {
      AtomScanStops(input, start, i + 1, max);
    }
  }

  lemma {:induction false} DigitsStop(input: seq<byte>, i: nat, value: nat)
    requires i <= |input|
    ensures var run := ReadDigits(input, i, value);
      run.Digits? ==> AllDigits(input[i .. run.end]) && (run.end < |input| ==> !IsDigit(input[run.end]))
    decreases |input| - i
  {
    if i < |input| && IsDigit(input[i]) && value <= (MAX_NUMBER - (input[i] - ZERO)) / 10 {
      DigitsStop(input, i + 1, value * 10 + (input[i] - ZERO));
    }
  }

  lemma {:induction false} TailIs(input: seq<byte>, i: nat, expected: seq<byte>, size: nat)
    requires i <= |input| && HeaderTail(input, i, expected, size).HeaderOk?
    ensures i + |expected| <= |input| && input[i .. i + |expected|] == expected
    ensures HeaderTail(input, i, expected, size) == HeaderOk(i + |expected|, size)
    decreases |expected|
  {
    if expected != [] {
      TailIs(input, i + 1, expected[1..], size);
      assert input[i .. i + |expected|] == [input[i]] + input[i + 1 .. i + |expected|];
    }
  }

  /** A header that was read is digits that amount to its size, perhaps a plus, and the tail. */
  lemma HeaderWas(input: seq<byte>, i: nat) returns (digits: seq<byte>, plus: bool)
    requires i <= |input| && HeaderScan(input, i).HeaderOk?
    ensures digits != [] && AllDigits(digits) && HeaderScan(input, i).size == Decimal(digits) <= MAX_NUMBER
    ensures input[i .. HeaderScan(input, i).end] == digits + HeaderClose(plus)
  {
    var run := ReadDigits(input, i, 0);
    digits := input[i .. run.end];
    plus := input[run.end] == PLUS;
    DigitsWere(input, i);
    var tail := if plus then run.end + 1 else run.end;
    TailIs(input, tail, [RBRACE, CR, LF], run.value);
    SlicesJoin(input, run.end, tail, tail + 3);
    SlicesJoin(input, i, run.end, tail + 3);
  }

  lemma SlicesJoin(input: seq<byte>, a: nat, b: nat, c: nat)
    requires a <= b <= c <= |input|
    ensures input[a .. c] == input[a .. b] + input[b .. c]
  {
  }

  lemma DigitsWere(input: seq<byte>, i: nat)
    requires i <= |input| && ReadDigits(input, i, 0).Digits?
    ensures var run := ReadDigits(input, i, 0);
      AllDigits(input[i .. run.end]) && run.value == Decimal(input[i .. run.end]) <= MAX_NUMBER
  {
    var run := ReadDigits(input, i, 0);
    DigitsStop(input, i, 0);
    ReadDigitsStops(input, i, i, run.end, 0);
    NumbersAreExact(input[i .. run.end]);
  }

  // ---- One token ----

  /** The token read at `u` is well-formed, and the state after it is the one it leads to. */
  ghost predicate WellMade(limits: Limits, u: LexState, t: Token, after: LexState)
    requires u.spaces <= u.pos
  {
    && ValidToken(limits, t) && t.kind != LiteralData && t.kind != LiteralEnd
    && t.offset == u.pos && t.spaces == u.spaces
    && (IsOpener(t.kind) ==> u.depth < limits.maxDepth)
    && after == Past(u.(pos := u.pos - u.spaces), t)
  }

  /** The byte at `p` is one that such a token begins with. */
  ghost predicate BegunAt(t: Token, input: seq<byte>, p: nat)
    requires p < |input|
  {
    && (IsWord(t) || (t.kind == LiteralBegin && t.binary) ==> IsAtomChar(input[p], NormalMode))
    && (t.kind == LiteralBegin && !t.binary ==> input[p] == LBRACE)
  }

  /** A token read at `u`, past its spaces: well-formed, begun by the right byte, and ended. */
  ghost predicate Sound(limits: Limits, u: LexState, x: Lexed, input: seq<byte>)
    requires u.spaces <= u.pos < |input|
  {
    x.result.Got? ==>
      var t := x.result.token;
      && WellMade(limits, u, t, x.after)
      && EndsAt(t, input, x.after.pos)
      && BegunAt(t, input, u.pos)
  }

  ghost predicate Ready(limits: Limits, u: LexState, input: seq<byte>) {
    u.error.None? && u.literal.None? && u.spaces <= u.pos < |input| && u.spaces <= limits.maxToken && input[u.pos] != SP
  }

  lemma WordIsSound(limits: Limits, u: LexState, input: seq<byte>)
    requires Ready(limits, u, input) && ShapeAt(NormalMode, input, u.pos, true) == Word(NormalMode, true)
    ensures Sound(limits, u, LexAtom(limits, u, NormalMode, true, input, true), input)
  {
    var scan := AtomScan(input, u.pos, u.pos, NormalMode, limits.maxToken);
    AtomScanStops(input, u.pos, u.pos, limits.maxToken);
    if scan.Stop? {
      assert IsAtomChar(input[u.pos], NormalMode) && scan.at > u.pos;
      assert scan.at == u.pos + 1 && scan.at < |input| && input[u.pos] == TILDE ==> input[scan.at] != LBRACE;
      ClassifiedIsSound(limits, u, input, scan.at);
    }
  }

  lemma ClassifiedIsSound(limits: Limits, u: LexState, input: seq<byte>, end: nat)
    requires Ready(limits, u, input) && u.pos < end <= |input| && end - u.pos <= limits.maxToken
    requires AllAtomChars(input[u.pos .. end]) && (end < |input| ==> !IsAtomChar(input[end], NormalMode))
    requires end == u.pos + 1 && end < |input| && input[u.pos] == TILDE ==> input[end] != LBRACE
    ensures Sound(limits, u, Classified(u, true, input[u.pos .. end]), input)
  {
    var raw := input[u.pos .. end];
    assert raw[0] == input[u.pos];
    WordIsWellMade(limits, u, raw);
  }

  lemma WordIsWellMade(limits: Limits, u: LexState, raw: seq<byte>)
    requires u.spaces <= limits.maxToken && 0 < |raw| <= limits.maxToken && AllAtomChars(raw)
    requires u.error.None? && u.literal.None? && u.spaces <= u.pos
    ensures var x := Classified(u, true, raw);
      x.result.Got? ==>
        && IsWord(x.result.token) && x.result.token.raw == raw && x.after.pos == u.pos + |raw|
        && WellMade(limits, u, x.result.token, x.after)
  {
    WordIsValid(limits, u, raw);
    WordLeads(u, raw);
  }

  lemma WordIsValid(limits: Limits, u: LexState, raw: seq<byte>)
    requires u.spaces <= limits.maxToken && 0 < |raw| <= limits.maxToken && AllAtomChars(raw)
    ensures var x := Classified(u, true, raw);
      x.result.Got? ==> IsWord(x.result.token) && ValidToken(limits, x.result.token)
  {
    if AllDigits(raw) { NumbersAreExact(raw); }
  }

  lemma WordLeads(u: LexState, raw: seq<byte>)
    requires raw != [] && u.error.None? && u.literal.None? && u.spaces <= u.pos
    ensures var x := Classified(u, true, raw);
      x.result.Got? ==>
        && x.result.token.offset == u.pos && x.result.token.spaces == u.spaces && x.result.token.raw == raw
        && x.after == Past(u.(pos := u.pos - u.spaces), x.result.token)
  {
  }

  lemma HeaderIsSound(limits: Limits, u: LexState, binary: bool, input: seq<byte>)
    requires Ready(limits, u, input) && ShapeAt(NormalMode, input, u.pos, true) == LiteralHeader(binary)
    requires binary ==> u.pos + 1 < |input|
    ensures Sound(limits, u, LexHeader(limits, u, binary, input, true), input)
  {
    var i := u.pos + if binary then 2 else 1;
    var scan := HeaderScan(input, i);
    ShapeBegins(NormalMode, input, u.pos, true);
    if scan.HeaderOk? {
      HeaderFits(limits, u, binary, input, i, scan);
      FoundHeaderIsSound(limits, u, binary, scan, input);
    }
  }

  lemma HeaderFits(limits: Limits, u: LexState, binary: bool, input: seq<byte>, i: nat, scan: Header)
    requires Ready(limits, u, input) && i <= |input| && scan == HeaderScan(input, i) && scan.HeaderOk?
    requires i == u.pos + |HeaderStart(binary)| && input[u.pos .. i] == HeaderStart(binary)
    ensures var x := HeaderFound(limits, u, binary, scan, input, true);
      x.result.Got? ==> ValidHeader(limits, x.result.token)
  {
    var digits, plus := HeaderWas(input, i);
    SlicesJoin(input, u.pos, i, scan.end);
    assert input[u.pos .. scan.end] == HeaderForm(binary, digits, plus);
  }

  lemma FoundHeaderIsSound(limits: Limits, u: LexState, binary: bool, scan: Header, input: seq<byte>)
    requires Ready(limits, u, input) && scan.HeaderOk? && u.pos <= scan.end <= |input|
    requires input[u.pos] == if binary then TILDE else LBRACE
    requires var x := HeaderFound(limits, u, binary, scan, input, true);
      x.result.Got? ==> ValidHeader(limits, x.result.token)
    ensures Sound(limits, u, HeaderFound(limits, u, binary, scan, input, true), input)
  {
  }

  lemma QuotedIsSound(limits: Limits, u: LexState, input: seq<byte>)
    requires Ready(limits, u, input) && input[u.pos] == DQUOTE
    ensures Sound(limits, u, LexQuoted(limits, u, input, true), input)
  {
    QuotedTokensAreEscaped(limits, u, input, true);
  }

  lemma EolIsSound(limits: Limits, u: LexState, input: seq<byte>)
    requires Ready(limits, u, input)
    ensures Sound(limits, u, LexEol(u, input, true), input)
  {
  }

  lemma BracketIsSound(limits: Limits, u: LexState, kind: TokenKind, input: seq<byte>)
    requires Ready(limits, u, input) && (IsOpener(kind) || IsCloser(kind)) && input[u.pos] == BracketByte(kind)
    ensures IsOpener(kind) ==> Sound(limits, u, LexOpen(limits, u, kind, input), input)
    ensures IsCloser(kind) ==> Sound(limits, u, LexClose(u, kind, input), input)
  {
  }

  lemma ShapeIsSound(limits: Limits, u: LexState, input: seq<byte>)
    requires Ready(limits, u, input)
    ensures Sound(limits, u, LexShape(limits, u, ShapeAt(NormalMode, input, u.pos, true), input, true), input)
  {
    match ShapeAt(NormalMode, input, u.pos, true)
    case Word(_, _) => WordIsSound(limits, u, input);
    case LiteralHeader(binary) => HeaderIsSound(limits, u, binary, input);
    case QuotedString => QuotedIsSound(limits, u, input);
    case LineEnd => EolIsSound(limits, u, input);
    case Opener(kind) => BracketIsSound(limits, u, kind, input);
    case Closer(kind) => BracketIsSound(limits, u, kind, input);
    case _ =>
  }

  lemma {:induction false} SkippedSpaces(max: nat, s: LexState, input: seq<byte>)
    requires s.pos <= |input| && s.spaces <= max
    ensures var t := SkipSpaces(max, s, input);
      t.error.None? ==> t.spaces <= max
    decreases |input| - s.pos
  {
    if s.pos < |input| && input[s.pos] == SP && s.spaces < max {
      SkippedSpaces(max, s.(pos := s.pos + 1, spaces := s.spaces + 1, lineStart := false), input);
    }
  }

  // ---- One call ----

  /** What a call answers in a state reached by well-formed tokens, the last of them ended. */
  ghost predicate Follows(limits: Limits, s: LexState, x: Lexed, input: seq<byte>) {
    x.result.Got? ==>
      var t := x.result.token;
      && x.after == Past(s, t).(literal := x.after.literal)
      && EndsAt(t, input, x.after.pos)
      && ((Fits(limits, s, t) && x.after == Past(s, t))
          || (t.kind == LiteralData && x.after.pos == |input| && x.after.literal.Some? && x.after.literal.value > 0))
  }

  ghost predicate Touches(t: Token, s: LexState, x: Lexed, input: seq<byte>) {
    x.result.Got? && EndsAt(t, input, s.pos) && (t.kind == LiteralBegin ==> s.literal.Some?) ==> MayTouch(t, x.result.token)
  }

  lemma ContentFollows(limits: Limits, s: LexState, input: seq<byte>)
    requires s.error.None? && s.literal.Some? && s.spaces == 0 && s.pos <= |input|
    ensures Follows(limits, s, LexLiteral(s, input, true), input)
  {
  }

  lemma CallFollows(limits: Limits, s: LexState, input: seq<byte>)
    requires s.error.None? && s.spaces == 0 && s.pos <= |input|
    ensures Follows(limits, s, Next(limits, s, NormalMode, input, true), input)
  {
    if s.literal.Some? {
      ContentFollows(limits, s, input);
    } else {
      var u := SkipSpaces(limits.maxToken, s, input);
      SkippedSpaces(limits.maxToken, s, input);
      SkipSpacesCounts(limits.maxToken, s, input);
      if u.error.None? && u.pos < |input| {
        ShapeIsSound(limits, u, input);
        SoundFollows(limits, s, u, LexShape(limits, u, ShapeAt(NormalMode, input, u.pos, true), input, true), input);
      }
    }
  }

  lemma SoundFollows(limits: Limits, s: LexState, u: LexState, x: Lexed, input: seq<byte>)
    requires s.error.None? && s.spaces == 0 && s.literal.None?
    requires u.spaces <= u.pos < |input| && u.pos - u.spaces == s.pos && u.depth == s.depth && u.literal.None?
    requires Sound(limits, u, x, input)
    ensures Follows(limits, s, x, input)
  {
  }

  /** A token does not continue the one before it, which had ended. */
  lemma CallTouches(limits: Limits, s: LexState, input: seq<byte>, t: Token)
    requires s.error.None? && s.spaces == 0 && s.pos <= |input|
    ensures Touches(t, s, Next(limits, s, NormalMode, input, true), input)
  {
    if s.literal.None? {
      var u := SkipSpaces(limits.maxToken, s, input);
      SkippedSpaces(limits.maxToken, s, input);
      SkipSpacesCounts(limits.maxToken, s, input);
      if u.error.None? && u.pos < |input| {
        ShapeIsSound(limits, u, input);
        SoundTouches(limits, s, u, LexShape(limits, u, ShapeAt(NormalMode, input, u.pos, true), input, true), input, t);
      }
    }
  }

  lemma SoundTouches(limits: Limits, s: LexState, u: LexState, x: Lexed, input: seq<byte>, t: Token)
    requires u.spaces <= u.pos < |input| && u.pos - u.spaces == s.pos && Sound(limits, u, x, input)
    ensures Touches(t, s, x, input)
  {
    if x.result.Got? && EndsAt(t, input, s.pos) { EndedThenBegun(t, x.result.token, input, u.pos); }
  }

  lemma EndedThenBegun(t: Token, next: Token, input: seq<byte>, p: nat)
    requires p < |input| && BegunAt(next, input, p) && (next.spaces == 0 ==> EndsAt(t, input, p))
    ensures MayTouch(t, next)
  {
  }

  // ---- Whole inputs ----

  predicate EndsInEol(tokens: seq<Token>) {
    tokens == [] || tokens[|tokens| - 1].kind == Eol
  }

  /** Where a well-formed token leads: to a line start only after a line end, and to content only after an
      announcement. */
  ghost predicate Leads(after: LexState, t: Token) {
    && (after.lineStart ==> after.literal.None? && t.kind == Eol)
    && (t.kind == LiteralBegin ==> after.literal.Some?)
    && (after.literal.Some? && after.literal.value > 0 ==> t.kind == LiteralBegin)
  }

  lemma TokenLeads(limits: Limits, s: LexState, t: Token)
    requires Fits(limits, s, t) && (s.lineStart ==> s.literal.None?)
    ensures Leads(Past(s, t), t)
  {
  }

  lemma {:induction false} LastLeads(limits: Limits, tokens: seq<Token>)
    requires Printable(limits, tokens) && tokens != []
    ensures Leads(PastAll(tokens), tokens[|tokens| - 1])
    decreases |tokens|
  {
    var front := tokens[..|tokens| - 1];
    assert InPlace(limits, tokens, |front|);
    if front != [] {
      PrintablePrefix(limits, tokens, |front|);
      LastLeads(limits, front);
    }
    TokenLeads(limits, PastAll(front), tokens[|front|]);
  }

  ghost predicate LastEnds(tokens: seq<Token>, input: seq<byte>, p: nat) {
    tokens != [] ==> EndsAt(tokens[|tokens| - 1], input, p)
  }

  lemma {:induction false} CleanRestIsPrintable(limits: Limits, tokens: seq<Token>, input: seq<byte>)
    requires Printable(limits, tokens) && PastAll(tokens).pos <= |input| && LastEnds(tokens, input, PastAll(tokens).pos)
    ensures var all := Rest(limits, NORMAL, PastAll(tokens), tokens, input, true);
      all.ending == Clean ==> Printable(limits, all.tokens) && EndsInEol(all.tokens)
    decreases Work(PastAll(tokens), |input|)
  {
    var s := PastAll(tokens);
    var x := Next(limits, s, NormalMode, input, true);
    RestStep(limits, NORMAL, s, tokens, input, true);
    if Rest(limits, NORMAL, s, tokens, input, true).ending == Clean {
      NextProgress(limits, s, NormalMode, input, true);
      if x.result.Got? {
        CallGoesOn(limits, tokens, input);
        OneMoreIsPrintable(limits, tokens, x, input);
        CleanRestIsPrintable(limits, tokens + [x.result.token], input);
      } else {
        if tokens != [] { LastLeads(limits, tokens); }
        NextWithoutToken(limits, s, NormalMode, input, true);
      }
    }
  }

  /** After well-formed tokens a call answers with a token that follows them and does not touch the last. */
  lemma CallGoesOn(limits: Limits, tokens: seq<Token>, input: seq<byte>)
    requires PastAll(tokens).pos <= |input|
    ensures var s := PastAll(tokens); var x := Next(limits, s, NormalMode, input, true);
      && Follows(limits, s, x, input)
      && (tokens != [] ==> Touches(tokens[|tokens| - 1], s, x, input))
  {
    PastPrinted(tokens);
    CallFollows(limits, PastAll(tokens), input);
    if tokens != [] { CallTouches(limits, PastAll(tokens), input, tokens[|tokens| - 1]); }
  }

  lemma OneMoreIsPrintable(limits: Limits, tokens: seq<Token>, x: Lexed, input: seq<byte>)
    requires Printable(limits, tokens) && PastAll(tokens).pos <= |input| && LastEnds(tokens, input, PastAll(tokens).pos)
    requires x.result.Got? && x.after.pos <= |input| && x.after.error.None?
    requires Follows(limits, PastAll(tokens), x, input)
    requires tokens != [] ==> Touches(tokens[|tokens| - 1], PastAll(tokens), x, input)
    requires Rest(limits, NORMAL, x.after, Merge(tokens, x.result.token), input, true).ending == Clean
    ensures var more := tokens + [x.result.token];
      && Printable(limits, more) && PastAll(more) == x.after && Merge(tokens, x.result.token) == more
      && LastEnds(more, input, x.after.pos)
  {
    var t := x.result.token;
    assert !(t.kind == LiteralData && x.after.pos == |input| && x.after.literal.Some? && x.after.literal.value > 0);
    if tokens != [] { LastLeads(limits, tokens); }
    PrintableGrows(limits, tokens, t);
    OneMoreStep(limits, tokens, t);
  }

  lemma OneMoreStep(limits: Limits, tokens: seq<Token>, t: Token)
    requires Printable(limits, tokens + [t])
    ensures PastAll(tokens + [t]) == Past(PastAll(tokens), t) && Merge(tokens, t) == tokens + [t]
  {
    var more := tokens + [t];
    assert more[..|tokens|] == tokens && more[..|more|] == more;
    NoPiecesMeet(limits, more, |tokens|);
  }

  lemma PrintableGrows(limits: Limits, tokens: seq<Token>, t: Token)
    requires Printable(limits, tokens) && Fits(limits, PastAll(tokens), t)
    requires tokens != [] ==> MayTouch(tokens[|tokens| - 1], t)
    ensures Printable(limits, tokens + [t])
  {
    var more := tokens + [t];
    forall k | 0 <= k < |more| ensures InPlace(limits, more, k) {
      assert more[..k] == tokens[..k];
      if k < |tokens| { assert InPlace(limits, tokens, k); } else { assert tokens[..k] == tokens; }
    }
  }

  /** Whatever lexes cleanly is a well-formed list that ends its last line. */
  lemma CleanInputsArePrintable(limits: Limits, input: seq<byte>)
    ensures var once := OneShot(limits, NORMAL, input, true);
      once.ending == Clean ==> Printable(limits, once.tokens) && EndsInEol(once.tokens)
  {
    CleanRestIsPrintable(limits, [], input);
  }

  /** A list of tokens, printed, lexes back to itself and a clean end if and only if it is well-formed and
      ends its last line. */
  lemma PrintableExactly(limits: Limits, tokens: seq<Token>)
    ensures OneShot(limits, NORMAL, Printed(tokens), true) == Tokenized(tokens, Clean)
       <==> Printable(limits, tokens) && EndsInEol(tokens)
  {
    if Printable(limits, tokens) && EndsInEol(tokens) {
      PrintedTokensLexBack(limits, tokens);
    }
    if OneShot(limits, NORMAL, Printed(tokens), true) == Tokenized(tokens, Clean) {
      CleanInputsArePrintable(limits, Printed(tokens));
    }
  }

  lemma NormalIsLiteralBlind()
    ensures LiteralBlind(NORMAL)
  {
  }

  /** And printing the tokens of an input that lexes cleanly gives the input back: lexing and printing are
      inverse to each other between clean inputs and well-formed lists. */
  lemma CleanInputsPrintBack(limits: Limits, input: seq<byte>)
    requires OneShot(limits, NORMAL, input, true).ending == Clean
    ensures Printed(OneShot(limits, NORMAL, input, true).tokens) == input
  {
    var actions := [Feed(input), Finish];
    assert actions[..1] == [Feed(input)] && actions[..1][..0] == [];
    var r := DoAll(limits, NORMAL, actions);
    assert DoAll(limits, NORMAL, []) == BEGINNING;
    assert DoAll(limits, NORMAL, actions[..1]) == BEGINNING.(received := [] + input);
    assert [] + input == input;
    var n := Work(r.state, |r.received|) + 1;
    CallsEndTheRun(limits, NORMAL, actions, n);
    NormalIsLiteralBlind();
    EndedRunIsOneShot(limits, NORMAL, actions + seq(n, _ => Call));
    EveryRunIsLossless(limits, NORMAL, actions + seq(n, _ => Call));
  }
}
