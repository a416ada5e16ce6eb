/** When a response is read as text and when not, told from the tokens of its line and the letters in them,
    without the reader's states: in every run the reader asks for just these modes, and gets just these kinds
    of token. */
module ResponseGrammar {
  import opened Tokens
  import opened LexSpec
  import opened ChunkIndependence
  import opened Lossless
  import opened ResponseShape
  import opened Desync

  // ---- Words, by their letters ----

  /** An atom of these capital letters, each in either case. */
  predicate Spells(t: Token, name: string) {
    && t.kind == Atom && |t.raw| == |name|
    && forall i :: 0 <= i < |name| ==>
         'A' <= name[i] <= 'Z' && (t.raw[i] == name[i] as int || t.raw[i] == name[i] as int + 0x20)
  }

  predicate Capitals(name: string) {
    forall i :: 0 <= i < |name| ==> 'A' <= name[i] <= 'Z'
  }

  lemma UpperMatches(b: byte, c: char)
    requires 'A' <= c <= 'Z'
    ensures Upper(b) == Upper(c as int) <==> b == c as int || b == c as int + 0x20
  {
  }

  lemma SpelledIsNamed(t: Token, name: string)
    requires Capitals(name)
    ensures t.IsAtom(Ascii(name)) <==> Spells(t, name)
  {
    if t.kind == Atom && |t.raw| == |name| {
      forall i | 0 <= i < |name|
        ensures Ascii(name)[i] == name[i] as int
        ensures Upper(t.raw[i]) == Upper(Ascii(name)[i]) <==> t.raw[i] == name[i] as int || t.raw[i] == name[i] as int + 0x20
      {
        UpperMatches(t.raw[i], name[i]);
      }
    }
  }

  predicate SpellsStatus(t: Token) {
    Spells(t, "OK") || Spells(t, "NO") || Spells(t, "BAD") || Spells(t, "PREAUTH") || Spells(t, "BYE")
  }

  lemma StatusIsSpelled(t: Token)
    ensures IsStatus(t) <==> SpellsStatus(t)
  {
    SpelledIsNamed(t, "OK");
    SpelledIsNamed(t, "NO");
    SpelledIsNamed(t, "BAD");
    SpelledIsNamed(t, "PREAUTH");
    SpelledIsNamed(t, "BYE");
  }

  /** The name of a code whose arguments have a grammar. */
  predicate SpellsStructured(t: Token) {
    || Spells(t, "CAPABILITY") || Spells(t, "PERMANENTFLAGS") || Spells(t, "BADCHARSET") || Spells(t, "UIDVALIDITY")
    || Spells(t, "UIDNEXT") || Spells(t, "UNSEEN") || Spells(t, "HIGHESTMODSEQ") || Spells(t, "APPENDUID")
    || Spells(t, "COPYUID") || Spells(t, "MODIFIED")
  }

  lemma NamesAre(i: nat)
    requires i < |STRUCTURED_CODES|
    ensures Capitals(STRUCTURED_CODES[i])
    ensures i < 5 ==> STRUCTURED_CODES[i] == ["CAPABILITY", "PERMANENTFLAGS", "BADCHARSET", "UIDVALIDITY", "UIDNEXT"][i]
    ensures i >= 5 ==> STRUCTURED_CODES[i] == ["UNSEEN", "HIGHESTMODSEQ", "APPENDUID", "COPYUID", "MODIFIED"][i - 5]
  {
  }

  lemma StructuredIsSpelled(t: Token)
    ensures IsStructuredCode(t) <==> SpellsStructured(t)
  {
    forall i: nat | i < |STRUCTURED_CODES|
      ensures t.IsAtom(Ascii(STRUCTURED_CODES[i])) <==> Spells(t, STRUCTURED_CODES[i])
    {
      NamesAre(i);
      SpelledIsNamed(t, STRUCTURED_CODES[i]);
    }
    AnyNameIs(t);
  }

  lemma AnyNameIs(t: Token)
    ensures SpellsStructured(t) <==> exists i: nat :: i < |STRUCTURED_CODES| && Spells(t, STRUCTURED_CODES[i])
  {
    var c := STRUCTURED_CODES;
    assert |c| == 10;
    assert SpellsStructured(t) ==>
      || Spells(t, c[0]) || Spells(t, c[1]) || Spells(t, c[2]) || Spells(t, c[3]) || Spells(t, c[4])
      || Spells(t, c[5]) || Spells(t, c[6]) || Spells(t, c[7]) || Spells(t, c[8]) || Spells(t, c[9]);
    if exists i: nat :: i < |c| && Spells(t, c[i]) {
      var i: nat :| i < |c| && Spells(t, c[i]);
    }
  }

  predicate IsStar(t: Token) {
    t.kind == Atom && t.raw == [0x2A]
  }

  predicate IsPlus(t: Token) {
    t.kind == Atom && t.raw == [0x2B]
  }

  lemma MarksAreBytes(t: Token)
    ensures t.IsAtom(Ascii("*")) <==> IsStar(t)
    ensures t.IsAtom(Ascii("+")) <==> IsPlus(t)
  {
    assert Ascii("*") == [0x2A] && Ascii("+") == [0x2B];
    if t.kind == Atom && |t.raw| == 1 { assert t.raw == [t.raw[0]]; }
  }

  // ---- The line so far ----

  /** The tokens since the last line end, without the literals among them. */
  function Line(tokens: seq<Token>): seq<Token> {
    if tokens == [] then []
    else
      var last, line := tokens[|tokens| - 1], Line(tokens[..|tokens| - 1]);
      if last.kind == Eol then []
      else if last.kind in {LiteralBegin, LiteralData, LiteralEnd} then line
      else line + [last]
  }

  /** A status response: after a tag or a star, one of the five words. */
  predicate IsStatusLine(line: seq<Token>) {
    |line| >= 2 && !IsPlus(line[0]) && SpellsStatus(line[1])
  }

  /** It has a code, so named, between brackets. */
  predicate HasCode(line: seq<Token>) {
    |line| >= 4 && line[2].kind == LBracket && line[3].kind != RBracket
  }

  /** Its line is inside the arguments of a structured code: no prefix of them has closed the bracket. */
  ghost predicate InArguments(line: seq<Token>) {
    HasCode(line) && SpellsStructured(line[3]) && NeverCloses(line[4..])
  }

  /** Or inside a code of another name, or of none: no bracket has closed it. */
  predicate InCodeText(line: seq<Token>) {
    HasCode(line) && !SpellsStructured(line[3]) && forall i :: 4 <= i < |line| ==> line[i].kind != RBracket
  }

  /** How the next token of a line is read. */
  ghost function ModeAfter(line: seq<Token>): LexMode {
    if line == [] then NormalMode
    else if IsPlus(line[0]) then TextMode
    else if !IsStatusLine(line) then NormalMode
    else if |line| == 2 then RespTextMode
    else if |line| == 3 && line[2].kind == LBracket then CodeNameMode
    else if InArguments(line) then NormalMode
    else if InCodeText(line) then CodeTextMode
    else TextMode
  }

  // ---- The reader's states, told from the line ----

  ghost predicate Stands(q: Progress, line: seq<Token>) {
    && (q.state == Start <==> line == [])
    && (q.state == Second <==> |line| == 1 && !IsPlus(line[0]))
    && (q.state == Data <==> |line| >= 2 && !IsPlus(line[0]) && !SpellsStatus(line[1]))
    && (q.state == RespText <==> |line| == 2 && IsStatusLine(line))
    && (q.state == CodeName <==> |line| == 3 && IsStatusLine(line) && line[2].kind == LBracket)
    && (q.state == CodeArgs <==> IsStatusLine(line) && InArguments(line))
    && (q.state == CodeText || q.state == CodeClose <==> IsStatusLine(line) && InCodeText(line))
    && (q.state == CodeArgs ==> q.codeDepth == 1 + Balance(line[4..]))
    && (line != [] ==> q.kind == if IsPlus(line[0]) then Continuation else if IsStar(line[0]) then Untagged else Tagged)
  }

  lemma StandsMode(q: Progress, line: seq<Token>)
    requires Stands(q, line)
    ensures ModeFor(q.state) == ModeAfter(line)
  {
  }

  lemma ArgumentsGoOn(line: seq<Token>, t: Token)
    requires InArguments(line)
    ensures var more := line + [t];
      && HasCode(more) && SpellsStructured(more[3]) && Balance(more[4..]) == Balance(line[4..]) + Weight(t.kind)
      && (NeverCloses(more[4..]) <==> 1 + Balance(more[4..]) >= 1) && 1 + Balance(line[4..]) >= 1
  {
    var more := line + [t];
    assert more[4..] == line[4..] + [t] && more[4..][..|line| - 4] == line[4..];
    NeverClosesStep(more[4..]);
    assert line[4..][..|line| - 4] == line[4..];
  }

  lemma ArgumentsStayLeft(line: seq<Token>, t: Token)
    requires HasCode(line) && SpellsStructured(line[3]) && !NeverCloses(line[4..])
    ensures !NeverCloses((line + [t])[4..])
  {
    var more := line + [t];
    assert more[4..] == line[4..] + [t] && more[4..][..|line| - 4] == line[4..];
    NeverClosesStep(more[4..]);
  }

  lemma NothingCloses()
    ensures NeverCloses([]) && Balance([]) == 0
  {
    var none: seq<Token> := [];
    assert none[..0] == [];
  }

  /** One more token of the line, neither literal nor line end, in each state. */
  ghost predicate GoesOn(q: Progress, line: seq<Token>, t: Token) {
    Stands(q, line) && !IsLiteral(t) && t.kind != Eol && Advance(q, t).refused.None?
  }

  lemma FromStart(q: Progress, line: seq<Token>, t: Token)
    requires GoesOn(q, line, t) && line == []
    ensures Stands(Advance(q, t).progress, line + [t])
  {
    MarksAreBytes(t);
    assert line + [t] == [t];
  }

  lemma FromSecond(q: Progress, line: seq<Token>, t: Token)
    requires GoesOn(q, line, t) && q.state == Second
    ensures Stands(Advance(q, t).progress, line + [t])
  {
    StatusIsSpelled(t);
  }

  lemma FromRespText(q: Progress, line: seq<Token>, t: Token)
    requires GoesOn(q, line, t) && q.state == RespText
    ensures Stands(Advance(q, t).progress, line + [t])
  {
  }

  lemma FromCodeName(q: Progress, line: seq<Token>, t: Token)
    requires GoesOn(q, line, t) && q.state == CodeName
    ensures Stands(Advance(q, t).progress, line + [t])
  {
    StructuredIsSpelled(t);
    NothingCloses();
    assert (line + [t])[4..] == [];
  }

  lemma FromArguments(q: Progress, line: seq<Token>, t: Token)
    requires GoesOn(q, line, t) && q.state == CodeArgs
    ensures Stands(Advance(q, t).progress, line + [t])
  {
    ArgumentsGoOn(line, t);
  }

  lemma FromCodeText(q: Progress, line: seq<Token>, t: Token)
    requires GoesOn(q, line, t) && (q.state == CodeText || q.state == CodeClose)
    ensures Stands(Advance(q, t).progress, line + [t])
  {
    var more := line + [t];
    assert InCodeText(more) <==> t.kind != RBracket by {
      if t.kind == RBracket { assert more[|line|] == t; }
    }
  }

  /** The rest of the line: data, or text. */
  lemma FromRest(q: Progress, line: seq<Token>, t: Token)
    requires GoesOn(q, line, t) && (q.state == Data || q.state == TextRest)
    ensures Stands(Advance(q, t).progress, line + [t])
  {
    var more := line + [t];
    if HasCode(line) && SpellsStructured(line[3]) {
      if !NeverCloses(line[4..]) { ArgumentsStayLeft(line, t); }
    } else if HasCode(line) && exists i :: 4 <= i < |line| && line[i].kind == RBracket {
      var i :| 4 <= i < |line| && line[i].kind == RBracket;
      assert more[i].kind == RBracket;
    }
  }

  lemma StandsOn(q: Progress, line: seq<Token>, t: Token)
    requires GoesOn(q, line, t)
    ensures Stands(Advance(q, t).progress, line + [t])
  {
    match q.state
    case Start => FromStart(q, line, t);
    case Second => FromSecond(q, line, t);
    case RespText => FromRespText(q, line, t);
    case CodeName => FromCodeName(q, line, t);
    case CodeArgs => FromArguments(q, line, t);
    case CodeText => FromCodeText(q, line, t);
    case CodeClose => FromCodeText(q, line, t);
    case Data => FromRest(q, line, t);
    case TextRest => FromRest(q, line, t);
  }

  // ---- Whole lists of tokens ----

  /** None of the tokens was refused. */
  ghost predicate Accepted(tokens: seq<Token>) {
    forall k :: 0 <= k < |tokens| ==> AcceptedAt(tokens, k)
  }

  ghost predicate AcceptedAt(tokens: seq<Token>, k: nat)
    requires k < |tokens|
  {
    Advance(After(tokens[..k]), tokens[k]).refused.None?
  }

  lemma AcceptedPrefix(tokens: seq<Token>, n: nat)
    requires Accepted(tokens) && n <= |tokens|
    ensures Accepted(tokens[..n])
  {
    forall k | 0 <= k < n
      ensures AcceptedAt(tokens[..n], k)
    {
      assert AcceptedAt(tokens, k) && tokens[..n][..k] == tokens[..k];
    }
  }

  lemma EmptyLineStands(q: Progress)
    requires q.state == Start
    ensures Stands(q, [])
  {
  }

  lemma {:induction false} LineStands(tokens: seq<Token>)
    requires Accepted(tokens)
    ensures Stands(After(tokens), Line(tokens))
    decreases |tokens|
  {
    if tokens == [] {
      EmptyLineStands(BETWEEN);
    } else {
      var front, t := tokens[..|tokens| - 1], tokens[|tokens| - 1];
      AcceptedPrefix(tokens, |front|);
      LineStands(front);
      assert AcceptedAt(tokens, |front|);
      if t.kind == Eol {
        EmptyLineStands(After(tokens));
      } else if !IsLiteral(t) {
        StandsOn(After(front), Line(front), t);
      }
    }
  }

  /** The reader asks for the mode that the line calls for, and knows what kind of response it is. */
  lemma ReaderModes(tokens: seq<Token>)
    requires Accepted(tokens)
    ensures READER.mode(tokens) == ModeAfter(Line(tokens))
    ensures var line := Line(tokens);
      line != [] ==> After(tokens).kind == if IsPlus(line[0]) then Continuation else if IsStar(line[0]) then Untagged else Tagged
  {
    LineStands(tokens);
    StandsMode(After(tokens), Line(tokens));
  }

  /** It refuses just what begins no response: at the start of a line, anything but an atom or a number. */
  lemma ReaderVerdicts(tokens: seq<Token>, t: Token)
    requires Accepted(tokens)
    ensures READER.verdict(tokens, t)
         == if Line(tokens) == [] && t.kind != Atom && t.kind != Number then Some(SyntaxError(UnexpectedToken, t.offset)) else None
  {
    LineStands(tokens);
  }

  // ---- The kinds each mode yields ----

  /** Outside literals, the kinds of token a mode yields. */
  predicate Yields(mode: LexMode, kind: TokenKind) {
    match mode
    case TextMode => kind in {Text, Eol}
    case RespTextMode => kind in {LBracket, Text, Eol}
    case CodeNameMode => kind in {RBracket, Atom, Text, Eol}
    case CodeTextMode => kind in {RBracket, Text, Eol}
    case NormalMode => kind !in {Text, LiteralData, LiteralEnd}
    case AstringMode => kind in {Atom, Quoted, LiteralBegin, LParen, RParen, Eol}
  }

  lemma WordYields(s: LexState, classify: bool, raw: seq<byte>)
    ensures var x := Classified(s, classify, raw);
      x.result.Got? ==> x.result.token.kind == Atom || (classify && x.result.token.kind in {Nil, Number})
  {
  }

  lemma ShapeYields(limits: Limits, s: LexState, mode: LexMode, input: seq<byte>, fin: bool)
    requires s.pos < |input| && input[s.pos] != SP
    ensures var x := LexShape(limits, s, ShapeAt(mode, input, s.pos, fin), input, fin);
      x.result.Got? ==> Yields(mode, x.result.token.kind)
  {
    match ShapeAt(mode, input, s.pos, fin)
    case Word(chars, classify) =>
      var scan := AtomScan(input, s.pos, s.pos, chars, limits.maxToken);
      if scan.Stop? { WordYields(s, classify, input[s.pos .. scan.at]); }
    case _ =>
  }

  lemma NextYields(limits: Limits, s: LexState, mode: LexMode, input: seq<byte>, fin: bool)
    requires s.pos <= |input|
    ensures var x := Next(limits, s, mode, input, fin);
      x.result.Got? ==>
        if s.literal.Some? then x.result.token.kind in {LiteralData, LiteralEnd} else Yields(mode, x.result.token.kind)
  {
    if s.error.None? && s.literal.None? {
      var t := SkipSpaces(limits.maxToken, s, input);
      if t.error.None? && t.pos < |input| { ShapeYields(limits, t, mode, input, fin); }
    }
  }

  // ---- Runs ----

  /** The token at `k` is of a kind that the mode its line called for yields, or content of a literal. */
  ghost predicate ReadAt(tokens: seq<Token>, k: nat)
    requires k < |tokens|
  {
    tokens[k].kind in {LiteralData, LiteralEnd} || Yields(ModeAfter(Line(tokens[..k])), tokens[k].kind)
  }

  ghost predicate AllRead(tokens: seq<Token>) {
    forall k :: 0 <= k < |tokens| ==> ReadAt(tokens, k)
  }

  lemma MergeIsRead(tokens: seq<Token>, t: Token)
    requires Accepted(tokens) && AllRead(tokens) && READER.verdict(tokens, t).None?
    requires t.kind in {LiteralData, LiteralEnd} || Yields(ModeAfter(Line(tokens)), t.kind)
    ensures Accepted(Merge(tokens, t)) && AllRead(Merge(tokens, t))
  {
    var merged := Merge(tokens, t);
    var n := |merged| - 1;
    assert merged[..n] == tokens[..n];
    forall k | 0 <= k < |merged|
      ensures AcceptedAt(merged, k) && ReadAt(merged, k)
    {
      assert merged[..k] == tokens[..k];
      if k < |tokens| { assert AcceptedAt(tokens, k) && ReadAt(tokens, k); } else { assert tokens[..k] == tokens; }
    }
  }

  lemma AnsweredIsRead(limits: Limits, r: Run, x: Lexed)
    requires r.ending.None? && Accepted(r.tokens) && AllRead(r.tokens)
    requires x.result.Got? ==> x.result.token.kind in {LiteralData, LiteralEnd} || Yields(READER.mode(r.tokens), x.result.token.kind)
    ensures Accepted(Answered(READER, r, x).tokens) && AllRead(Answered(READER, r, x).tokens)
  {
    if x.result.Got? && READER.verdict(r.tokens, x.result.token).None? {
      ReaderModes(r.tokens);
      MergeIsRead(r.tokens, x.result.token);
    }
  }

  lemma {:induction false} EveryRunIsRead(limits: Limits, actions: seq<Action>)
    ensures var r := DoAll(limits, READER, actions); Accepted(r.tokens) && AllRead(r.tokens)
    decreases |actions|
  {
    if actions != [] {
      var r := DoAll(limits, READER, actions[..|actions| - 1]);
      EveryRunIsRead(limits, actions[..|actions| - 1]);
      if actions[|actions| - 1] == Call && r.ending.None? {
        NextYields(limits, r.state, READER.mode(r.tokens), r.received, r.finished);
        AnsweredIsRead(limits, r, CallAnswer(limits, READER, r));
      }
    }
  }

  /** In every run of the reader, whatever the stream: every token was asked for in the mode that its line, by
      the words in it, calls for, and is of a kind that mode yields, or content of a literal. */
  lemma EveryTokenIsReadByItsLine(limits: Limits, actions: seq<Action>, k: nat)
    requires k < |DoAll(limits, READER, actions).tokens|
    ensures var tokens := DoAll(limits, READER, actions).tokens; var mode := ModeAfter(Line(tokens[..k]));
      && READER.mode(tokens[..k]) == mode
      && (tokens[k].kind in {LiteralData, LiteralEnd} || Yields(mode, tokens[k].kind))
  {
    var tokens := DoAll(limits, READER, actions).tokens;
    EveryRunIsRead(limits, actions);
    AcceptedPrefix(tokens, k);
    ReaderModes(tokens[..k]);
    assert ReadAt(tokens, k);
  }

  // ---- No literals in text ----

  predicate IsTextual(mode: LexMode) {
    mode == TextMode || mode == RespTextMode || mode == CodeNameMode || mode == CodeTextMode
  }

  lemma StaysOutside(track: Track, t: Token, mode: LexMode)
    requires Tracked(track, t) != Broken
    requires IsLiteral(t) ==>
      track == Outside && IsTextual(mode) && (t.kind in {LiteralData, LiteralEnd} || Yields(mode, t.kind))
    ensures Tracked(track, t) == Outside
  {
  }

  lemma LineAt(tokens: seq<Token>, k: nat)
    requires 0 < k <= |tokens|
    ensures IsLiteral(tokens[k - 1]) ==> Line(tokens[..k]) == Line(tokens[..k - 1])
    ensures TrackAt(tokens, k) == Tracked(TrackAt(tokens, k - 1), tokens[k - 1])
  {
    assert tokens[..k][..k - 1] == tokens[..k - 1];
  }

  /** Where text is read no literal is under way: it could only have been announced in text. */
  lemma {:induction false} TextIsOutside(tokens: seq<Token>, k: nat)
    requires AllRead(tokens) && k <= |tokens| && TrackOf(tokens) != Broken && IsTextual(ModeAfter(Line(tokens[..k])))
    ensures TrackAt(tokens, k) == Outside
    decreases k
  {
    if k > 0 {
      var t, mode := tokens[k - 1], ModeAfter(Line(tokens[..k - 1]));
      WholeTrack(tokens, k);
      LineAt(tokens, k);
      assert ReadAt(tokens, k - 1);
      if IsLiteral(t) { TextIsOutside(tokens, k - 1); }
      StaysOutside(TrackAt(tokens, k - 1), t, mode);
    }
  }

  lemma TextualIsRead(tokens: seq<Token>, k: nat)
    requires AllRead(tokens) && k < |tokens| && TrackOf(tokens) != Broken && IsTextual(ModeAfter(Line(tokens[..k])))
    ensures Yields(ModeAfter(Line(tokens[..k])), tokens[k].kind)
  {
    TextIsOutside(tokens, k);
    WholeTrack(tokens, k + 1);
    assert ReadAt(tokens, k);
  }

  /** After the word of a status response the next token is a bracket, text or the line end. From there to the
      line end, the arguments of a structured code aside, whatever bytes are sent, no token is a literal, a
      quoted string, a number, NIL or a parenthesis. */
  lemma StatusIsReadAsText(limits: Limits, actions: seq<Action>, k: nat)
    requires k < |DoAll(limits, READER, actions).tokens|
    requires var line := Line(DoAll(limits, READER, actions).tokens[..k]);
      |line| >= 2 && !IsPlus(line[0]) && SpellsStatus(line[1]) && !InArguments(line)
    ensures var tokens := DoAll(limits, READER, actions).tokens; var line := Line(tokens[..k]);
      && tokens[k].kind in {LBracket, RBracket, Atom, Text, Eol}
      && (|line| == 2 ==> tokens[k].kind in {LBracket, Text, Eol})
      && (|line| == 3 && line[2].kind == LBracket ==> tokens[k].kind in {RBracket, Atom, Text, Eol})
      && (|line| >= 3 && line[2].kind != LBracket ==> tokens[k].kind in {Text, Eol})
  {
    EveryRunIsRead(limits, actions);
    EveryRunTracksLiterals(limits, READER, actions);
    TextualIsRead(DoAll(limits, READER, actions).tokens, k);
  }

  /** A continuation is nothing but text. */
  lemma ContinuationIsReadAsText(limits: Limits, actions: seq<Action>, k: nat)
    requires k < |DoAll(limits, READER, actions).tokens|
    requires var line := Line(DoAll(limits, READER, actions).tokens[..k]); line != [] && IsPlus(line[0])
    ensures DoAll(limits, READER, actions).tokens[k].kind in {Text, Eol}
  {
    EveryRunIsRead(limits, actions);
    EveryRunTracksLiterals(limits, READER, actions);
    TextualIsRead(DoAll(limits, READER, actions).tokens, k);
  }

  /** And a response whose second word is none of the five is read as data to its line end: no token of it is
      text, and the reader never leaves normal mode. */
  lemma DataIsReadAsData(limits: Limits, actions: seq<Action>, k: nat)
    requires k < |DoAll(limits, READER, actions).tokens|
    requires var line := Line(DoAll(limits, READER, actions).tokens[..k]);
      |line| >= 2 && !IsPlus(line[0]) && !SpellsStatus(line[1])
    ensures var tokens := DoAll(limits, READER, actions).tokens;
      READER.mode(tokens[..k]) == NormalMode && tokens[k].kind != Text
  {
    EveryTokenIsReadByItsLine(limits, actions, k);
  }
}
