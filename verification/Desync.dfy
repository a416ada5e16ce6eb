/** Free text cannot put the reader out of step with the stream, and the reader's state keeps in step
    with the lexer's over every run. */
module Desync {
  import opened Tokens
  import opened LexSpec
  import opened Stability
  import opened ChunkIndependence
  import opened Lossless
  import opened ResponseShape

  // ---- The reader keeps in step with the lexer ----

  /** What an answer says about lines: only a line end starts a line, and only the end of a literal
      consumes nothing. */
  ghost predicate KeepsLines(s: LexState, x: Lexed) {
    && (x.result.Got? && x.result.token.kind != Eol && x.result.token.kind != LiteralEnd ==> !x.after.lineStart)
    && (x.result.Got? && x.result.token.kind == LiteralEnd ==> x.after.lineStart == s.lineStart)
    && (x.result.NeedMore? && x.after.lineStart ==> s.lineStart)
  }

  lemma {:induction false} SkipSpacesKeepsLines(max: nat, s: LexState, input: seq<byte>)
    requires s.pos <= |input|
    ensures SkipSpaces(max, s, input).lineStart ==> s.lineStart
    decreases |input| - s.pos
  {
    if s.pos < |input| && input[s.pos] == SP && s.spaces < max {
      SkipSpacesKeepsLines(max, s.(pos := s.pos + 1, spaces := s.spaces + 1, lineStart := false), input);
    }
  }

  lemma AtomKeepsLines(limits: Limits, s: LexState, chars: LexMode, classify: bool, input: seq<byte>, fin: bool)
    requires s.pos < |input| && IsAtomChar(input[s.pos], chars)
    ensures KeepsLines(s, LexAtom(limits, s, chars, classify, input, fin))
  {
    var scan := AtomScan(input, s.pos, s.pos, chars, limits.maxToken);
    if scan.Stop? {
      assert |input[s.pos .. scan.at]| > 0;
    }
  }

  lemma ShapeKeepsLines(limits: Limits, s: LexState, shape: Shape, input: seq<byte>, fin: bool)
    requires s.pos < |input| && Begins(shape, input, s.pos, fin)
    ensures KeepsLines(s, LexShape(limits, s, shape, input, fin))
  {
    match shape
    case Word(chars, classify) => AtomKeepsLines(limits, s, chars, classify, input, fin);
    case FreeText(stop) => assert !EndsText(input[s.pos], stop);
    case _ =>
  }

  lemma AfterSpacesKeepsLines(limits: Limits, t: LexState, mode: LexMode, input: seq<byte>, fin: bool)
    requires t.pos <= |input| && t.error.None? && (t.pos < |input| ==> input[t.pos] != SP)
    ensures var x := AfterSpaces(limits, t, mode, input, fin);
      KeepsLines(t, x) && !(x.result.Got? && x.result.token.kind == LiteralEnd)
  {
    if t.pos < |input| {
      ShapeBegins(mode, input, t.pos, fin);
      ShapeKeepsLines(limits, t, ShapeAt(mode, input, t.pos, fin), input, fin);
    }
  }

  lemma KeepsLinesFrom(s: LexState, t: LexState, x: Lexed)
    requires KeepsLines(t, x) && !(x.result.Got? && x.result.token.kind == LiteralEnd) && (t.lineStart ==> s.lineStart)
    ensures KeepsLines(s, x)
  {
  }

  lemma LiteralKeepsLines(s: LexState, input: seq<byte>, fin: bool)
    requires s.literal.Some? && s.pos <= |input|
    ensures KeepsLines(s, LexLiteral(s, input, fin))
  {
  }

  lemma NextKeepsLines(limits: Limits, s: LexState, mode: LexMode, input: seq<byte>, fin: bool)
    requires s.pos <= |input|
    ensures KeepsLines(s, Next(limits, s, mode, input, fin))
  {
    if s.error.None? {
      if s.literal.Some? {
        LiteralKeepsLines(s, input, fin);
      } else {
        var t := SkipSpaces(limits.maxToken, s, input);
        SkipSpacesKeepsLines(limits.maxToken, s, input);
        if t.error.None? {
          AfterSpacesKeepsLines(limits, t, mode, input, fin);
          KeepsLinesFrom(s, t, AfterSpaces(limits, t, mode, input, fin));
        }
      }
    }
  }

  /** Inside a response the lexer is not at the start of a line; a continuation is read as text; a
      structured code has at least its own bracket open. */
  ghost predicate InStep(q: Progress, lineStart: bool) {
    && (q.state != Start ==> !lineStart)
    && (q.kind == Continuation ==> q.state == Start || q.state == TextRest)
    && (q.state == CodeArgs ==> q.codeDepth >= 1)
  }

  lemma AdvanceKeepsStep(q: Progress, t: Token, before: bool, after: bool)
    requires InStep(q, before) && Advance(q, t).refused.None?
    requires t.kind != Eol && t.kind != LiteralEnd ==> !after
    requires t.kind == LiteralEnd ==> after == before
    ensures InStep(Advance(q, t).progress, after)
  {
  }

  ghost predicate RunInStep(r: Run) {
    && (r.ending.None? ==> InStep(After(r.tokens), r.state.lineStart))
    && (r.ending == Some(Clean) ==> After(r.tokens).state == Start)
  }

  lemma AnsweredInStep(r: Run, x: Lexed)
    requires r.ending.None? && RunInStep(r) && KeepsLines(r.state, x) && OnlySpaces(r.state, x, r.received)
    ensures RunInStep(Answered(READER, r, x))
  {
    if x.result.Got? && READER.verdict(r.tokens, x.result.token).None? {
      var t := x.result.token;
      MergeAdvances(r.tokens, t);
      AdvanceKeepsStep(After(r.tokens), t, r.state.lineStart, x.after.lineStart);
    }
  }

  /** In every run of the reader: inside a response the lexer is never at the start of a line, so the
      clean end of the stream is only reported between responses; a continuation response is only ever
      text; and the count of brackets in a structured code is at least one until it is left. */
  lemma {:induction false} EveryRunStaysInStep(limits: Limits, actions: seq<Action>)
    ensures RunInStep(DoAll(limits, READER, actions))
    decreases |actions|
  {
    if actions != [] {
      var r := DoAll(limits, READER, actions[..|actions| - 1]);
      EveryRunStaysInStep(limits, actions[..|actions| - 1]);
      if actions[|actions| - 1] == Call && r.ending.None? {
        NextKeepsLines(limits, r.state, READER.mode(r.tokens), r.received, r.finished);
        NextWithoutToken(limits, r.state, READER.mode(r.tokens), r.received, r.finished);
        AnsweredInStep(r, CallAnswer(limits, READER, r));
      }
    }
  }

  // ---- Structured codes end at their own bracket ----

  function Weight(kind: TokenKind): int {
    match kind
    case LBracket => 1
    case RBracket => -1
    case _ => 0
  }

  /** Opening less closing brackets. */
  function Balance(tokens: seq<Token>): int {
    if tokens == [] then 0 else Balance(tokens[..|tokens| - 1]) + Weight(tokens[|tokens| - 1].kind)
  }

  lemma CodeStep(q: Progress, t: Token)
    requires t.kind != Eol
    ensures q.state == CodeArgs && q.codeDepth >= 1 ==>
      Advance(q, t).progress ==
        if q.codeDepth + Weight(t.kind) >= 1 then q.(codeDepth := q.codeDepth + Weight(t.kind))
        else q.(codeDepth := 0, state := TextRest)
    ensures q.state == TextRest ==> Advance(q, t).progress == q
  {
  }

  /** The response after more tokens of the same line. */
  function Through(q: Progress, tokens: seq<Token>): Progress {
    if tokens == [] then q
    else Advance(Through(q, tokens[..|tokens| - 1]), tokens[|tokens| - 1]).progress
  }

  /** No prefix of the tokens has closed the bracket that was open before them. */
  ghost predicate NeverCloses(tokens: seq<Token>) {
    forall k :: 0 <= k <= |tokens| ==> 1 + Balance(tokens[..k]) >= 1
  }

  lemma NeverClosesStep(tokens: seq<Token>)
    requires tokens != []
    ensures NeverCloses(tokens) <==> NeverCloses(tokens[..|tokens| - 1]) && Balance(tokens) >= 0
  {
    var front := tokens[..|tokens| - 1];
    assert forall k :: 0 <= k <= |front| ==> front[..k] == tokens[..k];
    assert tokens[..|tokens|] == tokens;
    if NeverCloses(front) && Balance(tokens) >= 0 {
      forall k | 0 <= k <= |tokens| ensures 1 + Balance(tokens[..k]) >= 1 {
        if k < |tokens| { assert 1 + Balance(front[..k]) >= 1; }
      }
    }
  }

  /** From just inside a structured code, the reader is still inside it exactly while no prefix of the
      tokens has closed the bracket that opened it; then, to the end of the line, it reads text. */
  lemma {:induction false} CodeEndsAtItsBracket(q: Progress, tokens: seq<Token>)
    requires q.state == CodeArgs && q.codeDepth == 1
    requires forall i :: 0 <= i < |tokens| ==> tokens[i].kind != Eol
    ensures var r := Through(q, tokens);
      && (r.state == CodeArgs <==> NeverCloses(tokens))
      && (r.state == CodeArgs ==> r.codeDepth == 1 + Balance(tokens))
      && (r.state != CodeArgs ==> r.state == TextRest)
    decreases |tokens|
  {
    if tokens != [] {
      CodeEndsAtItsBracket(q, tokens[..|tokens| - 1]);
      NeverClosesStep(tokens);
      CodeStep(Through(q, tokens[..|tokens| - 1]), tokens[|tokens| - 1]);
    }
  }

  // ---- No desynchronisation ----

  /** The states in which the rest of the line is text, or the text of a code. */
  predicate ReadsText(state: State) {
    state == TextRest || state == CodeText || state == CodeClose
  }

  /** The first CR or LF at or after `p`, or the end of the input. */
  function LineEndFrom(input: seq<byte>, p: nat): (e: nat)
    requires p <= |input|
    ensures p <= e <= |input|
    ensures forall i :: p <= i < e ==> input[i] != CR && input[i] != LF
    ensures e < |input| ==> input[e] == CR || input[e] == LF
    decreases |input| - p
  {
    if p == |input| || input[p] == CR || input[p] == LF then p else LineEndFrom(input, p + 1)
  }

  lemma LineEndIsFirst(input: seq<byte>, p: nat, p': nat)
    requires p <= |input| && p <= p' <= LineEndFrom(input, p)
    ensures LineEndFrom(input, p') == LineEndFrom(input, p)
  {
    var e, e' := LineEndFrom(input, p), LineEndFrom(input, p');
  }

  lemma {:induction false} TextScanStaysOnLine(input: seq<byte>, start: nat, i: nat, stop: bool, max: nat)
    requires start <= i <= |input|
    ensures var scan := TextScan(input, start, i, stop, max); scan.Stop? ==> scan.at <= LineEndFrom(input, i)
    decreases |input| - i
  {
    if i < |input| && !EndsText(input[i], stop) && i - start < max && input[i] != NUL {
      TextScanStaysOnLine(input, start, i + 1, stop, max);
    }
  }

  lemma {:induction false} SkipSpacesStaysOnLine(max: nat, s: LexState, input: seq<byte>)
    requires s.pos <= |input|
    ensures SkipSpaces(max, s, input).pos <= LineEndFrom(input, s.pos)
    decreases |input| - s.pos
  {
    if s.pos < |input| && input[s.pos] == SP && s.spaces < max {
      SkipSpacesStaysOnLine(max, s.(pos := s.pos + 1, spaces := s.spaces + 1, lineStart := false), input);
    }
  }

  /** An answer while text is read: text or a closing bracket without leaving the line, or the line end
      itself, a CRLF where the first CR or LF is. */
  ghost predicate StaysInText(s: LexState, x: Lexed, input: seq<byte>)
    requires s.pos <= |input|
  {
    var e := LineEndFrom(input, s.pos);
    x.result.Got? ==>
      var t := x.result.token;
      && x.after.literal.None? && x.after.error.None?
      && if t.kind == Eol then
           && t.offset == e && e + 2 <= |input| && input[e] == CR && input[e + 1] == LF
           && x.after.pos == e + 2 && x.after.spaces == 0
         else (t.kind == Text || t.kind == RBracket) && s.pos <= x.after.pos <= e && x.after.spaces == 0
  }

  lemma TextShapeStays(limits: Limits, s: LexState, shape: Shape, input: seq<byte>, fin: bool)
    requires s.pos < |input| && s.literal.None? && s.error.None? && Begins(shape, input, s.pos, fin)
    requires shape.LineEnd? || shape.FreeText? || (shape == Closer(RBracket) && input[s.pos] == RBRACKET)
    ensures StaysInText(s, LexShape(limits, s, shape, input, fin), input)
  {
    match shape
    case FreeText(stop) => TextScanStaysOnLine(input, s.pos, s.pos, stop, limits.maxToken);
    case LineEnd =>
    case Closer(_) => LineEndIsFirst(input, s.pos, s.pos);
  }

  lemma TextModeStays(limits: Limits, s: LexState, mode: LexMode, input: seq<byte>, fin: bool)
    requires s.pos <= |input| && s.literal.None? && s.error.None?
    requires mode == TextMode || mode == CodeTextMode
    ensures StaysInText(s, Next(limits, s, mode, input, fin), input)
  {
    var t := SkipSpaces(limits.maxToken, s, input);
    SkipSpacesStaysOnLine(limits.maxToken, s, input);
    LineEndIsFirst(input, s.pos, t.pos);
    if t.error.None? && t.pos < |input| {
      var shape := ShapeAt(mode, input, t.pos, fin);
      ShapeBegins(mode, input, t.pos, fin);
      TextShapeStays(limits, t, shape, input, fin);
    }
  }

  /** Reading on only ever adds tokens, except that a last piece of a literal may grow. */
  lemma {:induction false} RestExtends(limits: Limits, client: Client, s: LexState, tokens: seq<Token>, full: seq<byte>, fin: bool)
    requires s.pos <= |full|
    ensures var out := Rest(limits, client, s, tokens, full, fin).tokens;
      && |tokens| <= |out|
      && (tokens != [] ==> tokens[..|tokens| - 1] <= out)
      && (tokens != [] && tokens[|tokens| - 1].kind != LiteralData ==> tokens <= out)
    decreases Work(s, |full|)
  {
    var x := Next(limits, s, client.mode(tokens), full, fin);
    NextProgress(limits, s, client.mode(tokens), full, fin);
    if x.result.Got? && client.verdict(tokens, x.result.token).None? {
      var merged := Merge(tokens, x.result.token);
      RestExtends(limits, client, x.after, merged, full, fin);
      if tokens != [] {
        assert tokens[..|tokens| - 1] <= merged[..|merged| - 1];
      }
    }
  }

  /** From token `j` of `out` the response is over: `j` is its line end, a CRLF at offset `e`, before
      which there was only text, and the next response begins right after it. */
  ghost predicate EndsLineAt(out: seq<Token>, from: nat, j: nat, full: seq<byte>, e: nat) {
    && from <= j < |out|
    && (forall i :: from <= i < j ==> out[i].kind == Text || out[i].kind == RBracket)
    && out[j].kind == Eol && out[j].offset == e
    && e + 2 <= |full| && full[e] == CR && full[e + 1] == LF
    && After(out[..j + 1]).state == Start
    && (j + 1 < |out| ==> out[j + 1].offset - out[j + 1].spaces == e + 2)
  }

  ghost predicate OnlyText(out: seq<Token>, from: nat) {
    forall i :: from <= i < |out| ==> out[i].kind == Text || out[i].kind == RBracket
  }

  /** The rest of the line is text that fits: a CRLF ends it, no NUL is in it, and with the spaces pending it
      is no longer than a token may be. */
  ghost predicate Readable(limits: Limits, s: LexState, full: seq<byte>)
    requires s.pos <= |full|
  {
    var e := LineEndFrom(full, s.pos);
    && e + 2 <= |full| && full[e] == CR && full[e + 1] == LF
    && (forall i :: s.pos <= i < e ==> full[i] != NUL)
    && s.spaces + e - s.pos <= limits.maxToken
  }

  lemma {:induction false} TextScanReaches(input: seq<byte>, start: nat, i: nat, stop: bool, max: nat, e: nat)
    requires start <= i <= e < |input| && EndsText(input[e], stop) && e - start <= max
    requires forall k :: i <= k < e ==> input[k] != NUL
    ensures TextScan(input, start, i, stop, max).Stop? && TextScan(input, start, i, stop, max).at <= e
    decreases e - i
  {
    if i < e && !EndsText(input[i], stop) {
      TextScanReaches(input, start, i + 1, stop, max, e);
    }
  }

  lemma {:induction false} SkipSpacesReaches(max: nat, s: LexState, input: seq<byte>, e: nat)
    requires s.pos <= e < |input| && input[e] != SP && s.error.None? && s.spaces + e - s.pos <= max
    ensures var t := SkipSpaces(max, s, input);
      t.error.None? && s.pos <= t.pos <= e && t.spaces - t.pos == s.spaces - s.pos
    decreases e - s.pos
  {
    if s.pos < e && input[s.pos] == SP {
      SkipSpacesReaches(max, s.(pos := s.pos + 1, spaces := s.spaces + 1, lineStart := false), input, e);
    }
  }

  /** A line that is readable as text yields a token. */
  lemma ReadableGets(limits: Limits, s: LexState, mode: LexMode, full: seq<byte>, fin: bool)
    requires s.pos <= |full| && s.literal.None? && s.error.None? && Readable(limits, s, full)
    requires mode == TextMode || mode == CodeTextMode
    ensures Next(limits, s, mode, full, fin).result.Got?
  {
    var e := LineEndFrom(full, s.pos);
    var t := SkipSpaces(limits.maxToken, s, full);
    SkipSpacesReaches(limits.maxToken, s, full, e);
    LineEndIsFirst(full, s.pos, t.pos);
    ReadableShapeGets(limits, t, mode, full, fin, e);
  }

  lemma ReadableShapeGets(limits: Limits, t: LexState, mode: LexMode, full: seq<byte>, fin: bool, e: nat)
    requires t.pos <= e && e + 2 <= |full| && full[e] == CR && full[e + 1] == LF && t.error.None?
    requires forall i :: t.pos <= i < e ==> full[i] != NUL && full[i] != CR && full[i] != LF
    requires t.spaces + e - t.pos <= limits.maxToken
    requires mode == TextMode || mode == CodeTextMode
    ensures AfterSpaces(limits, t, mode, full, fin).result.Got?
  {
    if t.pos < e {
      TextScanReaches(full, t.pos, t.pos, mode == CodeTextMode, limits.maxToken, e);
    }
  }

  /** The line ends where its first CR or LF is; or, if `readable` does not hold, it may instead never end,
      and then neither does the stream cleanly. */
  ghost predicate KeptInStep(once: Tokenized, tokens: seq<Token>, full: seq<byte>, e: nat, readable: bool) {
    && tokens <= once.tokens
    && ((exists j :: EndsLineAt(once.tokens, |tokens|, j, full, e))
        || (!readable && OnlyText(once.tokens, |tokens|) && once.ending != Clean))
  }

  /** One token of a response that is read as text: where it leaves the lexer and the reader. */
  ghost predicate TextToken(limits: Limits, s: LexState, tokens: seq<Token>, t: Token, after: LexState, full: seq<byte>) {
    && s.pos <= after.pos <= |full| && after.literal.None? && after.error.None?
    && Work(after, |full|) < Work(s, |full|)
    && var e := LineEndFrom(full, s.pos);
       if t.kind == Eol then
         && t.offset == e && e + 2 == after.pos && full[e] == CR && full[e + 1] == LF && after.spaces == 0
       else
         && (t.kind == Text || t.kind == RBracket) && !after.lineStart
         && LineEndFrom(full, after.pos) == e
         && (Readable(limits, s, full) ==> Readable(limits, after, full))
         && ReadsText(After(tokens + [t]).state)
  }

  lemma OneTextToken(limits: Limits, s: LexState, tokens: seq<Token>, full: seq<byte>, fin: bool)
    requires s.pos <= |full| && s.literal.None? && s.error.None? && !s.lineStart
    requires ReadsText(After(tokens).state) && tokens != [] && tokens[|tokens| - 1].kind != LiteralData
    ensures var x := Next(limits, s, READER.mode(tokens), full, fin); var once := Rest(limits, READER, s, tokens, full, fin);
      if x.result.Got? then
        && TextToken(limits, s, tokens, x.result.token, x.after, full)
        && once == Rest(limits, READER, x.after, tokens + [x.result.token], full, fin)
      else once.tokens == tokens && once.ending != Clean && !Readable(limits, s, full)
  {
    var mode := READER.mode(tokens);
    var x := Next(limits, s, mode, full, fin);
    NextProgress(limits, s, mode, full, fin);
    TextModeStays(limits, s, mode, full, fin);
    NextKeepsLines(limits, s, mode, full, fin);
    NextWithoutToken(limits, s, mode, full, fin);
    if Readable(limits, s, full) { ReadableGets(limits, s, mode, full, fin); }
    if x.result.Got? { OneTextAnswer(limits, s, tokens, x, full, fin); }
    RestStep(limits, READER, s, tokens, full, fin);
  }

  lemma OneTextAnswer(limits: Limits, s: LexState, tokens: seq<Token>, x: Lexed, full: seq<byte>, fin: bool)
    requires s.pos <= |full| && s.literal.None? && s.error.None? && !s.lineStart && ReadsText(After(tokens).state)
    requires Progresses(s, x, |full|, fin) && StaysInText(s, x, full) && KeepsLines(s, x)
    requires x.result.Got?
    ensures TextToken(limits, s, tokens, x.result.token, x.after, full)
    ensures READER.verdict(tokens, x.result.token).None? && Merge(tokens, x.result.token) == tokens + [x.result.token]
  {
    if x.result.token.kind != Eol {
      TextGoesOnReading(tokens, x.result.token);
      RestStaysReadable(limits, s, x.after, full);
    } else {
      LineEndAccepted(tokens, x.result.token);
    }
  }

  lemma TextGoesOnReading(tokens: seq<Token>, t: Token)
    requires ReadsText(After(tokens).state) && (t.kind == Text || t.kind == RBracket)
    ensures ReadsText(After(tokens + [t]).state)
    ensures READER.verdict(tokens, t).None? && Merge(tokens, t) == tokens + [t]
  {
    assert (tokens + [t])[..|tokens|] == tokens;
  }

  lemma LineEndAccepted(tokens: seq<Token>, t: Token)
    requires ReadsText(After(tokens).state) && t.kind == Eol
    ensures READER.verdict(tokens, t).None? && Merge(tokens, t) == tokens + [t]
  {
  }

  /** Going on along the line, its end stays where it is, and it stays readable. */
  lemma RestStaysReadable(limits: Limits, s: LexState, after: LexState, full: seq<byte>)
    requires s.pos <= after.pos <= |full| && after.pos <= LineEndFrom(full, s.pos)
    requires after.spaces <= s.spaces + after.pos - s.pos
    ensures LineEndFrom(full, after.pos) == LineEndFrom(full, s.pos)
    ensures Readable(limits, s, full) ==> Readable(limits, after, full)
  {
    LineEndIsFirst(full, s.pos, after.pos);
  }

  /** No desynchronisation: once a response is being read as text, whatever bytes follow, either its line
      ends at the first CR or LF still to come, which is a CRLF, with nothing but text and closing
      brackets before it and the next response right behind it; or, unless the rest of the line is readable
      as text, the input runs out or fails first, with nothing but text. */
  lemma {:induction false} TextNeverDesynchronises(limits: Limits, s: LexState, tokens: seq<Token>, full: seq<byte>, fin: bool)
    requires s.pos <= |full| && s.literal.None? && s.error.None? && !s.lineStart
    requires ReadsText(After(tokens).state) && tokens != [] && tokens[|tokens| - 1].kind != LiteralData
    ensures KeptInStep(Rest(limits, READER, s, tokens, full, fin), tokens, full, LineEndFrom(full, s.pos), Readable(limits, s, full))
    decreases Work(s, |full|), 1
  {
    var x := Next(limits, s, READER.mode(tokens), full, fin);
    OneTextToken(limits, s, tokens, full, fin);
    if x.result.Got? {
      TextGoesOn(limits, s, tokens, x.result.token, x.after, full, fin);
    }
  }

  lemma {:induction false} TextGoesOn(limits: Limits, s: LexState, tokens: seq<Token>, t: Token, after: LexState, full: seq<byte>, fin: bool)
    requires s.pos <= |full| && TextToken(limits, s, tokens, t, after, full)
    requires ReadsText(After(tokens).state)
    ensures KeptInStep(Rest(limits, READER, after, tokens + [t], full, fin), tokens, full, LineEndFrom(full, s.pos), Readable(limits, s, full))
    decreases Work(after, |full|) + 1, 0
  {
    if t.kind == Eol {
      LineEnds(limits, after, tokens, t, full, fin, LineEndFrom(full, s.pos));
    } else {
      TextNeverDesynchronises(limits, after, tokens + [t], full, fin);
      TextThenKept(Rest(limits, READER, after, tokens + [t], full, fin), tokens, t, full, LineEndFrom(full, s.pos), Readable(limits, after, full));
    }
  }

  lemma TextThenKept(once: Tokenized, tokens: seq<Token>, t: Token, full: seq<byte>, e: nat, readable: bool)
    requires KeptInStep(once, tokens + [t], full, e, readable) && (t.kind == Text || t.kind == RBracket)
    ensures KeptInStep(once, tokens, full, e, readable)
  {
    assert once.tokens[|tokens|] == (tokens + [t])[|tokens|] == t;
    var from := |tokens + [t]|;
    if j :| EndsLineAt(once.tokens, from, j, full, e) {
      assert EndsLineAt(once.tokens, |tokens|, j, full, e);
    }
  }

  lemma LineEnds(limits: Limits, s: LexState, tokens: seq<Token>, t: Token, full: seq<byte>, fin: bool, e: nat)
    requires s.pos <= |full| && s.literal.None? && s.spaces == 0
    requires t.kind == Eol && t.offset == e && e + 2 == s.pos && full[e] == CR && full[e + 1] == LF
    requires After(tokens).state != Start
    ensures KeptInStep(Rest(limits, READER, s, tokens + [t], full, fin), tokens, full, e, true)
  {
    var next := tokens + [t];
    var out := Rest(limits, READER, s, next, full, fin).tokens;
    RestExtends(limits, READER, s, next, full, fin);
    NextResponseFollows(limits, s, next, full, fin);
    assert next[..|tokens|] == tokens;
    assert out[..|tokens| + 1] == next;
    assert EndsLineAt(out, |tokens|, |tokens|, full, e);
  }

  /** The first token of the next response stands right after the line end. */
  lemma NextResponseFollows(limits: Limits, s: LexState, tokens: seq<Token>, full: seq<byte>, fin: bool)
    requires s.pos <= |full| && s.literal.None? && s.spaces == 0
    ensures var out := Rest(limits, READER, s, tokens, full, fin).tokens;
      |out| > |tokens| ==> out[|tokens|].offset - out[|tokens|].spaces == s.pos
  {
    var mode := READER.mode(tokens);
    var x := Next(limits, s, mode, full, fin);
    NextProgress(limits, s, mode, full, fin);
    NextLocated(limits, s, mode, full, fin);
    DataOnlyInLiterals(limits, s, mode, full, fin);
    if x.result.Got? && READER.verdict(tokens, x.result.token).None? {
      assert Merge(tokens, x.result.token) == tokens + [x.result.token];
      RestExtends(limits, READER, x.after, tokens + [x.result.token], full, fin);
    }
  }

  /** While text is read, no literal is under way. */
  ghost predicate TextOutsideLiterals(r: Run) {
    r.ending.None? ==>
      && r.state.error.None?
      && (ReadsText(After(r.tokens).state) ==>
            r.tokens != [] && !IsLiteral(r.tokens[|r.tokens| - 1]) && r.state.literal.None?)
  }

  lemma TextIsNotBegunByLiterals(q: Progress, t: Token)
    requires ReadsText(Advance(q, t).progress.state) && !ReadsText(q.state)
    ensures !IsLiteral(t)
  {
  }

  lemma OutsideLiteralsAfter(limits: Limits, s: LexState, x: Lexed)
    requires x.result.Got? && Tracks(limits, s, x) && !IsLiteral(x.result.token)
    ensures x.after.literal.None?
  {
  }

  lemma TokenOutsideLiterals(limits: Limits, s: LexState, x: Lexed, tokens: seq<Token>, input: seq<byte>)
    requires s.pos <= |input| && x.result.Got? && Tracks(limits, s, x)
    requires ReadsText(After(tokens).state) ==> StaysInText(s, x, input)
    requires ReadsText(Advance(After(tokens), x.result.token).progress.state)
    ensures !IsLiteral(x.result.token) && x.after.literal.None?
  {
    if !ReadsText(After(tokens).state) {
      TextIsNotBegunByLiterals(After(tokens), x.result.token);
    }
    OutsideLiteralsAfter(limits, s, x);
  }

  lemma AnsweredOutsideLiterals(limits: Limits, r: Run, x: Lexed)
    requires r.ending.None? && TextOutsideLiterals(r) && r.state.pos <= |r.received|
    requires Progresses(r.state, x, |r.received|, r.finished) && Tracks(limits, r.state, x)
    requires x.result.NeedMore? ==> x.after.literal == r.state.literal
    requires ReadsText(After(r.tokens).state) ==> StaysInText(r.state, x, r.received)
    ensures TextOutsideLiterals(Answered(READER, r, x))
  {
    if x.result.Got? && READER.verdict(r.tokens, x.result.token).None? {
      MergeAdvances(r.tokens, x.result.token);
      if ReadsText(After(Merge(r.tokens, x.result.token)).state) {
        TokenOutsideLiterals(limits, r.state, x, r.tokens, r.received);
      }
    }
  }

  lemma CallOutsideLiterals(limits: Limits, r: Run)
    requires r.ending.None? && TextOutsideLiterals(r) && r.state.pos <= |r.received|
    ensures TextOutsideLiterals(Answered(READER, r, CallAnswer(limits, READER, r)))
  {
    var mode := READER.mode(r.tokens);
    NextProgress(limits, r.state, mode, r.received, r.finished);
    NextTracks(limits, r.state, mode, r.received, r.finished);
    if ReadsText(After(r.tokens).state) {
      TextModeStays(limits, r.state, mode, r.received, r.finished);
    }
    AnsweredOutsideLiterals(limits, r, CallAnswer(limits, READER, r));
  }

  lemma StepOutsideLiterals(limits: Limits, r: Run, action: Action)
    requires TextOutsideLiterals(r) && r.state.pos <= |r.received|
    ensures TextOutsideLiterals(Do(limits, READER, r, action))
  {
    if action == Call && r.ending.None? {
      CallOutsideLiterals(limits, r);
    }
  }

  lemma {:induction false} EveryRunReadsTextOutsideLiterals(limits: Limits, actions: seq<Action>)
    ensures TextOutsideLiterals(DoAll(limits, READER, actions))
    decreases |actions|
  {
    if actions != [] {
      EveryRunReadsTextOutsideLiterals(limits, actions[..|actions| - 1]);
      StepOutsideLiterals(limits, DoAll(limits, READER, actions[..|actions| - 1]), actions[|actions| - 1]);
    }
  }

  /** Nothing that may still come puts this run out of step. */
  ghost predicate StaysWith(limits: Limits, r: Run, full: seq<byte>, fin: bool) {
    r.ending.None? && ReadsText(After(r.tokens).state) && MayBecome(r, full, fin) && r.state.pos <= |full| ==>
      KeptInStep(OneShot(limits, READER, full, fin), r.tokens, full, LineEndFrom(full, r.state.pos), Readable(limits, r.state, full))
  }

  /** What a run in step says of its state while text is read. */
  lemma TextRunIsReady(r: Run)
    requires RunInStep(r) && TextOutsideLiterals(r) && r.ending.None? && ReadsText(After(r.tokens).state)
    ensures r.state.literal.None? && r.state.error.None? && !r.state.lineStart
    ensures r.tokens != [] && r.tokens[|r.tokens| - 1].kind != LiteralData
  {
  }

  lemma TextRunStaysWith(limits: Limits, r: Run, full: seq<byte>, fin: bool)
    requires r.state.pos <= |full| && RunInStep(r) && TextOutsideLiterals(r)
    requires r.ending.None? ==> Rest(limits, READER, r.state, r.tokens, full, fin) == OneShot(limits, READER, full, fin)
    ensures StaysWith(limits, r, full, fin)
  {
    if r.ending.None? && ReadsText(After(r.tokens).state) {
      TextRunIsReady(r);
      TextNeverDesynchronises(limits, r.state, r.tokens, full, fin);
    }
  }

  /** The same for every run of the reader, however its stream was cut: from the moment it reads text,
      the tokens of any stream it may still be reading stay in step. */
  lemma EveryRunStaysInStepWithItsStream(limits: Limits, actions: seq<Action>, full: seq<byte>, fin: bool)
    ensures StaysWith(limits, DoAll(limits, READER, actions), full, fin)
  {
    var r := DoAll(limits, READER, actions);
    if MayBecome(r, full, fin) {
      ReaderIsLiteralBlind();
      EveryRunReadsTheOneStream(limits, READER, actions, full, fin);
      EveryRunReadsTextOutsideLiterals(limits, actions);
      EveryRunStaysInStep(limits, actions);
      TextRunStaysWith(limits, r, full, fin);
    }
  }
}
