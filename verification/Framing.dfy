/** Reading a whole stream through `ResponseReader::next`, as the repository's tests and fuzzer do. The
    outcome is a function of the bytes and of how the stream ends: reader independence. */
module Framing {
  import opened Tokens
  import opened LexSpec
  import opened Stability
  import opened ChunkIndependence
  import opened Lossless
  import opened Streams
  import opened ResponseShape
  import opened ResponseReading

  datatype FramedEnding = EndedCleanly | SyntaxFailed(error: SyntaxError) | NetFailed(cause: NetError)

  datatype Framed = Framed(tokens: seq<Token>, ending: FramedEnding)

  /** A reader that starves on a broken stream reports the break. It never starves at end of stream
      (FinishedReadingEnds). */
  function Reported(ending: Ending, finale: Finale): FramedEnding {
    match ending
    case Clean => EndedCleanly
    case Malformed(e) => SyntaxFailed(e)
    case Starving => if finale.Broken? then NetFailed(finale.error) else EndedCleanly
  }

  /** The bytes read at once: at end of stream the input is finished; if the stream breaks, its error is
      reported once the tokens before it are used up. */
  function FramedOf(limits: Limits, bytes: seq<byte>, finale: Finale): Framed {
    var once := OneShot(limits, READER, bytes, finale.AtEof?);
    Framed(once.tokens, Reported(once.ending, finale))
  }

  /** Reads a stream to its end. Whatever the sizes of its deliveries, and whether the end of stream comes
      with the last bytes or after them, the tokens and the ending are those of its bytes read at once. */
  method ReadFramed(script: seq<Delivery>, limits: Limits) returns (r: Framed, kind: ResponseKind)
    ensures r == FramedOf(limits, Content(script), FinaleOf(script))
    ensures kind == After(r.tokens).kind
  {
    var stream := new ByteStream(script);
    var reader := new ResponseReader(stream, limits);
    ghost var total, finale := Content(script), FinaleOf(script);
    ghost var once := OneShot(limits, READER, total, finale.AtEof?);
    var tokens := [];
    while true
      invariant reader.Valid() && reader.tokens == tokens && reader.lexer.limits == limits
      invariant fresh(reader) && fresh(reader.lexer) && reader.stream == stream && fresh(stream)
      invariant reader.Total() == total && reader.End() == finale
      invariant reader.lexer.Offset() <= |total|
      invariant Rest(limits, READER, reader.lexer.State(), tokens, total, finale.AtEof?) == once
      decreases Work(reader.lexer.State(), |total|)
    {
      ghost var before := reader.lexer.State();
      var got := Pull(reader, total, finale);
      if got.Read? {
        tokens := Merge(tokens, got.token);
      } else {
        EndsAs(limits, once, before, tokens, got, reader.lexer.State(), reader.tokens, total, finale);
        r := Framed(tokens, EndingOf(got));
        kind := reader.kind;
        return;
      }
    }
  }

  function EndingOf(got: TokenOutcome): FramedEnding
    requires !got.Read?
  {
    match got
    case EndOfStream => EndedCleanly
    case SyntaxFailure(e) => SyntaxFailed(e)
    case NetFailure(e) => NetFailed(e)
  }

  lemma EndsAs(limits: Limits, once: Tokenized, before: LexState, given: seq<Token>, got: TokenOutcome, after: LexState, tokens: seq<Token>, total: seq<byte>, finale: Finale)
    requires after.pos <= |total| && Matches(limits, once, before, given, got, after, tokens, total, finale) && !got.Read?
    ensures once.tokens == tokens == given && Reported(once.ending, finale) == EndingOf(got)
  {
  }

  /** One call of next(), against reading the rest of the stream at once. */
  method Pull(reader: ResponseReader, ghost total: seq<byte>, ghost finale: Finale) returns (got: TokenOutcome)
    requires reader.Valid() && reader.Total() == total && reader.End() == finale
    requires reader.lexer.Offset() <= |total|
    modifies reader, reader.lexer, reader.stream
    ensures reader.Valid() && reader.lexer.Offset() <= |total|
    ensures !got.NetFailure? ==> reader.Total() == total && reader.End() == finale
    ensures Matches(reader.lexer.limits,
                    Rest(reader.lexer.limits, READER, old(reader.lexer.State()), old(reader.tokens), total, finale.AtEof?),
                    old(reader.lexer.State()), old(reader.tokens), got, reader.lexer.State(), reader.tokens, total, finale)
  {
    ghost var before, given := reader.lexer.State(), reader.tokens;
    got := reader.Next();
    ghost var run := Run(before, given, reader.lexer.fed, reader.lexer.finished, None);
    ReaderIsLiteralBlind();
    StepMatches(reader.lexer.limits, run, got, reader.lexer.State(), reader.tokens, total, finale);
  }

  /** One call of next() against reading the rest at once. */
  lemma StepMatches(limits: Limits, run: Run, got: TokenOutcome, after: LexState, tokens: seq<Token>, total: seq<byte>, finale: Finale)
    requires LiteralBlind(READER)
    requires run.ending.None? && run.state.pos <= |run.received| && MayBecome(run, total, finale.AtEof?)
    requires Answers(got, run, CallAnswer(limits, READER, run), Do(limits, READER, run, Call), after, tokens)
    requires got.NetFailure? ==> finale == Finale.Broken(got.cause) && run.received == total
    ensures after.pos <= |total|
    ensures Matches(limits, Rest(limits, READER, run.state, run.tokens, total, finale.AtEof?),
                    run.state, run.tokens, got, after, tokens, total, finale)
  {
    CallKeepsOutcome(limits, READER, run, total, finale.AtEof?);
    NextProgress(limits, run.state, READER.mode(run.tokens), run.received, run.finished);
    if got.NetFailure? {
      CallStarves(limits, run, total);
    }
    OutcomeMatches(limits, run, got, CallAnswer(limits, READER, run), Do(limits, READER, run, Call), after, tokens, total, finale);
  }

  ghost predicate Matches(limits: Limits, once: Tokenized, before: LexState, given: seq<Token>, got: TokenOutcome, after: LexState, tokens: seq<Token>, total: seq<byte>, finale: Finale)
    requires after.pos <= |total|
  {
    && (got.Read? ==>
          && tokens == Merge(given, got.token)
          && Work(after, |total|) < Work(before, |total|)
          && once == Rest(limits, READER, after, tokens, total, finale.AtEof?))
    && (!got.Read? ==> tokens == given)
    && (got.EndOfStream? ==> once == Tokenized(given, Clean))
    && (got.SyntaxFailure? ==> once == Tokenized(given, Malformed(got.error)))
    && (got.NetFailure? ==> once == Tokenized(given, Starving) && finale == Finale.Broken(got.cause))
  }

  lemma OutcomeMatches(limits: Limits, run: Run, got: TokenOutcome, x: Lexed, next: Run, after: LexState, tokens: seq<Token>, total: seq<byte>, finale: Finale)
    requires run.ending.None? && run.state.pos <= |total|
    requires Answers(got, run, x, next, after, tokens)
    requires Progresses(run.state, x, |run.received|, run.finished)
    requires next.state.pos <= |total|
      && Completed(limits, READER, next, total, finale.AtEof?) == Completed(limits, READER, run, total, finale.AtEof?)
    requires got.NetFailure? ==>
      && finale == Finale.Broken(got.cause)
      && Rest(limits, READER, run.state, run.tokens, total, finale.AtEof?) == Tokenized(run.tokens, Starving)
    ensures Matches(limits, Rest(limits, READER, run.state, run.tokens, total, finale.AtEof?),
                    run.state, run.tokens, got, after, tokens, total, finale)
  {
  }

  lemma CallStarves(limits: Limits, run: Run, total: seq<byte>)
    requires run.state.pos <= |run.received| && run.received == total && !run.finished
    requires CallAnswer(limits, READER, run).result.NeedMore?
    ensures Rest(limits, READER, run.state, run.tokens, total, false) == Tokenized(run.tokens, Starving)
  {
  }

  // ---- What the outcome means ----

  /** Reading on from tokens that account for what is consumed: all tokens are a prefix of the bytes, and a clean
      end accounts for all of them and is one of a finished input. */
  lemma {:induction false} RestIsLossless(limits: Limits, client: Client, s: LexState, tokens: seq<Token>, full: seq<byte>, fin: bool)
    requires Accounted(s, tokens, full)
    ensures var all := Rest(limits, client, s, tokens, full, fin);
      && TilesSomewhere(all.tokens, full)
      && (all.ending == Clean ==> fin && Tiles(all.tokens, full, |full|, 0))
    decreases Work(s, |full|)
  {
    var x := Next(limits, s, client.mode(tokens), full, fin);
    assert Tiles(tokens, full, s.pos, s.spaces);
    NextIsFaithful(limits, s, client.mode(tokens), full, fin);
    RestStep(limits, client, s, tokens, full, fin);
    if x.result.Got? && client.verdict(tokens, x.result.token).None? {
      TokenIsLossless(limits, Run(s, tokens, full, fin, None), x);
      RestIsLossless(limits, client, x.after, Merge(tokens, x.result.token), full, fin);
    }
  }

  lemma NothingAccounted(full: seq<byte>)
    ensures Accounted(START, [], full)
  {
  }

  /** The outcome, in plain words: the tokens print a prefix of the bytes; a clean end is one of a stream that
      ended, with all its bytes in the tokens; a network failure is the stream's own, and a stream that broke
      does not end cleanly. */
  lemma FramedMeans(limits: Limits, bytes: seq<byte>, finale: Finale)
    ensures var r := FramedOf(limits, bytes, finale);
      && Printed(r.tokens) <= bytes
      && (r.ending == EndedCleanly ==> finale == AtEof && Printed(r.tokens) == bytes)
      && (r.ending.NetFailed? ==> finale == Finale.Broken(r.ending.cause))
  {
    var once := OneShot(limits, READER, bytes, finale.AtEof?);
    NothingAccounted(bytes);
    RestIsLossless(limits, READER, START, [], bytes, finale.AtEof?);
    var pos: nat, spaces: nat :| Tiles(once.tokens, bytes, pos, spaces);
    TilesPrint(once.tokens, bytes, pos, spaces);
    if once.ending == Clean { TilesPrint(once.tokens, bytes, |bytes|, 0); }
    if finale.AtEof? { FinishedReadingEnds(limits, READER, START, [], bytes); }
  }

  // ---- Reading on after failures ----

  /** What a call comes to against reading `total` at once, when a failure is only a pause. */
  ghost predicate Continues(limits: Limits, once: Tokenized, before: LexState, given: seq<Token>, got: TokenOutcome, after: LexState,
    tokens: seq<Token>, total: seq<byte>)
    requires after.pos <= |total|
  {
    && (got.Read? ==> tokens == Merge(given, got.token) && Work(after, |total|) < Work(before, |total|))
    && (!got.Read? ==> tokens == given)
    && (got.Read? || got.NetFailure? ==>
          Work(after, |total|) <= Work(before, |total|) && once == Rest(limits, READER, after, tokens, total, true))
    && (got.EndOfStream? ==> once == Tokenized(given, Clean))
    && (got.SyntaxFailure? ==> once == Tokenized(given, Malformed(got.error)))
  }

  lemma StepContinues(limits: Limits, run: Run, got: TokenOutcome, after: LexState, tokens: seq<Token>, total: seq<byte>)
    requires LiteralBlind(READER)
    requires run.ending.None? && run.state.pos <= |run.received| && MayBecome(run, total, true)
    requires Answers(got, run, CallAnswer(limits, READER, run), Do(limits, READER, run, Call), after, tokens)
    ensures after.pos <= |total|
    ensures Continues(limits, Rest(limits, READER, run.state, run.tokens, total, true), run.state, run.tokens, got, after, tokens, total)
  {
    CallKeepsOutcome(limits, READER, run, total, true);
    NextProgress(limits, run.state, READER.mode(run.tokens), run.received, run.finished);
    OutcomeContinues(limits, run, got, CallAnswer(limits, READER, run), Do(limits, READER, run, Call), after, tokens, total);
  }

  lemma OutcomeContinues(limits: Limits, run: Run, got: TokenOutcome, x: Lexed, next: Run, after: LexState, tokens: seq<Token>, total: seq<byte>)
    requires run.ending.None? && run.state.pos <= |run.received| <= |total|
    requires Answers(got, run, x, next, after, tokens) && Progresses(run.state, x, |run.received|, run.finished)
    requires next.state.pos <= |total|
      && Completed(limits, READER, next, total, true) == Completed(limits, READER, run, total, true)
    ensures Continues(limits, Rest(limits, READER, run.state, run.tokens, total, true), run.state, run.tokens, got, after, tokens, total)
  {
  }

  /** One call of next() on a stream that may fail and be read on. */
  method PullOn(reader: ResponseReader, ghost total: seq<byte>) returns (got: TokenOutcome)
    requires reader.Valid() && reader.Whole() == total && reader.lexer.Offset() <= |total|
    modifies reader, reader.lexer, reader.stream
    ensures reader.Valid() && reader.Whole() == total && reader.lexer.Offset() <= |total|
    ensures got.NetFailure? ==> Reads(reader.stream.script) < Reads(old(reader.stream.script))
    ensures Continues(reader.lexer.limits,
                      Rest(reader.lexer.limits, READER, old(reader.lexer.State()), old(reader.tokens), total, true),
                      old(reader.lexer.State()), old(reader.tokens), got, reader.lexer.State(), reader.tokens, total)
  {
    ghost var before, given := reader.lexer.State(), reader.tokens;
    got := reader.Next();
    ghost var run := Run(before, given, reader.lexer.fed, reader.lexer.finished, None);
    assert reader.lexer.finished ==> reader.lexer.fed + [] == reader.lexer.fed;
    ReaderIsLiteralBlind();
    StepContinues(reader.lexer.limits, run, got, reader.lexer.State(), reader.tokens, total);
  }

  /** Reads a stream to its end and goes on after every failure of a read. Nothing is lost by them: tokens and
      ending are those of all the bytes ever delivered, read at once. */
  method ReadRegardless(script: seq<Delivery>, limits: Limits) returns (r: Tokenized)
    ensures r == OneShot(limits, READER, Through(script), true)
  {
    var stream := new ByteStream(script);
    var reader := new ResponseReader(stream, limits);
    ghost var total := Through(script);
    ghost var once := OneShot(limits, READER, total, true);
    assert [] + total == total;
    var tokens := [];
    while true
      invariant reader.Valid() && reader.tokens == tokens && reader.lexer.limits == limits
      invariant fresh(reader) && fresh(reader.lexer) && reader.stream == stream && fresh(stream)
      invariant reader.Whole() == total && reader.lexer.Offset() <= |total|
      invariant Rest(limits, READER, reader.lexer.State(), tokens, total, true) == once
      decreases Work(reader.lexer.State(), |total|), Reads(stream.script)
    {
      var got := PullOn(reader, total);
      match got
      case Read(token) => tokens := Merge(tokens, token);
      case NetFailure(_) =>
      case EndOfStream => return Tokenized(tokens, Clean);
      case SyntaxFailure(e) => return Tokenized(tokens, Malformed(e));
    }
  }
}
