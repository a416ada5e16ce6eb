/** The reader on top of the lexer and a byte stream. What it reads depends on the bytes of the
    stream and on how it ends, and on nothing about how it delivers them. */
module ResponseReading {
  import opened Tokens
  import opened LexSpec
  import opened Stability
  import opened ChunkIndependence
  import opened Lexing
  import opened Streams
  import opened ResponseShape

  const READ_CHUNK: nat := 16 * 1024

  datatype TokenOutcome = Read(token: Token) | EndOfStream | SyntaxFailure(error: SyntaxError) | NetFailure(cause: NetError)

  /** The outcome a lexer's answer becomes. */
  function OutcomeOf(answer: LexResult): TokenOutcome
    requires !answer.NeedMore?
  {
    match answer
    case Got(t) => Read(t)
    case EndOfInput => EndOfStream
    case Failed(e) => SyntaxFailure(e)
  }

  /** The reader's outcome is that of one call in a run of the lexer with the reader as its client: the
      lexer answers `x` and the run goes on as `next`. */
  ghost predicate Answers(r: TokenOutcome, run: Run, x: Lexed, next: Run, after: LexState, tokens: seq<Token>) {
    && next.state == after == x.after && next.tokens == tokens
    && (r.Read? ==> x.result == Got(r.token) && next.ending.None? && tokens == Merge(run.tokens, r.token))
    && (!r.Read? ==> tokens == run.tokens)
    && (r.EndOfStream? ==> next.ending == Some(Clean))
    && (r.SyntaxFailure? ==> next.ending == Some(Malformed(r.error)))
    && (r.NetFailure? ==> x.result == NeedMore && next == run.(state := after))
  }

  /** A refused token is an error and changes nothing; any other is handed out. */
  ghost predicate Judged(refused: Option<SyntaxError>, before: seq<Token>, t: Token, r: TokenOutcome, tokens: seq<Token>) {
    if refused.Some? then r == SyntaxFailure(refused.value) && tokens == before
    else r == Read(t) && tokens == Merge(before, t)
  }

  lemma RefusalStays(q: Progress, t: Token)
    requires Advance(q, t).refused.Some?
    ensures Advance(q, t).progress == q
  {
  }

  /** What next() makes of the lexer's answer. */
  ghost predicate Reports(run: Run, answer: LexResult, r: TokenOutcome, tokens: seq<Token>) {
    match answer
    case Got(t) =>
      Judged(Advance(After(run.tokens), t).refused, run.tokens, t, r, tokens)
    case NeedMore => r.NetFailure? && tokens == run.tokens
    case EndOfInput => r == EndOfStream && tokens == run.tokens
    case Failed(e) => r == SyntaxFailure(e) && tokens == run.tokens
  }

  lemma ReportsAnswer(limits: Limits, run: Run, r: TokenOutcome, tokens: seq<Token>)
    requires run.ending.None? && run.state.pos <= |run.received|
    requires var x := LexSpec.Next(limits, run.state, ModeFor(After(run.tokens).state), run.received, run.finished);
      Reports(run, x.result, r, tokens)
    ensures var x := LexSpec.Next(limits, run.state, ModeFor(After(run.tokens).state), run.received, run.finished);
      Answers(r, run, x, Do(limits, READER, run, Call), x.after, tokens)
  {
    var x := LexSpec.Next(limits, run.state, ModeFor(After(run.tokens).state), run.received, run.finished);
    assert CallAnswer(limits, READER, run) == x;
    AnsweredReports(run, x, r, tokens);
  }

  lemma AnsweredReports(run: Run, x: Lexed, r: TokenOutcome, tokens: seq<Token>)
    requires run.ending.None? && Reports(run, x.result, r, tokens)
    ensures Answers(r, run, x, Answered(READER, run, x), x.after, tokens)
  {
  }

  ghost predicate CannotAnswer(limits: Limits, s: LexState, mode: LexMode, seen: seq<byte>) {
    s.pos <= |seen| && LexSpec.Next(limits, s, mode, seen, false).result.NeedMore?
  }

  class ResponseReader {
    const stream: ByteStream
    const lexer: Lexer

    var state: State
    var kind: ResponseKind
    var codeDepth: int

    ghost var tokens: seq<Token>    // every token next() has handed out, merged

    function Position(): Progress
      reads this
    {
      Progress(state, kind, codeDepth)
    }

    /** The lexer is finished exactly when the stream has ended, the stream has never been read after its
        end, and no scan has been dropped or is under way for a mode other than `mode`. */
    ghost predicate Fed(mode: LexMode)
      reads this, stream, lexer
    {
      lexer.Valid() && lexer.finished == stream.ended && stream.lateReads == 0 && lexer.wasted == 0 && lexer.Scans(mode)
    }

    ghost predicate Valid()
      reads this, stream, lexer
    {
      Fed(ModeFor(state)) && Position() == After(tokens)
    }

    /** All the bytes of the stream, those already fed and those still to come. */
    ghost function Total(): seq<byte>
      reads this, stream, lexer
    {
      lexer.fed + if lexer.finished then [] else Content(stream.script)
    }

    ghost function End(): Finale
      reads this, stream, lexer
    {
      if lexer.finished then AtEof else FinaleOf(stream.script)
    }

    /** The same if the stream is read on after every failure. */
    ghost function Whole(): seq<byte>
      reads this, stream, lexer
    {
      lexer.fed + stream.Everything()
    }

    /** What had been fed before the last read of the stream. */
    ghost function SeenBefore(): seq<byte>
      reads this, stream, lexer
    {
      if stream.last <= |lexer.fed| then lexer.fed[..|lexer.fed| - stream.last] else []
    }

    constructor (stream: ByteStream, limits: Limits)
      requires !stream.ended && stream.lateReads == 0
      ensures this.stream == stream && fresh(lexer) && lexer.limits == limits
      ensures Valid() && Position() == BETWEEN && tokens == [] && lexer.State() == START
      ensures Total() == Content(stream.script) && End() == FinaleOf(stream.script)
      ensures Whole() == stream.Everything()
      ensures lexer.fed == [] && !lexer.finished
    {
      this.stream := stream;
      lexer := new Lexer(limits);
      state := Start;
      kind := NoResponse;
      codeDepth := 0;
      tokens := [];
    }

    /** Takes one delivery of the stream into the lexer. */
    method Receive(ghost mode: LexMode) returns (failure: Option<NetError>)
      requires Fed(mode) && !lexer.finished
      modifies lexer, stream
      ensures Fed(mode) && lexer.State() == old(lexer.State())
      ensures Whole() == old(Whole()) && stream.made > old(stream.made) && SeenBefore() == old(lexer.fed)
      ensures failure.None? ==>
        && Total() == old(Total()) && End() == old(End())
        && Reads(stream.script) <= Reads(old(stream.script))
        && (lexer.finished || Reads(stream.script) < Reads(old(stream.script)))
      ensures failure.Some? ==>
        && old(Total()) == lexer.fed == old(lexer.fed) && old(End()) == Broken(failure.value) && !lexer.finished
        && Reads(stream.script) < Reads(old(stream.script))
    {
      ghost var fed := lexer.fed;
      var received := stream.Read(READ_CHUNK);
      if received.ReadFailed? || (received.bytes == [] && !received.eof) {
        NothingCame(fed, stream.Everything());
        failure := Some(if received.ReadFailed? then received.error else LogicError(Recv));
      } else {
        TakeIn(received.bytes, received.eof);
        Came(fed, received.bytes, Content(stream.script));
        Came(fed, received.bytes, stream.Everything());
        failure := None;
      }
    }

    static lemma NothingCame(fed: seq<byte>, later: seq<byte>)
      ensures [] + later == later && fed + [] == fed && fed[..|fed|] == fed
    {
    }

    static lemma Came(fed: seq<byte>, bytes: seq<byte>, later: seq<byte>)
      ensures (fed + bytes) + later == fed + (bytes + later) && (fed + bytes) + [] == fed + bytes
      ensures (fed + bytes)[..|fed + bytes| - |bytes|] == fed
    {
    }

    method TakeIn(bytes: seq<byte>, eof: bool)
      requires lexer.Valid()
      modifies lexer
      ensures lexer.Valid() && lexer.State() == old(lexer.State())
      ensures lexer.fed == old(lexer.fed) + bytes && lexer.finished == (old(lexer.finished) || eof)
      ensures lexer.wasted == old(lexer.wasted) && lexer.failed == old(lexer.failed)
      ensures lexer.ResumeState() == old(lexer.ResumeState())
    {
      lexer.Feed(bytes);
      if eof {
        lexer.FinishInput();
      }
    }

    /** From where it stands now the lexer answers as it would from `s`. */
    ghost predicate Resumes(s: LexState, mode: LexMode)
      reads this, lexer
    {
      && s.pos <= |lexer.fed| && lexer.State().pos <= |lexer.fed|
      && LexSpec.Next(lexer.limits, lexer.State(), mode, lexer.fed, lexer.finished)
         == LexSpec.Next(lexer.limits, s, mode, lexer.fed, lexer.finished)
    }

    /** The outcome is the lexer's answer, from `s`, on all it has been fed. */
    ghost predicate AnswersFrom(r: TokenOutcome, s: LexState, mode: LexMode)
      reads this, lexer
    {
      && s.pos <= |lexer.fed|
      && var x := LexSpec.Next(lexer.limits, s, mode, lexer.fed, lexer.finished);
         !x.result.NeedMore? && x.after == lexer.State() && r == OutcomeOf(x.result)
    }

    /** The stream broke, and the lexer waits. */
    ghost predicate WaitsFrom(s: LexState, mode: LexMode)
      reads this, lexer
    {
      && s.pos <= |lexer.fed| && !lexer.finished
      && LexSpec.Next(lexer.limits, s, mode, lexer.fed, false) == Lexed(NeedMore, lexer.State())
    }

    /** One look at the lexer and, if it cannot answer, one read of the stream. */
    method Look(mode: LexMode, ghost s: LexState) returns (r: Option<TokenOutcome>)
      requires Fed(mode) && Resumes(s, mode)
      modifies lexer, stream
      ensures Fed(mode) && Whole() == old(Whole())
      ensures if r.Some? && !r.value.NetFailure? then
          unchanged(stream) && lexer.fed == old(lexer.fed) && lexer.finished == old(lexer.finished)
        else stream.made > old(stream.made) && ReadForNeed(s, mode)
      ensures r.Some? && !r.value.NetFailure? ==> AnswersFrom(r.value, s, mode) && (r.value.Read? ==> !lexer.scanning)
      ensures r.Some? && r.value.NetFailure? ==>
        && old(Total()) == lexer.fed && old(End()) == Broken(r.value.cause) && WaitsFrom(s, mode)
        && Reads(stream.script) < Reads(old(stream.script))
      ensures r.None? ==>
        && Total() == old(Total()) && End() == old(End()) && Resumes(s, mode)
        && Reads(stream.script) <= Reads(old(stream.script)) && !old(lexer.finished)
        && (lexer.finished || Reads(stream.script) < Reads(old(stream.script)))
    {
      ghost var before, limits := lexer.State(), lexer.limits;
      var answer := lexer.Next(mode);
      NextProgress(limits, before, mode, lexer.fed, lexer.finished);
      if !answer.NeedMore? {
        r := Some(OutcomeOf(answer));
      } else {
        var failure := Refill(mode, s);
        r := if failure.Some? then Some(NetFailure(failure.value)) else None;
      }
    }

    /** One read for a lexer that waits. */
    method Refill(ghost mode: LexMode, ghost s: LexState) returns (failure: Option<NetError>)
      requires Fed(mode) && WaitsFrom(s, mode)
      modifies lexer, stream
      ensures Fed(mode) && Whole() == old(Whole()) && stream.made > old(stream.made) && ReadForNeed(s, mode)
      ensures failure.Some? ==>
        && old(Total()) == lexer.fed && old(End()) == Broken(failure.value) && WaitsFrom(s, mode)
        && Reads(stream.script) < Reads(old(stream.script))
      ensures failure.None? ==>
        && Total() == old(Total()) && End() == old(End()) && Resumes(s, mode)
        && Reads(stream.script) <= Reads(old(stream.script))
        && (lexer.finished || Reads(stream.script) < Reads(old(stream.script)))
    {
      ghost var seen := lexer.fed;
      failure := Receive(mode);
      if failure.None? {
        NextStable(lexer.limits, s, mode, seen, lexer.fed, lexer.finished);
      }
    }

    /** The last read was needed: on what had been fed before it the lexer could not answer. By stability it
        could not on anything less either, so no read was made while it could. */
    ghost predicate ReadForNeed(s: LexState, mode: LexMode)
      reads this, stream, lexer
    {
      forall seen {:trigger CannotAnswer(lexer.limits, s, mode, seen)} ::
        SeenBefore() == seen ==> CannotAnswer(lexer.limits, s, mode, seen)
    }

    /** One token in the given mode: what the lexer answers for all the bytes it has by then been fed.
        The stream is read only for as long as the lexer cannot answer, and never after its end; and nothing
        is lost when a read fails. */
    method ReadToken(mode: LexMode) returns (r: TokenOutcome)
      requires Fed(mode)
      modifies lexer, stream
      ensures Fed(mode) && (r.Read? ==> !lexer.scanning)
      ensures if stream.made == old(stream.made) then lexer.fed == old(lexer.fed) else ReadForNeed(old(lexer.State()), mode)
      ensures Whole() == old(Whole()) && Reads(stream.script) <= Reads(old(stream.script))
      ensures !r.NetFailure? ==>
        Total() == old(Total()) && End() == old(End()) && AnswersFrom(r, old(lexer.State()), mode)
      ensures r.NetFailure? ==>
        && old(Total()) == lexer.fed && old(End()) == Broken(r.cause) && WaitsFrom(old(lexer.State()), mode)
        && Reads(stream.script) < Reads(old(stream.script))
    {
      ghost var s, total, end, whole := lexer.State(), Total(), End(), Whole();
      ghost var fed, made, most := lexer.fed, stream.made, Reads(stream.script);
      while true
        invariant Fed(mode) && Resumes(s, mode)
        invariant Total() == total && End() == end && Whole() == whole
        invariant Reads(stream.script) <= most && stream.made >= made
        invariant if stream.made == made then lexer.fed == fed else ReadForNeed(s, mode)
        decreases if lexer.finished then 0 else Reads(stream.script)
      {
        var answer := Look(mode, s);
        if answer.Some? {
          return answer.value;
        }
      }
    }

    /** Moves the response on by a token. */
    method AdvanceBy(token: Token) returns (refused: Option<SyntaxError>)
      modifies this`state, this`kind, this`codeDepth
      ensures Advanced(Position(), refused) == Advance(old(Position()), token)
    {
      if token.kind == LiteralBegin || token.kind == LiteralData || token.kind == LiteralEnd {
        if state == Start {
          return Some(SyntaxError(UnexpectedToken, token.offset));
        }
        return None;
      }
      if token.kind == Eol {
        if state == Start {
          return Some(SyntaxError(UnexpectedToken, token.offset));
        }
        state := Start;
        return None;
      }
      match state {
      case Start =>
        if token.IsAtom(Ascii("*")) {
          kind, state := Untagged, Second;
        } else if token.IsAtom(Ascii("+")) {
          kind, state := Continuation, TextRest;
        } else if token.kind == Atom || token.kind == Number {
          kind, state := Tagged, Second;
        } else {
          return Some(SyntaxError(UnexpectedToken, token.offset));
        }
      case Second =>
        state := if IsStatus(token) then RespText else Data;
      case RespText =>
        state := if token.kind == LBracket then CodeName else TextRest;
      case CodeName =>
        if token.kind == RBracket {
          state := TextRest;
        } else if token.kind == Atom && IsStructuredCode(token) {
          state, codeDepth := CodeArgs, 1;
        } else if token.kind == Atom {
          state := CodeText;
        } else {
          state := CodeClose;
        }
      case CodeArgs =>
        if token.kind == LBracket {
          codeDepth := codeDepth + 1;
        } else if token.kind == RBracket {
          codeDepth := codeDepth - 1;
          if codeDepth == 0 {
            state := TextRest;
          }
        }
      case CodeText =>
        state := if token.kind == RBracket then TextRest else CodeClose;
      case CodeClose =>
        state := if token.kind == RBracket then TextRest else CodeClose;
      case TextRest =>
      case Data =>
      }
      refused := None;
    }

    /** Lets the response machine judge a token. */
    method Accept(token: Token) returns (r: TokenOutcome)
      requires Position() == After(tokens)
      modifies this
      ensures Position() == After(tokens)
      ensures Judged(Advance(old(After(tokens)), token).refused, old(tokens), token, r, tokens)
    {
      MergeAdvances(tokens, token);
      var refused := AdvanceBy(token);
      if refused.Some? {
        RefusalStays(After(tokens), token);
        return SyntaxFailure(refused.value);
      }
      tokens := Merge(tokens, token);
      r := Read(token);
    }

    /** Moves the response on by what was read, as the run of the lexer moves on by its answer. */
    method Move(got: TokenOutcome, ghost run: Run, ghost limits: Limits) returns (r: TokenOutcome)
      requires Position() == After(tokens) && run.tokens == tokens && run.ending.None? && run.state.pos <= |run.received|
      requires var x := LexSpec.Next(limits, run.state, ModeFor(After(tokens).state), run.received, run.finished);
        if got.NetFailure? then x.result.NeedMore? else !x.result.NeedMore? && got == OutcomeOf(x.result)
      modifies this
      ensures Position() == After(tokens) && r.NetFailure? == got.NetFailure? && (got.NetFailure? ==> r == got && state == old(state))
      ensures r.Read? ==> got.Read?
      ensures var x := CallAnswer(limits, READER, run);
        Answers(r, run, x, Do(limits, READER, run, Call), x.after, tokens)
    {
      r := got;
      if got.Read? {
        r := Accept(got.token);
      }
      ReportsAnswer(limits, run, r, tokens);
    }

    /** Asks the lexer in the mode that the progress so far calls for, and moves the progress on. */
    method Next() returns (r: TokenOutcome)
      requires Valid()
      modifies this, lexer, stream
      ensures Valid()
      ensures !r.NetFailure? ==> Total() == old(Total()) && End() == old(End())
      ensures r.NetFailure? ==> old(Total()) == lexer.fed && old(End()) == Broken(r.cause) && !lexer.finished
      ensures old(lexer.State()).pos <= |lexer.fed|
      ensures stream.made > old(stream.made) ==> ReadForNeed(old(lexer.State()), ModeFor(old(state)))
      ensures Whole() == old(Whole()) && Reads(stream.script) <= Reads(old(stream.script))
      ensures r.NetFailure? ==> Reads(stream.script) < Reads(old(stream.script))
      ensures var run := Run(old(lexer.State()), old(tokens), lexer.fed, lexer.finished, None);
        Answers(r, run, CallAnswer(lexer.limits, READER, run), Do(lexer.limits, READER, run, Call), lexer.State(), tokens)
    {
      ghost var before := lexer.State();
      ghost var given := tokens;
      var got := ReadToken(ModeFor(state));
      r := Move(got, Run(before, given, lexer.fed, lexer.finished, None), lexer.limits);
    }
  }
}
