/** However a stream is cut into `feed` calls, and whenever `next` is called in between, a client that
    chooses modes from the tokens so far gets the same tokens and the same ending. How the content of
    a literal is divided is the only thing that may differ, so adjacent pieces of it are merged. */
module ChunkIndependence {
  import opened Tokens
  import opened LexSpec
  import opened Stability

  /** Appends a token, joining it to the last one when both are pieces of one literal. */
  function Merge(tokens: seq<Token>, t: Token): seq<Token> {
    if t.kind == LiteralData && tokens != [] && tokens[|tokens| - 1].kind == LiteralData then
      var last := tokens[|tokens| - 1];
      tokens[..|tokens| - 1] + [last.(data := last.data + t.data)]
    else tokens + [t]
  }

  /** How reading stops: at a clean end, at an error, or, when the end of the input has not been
      declared, for want of more. */
  datatype Ending = Clean | Malformed(error: SyntaxError) | Starving

  datatype Tokenized = Tokenized(tokens: seq<Token>, ending: Ending)

  /** Whoever drives the lexer: it chooses each mode from the merged tokens so far, and may refuse a
      token with an error of its own. */
  datatype Client = Client(
    mode: seq<Token> -> LexMode,
    verdict: (seq<Token>, Token) -> Option<SyntaxError>)

  /** The client does not look into literals: what it says about a piece does not depend on the bytes
      in it, and once it lets a piece pass it lets the following ones pass. */
  ghost predicate LiteralBlind(client: Client) {
    && (forall tokens: seq<Token>, t: Token, data: seq<byte> :: t.kind == LiteralData ==>
          client.verdict(tokens, t.(data := data)) == client.verdict(tokens, t))
    && (forall tokens: seq<Token>, t: Token, u: Token :: t.kind == LiteralData && u.kind == LiteralData && client.verdict(tokens, t).None? ==>
          client.verdict(Merge(tokens, t), u).None?)
  }

  // ---- Reading everything at once ----

  /** Lexes the rest of `full`, all of it already there and, when `fin`, known to be all there is, from
      state `s` after `tokens`. */
  function Rest(limits: Limits, client: Client, s: LexState, tokens: seq<Token>, full: seq<byte>, fin: bool): Tokenized
    requires s.pos <= |full|
    decreases Work(s, |full|)
  {
    var x := Next(limits, s, client.mode(tokens), full, fin);
    NextProgress(limits, s, client.mode(tokens), full, fin);
    match x.result
    case Got(t) =>
      var refused := client.verdict(tokens, t);
      if refused.Some? then Tokenized(tokens, Malformed(refused.value))
      else Rest(limits, client, x.after, Merge(tokens, t), full, fin)
    case NeedMore => Tokenized(tokens, Starving)
    case EndOfInput => Tokenized(tokens, Clean)
    case Failed(e) => Tokenized(tokens, Malformed(e))
  }

  /** The first answer, and then the rest. */
  lemma RestStep(limits: Limits, client: Client, s: LexState, tokens: seq<Token>, full: seq<byte>, fin: bool)
    requires s.pos <= |full|
    ensures var x := Next(limits, s, client.mode(tokens), full, fin); var all := Rest(limits, client, s, tokens, full, fin);
      && x.after.pos <= |full|
      && (x.result.Got? && client.verdict(tokens, x.result.token).None? ==>
            all == Rest(limits, client, x.after, Merge(tokens, x.result.token), full, fin))
      && (x.result.Got? && client.verdict(tokens, x.result.token).Some? ==>
            all == Tokenized(tokens, Malformed(client.verdict(tokens, x.result.token).value)))
      && (x.result.NeedMore? ==> all == Tokenized(tokens, Starving))
      && (x.result.EndOfInput? ==> all == Tokenized(tokens, Clean))
      && (x.result.Failed? ==> all == Tokenized(tokens, Malformed(x.result.error)))
  {
    NextProgress(limits, s, client.mode(tokens), full, fin);
  }

  function OneShot(limits: Limits, client: Client, full: seq<byte>, fin: bool): Tokenized {
    Rest(limits, client, START, [], full, fin)
  }

  /** Once the input is known to be all there is, reading it reaches its end or an error. */
  lemma {:induction false} FinishedReadingEnds(limits: Limits, client: Client, s: LexState, tokens: seq<Token>, full: seq<byte>)
    requires s.pos <= |full|
    ensures Rest(limits, client, s, tokens, full, true).ending != Starving
    decreases Work(s, |full|)
  {
    var x := Next(limits, s, client.mode(tokens), full, true);
    NextProgress(limits, s, client.mode(tokens), full, true);
    if x.result.Got? && client.verdict(tokens, x.result.token).None? {
      FinishedReadingEnds(limits, client, x.after, Merge(tokens, x.result.token), full);
    }
  }

  // ---- Reading in pieces ----

  datatype Action = Feed(bytes: seq<byte>) | Finish | Call

  datatype Run = Run(
    state: LexState,
    tokens: seq<Token>,
    received: seq<byte>,
    finished: bool,
    ending: Option<Ending>)

  const BEGINNING := Run(START, [], [], false, None)

  /** The run after a call that answered `x`. */
  function Answered(client: Client, r: Run, x: Lexed): Run {
    match x.result
    case Got(t) =>
      var refused := client.verdict(r.tokens, t);
      if refused.Some? then r.(state := x.after, ending := Some(Malformed(refused.value)))
      else r.(state := x.after, tokens := Merge(r.tokens, t))
    case NeedMore => r.(state := x.after)
    case EndOfInput => r.(state := x.after, ending := Some(Clean))
    case Failed(e) => r.(state := x.after, ending := Some(Malformed(e)))
  }

  function CallAnswer(limits: Limits, client: Client, r: Run): Lexed
    requires r.state.pos <= |r.received|
  {
    Next(limits, r.state, client.mode(r.tokens), r.received, r.finished)
  }

  /** One action. Feeding after `finish` is outside the lexer's contract and changes nothing here. */
  function Do(limits: Limits, client: Client, r: Run, action: Action): Run
    requires r.state.pos <= |r.received|
  {
    match action
    case Feed(bytes) => if r.finished then r else r.(received := r.received + bytes)
    case Finish => r.(finished := true)
    case Call => if r.ending.Some? then r else Answered(client, r, CallAnswer(limits, client, r))
  }

  /** The run after a list of actions. */
  function DoAll(limits: Limits, client: Client, actions: seq<Action>): (r: Run)
    ensures r.state.pos <= |r.received|
  {
    if actions == [] then BEGINNING
    else
      var before := DoAll(limits, client, actions[..|actions| - 1]);
      NextProgress(limits, before.state, client.mode(before.tokens), before.received, before.finished);
      Do(limits, client, before, actions[|actions| - 1])
  }

  /** How the run would end if the rest of `full` arrived at once and, when `fin`, the input then
      ended. */
  function Completed(limits: Limits, client: Client, r: Run, full: seq<byte>, fin: bool): Tokenized
    requires r.state.pos <= |full|
  {
    if r.ending.Some? then Tokenized(r.tokens, r.ending.value)
    else Rest(limits, client, r.state, r.tokens, full, fin)
  }

  /** `full` is a stream the run may still turn out to have been reading. */
  ghost predicate MayBecome(r: Run, full: seq<byte>, fin: bool) {
    r.received <= full && (r.finished ==> r.received == full && fin)
  }

  // ---- The theorem ----

  lemma MergePieces(tokens: seq<Token>, t: Token, u: Token, whole: Token)
    requires t.kind == LiteralData && u.kind == LiteralData && whole == t.(data := t.data + u.data)
    ensures Merge(Merge(tokens, t), u) == Merge(tokens, whole)
  {
    if tokens != [] && tokens[|tokens| - 1].kind == LiteralData {
      var last := tokens[|tokens| - 1];
      assert (last.data + t.data) + u.data == last.data + (t.data + u.data);
    }
  }

  /** A piece of a literal and then the rest of it are the whole of it. */
  lemma LiteralSplits(s: LexState, seen: seq<byte>, full: seq<byte>, fin: bool)
    requires s.error.None? && s.literal.Some? && s.literal.value > 0
    requires s.pos < |seen| && seen <= full
    ensures var piece, whole := LexLiteral(s, seen, false), LexLiteral(s, full, fin);
      && piece.result.Got? && whole.result.Got?
      && piece.result.token.kind == LiteralData
      && s.pos < piece.after.pos <= |seen| && piece.after.error.None?
      && whole.result.token == piece.result.token.(data := whole.result.token.data)
      && (piece != whole ==>
            var later := LexLiteral(piece.after, full, fin);
            && piece.after.literal.Some?
            && later.result.Got? && later.result.token.kind == LiteralData && later.after == whole.after
            && whole.result.token.data == piece.result.token.data + later.result.token.data)
  {
    var piece, whole := LexLiteral(s, seen, false), LexLiteral(s, full, fin);
    SliceStable(seen, full, s.pos, piece.after.pos);
    if piece.after.pos != whole.after.pos {
      var later := LexLiteral(piece.after, full, fin);
      assert full[s.pos .. whole.after.pos] == full[s.pos .. piece.after.pos] + full[piece.after.pos .. whole.after.pos];
    }
  }

  lemma PieceThenRestOfLiteral(limits: Limits, client: Client, s: LexState, tokens: seq<Token>, seen: seq<byte>, full: seq<byte>, fin: bool)
    requires LiteralBlind(client)
    requires s.error.None? && s.literal.Some? && s.literal.value > 0
    requires s.pos < |seen| && seen <= full
    ensures var piece := LexLiteral(s, seen, false);
      && piece.result.Got? && piece.after.pos <= |full|
      && var refused := client.verdict(tokens, piece.result.token);
         Rest(limits, client, s, tokens, full, fin)
         == if refused.Some? then Tokenized(tokens, Malformed(refused.value))
            else Rest(limits, client, piece.after, Merge(tokens, piece.result.token), full, fin)
  {
    var piece, whole := LexLiteral(s, seen, false), LexLiteral(s, full, fin);
    LiteralSplits(s, seen, full, fin);
    var t, w := piece.result.token, whole.result.token;
    assert client.verdict(tokens, t.(data := w.data)) == client.verdict(tokens, t);
    if piece != whole && client.verdict(tokens, t).None? {
      var later := LexLiteral(piece.after, full, fin);
      MergePieces(tokens, t, later.result.token, w);
    }
  }

  /** Content tokens come only from inside an unfinished literal. */
  lemma DataOnlyInLiterals(limits: Limits, s: LexState, mode: LexMode, input: seq<byte>, fin: bool)
    requires s.pos <= |input|
    ensures var x := Next(limits, s, mode, input, fin);
      x.result.Got? && x.result.token.kind == LiteralData ==>
        s.error.None? && s.literal.Some? && s.literal.value > 0 && s.pos < |input|
  {
    if s.error.None? && s.literal.None? {
      var t := SkipSpaces(limits.maxToken, s, input);
      if t.error.None? && t.pos < |input| {
        ShapeBegins(mode, input, t.pos, fin);
        ShapeIsNotData(limits, t, ShapeAt(mode, input, t.pos, fin), input, fin);
      }
    }
  }

  lemma ShapeIsNotData(limits: Limits, s: LexState, shape: Shape, input: seq<byte>, fin: bool)
    requires s.pos < |input| && Begins(shape, input, s.pos, fin)
    ensures var x := LexShape(limits, s, shape, input, fin); x.result.Got? ==> x.result.token.kind != LiteralData
  {
  }

  /** A call keeps the outcome of every stream that may still follow. */
  lemma CallKeepsOutcome(limits: Limits, client: Client, r: Run, full: seq<byte>, fin: bool)
    requires LiteralBlind(client)
    requires r.state.pos <= |r.received| && MayBecome(r, full, fin)
    ensures var next := Do(limits, client, r, Call);
      next.state.pos <= |full| && Completed(limits, client, next, full, fin) == Completed(limits, client, r, full, fin)
  {
    if r.ending.None? {
      var s, mode := r.state, client.mode(r.tokens);
      var x := Next(limits, s, mode, r.received, r.finished);
      NextProgress(limits, s, mode, r.received, r.finished);
      if !r.finished {
        DataOnlyInLiterals(limits, s, mode, r.received, false);
        if x.result.Got? && x.result.token.kind == LiteralData {
          PieceThenRestOfLiteral(limits, client, s, r.tokens, r.received, full, fin);
        } else {
          NextStable(limits, s, mode, r.received, full, fin);
        }
      }
    }
  }

  /** Chunk independence, as an invariant of every run: after any actions in any order, completing the
      run with any stream it may still be reading gives what reading that stream at once gives. */
  lemma {:induction false} EveryRunReadsTheOneStream(limits: Limits, client: Client, actions: seq<Action>, full: seq<byte>, fin: bool)
    requires LiteralBlind(client)
    requires MayBecome(DoAll(limits, client, actions), full, fin)
    ensures Completed(limits, client, DoAll(limits, client, actions), full, fin) == OneShot(limits, client, full, fin)
    decreases |actions|
  {
    if actions != [] {
      var before := DoAll(limits, client, actions[..|actions| - 1]);
      EveryRunReadsTheOneStream(limits, client, actions[..|actions| - 1], full, fin);
      if actions[|actions| - 1] == Call {
        CallKeepsOutcome(limits, client, before, full, fin);
      }
    }
  }

  /** A run that has ended has the tokens and the ending of its input read at once. */
  lemma EndedRunIsOneShot(limits: Limits, client: Client, actions: seq<Action>)
    requires LiteralBlind(client)
    requires DoAll(limits, client, actions).ending.Some?
    ensures var r := DoAll(limits, client, actions);
      Tokenized(r.tokens, r.ending.value) == OneShot(limits, client, r.received, true)
  {
    EveryRunReadsTheOneStream(limits, client, actions, DoAll(limits, client, actions).received, true);
  }

  /** Two ways of cutting one stream, each read to its end, agree. */
  lemma TwoCutsAgree(limits: Limits, client: Client, a: seq<Action>, b: seq<Action>)
    requires LiteralBlind(client)
    requires DoAll(limits, client, a).ending.Some? && DoAll(limits, client, b).ending.Some?
    requires DoAll(limits, client, a).received == DoAll(limits, client, b).received
    ensures DoAll(limits, client, a).tokens == DoAll(limits, client, b).tokens
    ensures DoAll(limits, client, a).ending == DoAll(limits, client, b).ending
  {
    EndedRunIsOneShot(limits, client, a);
    EndedRunIsOneShot(limits, client, b);
  }

  /** Every run can be brought to its end: once the input is declared finished, `Work + 1` further
      calls suffice. */
  lemma {:induction false} CallsEndTheRun(limits: Limits, client: Client, actions: seq<Action>, n: nat)
    requires DoAll(limits, client, actions).finished
    requires var r := DoAll(limits, client, actions); r.ending.Some? || n > Work(r.state, |r.received|)
    ensures var r := DoAll(limits, client, actions + seq(n, _ => Call));
      r.ending.Some? && r.received == DoAll(limits, client, actions).received
    decreases n
  {
    var r := DoAll(limits, client, actions);
    if n == 0 {
      assert actions + seq(n, _ => Call) == actions;
    } else {
      var next := actions + [Call];
      assert next[..|actions|] == actions;
      NextProgress(limits, r.state, client.mode(r.tokens), r.received, true);
      CallsEndTheRun(limits, client, next, n - 1);
      assert actions + seq(n, _ => Call) == next + seq(n - 1, _ => Call);
    }
  }
}
