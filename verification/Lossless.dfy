/** Tokenizing loses nothing: at every point of every run the tokens, each preceded by its spaces, and
    the spaces still pending, are exactly the bytes consumed; and every literal is delivered whole. */
module Lossless {
  import opened Tokens
  import opened LexSpec
  import opened Stability
  import opened ChunkIndependence

  // ---- Tokens that tile the input ----

  ghost predicate SpacesAt(input: seq<byte>, p: nat, q: nat)
    requires q <= |input|
  {
    forall i :: p <= i < q ==> input[i] == SP
  }

  /** The tokens, each preceded by its spaces, and then `spaces` more spaces cover `input[..pos]`
      without gap or overlap, and each token's offset is where its bytes stand. */
  ghost predicate Tiles(tokens: seq<Token>, input: seq<byte>, pos: nat, spaces: nat) {
    && spaces <= pos <= |input|
    && SpacesAt(input, pos - spaces, pos)
    && if tokens == [] then pos == spaces
       else
         var t := tokens[|tokens| - 1];
         && t.offset <= pos - spaces
         && t.Bytes() == input[t.offset .. pos - spaces]
         && Tiles(tokens[..|tokens| - 1], input, t.offset, t.spaces)
  }

  /** All that was consumed is in the tokens or is a pending space. */
  ghost predicate Accounted(s: LexState, tokens: seq<Token>, input: seq<byte>) {
    Tiles(tokens, input, s.pos, s.spaces) && (s.literal.Some? ==> s.spaces == 0)
  }

  function Blanks(n: nat): seq<byte> {
    seq(n, _ => SP)
  }

  /** What the server sent, put together again from the tokens. */
  function Printed(tokens: seq<Token>): seq<byte> {
    if tokens == [] then []
    else
      var t := tokens[|tokens| - 1];
      Printed(tokens[..|tokens| - 1]) + Blanks(t.spaces) + t.Bytes()
  }

  lemma {:induction false} TilesPrint(tokens: seq<Token>, input: seq<byte>, pos: nat, spaces: nat)
    requires Tiles(tokens, input, pos, spaces)
    ensures Printed(tokens) + Blanks(spaces) == input[..pos]
    ensures Printed(tokens) == input[..pos - spaces]
    decreases |tokens|
  {
    assert Blanks(spaces) == input[pos - spaces .. pos];
    if tokens != [] {
      var t := tokens[|tokens| - 1];
      TilesPrint(tokens[..|tokens| - 1], input, t.offset, t.spaces);
      assert input[..pos - spaces] == input[..t.offset] + input[t.offset .. pos - spaces];
    }
    assert input[..pos] == input[..pos - spaces] + input[pos - spaces .. pos];
  }

  lemma {:induction false} TilesLocate(tokens: seq<Token>, input: seq<byte>, pos: nat, spaces: nat, i: nat)
    requires Tiles(tokens, input, pos, spaces) && i < |tokens|
    ensures var t := tokens[i];
      t.offset + |t.Bytes()| <= |input| && input[t.offset .. t.offset + |t.Bytes()|] == t.Bytes()
    decreases |tokens|
  {
    var t := tokens[|tokens| - 1];
    if i < |tokens| - 1 {
      TilesLocate(tokens[..|tokens| - 1], input, t.offset, t.spaces, i);
    }
  }

  lemma {:induction false} TilesGrow(tokens: seq<Token>, input: seq<byte>, more: seq<byte>, pos: nat, spaces: nat)
    requires input <= more && Tiles(tokens, input, pos, spaces)
    ensures Tiles(tokens, more, pos, spaces)
    decreases |tokens|
  {
    if tokens != [] {
      var t := tokens[|tokens| - 1];
      SliceStable(input, more, t.offset, pos - spaces);
      TilesGrow(tokens[..|tokens| - 1], input, more, t.offset, t.spaces);
    }
  }

  /** Joining the pieces of a literal keeps the tiling. */
  lemma TilesMerge(tokens: seq<Token>, t: Token, input: seq<byte>, pos: nat, spaces: nat)
    requires Tiles(tokens + [t], input, pos, spaces)
    requires t.kind == LiteralData ==> t.spaces == 0
    ensures Tiles(Merge(tokens, t), input, pos, spaces)
  {
    assert (tokens + [t])[..|tokens|] == tokens;
    if t.kind == LiteralData && tokens != [] && tokens[|tokens| - 1].kind == LiteralData {
      var last := tokens[|tokens| - 1];
      var merged := Merge(tokens, t);
      assert merged[..|merged| - 1] == tokens[..|tokens| - 1];
      assert input[last.offset .. pos - spaces] == input[last.offset .. t.offset] + input[t.offset .. pos - spaces];
    }
  }

  // ---- One call ----

  /** Where a token's bytes stand. */
  ghost predicate Located(s: LexState, x: Lexed, input: seq<byte>) {
    x.result.Got? ==>
      var t := x.result.token;
      && s.pos <= t.offset <= x.after.pos <= |input|
      && t.offset - t.spaces == s.pos - s.spaces
      && SpacesAt(input, s.pos, t.offset)
      && t.Bytes() == input[t.offset .. x.after.pos]
      && x.after.spaces == 0
      && (s.literal.Some? ==> t.spaces == s.spaces)
      && (t.kind == LiteralData ==> s.literal.Some?)
  }

  lemma {:induction false} SkipSpacesCounts(max: nat, s: LexState, input: seq<byte>)
    requires s.pos <= |input|
    ensures var t := SkipSpaces(max, s, input);
      && t.pos - t.spaces == s.pos - s.spaces
      && SpacesAt(input, s.pos, t.pos)
      && t.spaces >= s.spaces
      && (t.pos > s.pos ==> !t.lineStart)
      && (t.pos == s.pos && t.error.None? ==> t == s)
    decreases |input| - s.pos
  {
    if s.pos < |input| && input[s.pos] == SP && s.spaces < max {
      SkipSpacesCounts(max, s.(pos := s.pos + 1, spaces := s.spaces + 1, lineStart := false), input);
    }
  }

  lemma ClassifiedLocated(s: LexState, classify: bool, input: seq<byte>, end: nat)
    requires s.pos <= end <= |input|
    ensures Located(s, Classified(s, classify, input[s.pos .. end]), input)
    ensures var x := Classified(s, classify, input[s.pos .. end]); x.result.Got? ==> x.result.token.spaces == s.spaces
  {
  }

  lemma AtomLocated(limits: Limits, s: LexState, chars: LexMode, classify: bool, input: seq<byte>, fin: bool)
    requires s.pos < |input| && s.literal.None?
    ensures Located(s, LexAtom(limits, s, chars, classify, input, fin), input)
  {
    var scan := AtomScan(input, s.pos, s.pos, chars, limits.maxToken);
    if scan.Stop? { ClassifiedLocated(s, classify, input, scan.at); }
  }

  lemma QuotedLocated(limits: Limits, s: LexState, input: seq<byte>, fin: bool)
    requires s.pos < |input| && s.literal.None?
    ensures Located(s, LexQuoted(limits, s, input, fin), input)
  {
  }

  lemma HeaderLocated(limits: Limits, s: LexState, binary: bool, input: seq<byte>, fin: bool)
    requires s.pos < |input| && (binary ==> s.pos + 1 < |input|) && s.literal.None?
    ensures Located(s, LexHeader(limits, s, binary, input, fin), input)
  {
  }

  lemma ShapeLocated(limits: Limits, s: LexState, shape: Shape, input: seq<byte>, fin: bool)
    requires s.pos < |input| && Begins(shape, input, s.pos, fin) && s.literal.None?
    ensures Located(s, LexShape(limits, s, shape, input, fin), input)
  {
    match shape
    case LineEnd =>
      assert s.pos + 1 < |input| ==> input[s.pos .. s.pos + 2] == [input[s.pos], input[s.pos + 1]];
    case Word(chars, classify) => AtomLocated(limits, s, chars, classify, input, fin);
    case QuotedString => QuotedLocated(limits, s, input, fin);
    case LiteralHeader(binary) => HeaderLocated(limits, s, binary, input, fin);
    case Opener(_) => assert input[s.pos .. s.pos + 1] == [input[s.pos]];
    case Closer(_) => assert input[s.pos .. s.pos + 1] == [input[s.pos]];
    case _ =>
  }

  lemma LiteralLocated(s: LexState, input: seq<byte>, fin: bool)
    requires s.literal.Some? && s.pos <= |input|
    ensures Located(s, LexLiteral(s, input, fin), input)
  {
  }

  /** Located past the spaces is located before them. */
  lemma LocatedFrom(s: LexState, t: LexState, x: Lexed, input: seq<byte>)
    requires Located(t, x, input) && s.literal.None? && t.literal.None?
    requires s.pos <= t.pos <= |input| && SpacesAt(input, s.pos, t.pos) && t.pos - t.spaces == s.pos - s.spaces
    ensures Located(s, x, input)
  {
  }

  lemma NextLocated(limits: Limits, s: LexState, mode: LexMode, input: seq<byte>, fin: bool)
    requires s.pos <= |input|
    ensures Located(s, Next(limits, s, mode, input, fin), input)
  {
    if s.error.None? && s.literal.None? {
      var t := SkipSpaces(limits.maxToken, s, input);
      SkipSpacesCounts(limits.maxToken, s, input);
      if t.error.None? && t.pos < |input| {
        var shape := ShapeAt(mode, input, t.pos, fin);
        ShapeBegins(mode, input, t.pos, fin);
        ShapeLocated(limits, t, shape, input, fin);
        LocatedFrom(s, t, LexShape(limits, t, shape, input, fin), input);
      }
    } else if s.error.None? {
      LiteralLocated(s, input, fin);
    }
  }

  /** Without a token, a call only counts spaces; the input ends cleanly only between lines, with no
      space pending. */
  ghost predicate OnlySpaces(s: LexState, x: Lexed, input: seq<byte>) {
    && (x.result.NeedMore? || x.result.EndOfInput? ==>
          && s.pos <= x.after.pos <= |input|
          && x.after.pos - x.after.spaces == s.pos - s.spaces
          && SpacesAt(input, s.pos, x.after.pos)
          && (s.literal.Some? ==> x.after == s))
    && (x.result.EndOfInput? ==>
          s.lineStart && s.literal.None? && x.after == s && s.spaces == 0 && s.pos == |input|)
  }

  lemma ShapeOnlyWaits(limits: Limits, s: LexState, shape: Shape, input: seq<byte>, fin: bool)
    requires s.pos < |input| && Begins(shape, input, s.pos, fin)
    ensures var x := LexShape(limits, s, shape, input, fin);
      !x.result.EndOfInput? && (x.result.NeedMore? ==> x.after == s)
  {
    match shape
    case Word(chars, classify) =>
      var scan := AtomScan(input, s.pos, s.pos, chars, limits.maxToken);
    case _ =>
  }

  lemma NextWithoutToken(limits: Limits, s: LexState, mode: LexMode, input: seq<byte>, fin: bool)
    requires s.pos <= |input|
    ensures OnlySpaces(s, Next(limits, s, mode, input, fin), input)
  {
    if s.error.None? && s.literal.None? {
      var t := SkipSpaces(limits.maxToken, s, input);
      SkipSpacesCounts(limits.maxToken, s, input);
      if t.error.None? && t.pos < |input| {
        ShapeBegins(mode, input, t.pos, fin);
        ShapeOnlyWaits(limits, t, ShapeAt(mode, input, t.pos, fin), input, fin);
      }
    }
  }

  // ---- Literals, one token at a time ----

  datatype Track = Outside | Inside(left: nat) | Broken

  /** How a token moves the delivery of literals. */
  function Tracked(track: Track, t: Token): Track {
    match track
    case Outside =>
      if t.kind == LiteralBegin then Inside(t.number)
      else if t.kind == LiteralData || t.kind == LiteralEnd then Broken
      else Outside
    case Inside(left) =>
      if t.kind == LiteralData && 0 < |t.data| <= left then Inside(left - |t.data|)
      else if t.kind == LiteralEnd && left == 0 then Outside
      else Broken
    case Broken => Broken
  }

  function TrackIn(s: LexState): Track {
    if s.literal.Some? then Inside(s.literal.value) else Outside
  }

  ghost predicate Tracks(limits: Limits, s: LexState, x: Lexed) {
    && (x.result.Got? ==> TrackIn(x.after) == Tracked(TrackIn(s), x.result.token))
    && (x.result.Got? && x.result.token.kind == LiteralBegin ==> x.result.token.number <= limits.maxLiteral)
    && (x.result.NeedMore? ==> TrackIn(x.after) == TrackIn(s))
  }

  lemma HeaderTracks(limits: Limits, s: LexState, binary: bool, input: seq<byte>, fin: bool)
    requires s.pos < |input| && (binary ==> s.pos + 1 < |input|) && s.literal.None?
    ensures Tracks(limits, s, LexHeader(limits, s, binary, input, fin))
  {
  }

  lemma ShapeTracks(limits: Limits, s: LexState, shape: Shape, input: seq<byte>, fin: bool)
    requires s.pos < |input| && Begins(shape, input, s.pos, fin) && s.literal.None?
    ensures Tracks(limits, s, LexShape(limits, s, shape, input, fin))
  {
    if shape.LiteralHeader? { HeaderTracks(limits, s, shape.binary, input, fin); }
  }

  lemma NextTracks(limits: Limits, s: LexState, mode: LexMode, input: seq<byte>, fin: bool)
    requires s.pos <= |input|
    ensures Tracks(limits, s, Next(limits, s, mode, input, fin))
  {
    if s.error.None? && s.literal.None? {
      var t := SkipSpaces(limits.maxToken, s, input);
      if t.error.None? && t.pos < |input| {
        ShapeBegins(mode, input, t.pos, fin);
        ShapeTracks(limits, t, ShapeAt(mode, input, t.pos, fin), input, fin);
      }
    }
  }

  // ---- What every answer of the lexer keeps ----

  /** All that the theorems about runs need to know of an answer. */
  ghost predicate Faithful(limits: Limits, s: LexState, x: Lexed, input: seq<byte>, fin: bool) {
    Progresses(s, x, |input|, fin) && Located(s, x, input) && OnlySpaces(s, x, input) && Tracks(limits, s, x)
  }

  lemma NextIsFaithful(limits: Limits, s: LexState, mode: LexMode, input: seq<byte>, fin: bool)
    requires s.pos <= |input|
    ensures Faithful(limits, s, Next(limits, s, mode, input, fin), input, fin)
  {
    NextProgress(limits, s, mode, input, fin);
    NextLocated(limits, s, mode, input, fin);
    NextWithoutToken(limits, s, mode, input, fin);
    NextTracks(limits, s, mode, input, fin);
  }

  /** A faithful answer keeps every byte accounted for. */
  lemma AnswerIsLossless(limits: Limits, s: LexState, x: Lexed, input: seq<byte>, fin: bool, tokens: seq<Token>)
    requires Accounted(s, tokens, input) && Faithful(limits, s, x, input, fin)
    ensures x.result.Got? ==> Accounted(x.after, tokens + [x.result.token], input)
    ensures x.result.Got? && x.result.token.kind == LiteralData ==> x.result.token.spaces == 0
    ensures x.result.NeedMore? || x.result.EndOfInput? ==> Accounted(x.after, tokens, input)
  {
    if x.result.Got? {
      var t := x.result.token;
      assert (tokens + [t])[..|tokens|] == tokens;
      MoreSpaces(tokens, input, s.pos, s.spaces, t.offset, t.spaces);
    } else if x.result.NeedMore? || x.result.EndOfInput? {
      MoreSpaces(tokens, input, s.pos, s.spaces, x.after.pos, x.after.spaces);
    }
  }

  lemma MoreSpaces(tokens: seq<Token>, input: seq<byte>, pos: nat, spaces: nat, pos': nat, spaces': nat)
    requires Tiles(tokens, input, pos, spaces)
    requires pos <= pos' <= |input| && SpacesAt(input, pos, pos') && pos - spaces == pos' - spaces'
    ensures Tiles(tokens, input, pos', spaces')
  {
  }

  // ---- Whole runs ----

  ghost predicate TilesSomewhere(tokens: seq<Token>, input: seq<byte>) {
    exists pos: nat, spaces: nat :: Tiles(tokens, input, pos, spaces)
  }

  ghost predicate RunLossless(r: Run) {
    match r.ending
    case None => Accounted(r.state, r.tokens, r.received)
    case Some(Clean) => Tiles(r.tokens, r.received, |r.received|, 0) && r.finished
    case Some(_) => TilesSomewhere(r.tokens, r.received)
  }

  /** Every run is lossless: until it ends the tokens and the pending spaces are the input up to the
      lexer's offset, a clean end accounts for all of the input, and after a failure the tokens are
      still a prefix of it. */
  lemma EveryRunIsLossless(limits: Limits, client: Client, actions: seq<Action>)
    ensures PrintsInput(DoAll(limits, client, actions))
  {
    RunsStayLossless(limits, client, actions);
    LosslessPrints(DoAll(limits, client, actions));
  }

  ghost predicate PrintsInput(r: Run) {
    && (r.ending.None? ==>
          r.state.pos <= |r.received| && Printed(r.tokens) + Blanks(r.state.spaces) == r.received[..r.state.pos])
    && (r.ending == Some(Clean) ==> Printed(r.tokens) == r.received && r.finished)
    && Printed(r.tokens) <= r.received
  }

  lemma LosslessPrints(r: Run)
    requires RunLossless(r)
    ensures PrintsInput(r)
  {
    match r.ending
    case None => TilesPrint(r.tokens, r.received, r.state.pos, r.state.spaces);
    case Some(Clean) => TilesPrint(r.tokens, r.received, |r.received|, 0);
    case Some(_) =>
      var pos: nat, spaces: nat :| Tiles(r.tokens, r.received, pos, spaces);
      TilesPrint(r.tokens, r.received, pos, spaces);
  }

  /** And every token's offset is where its bytes stand in the stream. */
  lemma EveryTokenIsLocated(limits: Limits, client: Client, actions: seq<Action>, i: nat)
    requires i < |DoAll(limits, client, actions).tokens|
    ensures var r := DoAll(limits, client, actions); var t := r.tokens[i];
      t.offset + |t.Bytes()| <= |r.received| && r.received[t.offset .. t.offset + |t.Bytes()|] == t.Bytes()
  {
    var r := DoAll(limits, client, actions);
    RunsStayLossless(limits, client, actions);
    match r.ending
    case None => TilesLocate(r.tokens, r.received, r.state.pos, r.state.spaces, i);
    case Some(Clean) => TilesLocate(r.tokens, r.received, |r.received|, 0, i);
    case Some(_) =>
      var pos: nat, spaces: nat :| Tiles(r.tokens, r.received, pos, spaces);
      TilesLocate(r.tokens, r.received, pos, spaces, i);
  }

  lemma {:induction false} RunsStayLossless(limits: Limits, client: Client, actions: seq<Action>)
    ensures RunLossless(DoAll(limits, client, actions))
    decreases |actions|
  {
    if actions != [] {
      RunsStayLossless(limits, client, actions[..|actions| - 1]);
      StepIsLossless(limits, client, DoAll(limits, client, actions[..|actions| - 1]), actions[|actions| - 1]);
    }
  }

  lemma AnsweredIsLossless(limits: Limits, client: Client, r: Run, x: Lexed)
    requires Accounted(r.state, r.tokens, r.received) && r.ending.None?
    requires Faithful(limits, r.state, x, r.received, r.finished)
    ensures RunLossless(Answered(client, r, x))
  {
    assert TilesSomewhere(r.tokens, r.received) by {
      assert Tiles(r.tokens, r.received, r.state.pos, r.state.spaces);
    }
    if x.result.Got? {
      TokenIsLossless(limits, r, x);
    } else {
      AnswerIsLossless(limits, r.state, x, r.received, r.finished, r.tokens);
    }
  }

  lemma TokenIsLossless(limits: Limits, r: Run, x: Lexed)
    requires Accounted(r.state, r.tokens, r.received) && x.result.Got?
    requires Faithful(limits, r.state, x, r.received, r.finished)
    ensures Accounted(x.after, Merge(r.tokens, x.result.token), r.received)
  {
    AnswerIsLossless(limits, r.state, x, r.received, r.finished, r.tokens);
    MergeIsLossless(x.after, r.tokens, x.result.token, r.received);
  }

  lemma MergeIsLossless(s: LexState, tokens: seq<Token>, t: Token, input: seq<byte>)
    requires Accounted(s, tokens + [t], input) && (t.kind == LiteralData ==> t.spaces == 0)
    ensures Accounted(s, Merge(tokens, t), input)
  {
    TilesMerge(tokens, t, input, s.pos, s.spaces);
  }

  lemma FeedIsLossless(r: Run, bytes: seq<byte>)
    requires RunLossless(r) && !r.finished
    ensures RunLossless(r.(received := r.received + bytes))
  {
    match r.ending
    case None => TilesGrow(r.tokens, r.received, r.received + bytes, r.state.pos, r.state.spaces);
    case Some(Clean) =>
    case Some(_) =>
      var pos: nat, spaces: nat :| Tiles(r.tokens, r.received, pos, spaces);
      TilesGrow(r.tokens, r.received, r.received + bytes, pos, spaces);
  }

  lemma StepIsLossless(limits: Limits, client: Client, r: Run, action: Action)
    requires r.state.pos <= |r.received| && RunLossless(r)
    ensures RunLossless(Do(limits, client, r, action))
  {
    match action
    case Finish =>
    case Feed(bytes) =>
      if !r.finished {
        FeedIsLossless(r, bytes);
      }
    case Call =>
      if r.ending.None? {
        NextIsFaithful(limits, r.state, client.mode(r.tokens), r.received, r.finished);
        AnsweredIsLossless(limits, client, r, CallAnswer(limits, client, r));
      }
  }

  // ---- Literals over whole runs ----

  function TrackOf(tokens: seq<Token>): Track {
    if tokens == [] then Outside
    else Tracked(TrackOf(tokens[..|tokens| - 1]), tokens[|tokens| - 1])
  }

  ghost predicate NoAdjacentData(tokens: seq<Token>) {
    forall i :: 0 < i < |tokens| && tokens[i].kind == LiteralData ==> tokens[i - 1].kind != LiteralData
  }

  ghost predicate LiteralsBounded(limits: Limits, tokens: seq<Token>) {
    forall i :: 0 <= i < |tokens| && tokens[i].kind == LiteralBegin ==> tokens[i].number <= limits.maxLiteral
  }

  lemma MergeTracks(tokens: seq<Token>, t: Token)
    requires Tracked(TrackOf(tokens), t) != Broken && NoAdjacentData(tokens)
    ensures TrackOf(Merge(tokens, t)) == Tracked(TrackOf(tokens), t)
    ensures NoAdjacentData(Merge(tokens, t))
  {
    var merged := Merge(tokens, t);
    if t.kind == LiteralData && tokens != [] && tokens[|tokens| - 1].kind == LiteralData {
      assert merged[..|merged| - 1] == tokens[..|tokens| - 1];
    } else {
      assert merged[..|merged| - 1] == tokens;
    }
  }

  lemma MergeStaysBounded(limits: Limits, tokens: seq<Token>, t: Token)
    requires LiteralsBounded(limits, tokens) && (t.kind == LiteralBegin ==> t.number <= limits.maxLiteral)
    ensures LiteralsBounded(limits, Merge(tokens, t))
  {
  }

  ghost predicate RunTracks(limits: Limits, r: Run) {
    && TrackOf(r.tokens) != Broken
    && (r.ending.None? ==> TrackOf(r.tokens) == TrackIn(r.state))
    && (r.ending == Some(Clean) ==> TrackOf(r.tokens) == Outside)
    && NoAdjacentData(r.tokens) && LiteralsBounded(limits, r.tokens)
  }

  lemma TokenTracks(limits: Limits, r: Run, t: Token, after: LexState)
    requires RunTracks(limits, r) && r.ending.None?
    requires TrackIn(after) == Tracked(TrackIn(r.state), t)
    requires t.kind == LiteralBegin ==> t.number <= limits.maxLiteral
    ensures RunTracks(limits, r.(state := after, tokens := Merge(r.tokens, t)))
  {
    MergeTracks(r.tokens, t);
    MergeStaysBounded(limits, r.tokens, t);
  }

  lemma AnsweredTracks(limits: Limits, client: Client, r: Run, x: Lexed)
    requires RunTracks(limits, r) && r.ending.None?
    requires Tracks(limits, r.state, x) && (x.result.EndOfInput? ==> r.state.literal.None?)
    ensures RunTracks(limits, Answered(client, r, x))
  {
    if x.result.Got? { TokenTracks(limits, r, x.result.token, x.after); }
  }

  lemma {:induction false} EveryRunTracksLiterals(limits: Limits, client: Client, actions: seq<Action>)
    ensures RunTracks(limits, DoAll(limits, client, actions))
    decreases |actions|
  {
    if actions != [] {
      var r := DoAll(limits, client, actions[..|actions| - 1]);
      EveryRunTracksLiterals(limits, client, actions[..|actions| - 1]);
      if actions[|actions| - 1] == Call && r.ending.None? {
        NextTracks(limits, r.state, client.mode(r.tokens), r.received, r.finished);
        NextWithoutToken(limits, r.state, client.mode(r.tokens), r.received, r.finished);
        AnsweredTracks(limits, client, r, CallAnswer(limits, client, r));
      }
    }
  }

  /** Where the delivery of literals stands before token `k`. */
  function TrackAt(tokens: seq<Token>, k: nat): Track
    requires k <= |tokens|
  {
    if k == 0 then Outside else Tracked(TrackAt(tokens, k - 1), tokens[k - 1])
  }

  lemma {:induction false} TrackOfPrefix(tokens: seq<Token>, k: nat)
    requires k <= |tokens|
    ensures TrackOf(tokens[..k]) == TrackAt(tokens, k)
    decreases k
  {
    if k > 0 {
      TrackOfPrefix(tokens, k - 1);
      assert tokens[..k][..k - 1] == tokens[..k - 1];
    }
  }

  lemma {:induction false} NeverBroken(tokens: seq<Token>, k: nat)
    requires k <= |tokens| && TrackAt(tokens, |tokens|) != Broken
    ensures TrackAt(tokens, k) != Broken
    decreases |tokens| - k
  {
    if k < |tokens| { NeverBroken(tokens, k + 1); }
  }

  lemma WholeTrack(tokens: seq<Token>, k: nat)
    requires k <= |tokens| && TrackOf(tokens) != Broken
    ensures TrackAt(tokens, k) != Broken
  {
    TrackOfPrefix(tokens, |tokens|);
    assert tokens[..|tokens|] == tokens;
    NeverBroken(tokens, k);
  }

  /** The tokens up to `end` announce a literal and deliver it whole. */
  ghost predicate Delivered(limits: Limits, tokens: seq<Token>, end: nat)
    requires end < |tokens|
  {
    || (end >= 1 && tokens[end - 1].kind == LiteralBegin && tokens[end - 1].number == 0)
    || (end >= 2 && tokens[end - 2].kind == LiteralBegin && tokens[end - 1].kind == LiteralData
        && 0 < |tokens[end - 1].data| == tokens[end - 2].number <= limits.maxLiteral)
  }

  /** Inside a literal with `n` bytes to come: it has just been announced, or a piece of it has come. */
  lemma InsideCameFrom(tokens: seq<Token>, k: nat, n: nat)
    requires k <= |tokens| && TrackAt(tokens, k) == Inside(n)
    ensures k > 0
    ensures var t := tokens[k - 1];
      || (t.kind == LiteralBegin && t.number == n)
      || (t.kind == LiteralData && |t.data| > 0 && TrackAt(tokens, k - 1) == Inside(n + |t.data|))
  {
  }

  lemma EndComesAfterAll(limits: Limits, tokens: seq<Token>, end: nat)
    requires NoAdjacentData(tokens) && LiteralsBounded(limits, tokens)
    requires end < |tokens| && tokens[end].kind == LiteralEnd && TrackAt(tokens, end + 1) != Broken
    ensures Delivered(limits, tokens, end)
  {
    InsideCameFrom(tokens, end, 0);
    if tokens[end - 1].kind == LiteralData {
      InsideCameFrom(tokens, end - 1, |tokens[end - 1].data|);
    }
  }

  /** Literal conservation, for every run whatever the content, the chunking and the modes asked for:
      a literal that is announced with `n` bytes, `n` within the limit, delivers exactly `n` bytes of
      content, in one merged piece (none when `n` is zero), and nothing but that stands between its
      announcement and its end. */
  lemma LiteralsAreConserved(limits: Limits, client: Client, actions: seq<Action>, end: nat)
    requires end < |DoAll(limits, client, actions).tokens|
    requires DoAll(limits, client, actions).tokens[end].kind == LiteralEnd
    ensures Delivered(limits, DoAll(limits, client, actions).tokens, end)
  {
    var tokens := DoAll(limits, client, actions).tokens;
    EveryRunTracksLiterals(limits, client, actions);
    WholeTrack(tokens, end + 1);
    EndComesAfterAll(limits, tokens, end);
  }

  /** After the announcement at `i`, and before its end, only content has come. */
  ghost predicate Delivering(tokens: seq<Token>, i: nat)
    requires i + 1 < |tokens|
  {
    if tokens[i].number == 0 then tokens[i + 1].kind == LiteralEnd
    else
      && tokens[i + 1].kind == LiteralData
      && (if i + 2 < |tokens| then |tokens[i + 1].data| == tokens[i].number && tokens[i + 2].kind == LiteralEnd
          else |tokens[i + 1].data| <= tokens[i].number)
  }

  lemma AnnouncementIsFollowed(tokens: seq<Token>, i: nat)
    requires NoAdjacentData(tokens) && i + 1 < |tokens| && tokens[i].kind == LiteralBegin
    requires TrackAt(tokens, i + 2) != Broken && (i + 2 < |tokens| ==> TrackAt(tokens, i + 3) != Broken)
    ensures Delivering(tokens, i)
  {
    assert TrackAt(tokens, i + 1) == Inside(tokens[i].number);
  }

  /** And after an announcement only content or, once all of it has come, the end can follow. */
  lemma OnlyContentFollowsAnnouncement(limits: Limits, client: Client, actions: seq<Action>, i: nat)
    requires i + 1 < |DoAll(limits, client, actions).tokens|
    requires DoAll(limits, client, actions).tokens[i].kind == LiteralBegin
    ensures Delivering(DoAll(limits, client, actions).tokens, i)
  {
    var tokens := DoAll(limits, client, actions).tokens;
    EveryRunTracksLiterals(limits, client, actions);
    WholeTrack(tokens, i + 2);
    if i + 2 < |tokens| { WholeTrack(tokens, i + 3); }
    AnnouncementIsFollowed(tokens, i);
  }
}
