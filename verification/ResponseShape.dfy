/** The response-shape state machine: it knows as much IMAP as choosing the lexer's mode requires, and
    it is a client of the lexer in the sense of module ChunkIndependence. */
module ResponseShape {
  import opened Tokens
  import opened ChunkIndependence

  datatype State = Start | Second | RespText | CodeName | CodeArgs | CodeText | CodeClose | TextRest | Data

  datatype ResponseKind = NoResponse | Tagged | Untagged | Continuation

  /** Where the reader is in a response. `codeDepth` counts the brackets open in a structured code. */
  datatype Progress = Progress(state: State, kind: ResponseKind, codeDepth: int)

  const BETWEEN := Progress(Start, NoResponse, 0)

  function ModeFor(state: State): LexMode {
    match state
    case RespText => RespTextMode
    case CodeName => CodeNameMode
    case CodeText => CodeTextMode
    case CodeClose => CodeTextMode
    case TextRest => TextMode
    case _ => NormalMode
  }

  predicate IsStatus(t: Token) {
    || t.IsAtom(Ascii("OK")) || t.IsAtom(Ascii("NO")) || t.IsAtom(Ascii("BAD"))
    || t.IsAtom(Ascii("PREAUTH")) || t.IsAtom(Ascii("BYE"))
  }

  const STRUCTURED_CODES: seq<string> := [
    "CAPABILITY", "PERMANENTFLAGS", "BADCHARSET", "UIDVALIDITY", "UIDNEXT",
    "UNSEEN", "HIGHESTMODSEQ", "APPENDUID", "COPYUID", "MODIFIED"]

  predicate IsStructuredCode(t: Token) {
    exists i :: 0 <= i < |STRUCTURED_CODES| && t.IsAtom(Ascii(STRUCTURED_CODES[i]))
  }

  predicate IsLiteral(t: Token) {
    t.kind == LiteralBegin || t.kind == LiteralData || t.kind == LiteralEnd
  }

  datatype Advanced = Advanced(progress: Progress, refused: Option<SyntaxError>)

  /** The first token of a response: a tag, `*` or `+`. */
  function Open(q: Progress, t: Token): Advanced {
    if t.IsAtom(Ascii("*")) then Advanced(q.(kind := Untagged, state := Second), None)
    else if t.IsAtom(Ascii("+")) then Advanced(q.(kind := Continuation, state := TextRest), None)
    else if t.kind == Atom || t.kind == Number then Advanced(q.(kind := Tagged, state := Second), None)
    else Advanced(q, Some(SyntaxError(UnexpectedToken, t.offset)))
  }

  /** How a token that is neither literal nor line end moves a response that has begun. */
  function Within(q: Progress, t: Token): Progress {
    match q.state
    case Second => q.(state := if IsStatus(t) then RespText else Data)
    case RespText => q.(state := if t.kind == LBracket then CodeName else TextRest)
    case CodeName =>
      if t.kind == RBracket then q.(state := TextRest)
      else if t.kind == Atom && IsStructuredCode(t) then q.(state := CodeArgs, codeDepth := 1)
      else if t.kind == Atom then q.(state := CodeText)
      else q.(state := CodeClose)
    case CodeArgs =>
      if t.kind == LBracket then q.(codeDepth := q.codeDepth + 1)
      else if t.kind == RBracket then
        q.(codeDepth := q.codeDepth - 1, state := if q.codeDepth == 1 then TextRest else CodeArgs)
      else q
    case CodeText => q.(state := if t.kind == RBracket then TextRest else CodeClose)
    case CodeClose => q.(state := if t.kind == RBracket then TextRest else CodeClose)
    case _ => q
  }

  /** Moves the response on by a token, or refuses the token and stays. */
  function Advance(q: Progress, t: Token): Advanced {
    if IsLiteral(t) || t.kind == Eol then
      if q.state == Start then Advanced(q, Some(SyntaxError(UnexpectedToken, t.offset)))
      else if t.kind == Eol then Advanced(q.(state := Start), None)
      else Advanced(q, None)
    else if q.state == Start then Open(q, t)
    else Advanced(Within(q, t), None)
  }

  /** Where the reader is after these tokens. */
  function After(tokens: seq<Token>): Progress {
    if tokens == [] then BETWEEN
    else Advance(After(tokens[..|tokens| - 1]), tokens[|tokens| - 1]).progress
  }

  // ---- The reader as a client of the lexer ----

  const READER: Client := Client(
    tokens => ModeFor(After(tokens).state),
    (tokens, t) => Advance(After(tokens), t).refused)

  /** Merging the pieces of a literal does not show in the reader's progress. */
  lemma MergeAdvances(tokens: seq<Token>, t: Token)
    ensures After(Merge(tokens, t)) == Advance(After(tokens), t).progress
  {
    var merged := Merge(tokens, t);
    if t.kind == LiteralData && tokens != [] && tokens[|tokens| - 1].kind == LiteralData {
      assert merged[..|merged| - 1] == tokens[..|tokens| - 1];
    } else {
      assert merged[..|merged| - 1] == tokens;
    }
  }

  lemma ReaderIsLiteralBlind()
    ensures LiteralBlind(READER)
  {
    forall tokens: seq<Token>, t: Token, u: Token | t.kind == LiteralData && u.kind == LiteralData && READER.verdict(tokens, t).None?
      ensures READER.verdict(Merge(tokens, t), u).None?
    {
      MergeAdvances(tokens, t);
    }
  }
}
