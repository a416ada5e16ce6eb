/** The lexer as it runs, with the two things that `LexSpec` leaves out: a buffer whose used part is thrown
    away, and a memory of how far an unfinished token has been scanned. Every method is proved to compute the one-shot
    function of module LexSpec on all the bytes ever fed, so none of that can be observed. */
module Lexing {
  import opened Tokens
  import opened LexSpec
  import opened Stability
  import opened Lossless

  newtype uint64 = x: int | 0 <= x < 0x1_0000_0000_0000_0000

  const COMPACT_THRESHOLD: nat := 64 * 1024

  // ---- The invariant, on values ----

  /** The memory of an unfinished scan: how many bytes of it count, and under which mode. */
  datatype Resume = Resume(scanning: bool, mode: LexMode, scan: nat, escaped: bool)

  /** Whether the first `scan` bytes at `p` are an accepted prefix of a token of this shape, and if so whether
      they end in a backslash of a quoted string. */
  function Accepted(limits: Limits, shape: Shape, fed: seq<byte>, p: nat, scan: nat): Option<bool>
    requires 1 <= scan && p + scan <= |fed|
  {
    match shape
    case Word(chars, _) =>
      if AtomScan(fed[..p + scan], p, p, chars, limits.maxToken) == Stop(p + scan) then Some(false) else None
    case FreeText(stop) =>
      if TextScan(fed[..p + scan], p, p, stop, limits.maxToken) == Stop(p + scan) then Some(false) else None
    case QuotedString =>
      var found := QuotedScan(fed[..p + scan], p, p + 1, false, limits.maxToken);
      if found.Open? then Some(found.escaped) else None
    case LiteralHeader(_) => if scan == 1 then Some(false) else None
    case _ => None
  }

  /** The resume state describes an accepted prefix of a token of this shape that begins at `p`. */
  ghost predicate Partway(limits: Limits, shape: Shape, fed: seq<byte>, p: nat, scan: nat, escaped: bool) {
    1 <= scan && p + scan <= |fed| && Accepted(limits, shape, fed, p, scan) == Some(escaped)
  }

  // A scan that ran to the end of what was fed can be resumed from there.

  lemma WordPartway(limits: Limits, chars: LexMode, classify: bool, fed: seq<byte>, p: nat)
    requires p < |fed| && AtomScan(fed, p, p, chars, limits.maxToken) == Stop(|fed|)
    ensures Partway(limits, Word(chars, classify), fed, p, |fed| - p, false)
  {
    assert fed[..p + (|fed| - p)] == fed;
  }

  lemma TextPartway(limits: Limits, stop: bool, fed: seq<byte>, p: nat)
    requires p < |fed| && TextScan(fed, p, p, stop, limits.maxToken) == Stop(|fed|)
    ensures Partway(limits, FreeText(stop), fed, p, |fed| - p, false)
  {
    assert fed[..p + (|fed| - p)] == fed;
  }

  lemma QuotedPartway(limits: Limits, fed: seq<byte>, p: nat, escaped: bool)
    requires p < |fed| && QuotedScan(fed, p, p + 1, false, limits.maxToken) == Open(escaped)
    ensures Partway(limits, QuotedString, fed, p, |fed| - p, escaped)
  {
    assert fed[..p + (|fed| - p)] == fed;
  }

  ghost predicate ScanKept(limits: Limits, s: LexState, fed: seq<byte>, resume: Resume) {
    if resume.scanning then
      && s.literal.None? && s.pos < |fed| && fed[s.pos] != SP
      && Partway(limits, ShapeAt(resume.mode, fed, s.pos, false), fed, s.pos, resume.scan, resume.escaped)
    else resume.scan == 0 && !resume.escaped
  }

  /** No scan is under way, or one that resumes a token of this shape at `p` is. */
  ghost predicate Carries(limits: Limits, shape: Shape, fed: seq<byte>, p: nat, resume: Resume) {
    if resume.scanning then Partway(limits, shape, fed, p, resume.scan, resume.escaped)
    else resume.scan == 0 && !resume.escaped
  }

  ghost predicate History(s: LexState, fed: seq<byte>, emitted: seq<Token>) {
    if s.error.Some? then TilesSomewhere(emitted, fed)
    else Accounted(s, emitted, fed) && TrackOf(emitted) == TrackIn(s)
  }

  lemma BeginningKept(limits: Limits, s: LexState, fed: seq<byte>, emitted: seq<Token>, resume: Resume)
    requires s == START && fed == [] && emitted == [] && resume == Resume(false, NormalMode, 0, false)
    ensures ScanKept(limits, s, fed, resume) && History(s, fed, emitted)
  {
  }

  /** More input disturbs neither a partial token nor the history. */
  lemma FeedKeeps(limits: Limits, s: LexState, fed: seq<byte>, bytes: seq<byte>, resume: Resume, emitted: seq<Token>)
    requires s.pos <= |fed|
    requires s.error.Some? || ScanKept(limits, s, fed, resume)
    requires History(s, fed, emitted)
    ensures s.error.Some? || ScanKept(limits, s, fed + bytes, resume)
    ensures History(s, fed + bytes, emitted)
  {
    if s.error.Some? {
      var pos: nat, spaces: nat :| Tiles(emitted, fed, pos, spaces);
      TilesGrow(emitted, fed, fed + bytes, pos, spaces);
    } else {
      TilesGrow(emitted, fed, fed + bytes, s.pos, s.spaces);
      if resume.scanning {
        ShapeStable(resume.mode, fed, fed + bytes, s.pos, false);
        assert (fed + bytes)[..s.pos + resume.scan] == fed[..s.pos + resume.scan];
      }
    }
  }

  /** An answer keeps the history. */
  lemma NextKeepsHistory(limits: Limits, s: LexState, mode: LexMode, fed: seq<byte>, fin: bool, emitted: seq<Token>)
    requires s.pos <= |fed| && s.error.None? && History(s, fed, emitted)
    ensures var x := LexSpec.Next(limits, s, mode, fed, fin);
      History(x.after, fed, emitted + if x.result.Got? then [x.result.token] else [])
  {
    NextIsFaithful(limits, s, mode, fed, fin);
    HistoryKept(limits, s, LexSpec.Next(limits, s, mode, fed, fin), fed, fin, emitted);
  }

  lemma HistoryKept(limits: Limits, s: LexState, x: Lexed, fed: seq<byte>, fin: bool, emitted: seq<Token>)
    requires s.error.None? && History(s, fed, emitted) && Faithful(limits, s, x, fed, fin)
    ensures History(x.after, fed, emitted + if x.result.Got? then [x.result.token] else [])
  {
    AnswerIsLossless(limits, s, x, fed, fin, emitted);
    if x.result.Got? {
      assert (emitted + [x.result.token])[..|emitted|] == emitted;
    } else {
      assert emitted + [] == emitted;
      assert Tiles(emitted, fed, s.pos, s.spaces);
    }
  }

  /** After a look at a token of some shape, the resume state fits what is there. */
  lemma ShapeKeepsScan(limits: Limits, s: LexState, mode: LexMode, fed: seq<byte>, fin: bool, resume: Resume)
    requires s.pos < |fed| && fed[s.pos] != SP && s.error.None? && s.literal.None?
    requires var shape := ShapeAt(mode, fed, s.pos, fin); var x := LexShape(limits, s, shape, fed, fin);
      && (x.result.NeedMore? ==> resume.mode == mode && Carries(limits, shape, fed, x.after.pos, resume))
      && (x.result.Got? ==> !resume.scanning && resume.scan == 0 && !resume.escaped)
    ensures var x := LexShape(limits, s, ShapeAt(mode, fed, s.pos, fin), fed, fin);
      x.after.error.Some? || ScanKept(limits, x.after, fed, resume)
  {
    var shape := ShapeAt(mode, fed, s.pos, fin);
    ShapeBegins(mode, fed, s.pos, fin);
    ShapeOnlyWaits(limits, s, shape, fed, fin);
    ShapeProgress(limits, s, shape, fed, fin);
  }

  /** The shape a scan was made for is the shape that is met when it resumes. */
  lemma ScanFitsShape(limits: Limits, s: LexState, mode: LexMode, fed: seq<byte>, fin: bool, resume: Resume)
    requires s.pos < |fed| && ScanKept(limits, s, fed, resume) && (resume.scanning ==> resume.mode == mode)
    ensures Carries(limits, ShapeAt(mode, fed, s.pos, fin), fed, s.pos, resume)
  {
    ShapeStable(mode, fed, fed, s.pos, fin);
  }

  // ---- Words ----

  /** What an atom turns out to be. */
  datatype WordClass = PlainAtom | TheNil | ANumber(value: nat) | TooLarge(at: nat)

  function ClassOf(classify: bool, raw: seq<byte>): WordClass {
    if !classify then PlainAtom
    else if EqualsNil(raw) then TheNil
    else if !AllDigits(raw) then PlainAtom
    else
      match ReadDigits(raw, 0, 0)
      case Overflow(at) => TooLarge(at)
      case Digits(_, value) => ANumber(value)
  }

  /** The token made of an atom, or where its number is too large. */
  lemma ClassifiedAs(s: LexState, classify: bool, raw: seq<byte>)
    ensures var token := Made(s, Atom, raw);
      Classified(s, classify, raw)
      == match ClassOf(classify, raw)
         case PlainAtom => Lexed(Got(token), Consumed(s, |raw|))
         case TheNil => Lexed(Got(token.(kind := Nil)), Consumed(s, |raw|))
         case ANumber(value) => Lexed(Got(token.(kind := Number, number := value)), Consumed(s, |raw|))
         case TooLarge(at) => LexSpec.Fail(s.(spaces := 0), NumberTooLarge, s.pos + at)
  {
  }

  // ---- What an answer leaves behind ----

  /** The counters stay within the limits, and the position within the input. */
  ghost predicate Bounded(limits: Limits, s: LexState, end: nat) {
    s.spaces <= limits.maxToken && s.depth <= limits.maxDepth && s.pos <= end
  }

  lemma AtomBounded(limits: Limits, s: LexState, chars: LexMode, classify: bool, fed: seq<byte>, fin: bool)
    requires Bounded(limits, s, |fed|) && s.pos < |fed|
    ensures Bounded(limits, LexSpec.LexAtom(limits, s, chars, classify, fed, fin).after, |fed|)
  {
    var scan := AtomScan(fed, s.pos, s.pos, chars, limits.maxToken);
    if scan.Stop? { ClassifiedAs(s, classify, fed[s.pos .. scan.at]); }
  }

  lemma ShapeBounded(limits: Limits, s: LexState, shape: Shape, fed: seq<byte>, fin: bool)
    requires Bounded(limits, s, |fed|) && s.pos < |fed| && (shape == LiteralHeader(true) ==> s.pos + 1 < |fed|)
    ensures Bounded(limits, LexShape(limits, s, shape, fed, fin).after, |fed|)
  {
    match shape
    case Word(chars, classify) => AtomBounded(limits, s, chars, classify, fed, fin);
    case _ =>
  }

  lemma LiteralBounded(limits: Limits, s: LexState, fed: seq<byte>, fin: bool)
    requires Bounded(limits, s, |fed|) && s.literal.Some?
    ensures Bounded(limits, LexLiteral(s, fed, fin).after, |fed|)
  {
  }

  /** The shape that is met at a token: a scan under way was made for it. */
  lemma ShapeMet(limits: Limits, s: LexState, mode: LexMode, fed: seq<byte>, fin: bool, resume: Resume) returns (shape: Shape)
    requires s.pos < |fed| && fed[s.pos] != SP && ScanKept(limits, s, fed, resume) && (resume.scanning ==> resume.mode == mode)
    ensures shape == ShapeAt(mode, fed, s.pos, fin)
    ensures Carries(limits, shape, fed, s.pos, resume)
  {
    shape := ShapeAt(mode, fed, s.pos, fin);
    ScanFitsShape(limits, s, mode, fed, fin, resume);
  }

  /** An answer at a token, as an answer of the lexer, and what it leaves of the scan. */
  lemma AnswerHere(limits: Limits, s: LexState, mode: LexMode, fed: seq<byte>, fin: bool, x: Lexed, resume: Resume)
    requires s.pos < |fed| && fed[s.pos] != SP && s.error.None? && s.literal.None? && Bounded(limits, s, |fed|)
    requires x == LexShape(limits, s, ShapeAt(mode, fed, s.pos, fin), fed, fin)
    requires x.result.NeedMore? ==> resume.mode == mode && Carries(limits, ShapeAt(mode, fed, s.pos, fin), fed, x.after.pos, resume)
    requires x.result.Got? ==> !resume.scanning && resume.scan == 0 && !resume.escaped
    ensures x == AfterSpaces(limits, s, mode, fed, fin) && Bounded(limits, x.after, |fed|)
    ensures x.after.error.Some? || ScanKept(limits, x.after, fed, resume)
  {
    ShapeBegins(mode, fed, s.pos, fin);
    ShapeBounded(limits, s, ShapeAt(mode, fed, s.pos, fin), fed, fin);
    ShapeKeepsScan(limits, s, mode, fed, fin, resume);
  }

  /** A failed lexer answers with its error and stays as it is. */
  lemma FailureStays(limits: Limits, s: LexState, mode: LexMode, fed: seq<byte>, fin: bool)
    requires s.pos <= |fed| && s.error.Some?
    ensures LexSpec.Next(limits, s, mode, fed, fin) == Lexed(Failed(s.error.value), s)
  {
  }

  lemma BufferSpaces(buffer: seq<byte>, fed: seq<byte>, base: nat, from: nat, to: nat)
    requires base + |buffer| == |fed| && buffer == fed[base..] && from <= to <= |buffer|
    requires forall i :: from <= i < to ==> buffer[i] == SP
    ensures SpacesAt(fed, base + from, base + to)
  {
    forall i | base + from <= i < base + to
      ensures fed[i] == SP
    {
      assert fed[i] == buffer[i - base];
    }
  }

  /** Skipping comes to an end where there is no space, or one too many. */
  lemma {:induction false} SkippedTo(max: nat, s: LexState, fed: seq<byte>, n: nat)
    requires s.pos + n <= |fed| && SpacesAt(fed, s.pos, s.pos + n) && s.spaces + n <= max
    requires s.pos + n < |fed| && fed[s.pos + n] == SP ==> s.spaces + n == max
    ensures var t := s.(pos := s.pos + n, spaces := s.spaces + n, lineStart := s.lineStart && n == 0);
      SkipSpaces(max, s, fed)
      == if t.pos < |fed| && fed[t.pos] == SP then t.(error := Some(SyntaxError(TokenTooLong, t.pos))) else t
    decreases n
  {
    if n > 0 {
      SkippedTo(max, s.(pos := s.pos + 1, spaces := s.spaces + 1, lineStart := false), fed, n - 1);
    }
  }

  class Lexer {
    const limits: Limits

    var buffer: seq<byte>
    var pos: nat            // buffer[..pos] is used up
    var baseOffset: nat     // how much was thrown away before buffer
    var finished: bool

    var lineStart: bool
    var pendingSpaces: nat
    var depth: nat

    // The memory of an unfinished scan; its bytes are buffer[pos .. pos + scan].
    var scanning: bool
    var scanMode: LexMode
    var scan: nat
    var quotedEscape: bool

    var literalActive: bool
    var literalRemaining: nat

    var failed: bool
    var error: SyntaxError

    ghost var fed: seq<byte>         // every byte ever fed
    ghost var emitted: seq<Token>    // every token ever returned
    ghost var examined: nat          // bytes looked at by the atom, quoted and text loops
    ghost var wasted: nat            // bytes whose scan was dropped because the mode changed

    // ---- The abstract state ----

    function Offset(): nat
      reads this
    {
      baseOffset + pos
    }

    function Buffered(): nat
      reads this
    {
      if pos <= |buffer| then |buffer| - pos else 0
    }

    function State(): LexState
      reads this
    {
      LexState(Offset(), lineStart, pendingSpaces, depth,
               if literalActive then Some(literalRemaining) else None,
               if failed then Some(error) else None)
    }

    /** The buffer is the tail of what was fed. */
    ghost predicate Windowed()
      reads this
    {
      && pos <= |buffer|
      && baseOffset + |buffer| == |fed|
      && buffer == fed[baseOffset..]
    }

    ghost function ResumeState(): Resume
      reads this
    {
      Resume(scanning, scanMode, scan, quotedEscape)
    }

    ghost predicate NotScanning()
      reads this
    {
      !scanning && scan == 0 && !quotedEscape
    }

    /** A scan under way was made for this mode. */
    ghost predicate Scans(mode: LexMode)
      reads this
    {
      failed || (scanning ==> scanMode == mode)
    }

    /** The bytes examined so far are paid for by the bytes consumed or accepted, one for each token,
        one for the failure and those whose scan was dropped. */
    ghost predicate Linear(extra: nat)
      reads this
    {
      if failed then examined <= |fed| + |emitted| + wasted + 1
      else examined <= Offset() + scan + |emitted| + wasted + extra
    }

    ghost predicate Counters()
      reads this
    {
      pendingSpaces <= limits.maxToken && depth <= limits.maxDepth
    }

    ghost predicate Core()
      reads this
    {
      Windowed() && Counters() && (failed || ScanKept(limits, State(), fed, ResumeState()))
    }

    ghost predicate Valid()
      reads this
    {
      Core() && Linear(0) && History(State(), fed, emitted)
    }

    constructor (limits: Limits)
      ensures Valid() && this.limits == limits
      ensures State() == START && fed == [] && emitted == [] && !finished
      ensures examined == 0 && wasted == 0
    {
      this.limits := limits;
      buffer, pos, baseOffset, finished := [], 0, 0, false;
      lineStart, pendingSpaces, depth := true, 0, 0;
      scanning, scanMode, scan, quotedEscape := false, NormalMode, 0, false;
      literalActive, literalRemaining := false, 0;
      failed, error := false, SyntaxError(InvalidCharacter, 0);
      fed, emitted, examined, wasted := [], [], 0, 0;
      new;
      BeginningKept(limits, State(), fed, emitted, ResumeState());
    }

    // ---- Input ----

    /** Appends input, reclaiming consumed bytes first. Nothing but the input changes: the offset, the
        pending spaces, a partial token and the tokens so far are as they were. The buffer never grows
        beyond twice what was waiting in it plus what is fed. */
    method Feed(bytes: seq<byte>)
      requires Valid()
      modifies this
      ensures Valid()
      ensures fed == old(fed) + bytes && State() == old(State()) && finished == old(finished)
      ensures emitted == old(emitted) && examined == old(examined) && wasted == old(wasted)
      ensures failed == old(failed) && ResumeState() == old(ResumeState())
      ensures Buffered() == old(Buffered()) + |bytes|
      ensures bytes != [] ==> |buffer| <= 2 * old(Buffered()) + |bytes|
    {
      if |bytes| == 0 {
        assert fed + bytes == fed;
      } else {
        ReclaimAndAppend(bytes);
      }
    }

    method ReclaimAndAppend(bytes: seq<byte>)
      requires Valid()
      modifies this`buffer, this`pos, this`baseOffset, this`fed
      ensures Valid() && State() == old(State()) && fed == old(fed) + bytes
      ensures Buffered() == old(Buffered()) + |bytes| && |buffer| <= 2 * old(Buffered()) + |bytes|
    {
      ghost var s, resume := State(), ResumeState();
      FeedKeeps(limits, s, fed, bytes, resume, emitted);
      Reclaim();
      Append(bytes);
      assert State() == s && ResumeState() == resume;
    }

    method Append(bytes: seq<byte>)
      requires Windowed()
      modifies this`buffer, this`fed
      ensures Windowed() && fed == old(fed) + bytes && buffer == old(buffer) + bytes
    {
      assert (fed + bytes)[baseOffset..] == buffer + bytes;
      buffer := buffer + bytes;
      fed := fed + bytes;
    }

    /** Drops consumed bytes from the buffer once they are half of it, or many. */
    method Reclaim()
      requires Windowed()
      modifies this`buffer, this`pos, this`baseOffset
      ensures Windowed() && State() == old(State())
      ensures Buffered() == old(Buffered())
      ensures pos == 0 || (|buffer| == old(|buffer|) && 2 * pos < |buffer| && pos < 0x1_0000)
    {
      if pos > 0 && (pos >= COMPACT_THRESHOLD || pos * 2 >= |buffer|) {
        assert buffer[pos..] == fed[Offset()..];
        buffer := buffer[pos..];
        baseOffset := baseOffset + pos;
        pos := 0;
      }
    }

    /** From here on `fed` is the whole stream. */
    method FinishInput()
      requires Valid()
      modifies this`finished
      ensures Valid() && finished && State() == old(State())
    {
      finished := true;
    }

    // ---- Small steps ----

    /** The next `count` bytes: a piece of the buffer is the piece of the stream that stands there. */
    function Peek(count: nat): (raw: seq<byte>)
      requires Windowed() && pos + count <= |buffer|
      reads this
      ensures raw == fed[Offset() .. Offset() + count]
    {
      buffer[pos .. pos + count]
    }

    method Fail(kind: SyntaxErrorKind, at: nat) returns (r: LexResult)
      modifies this`failed, this`error
      ensures failed && error == SyntaxError(kind, at)
      ensures Lexed(r, State()) == LexSpec.Fail(old(State()), kind, at)
    {
      failed := true;
      error := SyntaxError(kind, at);
      r := Failed(error);
    }

    /** A new token at the current position; it takes over the pending spaces. */
    method Begin(kind: TokenKind) returns (token: Token)
      modifies this`pendingSpaces
      ensures token == Made(old(State()), kind, []) && pendingSpaces == 0
    {
      token := Token(kind, pendingSpaces, Offset(), [], [], 0, false, []);
      pendingSpaces := 0;
    }

    method Consume(count: nat)
      modifies this`pos, this`lineStart
      ensures pos == old(pos) + count && lineStart == (old(lineStart) && count == 0)
    {
      pos := pos + count;
      if count > 0 {
        lineStart := false;
      }
    }

    method Suspend(count: nat)
      modifies this`scanning, this`scan
      ensures scanning && scan == count && State() == old(State())
    {
      scanning := true;
      scan := count;
    }

    method Complete()
      modifies this`scanning, this`scan, this`quotedEscape
      ensures NotScanning() && State() == old(State())
    {
      scanning := false;
      scan := 0;
      quotedEscape := false;
    }

    // ---- Tokens ----

    /** A token begins at the current position. */
    ghost predicate AtToken()
      reads this
    {
      Windowed() && !failed && !literalActive && pos < |buffer|
    }

    /** Either the token is looked at afresh or its scan resumes. */
    ghost predicate Resumable(shape: Shape)
      reads this
    {
      || (scan == 0 && !quotedEscape)
      || Partway(limits, shape, fed, Offset(), scan, quotedEscape)
    }

    /** What scanning a token of this shape leaves behind. */
    ghost predicate Scanned(r: LexResult, shape: Shape)
      reads this
    {
      && (r.NeedMore? ==> scanning && Partway(limits, shape, fed, Offset(), scan, quotedEscape))
      && (r.Got? ==> NotScanning())
      && Linear(if r.Got? then 1 else 0)
    }

    method LexEol() returns (r: LexResult)
      requires AtToken()
      modifies this`pos, this`lineStart, this`pendingSpaces, this`depth, this`failed, this`error
      ensures Lexed(r, State()) == LexSpec.LexEol(old(State()), fed, finished)
    {
      if buffer[pos] == LF {
        r := Fail(BadLineEnding, Offset());
        return;
      }
      if pos + 1 >= |buffer| {
        if !finished {
          return NeedMore;
        }
        r := Fail(UnexpectedEnd, baseOffset + pos + 1);
        return;
      }
      if buffer[pos + 1] != LF {
        r := Fail(BadLineEnding, Offset());
        return;
      }
      var token := Begin(Eol);
      token := token.(raw := [CR, LF]);
      Consume(2);
      lineStart := true;
      depth := 0;
      r := Got(token);
    }

    method LexOpen(kind: TokenKind) returns (r: LexResult)
      requires AtToken()
      modifies this`pos, this`lineStart, this`pendingSpaces, this`depth, this`failed, this`error
      ensures Lexed(r, State()) == LexSpec.LexOpen(limits, old(State()), kind, fed)
    {
      if depth >= limits.maxDepth {
        r := Fail(NestingTooDeep, Offset());
        return;
      }
      depth := depth + 1;
      var token := Begin(kind);
      token := token.(raw := [buffer[pos]]);
      Consume(1);
      r := Got(token);
    }

    method LexClose(kind: TokenKind) returns (r: LexResult)
      requires AtToken()
      modifies this`pos, this`lineStart, this`pendingSpaces, this`depth
      ensures Lexed(r, State()) == LexSpec.LexClose(old(State()), kind, fed)
    {
      if depth > 0 {
        depth := depth - 1;
      }
      var token := Begin(kind);
      token := token.(raw := [buffer[pos]]);
      Consume(1);
      r := Got(token);
    }

    /** The value of a run of digits, in 64-bit arithmetic that never wraps: `valid` says whether it is
        a number64, and `bad` is otherwise the first digit that takes it beyond. */
    static method NumberOf(raw: seq<byte>) returns (value: uint64, valid: bool, bad: nat)
      requires AllDigits(raw)
      ensures ReadDigits(raw, 0, 0) == if valid then Digits(|raw|, value as int) else Overflow(bad)
    {
      value := 0;
      for index := 0 to |raw|
        invariant value as int <= MAX_NUMBER
        invariant ReadDigits(raw, 0, 0) == ReadDigits(raw, index, value as int)
      {
        var digit := (raw[index] - ZERO) as uint64;
        if value > (MAX_NUMBER as uint64 - digit) / 10 {
          return value, false, index;
        }
        value := value * 10 + digit;
      }
      return value, true, 0;
    }

    /** Takes an atom of `length` bytes. */
    method TakeAtom(classify: bool, length: nat) returns (r: LexResult)
      requires AtToken() && pos + length <= |buffer|
      modifies this`pos, this`lineStart, this`pendingSpaces, this`failed, this`error
      ensures Lexed(r, State()) == Classified(old(State()), classify, fed[old(Offset()) .. old(Offset()) + length])
      ensures r.Got? ==> pos == old(pos) + length
    {
      var raw := Peek(length);
      ClassifiedAs(State(), classify, raw);
      var found := ClassifyWord(classify, raw);
      var token := Begin(Atom);
      if found.TooLarge? {
        r := Fail(NumberTooLarge, baseOffset + pos + found.at);
        return;
      }
      token := token.(raw := raw);
      match found {
      case TheNil =>
        token := token.(kind := Nil);
      case ANumber(value) =>
        token := token.(kind := Number, number := value);
      case PlainAtom =>
      }
      Consume(length);
      r := Got(token);
    }

    /** NIL and numbers are told apart only when `classify`. */
    static method ClassifyWord(classify: bool, raw: seq<byte>) returns (found: WordClass)
      ensures found == ClassOf(classify, raw)
    {
      if classify {
        if EqualsNil(raw) {
          return TheNil;
        }
        if AllDigits(raw) {
          var value, valid, bad := NumberOf(raw);
          return if valid then ANumber(value as int) else TooLarge(bad);
        }
      }
      return PlainAtom;
    }

    /** The scan loop of an atom, from where it stopped last time; `looked` counts the bytes it
        examines. */
    method ScanAtom(chars: LexMode, ghost classify: bool) returns (found: Scan, ghost looked: nat)
      requires AtToken() && IsAtomChar(buffer[pos], chars) && Resumable(Word(chars, classify))
      ensures found == AtomScan(fed, Offset(), Offset(), chars, limits.maxToken)
      ensures looked <= |fed| - (Offset() + scan)
      ensures found.Stop? ==> Offset() < found.at <= |fed| && looked == found.at - (Offset() + scan) + if found.at < |fed| then 1 else 0
    {
      if scan > 0 {
        AtomScanResumes(fed[..Offset() + scan], fed, Offset(), Offset(), chars, limits.maxToken);
      }
      found, looked := AtomFrom(pos + scan, chars);
    }

    /** The loop itself, from an index of the buffer. */
    method AtomFrom(start: nat, chars: LexMode) returns (found: Scan, ghost looked: nat)
      requires Windowed() && pos <= start <= |buffer|
      ensures found == AtomScan(fed, Offset(), baseOffset + start, chars, limits.maxToken)
      ensures looked <= |buffer| - start
      ensures found.Stop? ==>
        baseOffset + start <= found.at <= |fed| && looked == found.at - (baseOffset + start) + if found.at < |fed| then 1 else 0
    {
      ghost var p := Offset();
      looked := 0;
      var end := start;
      while end < |buffer| && IsAtomChar(buffer[end], chars)
        invariant start <= end <= |buffer| && looked == end - start
        invariant AtomScan(fed, p, baseOffset + start, chars, limits.maxToken)
               == AtomScan(fed, p, baseOffset + end, chars, limits.maxToken)
      {
        looked := looked + 1;
        if end - pos >= limits.maxToken {
          return Fault(TokenTooLong, Offset()), looked;
        }
        end := end + 1;
      }
      if end < |buffer| { looked := looked + 1; }
      found := Stop(baseOffset + end);
    }

    method LexAtom(chars: LexMode, classify: bool) returns (r: LexResult)
      requires AtToken() && IsAtomChar(buffer[pos], chars) && Resumable(Word(chars, classify)) && Linear(0)
      modifies this`pos, this`lineStart, this`pendingSpaces, this`scanning, this`scan, this`quotedEscape,
        this`failed, this`error, this`examined
      ensures Scanned(r, Word(chars, classify))
      ensures Lexed(r, State()) == LexSpec.LexAtom(limits, old(State()), chars, classify, fed, finished)
    {
      var found, looked := ScanAtom(chars, classify);
      examined := examined + looked;
      r := EndAtom(found, classify);
      if r.NeedMore? { WordPartway(limits, chars, classify, fed, Offset()); }
    }

    /** Acts on what the scan of an atom found. */
    method EndAtom(found: Scan, classify: bool) returns (r: LexResult)
      requires AtToken() && (found.Stop? ==> Offset() < found.at <= |fed|)
      modifies this`pos, this`lineStart, this`pendingSpaces, this`scanning, this`scan, this`quotedEscape,
        this`failed, this`error
      ensures Lexed(r, State()) == AtomFound(old(State()), found, classify, fed, finished)
      ensures r.NeedMore? ==> scanning && scan == |fed| - Offset() && found.at == |fed| && quotedEscape == old(quotedEscape)
      ensures r.Got? ==> NotScanning() && Offset() == found.at
    {
      if found.Fault? {
        r := Fail(found.kind, found.at);
      } else if found.at == baseOffset + |buffer| && !finished {
        Suspend(found.at - Offset());
        r := NeedMore;
      } else {
        r := TakeAtom(classify, found.at - Offset());
        if r.Got? {
          Complete();
        }
      }
    }

    /** The content of a quoted string: every backslash gives way to the character it protects. */
    static method Unescaped(raw: seq<byte>) returns (content: seq<byte>)
      ensures content == Unescape(raw, 1)
    {
      content := [];
      var at := 1;
      while at + 1 < |raw|
        invariant 1 <= at
        invariant content + Unescape(raw, at) == Unescape(raw, 1)
      {
        ghost var rest := Unescape(raw, at);
        if raw[at] == BACKSLASH {
          at := at + 1;
        }
        assert rest == [raw[at]] + Unescape(raw, at + 1);
        assert content + rest == (content + [raw[at]]) + Unescape(raw, at + 1);
        content := content + [raw[at]];
        at := at + 1;
      }
    }

    /** The scan loop of a quoted string, from where it stopped last time. */
    method ScanQuoted() returns (found: QuotedEnd, ghost looked: nat)
      requires AtToken() && Resumable(QuotedString)
      ensures found == QuotedScan(fed, Offset(), Offset() + 1, false, limits.maxToken)
      ensures looked <= |fed| - (Offset() + scan)
      ensures found.Closed? ==> Offset() + scan < found.end <= |fed| && looked <= found.end - (Offset() + scan)
    {
      if scan > 0 {
        QuotedScanResumes(fed[..Offset() + scan], fed, Offset(), Offset() + 1, false, limits.maxToken);
        found, looked := QuotedFrom(pos + scan, quotedEscape);
      } else {
        found, looked := QuotedFrom(pos + 1, false);
      }
    }

    /** The loop itself, from an index of the buffer. */
    method QuotedFrom(start: nat, escapedBefore: bool) returns (found: QuotedEnd, ghost looked: nat)
      requires Windowed() && pos < start <= |buffer|
      ensures found == QuotedScan(fed, Offset(), baseOffset + start, escapedBefore, limits.maxToken)
      ensures looked <= |buffer| - start
      ensures found.Closed? ==> baseOffset + start < found.end <= |fed| && looked <= found.end - (baseOffset + start)
    {
      ghost var p := Offset();
      var index, escaped := start, escapedBefore;
      looked := 0;
      while index < |buffer|
        invariant start <= index <= |buffer| && looked == index - start
        invariant QuotedScan(fed, p, baseOffset + start, escapedBefore, limits.maxToken)
               == QuotedScan(fed, p, baseOffset + index, escaped, limits.maxToken)
      {
        looked := looked + 1;
        if index - pos >= limits.maxToken {
          return BadQuoted(TokenTooLong, Offset()), looked;
        }
        var c := buffer[index];
        if escaped {
          if c != DQUOTE && c != BACKSLASH {
            return BadQuoted(BadEscape, baseOffset + index), looked;
          }
          escaped := false;
        } else if c == BACKSLASH {
          escaped := true;
        } else if c == DQUOTE {
          return Closed(baseOffset + index + 1), looked;
        } else if c == CR || c == LF {
          return BadQuoted(UnterminatedQuoted, baseOffset + index), looked;
        } else if c == NUL {
          return BadQuoted(InvalidCharacter, baseOffset + index), looked;
        }
        index := index + 1;
      }
      found := Open(escaped);
    }

    /** Acts on what the scan of a quoted string found. */
    method EndQuoted(found: QuotedEnd) returns (r: LexResult)
      requires AtToken() && (found.Closed? ==> Offset() < found.end <= |fed|)
      modifies this`pos, this`lineStart, this`pendingSpaces, this`scanning, this`scan, this`quotedEscape,
        this`failed, this`error
      ensures Lexed(r, State()) == QuotedFound(old(State()), found, fed, finished)
      ensures r.NeedMore? ==> scanning && scan == |fed| - Offset() && found == Open(quotedEscape)
      ensures r.Got? ==> NotScanning() && found == Closed(Offset())
    {
      match found
      case BadQuoted(kind, at) =>
        r := Fail(kind, at);
      case Open(escaped) =>
        if finished {
          r := Fail(UnexpectedEnd, baseOffset + |buffer|);
        } else {
          quotedEscape := escaped;
          Suspend(|buffer| - pos);
          r := NeedMore;
        }
      case Closed(end) =>
        var length := end - Offset();
        var raw := Peek(length);
        var content := Unescaped(raw);
        var token := Begin(Quoted);
        token := token.(raw := raw, unescaped := content);
        Consume(length);
        Complete();
        r := Got(token);
    }

    method LexQuoted() returns (r: LexResult)
      requires AtToken() && Resumable(QuotedString) && Linear(0)
      modifies this`pos, this`lineStart, this`pendingSpaces, this`scanning, this`scan, this`quotedEscape,
        this`failed, this`error, this`examined
      ensures Scanned(r, QuotedString)
      ensures Lexed(r, State()) == LexSpec.LexQuoted(limits, old(State()), fed, finished)
    {
      var found, looked := ScanQuoted();
      examined := examined + looked;
      r := EndQuoted(found);
      if r.NeedMore? { QuotedPartway(limits, fed, Offset(), quotedEscape); }
    }

    /** Reads the digits of a literal header from buffer index `index`, in 64-bit arithmetic. */
    method ScanDigits(index: nat) returns (run: DigitRun)
      requires Windowed() && index <= |buffer|
      ensures run == ReadDigits(fed, baseOffset + index, 0)
    {
      var at := index;
      var size: uint64 := 0;
      while at < |buffer| && IsDigit(buffer[at])
        invariant index <= at <= |buffer|
        invariant size as int <= MAX_NUMBER
        invariant ReadDigits(fed, baseOffset + index, 0) == ReadDigits(fed, baseOffset + at, size as int)
      {
        var digit := (buffer[at] - ZERO) as uint64;
        if size > (MAX_NUMBER as uint64 - digit) / 10 {
          return Overflow(baseOffset + at);
        }
        size := size * 10 + digit;
        at := at + 1;
      }
      run := Digits(baseOffset + at, size as int);
    }

    /** Reads a literal header that begins at the current position. It is re-examined from its start
        each time. */
    method ScanHeader(binary: bool) returns (found: Header)
      requires AtToken() && (binary ==> pos + 1 < |buffer|)
      ensures found == HeaderScan(fed, Offset() + if binary then 2 else 1)
    {
      ghost var from := Offset() + if binary then 2 else 1;
      var index := pos + if binary then 2 else 1;
      var run := ScanDigits(index);
      if run.Overflow? {
        return HeaderBad(NumberTooLarge, run.at);
      }
      var at := run.end - baseOffset;
      if at >= |buffer| {
        return HeaderShort(baseOffset + at);
      }
      if at == index {
        return HeaderBad(BadLiteral, baseOffset + at);
      }
      if buffer[at] == PLUS {
        at := at + 1;
      }
      var expected := [RBRACE, CR, LF];
      ghost var start := at;
      for i := 0 to 3
        invariant at == start + i <= |buffer|
        invariant HeaderTail(fed, baseOffset + start, expected, run.value)
               == HeaderTail(fed, baseOffset + at, expected[i..], run.value)
      {
        if at >= |buffer| {
          return HeaderShort(baseOffset + at);
        }
        if buffer[at] != expected[i] {
          return HeaderBad(BadLiteral, baseOffset + at);
        }
        at := at + 1;
      }
      found := HeaderOk(baseOffset + at, run.value);
    }

    /** Acts on what was found of a literal header. */
    method EndHeader(binary: bool, found: Header) returns (r: LexResult)
      requires AtToken() && !quotedEscape && (found.HeaderOk? ==> Offset() < found.end <= |fed|)
      modifies this`pos, this`lineStart, this`pendingSpaces, this`scanning, this`scan, this`quotedEscape,
        this`failed, this`error, this`literalActive, this`literalRemaining
      ensures Lexed(r, State()) == HeaderFound(limits, old(State()), binary, found, fed, finished)
      ensures r.NeedMore? ==> scanning && scan == 1 && !quotedEscape
      ensures r.Got? ==> NotScanning() && found.HeaderOk? && found.end == Offset()
    {
      match found
      case HeaderBad(kind, at) =>
        r := Fail(kind, at);
      case HeaderShort(at) =>
        if finished {
          r := Fail(UnexpectedEnd, at);
        } else {
          Suspend(1);
          r := NeedMore;
        }
      case HeaderOk(end, size) =>
        if size > limits.maxLiteral {
          r := Fail(LiteralTooLarge, Offset());
          return;
        }
        var length := end - Offset();
        var raw := Peek(length);
        var token := Begin(LiteralBegin);
        token := token.(raw := raw, number := size, binary := binary);
        Consume(length);
        Complete();
        literalActive := true;
        literalRemaining := size;
        r := Got(token);
    }

    method LexLiteralHeader(binary: bool) returns (r: LexResult)
      requires AtToken() && (binary ==> pos + 1 < |buffer|) && Resumable(LiteralHeader(binary)) && Linear(0)
      modifies this`pos, this`lineStart, this`pendingSpaces, this`scanning, this`scan, this`quotedEscape,
        this`failed, this`error, this`literalActive, this`literalRemaining
      ensures Scanned(r, LiteralHeader(binary))
      ensures Lexed(r, State()) == LexHeader(limits, old(State()), binary, fed, finished)
    {
      var found := ScanHeader(binary);
      r := EndHeader(binary, found);
    }

    /** The scan loop of free text, from where it stopped last time. */
    method ScanText(stopAtBracket: bool) returns (found: Scan, ghost looked: nat)
      requires AtToken() && !EndsText(buffer[pos], stopAtBracket) && Resumable(FreeText(stopAtBracket))
      ensures found == TextScan(fed, Offset(), Offset(), stopAtBracket, limits.maxToken)
      ensures looked <= |fed| - (Offset() + scan)
      ensures found.Stop? ==> Offset() < found.at <= |fed| && looked == found.at - (Offset() + scan) + if found.at < |fed| then 1 else 0
    {
      if scan > 0 {
        TextScanResumes(fed[..Offset() + scan], fed, Offset(), Offset(), stopAtBracket, limits.maxToken);
      }
      found, looked := TextFrom(pos + scan, stopAtBracket);
    }

    /** The loop itself, from an index of the buffer. */
    method TextFrom(start: nat, stopAtBracket: bool) returns (found: Scan, ghost looked: nat)
      requires Windowed() && pos <= start <= |buffer|
      ensures found == TextScan(fed, Offset(), baseOffset + start, stopAtBracket, limits.maxToken)
      ensures looked <= |buffer| - start
      ensures found.Stop? ==>
        baseOffset + start <= found.at <= |fed| && looked == found.at - (baseOffset + start) + if found.at < |fed| then 1 else 0
    {
      ghost var p := Offset();
      looked := 0;
      var end := start;
      while end < |buffer|
        invariant start <= end <= |buffer| && looked == end - start
        invariant TextScan(fed, p, baseOffset + start, stopAtBracket, limits.maxToken)
               == TextScan(fed, p, baseOffset + end, stopAtBracket, limits.maxToken)
      {
        looked := looked + 1;
        var c := buffer[end];
        if c == CR || c == LF || (stopAtBracket && c == RBRACKET) {
          return Stop(baseOffset + end), looked;
        }
        if end - pos >= limits.maxToken {
          return Fault(TokenTooLong, Offset()), looked;
        }
        if c == NUL {
          return Fault(InvalidCharacter, baseOffset + end), looked;
        }
        end := end + 1;
      }
      found := Stop(baseOffset + end);
    }

    /** Acts on what the scan of free text found. */
    method EndText(found: Scan) returns (r: LexResult)
      requires AtToken() && (found.Stop? ==> Offset() < found.at <= |fed|)
      modifies this`pos, this`lineStart, this`pendingSpaces, this`scanning, this`scan, this`quotedEscape,
        this`failed, this`error
      ensures Lexed(r, State()) == TextFound(old(State()), found, fed, finished)
      ensures r.NeedMore? ==> scanning && scan == |fed| - Offset() && found.at == |fed| && quotedEscape == old(quotedEscape)
      ensures r.Got? ==> NotScanning() && Offset() == found.at
    {
      if found.Fault? {
        r := Fail(found.kind, found.at);
      } else if found.at == baseOffset + |buffer| && !finished {
        Suspend(found.at - Offset());
        r := NeedMore;
      } else {
        var length := found.at - Offset();
        var raw := Peek(length);
        var token := Begin(Text);
        token := token.(raw := raw);
        Consume(length);
        Complete();
        r := Got(token);
      }
    }

    method LexText(stopAtBracket: bool) returns (r: LexResult)
      requires AtToken() && !EndsText(buffer[pos], stopAtBracket) && Resumable(FreeText(stopAtBracket)) && Linear(0)
      modifies this`pos, this`lineStart, this`pendingSpaces, this`scanning, this`scan, this`quotedEscape,
        this`failed, this`error, this`examined
      ensures Scanned(r, FreeText(stopAtBracket))
      ensures Lexed(r, State()) == LexSpec.LexText(limits, old(State()), stopAtBracket, fed, finished)
    {
      var found, looked := ScanText(stopAtBracket);
      examined := examined + looked;
      r := EndText(found);
      if r.NeedMore? { TextPartway(limits, stopAtBracket, fed, Offset()); }
    }

    /** The next piece of a literal, whatever mode was asked for. */
    method NextLiteral() returns (r: LexResult)
      requires Windowed() && !failed && literalActive
      modifies this`pos, this`lineStart, this`pendingSpaces, this`failed, this`error,
        this`literalActive, this`literalRemaining
      ensures Lexed(r, State()) == LexLiteral(old(State()), fed, finished)
    {
      if literalRemaining == 0 {
        var end := Begin(LiteralEnd);
        literalActive := false;
        return Got(end);
      }
      if pos == |buffer| {
        if !finished {
          return NeedMore;
        }
        r := Fail(UnexpectedEnd, Offset());
        return;
      }
      var available := |buffer| - pos;
      var chunk := if literalRemaining < available then literalRemaining else available;
      var data := Peek(chunk);
      var token := Begin(LiteralData);
      token := token.(data := data);
      Consume(chunk);
      literalRemaining := literalRemaining - chunk;
      r := Got(token);
    }

    /** The answer when all that was fed is used up. */
    method StarvedInput() returns (r: LexResult)
      requires Windowed() && !failed && !literalActive && pos == |buffer|
      modifies this`failed, this`error
      ensures Lexed(r, State()) == Starved(old(State()), finished)
    {
      if !finished {
        return NeedMore;
      }
      if lineStart && pendingSpaces == 0 {
        return EndOfInput;
      }
      r := Fail(UnexpectedEnd, Offset());
    }

    // ---- Choosing the token ----

    /** No scan is under way, or one that resumes a token of this shape is. */
    ghost predicate Continues(shape: Shape)
      reads this
    {
      Carries(limits, shape, fed, Offset(), ResumeState())
    }

    /** What one call leaves behind, given the shape it met. */
    ghost predicate Left(r: LexResult, shape: Shape)
      reads this
    {
      && (r.NeedMore? ==> Continues(shape))
      && (r.Got? ==> NotScanning())
      && Linear(if r.Got? then 1 else 0)
    }

    method LexGeneral(mode: LexMode, ghost shape: Shape) returns (r: LexResult)
      requires mode == NormalMode || mode == AstringMode
      requires AtToken() && Linear(0)
      requires shape == GeneralShape(mode, fed, Offset(), finished) && buffer[pos] != SP
      requires Continues(shape)
      modifies this`pos, this`lineStart, this`pendingSpaces, this`depth, this`scanning, this`scan, this`quotedEscape,
        this`failed, this`error, this`literalActive, this`literalRemaining, this`examined
      ensures Left(r, shape)
      ensures Lexed(r, State()) == LexShape(limits, old(State()), shape, fed, finished)
    {
      var c := buffer[pos];
      if c == LPAREN {
        r := LexOpen(LParen);
      } else if c == RPAREN {
        r := LexClose(RParen);
      } else if c == LBRACKET && mode == NormalMode {
        r := LexOpen(LBracket);
      } else if c == RBRACKET && mode == NormalMode {
        r := LexClose(RBracket);
      } else {
        r := LexStringOrWord(mode, shape);
      }
    }

    method LexStringOrWord(mode: LexMode, ghost shape: Shape) returns (r: LexResult)
      requires mode == NormalMode || mode == AstringMode
      requires AtToken() && Linear(0)
      requires shape == GeneralShape(mode, fed, Offset(), finished) && buffer[pos] != SP
      requires Continues(shape) && !shape.Opener? && !shape.Closer?
      modifies this`pos, this`lineStart, this`pendingSpaces, this`scanning, this`scan, this`quotedEscape,
        this`failed, this`error, this`literalActive, this`literalRemaining, this`examined
      ensures Left(r, shape)
      ensures Lexed(r, State()) == LexShape(limits, old(State()), shape, fed, finished)
    {
      if buffer[pos] == DQUOTE {
        r := LexQuoted();
      } else if buffer[pos] == LBRACE {
        r := LexLiteralHeader(false);
      } else {
        r := LexWord(mode, shape);
      }
    }

    /** A tilde may open a literal8; anything else that is no control is an atom. */
    method LexWord(mode: LexMode, ghost shape: Shape) returns (r: LexResult)
      requires AtToken() && Linear(0)
      requires shape == GeneralShape(mode, fed, Offset(), finished) && buffer[pos] != SP
      requires Continues(shape)
      requires shape.Word? || shape == LiteralHeader(true) || shape.LoneTilde? || shape.Unacceptable?
      requires buffer[pos] != LBRACE && (IsControl(buffer[pos]) || IsAtomChar(buffer[pos], mode))
      modifies this`pos, this`lineStart, this`pendingSpaces, this`scanning, this`scan, this`quotedEscape,
        this`failed, this`error, this`literalActive, this`literalRemaining, this`examined
      ensures Left(r, shape)
      ensures Lexed(r, State()) == LexShape(limits, old(State()), shape, fed, finished)
    {
      var c := buffer[pos];
      if c == TILDE && pos + 1 >= |buffer| && !finished {
        r := NeedMore;
      } else if c == TILDE && pos + 1 < |buffer| && buffer[pos + 1] == LBRACE {
        r := LexLiteralHeader(true);
      } else if IsControl(c) {
        r := Fail(InvalidCharacter, Offset());
      } else {
        r := LexAtom(mode, mode == NormalMode);
      }
    }

    /** After a status keyword: a bracket opens a response code, anything else is text. */
    method LexStatusText(ghost shape: Shape) returns (r: LexResult)
      requires AtToken() && Linear(0)
      requires shape == ShapeAt(RespTextMode, fed, Offset(), finished) && buffer[pos] != SP
      requires !shape.LineEnd? && Continues(shape)
      modifies this`pos, this`lineStart, this`pendingSpaces, this`depth, this`scanning, this`scan, this`quotedEscape,
        this`failed, this`error, this`examined
      ensures Left(r, shape)
      ensures Lexed(r, State()) == LexShape(limits, old(State()), shape, fed, finished)
    {
      if buffer[pos] == LBRACKET {
        r := LexOpen(LBracket);
      } else {
        r := LexText(false);
      }
    }

    /** The two modes of a response code: a closing bracket ends it. */
    method LexInCode(mode: LexMode, ghost shape: Shape) returns (r: LexResult)
      requires mode == CodeNameMode || mode == CodeTextMode
      requires AtToken() && Linear(0)
      requires shape == ShapeAt(mode, fed, Offset(), finished) && buffer[pos] != SP
      requires !shape.LineEnd? && Continues(shape)
      modifies this`pos, this`lineStart, this`pendingSpaces, this`depth, this`scanning, this`scan, this`quotedEscape,
        this`failed, this`error, this`examined
      ensures Left(r, shape)
      ensures Lexed(r, State()) == LexShape(limits, old(State()), shape, fed, finished)
    {
      if buffer[pos] == RBRACKET {
        r := LexClose(RBracket);
      } else if mode == CodeNameMode && IsAtomChar(buffer[pos], NormalMode) {
        r := LexAtom(NormalMode, false);
      } else {
        r := LexText(true);
      }
    }

    /** The token that begins here, by its first byte and, unless that is a line end, by the mode. */
    method LexHere(mode: LexMode, ghost shape: Shape) returns (r: LexResult)
      requires AtToken() && Linear(0)
      requires shape == ShapeAt(mode, fed, Offset(), finished) && buffer[pos] != SP
      requires Continues(shape)
      modifies this`pos, this`lineStart, this`pendingSpaces, this`depth, this`scanning, this`scan, this`quotedEscape,
        this`failed, this`error, this`literalActive, this`literalRemaining, this`examined
      ensures Left(r, shape)
      ensures Lexed(r, State()) == LexShape(limits, old(State()), shape, fed, finished)
    {
      if buffer[pos] == CR || buffer[pos] == LF {
        r := LexEol();
      } else {
        r := LexInMode(mode, shape);
      }
    }

    method LexInMode(mode: LexMode, ghost shape: Shape) returns (r: LexResult)
      requires AtToken() && Linear(0)
      requires shape == ShapeAt(mode, fed, Offset(), finished) && buffer[pos] != SP
      requires !shape.LineEnd? && Continues(shape)
      modifies this`pos, this`lineStart, this`pendingSpaces, this`depth, this`scanning, this`scan, this`quotedEscape,
        this`failed, this`error, this`literalActive, this`literalRemaining, this`examined
      ensures Left(r, shape)
      ensures Lexed(r, State()) == LexShape(limits, old(State()), shape, fed, finished)
    {
      match mode
      case NormalMode => r := LexGeneral(mode, shape);
      case AstringMode => r := LexGeneral(mode, shape);
      case TextMode => r := LexText(false);
      case RespTextMode => r := LexStatusText(shape);
      case CodeNameMode => r := LexInCode(mode, shape);
      case CodeTextMode => r := LexInCode(mode, shape);
    }

    // ---- next() ----

    /** Moves past spaces as `SkipSpaces` does, in a loop over the buffer. */
    method SkipBlanks()
      requires Windowed() && pendingSpaces <= limits.maxToken && !failed && !literalActive
      modifies this`pos, this`lineStart, this`pendingSpaces, this`failed, this`error
      ensures Windowed() && pendingSpaces <= limits.maxToken && Offset() >= old(Offset())
      ensures State() == SkipSpaces(limits.maxToken, old(State()), fed)
    {
      ghost var s := State();
      ghost var n := 0;
      while pos < |buffer| && buffer[pos] == SP && pendingSpaces < limits.maxToken
        invariant pos == old(pos) + n <= |buffer| && pendingSpaces == old(pendingSpaces) + n <= limits.maxToken
        invariant lineStart == (old(lineStart) && n == 0)
        invariant forall i :: old(pos) <= i < pos ==> buffer[i] == SP
        modifies this`pos, this`lineStart, this`pendingSpaces
        decreases |buffer| - pos
      {
        pendingSpaces := pendingSpaces + 1;
        pos := pos + 1;
        lineStart := false;
        n := n + 1;
      }
      assert SpacesAt(fed, s.pos, s.pos + n) by {
        BufferSpaces(buffer, fed, baseOffset, old(pos), pos);
      }
      SkippedTo(limits.maxToken, s, fed, n);
      if pos < |buffer| && buffer[pos] == SP {
        var _ := Fail(TokenTooLong, Offset());
      }
    }

    /** Looks at the token that begins here, or at how the input ends. */
    method LexAfterSpaces(mode: LexMode) returns (r: LexResult)
      requires Core() && !failed && !literalActive && Linear(0)
      requires pos < |buffer| ==> buffer[pos] != SP
      requires scanning ==> scanMode == mode
      modifies this`pos, this`lineStart, this`pendingSpaces, this`depth, this`scanning, this`scanMode, this`scan,
        this`quotedEscape, this`failed, this`error, this`literalActive, this`literalRemaining, this`examined
      ensures Core() && Linear(if r.Got? then 1 else 0) && Scans(mode) && (r.Got? ==> !scanning)
      ensures Lexed(r, State()) == AfterSpaces(limits, old(State()), mode, fed, finished)
    {
      if pos == |buffer| {
        r := StarvedInput();
      } else {
        ghost var s := State();
        ghost var shape;
        r, shape := LexAtToken(mode);
        AnswerSettles(s, mode, shape, r);
      }
    }

    /** Notes the mode and lexes the token that begins here; `shape` is what the one-shot function chooses. */
    method LexAtToken(mode: LexMode) returns (r: LexResult, ghost shape: Shape)
      requires AtToken() && Linear(0) && ScanKept(limits, State(), fed, ResumeState())
      requires buffer[pos] != SP && (scanning ==> scanMode == mode)
      modifies this`pos, this`lineStart, this`pendingSpaces, this`depth, this`scanning, this`scanMode, this`scan,
        this`quotedEscape, this`failed, this`error, this`literalActive, this`literalRemaining, this`examined
      ensures scanMode == mode && shape == ShapeAt(mode, fed, old(Offset()), finished) && Left(r, shape)
      ensures Lexed(r, State()) == LexShape(limits, old(State()), shape, fed, finished)
    {
      shape := ShapeMet(limits, State(), mode, fed, finished, ResumeState());
      scanMode := mode;
      r := LexHere(mode, shape);
    }

    lemma AnswerSettles(s: LexState, mode: LexMode, shape: Shape, r: LexResult)
      requires s.pos < |fed| && fed[s.pos] != SP && s.error.None? && s.literal.None? && Bounded(limits, s, |fed|)
      requires shape == ShapeAt(mode, fed, s.pos, finished) && scanMode == mode
      requires Left(r, shape) && baseOffset + |buffer| == |fed| && buffer == fed[baseOffset..]
      requires Lexed(r, State()) == LexShape(limits, s, shape, fed, finished)
      ensures Core() && Lexed(r, State()) == AfterSpaces(limits, s, mode, fed, finished)
    {
      AnswerHere(limits, s, mode, fed, finished, Lexed(r, State()), ResumeState());
    }

    /** A scan made for another mode is dropped. */
    method DropOtherScan(mode: LexMode)
      requires Core() && !failed && Linear(0)
      modifies this`scanning, this`scan, this`quotedEscape, this`wasted
      ensures Core() && Linear(0) && State() == old(State())
      ensures scanning ==> scanMode == mode
      ensures wasted == old(wasted) + if old(scanning && scanMode != mode) then old(scan) else 0
    {
      if scanning && mode != scanMode {
        wasted := wasted + scan;
        Complete();
      }
    }

    method LexToken(mode: LexMode) returns (r: LexResult)
      requires Core() && !failed && !literalActive && Linear(0)
      requires scanning ==> scanMode == mode
      modifies this`pos, this`lineStart, this`pendingSpaces, this`depth, this`scanning, this`scanMode, this`scan,
        this`quotedEscape, this`failed, this`error, this`literalActive, this`literalRemaining, this`examined
      ensures Core() && Linear(if r.Got? then 1 else 0) && Scans(mode) && (r.Got? ==> !scanning)
      ensures Offset() <= |fed| && Lexed(r, State()) == LexSpec.Next(limits, old(State()), mode, fed, finished)
    {
      if !scanning {
        SkipBlanks();
        if failed {
          return Failed(error);
        }
      }
      r := LexAfterSpaces(mode);
    }

    method Answer(mode: LexMode) returns (r: LexResult)
      requires Core() && !failed && Linear(0)
      modifies this`pos, this`lineStart, this`pendingSpaces, this`depth, this`scanning, this`scanMode, this`scan,
        this`quotedEscape, this`failed, this`error, this`literalActive, this`literalRemaining, this`examined, this`wasted
      ensures Core() && Linear(if r.Got? then 1 else 0) && Scans(mode) && (r.Got? ==> !scanning)
      ensures Lexed(r, State()) == LexSpec.Next(limits, old(State()), mode, fed, finished)
      ensures wasted == old(wasted) + if old(!literalActive && scanning && scanMode != mode) then old(scan) else 0
    {
      if literalActive {
        LiteralBounded(limits, State(), fed, finished);
        r := NextLiteral();
      } else {
        DropOtherScan(mode);
        r := LexToken(mode);
      }
    }

    /** The next token, read for `mode`, exactly as module LexSpec says for all the bytes fed so far:
        the buffer, its compaction and a resumed scan cannot be told from the outside. */
    method Next(mode: LexMode) returns (r: LexResult)
      requires Valid()
      modifies this
      ensures Valid()
      ensures fed == old(fed) && finished == old(finished)
      ensures Lexed(r, State()) == LexSpec.Next(limits, old(State()), mode, fed, finished)
      ensures emitted == old(emitted) + if r.Got? then [r.token] else []
      ensures Scans(mode) && (r.Got? ==> !scanning)
      ensures wasted == old(wasted) + if old(!failed && !literalActive && scanning && scanMode != mode) then old(scan) else 0
    {
      if failed {
        FailureStays(limits, State(), mode, fed, finished);
        return Failed(error);
      }
      r := NextLive(mode);
    }

    method NextLive(mode: LexMode) returns (r: LexResult)
      requires Valid() && !failed
      modifies this
      ensures Valid()
      ensures fed == old(fed) && finished == old(finished)
      ensures Lexed(r, State()) == LexSpec.Next(limits, old(State()), mode, fed, finished)
      ensures emitted == old(emitted) + if r.Got? then [r.token] else []
      ensures Scans(mode) && (r.Got? ==> !scanning)
      ensures wasted == old(wasted) + if old(!literalActive && scanning && scanMode != mode) then old(scan) else 0
    {
      NextKeepsHistory(limits, State(), mode, fed, finished, emitted);
      r := Answer(mode);
      Emit(r);
    }

    /** Records a token returned. */
    ghost method Emit(r: LexResult)
      requires Core() && Linear(if r.Got? then 1 else 0)
      requires History(State(), fed, emitted + if r.Got? then [r.token] else [])
      modifies this`emitted
      ensures Valid() && emitted == old(emitted) + if r.Got? then [r.token] else []
    {
      emitted := emitted + if r.Got? then [r.token] else [];
    }
  }
}
