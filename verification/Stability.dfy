/** Every decision of the lexer rests on bytes it has already examined: a token or an error reached
    early does not change when more input arrives or when the input is declared finished, and waiting
    for input loses nothing. */
module Stability {
  import opened Tokens
  import opened LexSpec

  // ---- Progress ----

  /** Twice the bytes still to consume, plus one inside a literal: every token lowers it. */
  function Work(s: LexState, end: nat): int {
    2 * (end - s.pos) + if s.literal.Some? then 1 else 0
  }

  /** What `next` may answer from state `s` with `end` bytes received. */
  ghost predicate Progresses(s: LexState, x: Lexed, end: nat, fin: bool) {
    && s.pos <= x.after.pos <= end
    && (fin ==> x.result != NeedMore)
    && (x.result.EndOfInput? ==> fin && x.after.pos == end)
    && (x.result.Got? ==> Work(x.after, end) < Work(s, end) && x.after.error.None?)
    && (x.result.Failed? <==> x.after.error.Some?)
    && (x.result.Failed? ==> x.after.error == Some(x.result.error))
    && (x.result.EndOfInput? || x.result.NeedMore? ==> x.after.literal == s.literal)
  }

  lemma AtomProgress(limits: Limits, s: LexState, chars: LexMode, classify: bool, input: seq<byte>, fin: bool)
    requires s.pos < |input| && IsAtomChar(input[s.pos], chars) && s.error.None? && s.literal.None?
    ensures Progresses(s, LexAtom(limits, s, chars, classify, input, fin), |input|, fin)
  {
    var scan := AtomScan(input, s.pos, s.pos, chars, limits.maxToken);
    if scan.Stop? {
      assert scan.at > s.pos;
      ClassifiedProgress(s, classify, input[s.pos .. scan.at], |input|, fin);
    }
  }

  lemma ClassifiedProgress(s: LexState, classify: bool, raw: seq<byte>, end: nat, fin: bool)
    requires raw != [] && s.pos + |raw| <= end && s.error.None? && s.literal.None?
    ensures Progresses(s, Classified(s, classify, raw), end, fin)
    ensures !Classified(s, classify, raw).result.NeedMore?
  {
  }

  lemma TextProgress(limits: Limits, s: LexState, stop: bool, input: seq<byte>, fin: bool)
    requires s.pos < |input| && !EndsText(input[s.pos], stop) && s.error.None? && s.literal.None?
    ensures Progresses(s, LexText(limits, s, stop, input, fin), |input|, fin)
  {
  }

  /** What the first byte of a token says when `shape` was chosen for it. */
  ghost predicate Begins(shape: Shape, input: seq<byte>, p: nat, fin: bool)
    requires p < |input|
  {
    && input[p] != SP
    && (shape.LineEnd? <==> input[p] == CR || input[p] == LF)
    && (shape.Word? ==> IsAtomChar(input[p], shape.chars) && (shape.classify ==> shape.chars == NormalMode))
    && (shape.FreeText? ==> !EndsText(input[p], shape.stopAtBracket))
    && (shape.QuotedString? ==> input[p] == DQUOTE)
    && (shape.LiteralHeader? && !shape.binary ==> input[p] == LBRACE)
    && (shape.LiteralHeader? && shape.binary ==> input[p] == TILDE && p + 1 < |input| && input[p + 1] == LBRACE)
    && (shape.LoneTilde? ==> input[p] == TILDE && p + 1 == |input| && !fin)
    && (shape.Opener? ==> shape.kind in {LParen, LBracket})
    && (shape.Closer? ==> shape.kind in {RParen, RBracket})
  }

  lemma ShapeBegins(mode: LexMode, input: seq<byte>, p: nat, fin: bool)
    requires p < |input| && input[p] != SP
    ensures Begins(ShapeAt(mode, input, p, fin), input, p, fin)
  {
  }

  lemma HeaderProgress(limits: Limits, s: LexState, binary: bool, input: seq<byte>, fin: bool)
    requires s.pos < |input| && (binary ==> s.pos + 1 < |input|) && s.error.None? && s.literal.None?
    ensures Progresses(s, LexHeader(limits, s, binary, input, fin), |input|, fin)
  {
  }

  lemma QuotedProgress(limits: Limits, s: LexState, input: seq<byte>, fin: bool)
    requires s.pos < |input| && s.error.None? && s.literal.None?
    ensures Progresses(s, LexQuoted(limits, s, input, fin), |input|, fin)
  {
  }

  lemma ShapeProgress(limits: Limits, s: LexState, shape: Shape, input: seq<byte>, fin: bool)
    requires s.pos < |input| && s.error.None? && s.literal.None? && Begins(shape, input, s.pos, fin)
    ensures Progresses(s, LexShape(limits, s, shape, input, fin), |input|, fin)
  {
    match shape
    case LineEnd =>
    case Opener(kind) =>
    case Closer(kind) =>
    case Word(chars, classify) => AtomProgress(limits, s, chars, classify, input, fin);
    case QuotedString => QuotedProgress(limits, s, input, fin);
    case LiteralHeader(binary) => HeaderProgress(limits, s, binary, input, fin);
    case FreeText(stop) => TextProgress(limits, s, stop, input, fin);
    case LoneTilde =>
    case Unacceptable =>
  }

  /** A call never runs past the input; each token lowers `Work`; after the end of the input has been
      declared no call asks for more. */
  lemma NextProgress(limits: Limits, s: LexState, mode: LexMode, input: seq<byte>, fin: bool)
    requires s.pos <= |input|
    ensures Progresses(s, Next(limits, s, mode, input, fin), |input|, fin)
  {
    if s.error.None? && s.literal.None? {
      var t := SkipSpaces(limits.maxToken, s, input);
      if t.error.None? && t.pos < |input| {
        var shape := ShapeAt(mode, input, t.pos, fin);
        ShapeBegins(mode, input, t.pos, fin);
        ShapeProgress(limits, t, shape, input, fin);
      }
    }
  }

  // ---- Scans that ran out resume where they stopped ----

  lemma {:induction false} AtomScanResumes(seen: seq<byte>, input: seq<byte>, start: nat, i: nat, chars: LexMode, max: nat)
    requires start <= i <= |seen| && seen <= input
    ensures var early := AtomScan(seen, start, i, chars, max);
      AtomScan(input, start, i, chars, max)
      == if early == Stop(|seen|) then AtomScan(input, start, |seen|, chars, max) else early
    decreases |seen| - i
  {
    if i < |seen| {
      assert input[i] == seen[i];
      if IsAtomChar(seen[i], chars) && i - start < max {
        AtomScanResumes(seen, input, start, i + 1, chars, max);
      }
    }
  }

  lemma {:induction false} TextScanResumes(seen: seq<byte>, input: seq<byte>, start: nat, i: nat, stop: bool, max: nat)
    requires start <= i <= |seen| && seen <= input
    ensures var early := TextScan(seen, start, i, stop, max);
      TextScan(input, start, i, stop, max)
      == if early == Stop(|seen|) then TextScan(input, start, |seen|, stop, max) else early
    decreases |seen| - i
  {
    if i < |seen| {
      assert input[i] == seen[i];
      if !EndsText(seen[i], stop) && i - start < max && seen[i] != NUL {
        TextScanResumes(seen, input, start, i + 1, stop, max);
      }
    }
  }

  lemma {:induction false} QuotedScanResumes(seen: seq<byte>, input: seq<byte>, start: nat, i: nat, escaped: bool, max: nat)
    requires start < i <= |seen| && seen <= input
    ensures var early := QuotedScan(seen, start, i, escaped, max);
      QuotedScan(input, start, i, escaped, max)
      == if early.Open? then QuotedScan(input, start, |seen|, early.escaped, max) else early
    decreases |seen| - i
  {
    if i < |seen| {
      assert input[i] == seen[i];
      if i - start < max {
        if escaped {
          if seen[i] == DQUOTE || seen[i] == BACKSLASH { QuotedScanResumes(seen, input, start, i + 1, false, max); }
        } else if seen[i] == BACKSLASH {
          QuotedScanResumes(seen, input, start, i + 1, true, max);
        } else if seen[i] != DQUOTE && seen[i] != CR && seen[i] != LF && seen[i] != NUL {
          QuotedScanResumes(seen, input, start, i + 1, false, max);
        }
      }
    }
  }

  lemma {:induction false} ReadDigitsStable(seen: seq<byte>, input: seq<byte>, i: nat, value: nat)
    requires i <= |seen| && seen <= input
    ensures var early := ReadDigits(seen, i, value);
      early.Overflow? || early.end < |seen| ==> ReadDigits(input, i, value) == early
    decreases |seen| - i
  {
    if i < |seen| {
      assert input[i] == seen[i];
      if IsDigit(seen[i]) && value <= (MAX_NUMBER - (seen[i] - ZERO)) / 10 {
        ReadDigitsStable(seen, input, i + 1, value * 10 + (seen[i] - ZERO));
      }
    }
  }

  lemma {:induction false} HeaderTailStable(seen: seq<byte>, input: seq<byte>, i: nat, expected: seq<byte>, size: nat)
    requires i <= |seen| && seen <= input
    ensures var early := HeaderTail(seen, i, expected, size);
      !early.HeaderShort? ==> HeaderTail(input, i, expected, size) == early
    decreases |expected|
  {
    if expected != [] && i < |seen| && seen[i] == expected[0] {
      HeaderTailStable(seen, input, i + 1, expected[1..], size);
    }
  }

  lemma HeaderScanStable(seen: seq<byte>, input: seq<byte>, i: nat)
    requires i <= |seen| && seen <= input
    ensures var early := HeaderScan(seen, i);
      !early.HeaderShort? ==> HeaderScan(input, i) == early
  {
    ReadDigitsStable(seen, input, i, 0);
    var d := ReadDigits(seen, i, 0);
    if d.Digits? && i < d.end < |seen| {
      HeaderTailStable(seen, input, if seen[d.end] == PLUS then d.end + 1 else d.end, [RBRACE, CR, LF], d.value);
    }
  }

  lemma {:induction false} SkipSpacesStable(seen: seq<byte>, input: seq<byte>, s: LexState, max: nat)
    requires s.pos <= |seen| && seen <= input && s.error.None?
    ensures var t := SkipSpaces(max, s, seen);
      && (t.error.Some? || t.pos < |seen| ==> SkipSpaces(max, s, input) == t)
      && (t.error.None? ==> SkipSpaces(max, t, input) == SkipSpaces(max, s, input))
    decreases |seen| - s.pos
  {
    if s.pos < |seen| {
      assert input[s.pos] == seen[s.pos];
      if seen[s.pos] == SP && s.spaces < max {
        SkipSpacesStable(seen, input, s.(pos := s.pos + 1, spaces := s.spaces + 1, lineStart := false), max);
      }
    }
  }

  // ---- Early decisions are final ----

  /** The kind of token that begins at `p` is settled by the first byte, or two after a tilde. */
  lemma ShapeStable(mode: LexMode, seen: seq<byte>, input: seq<byte>, p: nat, fin: bool)
    requires p < |seen| && seen <= input
    ensures var shape := ShapeAt(mode, seen, p, false);
      shape != LoneTilde ==> ShapeAt(mode, input, p, fin) == shape
  {
    assert input[p] == seen[p];
    assert p + 1 < |seen| ==> input[p + 1] == seen[p + 1];
  }

  lemma SliceStable(seen: seq<byte>, input: seq<byte>, p: nat, q: nat)
    requires p <= q <= |seen| && seen <= input
    ensures seen[p..q] == input[p..q]
  {
  }

  lemma AtomStable(limits: Limits, s: LexState, chars: LexMode, classify: bool, seen: seq<byte>, input: seq<byte>, fin: bool)
    requires s.pos < |seen| && seen <= input
    ensures var early := LexAtom(limits, s, chars, classify, seen, false);
      !early.result.NeedMore? ==> LexAtom(limits, s, chars, classify, input, fin) == early
  {
    AtomScanResumes(seen, input, s.pos, s.pos, chars, limits.maxToken);
    var scan := AtomScan(seen, s.pos, s.pos, chars, limits.maxToken);
    if scan.Stop? {
      SliceStable(seen, input, s.pos, scan.at);
    }
  }

  lemma HeaderStable(limits: Limits, s: LexState, binary: bool, seen: seq<byte>, input: seq<byte>, fin: bool)
    requires s.pos < |seen| && seen <= input && (binary ==> s.pos + 1 < |seen|)
    ensures var early := LexHeader(limits, s, binary, seen, false);
      !early.result.NeedMore? ==> LexHeader(limits, s, binary, input, fin) == early
  {
    var from := s.pos + if binary then 2 else 1;
    HeaderScanStable(seen, input, from);
    var scan := HeaderScan(seen, from);
    if scan.HeaderOk? { SliceStable(seen, input, s.pos, scan.end); }
  }

  lemma TextStable(limits: Limits, s: LexState, stop: bool, seen: seq<byte>, input: seq<byte>, fin: bool)
    requires s.pos < |seen| && seen <= input
    ensures var early := LexText(limits, s, stop, seen, false);
      !early.result.NeedMore? ==> LexText(limits, s, stop, input, fin) == early
  {
    TextScanResumes(seen, input, s.pos, s.pos, stop, limits.maxToken);
    var scan := TextScan(seen, s.pos, s.pos, stop, limits.maxToken);
    if scan.Stop? { SliceStable(seen, input, s.pos, scan.at); }
  }

  lemma QuotedStable(limits: Limits, s: LexState, seen: seq<byte>, input: seq<byte>, fin: bool)
    requires s.pos < |seen| && seen <= input
    ensures var early := LexQuoted(limits, s, seen, false);
      !early.result.NeedMore? ==> LexQuoted(limits, s, input, fin) == early
  {
    QuotedScanResumes(seen, input, s.pos, s.pos + 1, false, limits.maxToken);
    var scan := QuotedScan(seen, s.pos, s.pos + 1, false, limits.maxToken);
    if scan.Closed? { SliceStable(seen, input, s.pos, scan.end); }
  }

  lemma ShapeOutcomeStable(limits: Limits, s: LexState, shape: Shape, seen: seq<byte>, input: seq<byte>, fin: bool)
    requires s.pos < |seen| && seen <= input
    requires shape == LiteralHeader(true) ==> s.pos + 1 < |seen|
    ensures var early := LexShape(limits, s, shape, seen, false);
      && (early.result.NeedMore? ==> early.after == s)
      && (!early.result.NeedMore? ==> LexShape(limits, s, shape, input, fin) == early)
  {
    match shape
    case LineEnd => assert s.pos + 1 < |seen| ==> seen[s.pos + 1] == input[s.pos + 1];
    case Opener(_) => assert seen[s.pos] == input[s.pos];
    case Closer(_) => assert seen[s.pos] == input[s.pos];
    case Word(chars, classify) => AtomStable(limits, s, chars, classify, seen, input, fin);
    case QuotedString => QuotedStable(limits, s, seen, input, fin);
    case LiteralHeader(binary) => HeaderStable(limits, s, binary, seen, input, fin);
    case FreeText(stop) => TextStable(limits, s, stop, seen, input, fin);
    case LoneTilde =>
    case Unacceptable =>
  }

  /** The key fact behind chunk independence. What `next` answers on the input seen so far, other than
      a piece of a literal, it also answers on any longer input, finished or not; and when it asks
      for more, calling it again on any longer input answers as if all that input had been there at
      the first call. */
  lemma NextStable(limits: Limits, s: LexState, mode: LexMode, seen: seq<byte>, input: seq<byte>, fin: bool)
    requires s.pos <= |seen| && seen <= input
    ensures var early := Next(limits, s, mode, seen, false);
      && early.after.pos <= |seen|
      && (early.result.NeedMore? ==>
            Next(limits, early.after, mode, input, fin) == Next(limits, s, mode, input, fin))
      && (!early.result.NeedMore? && !(early.result.Got? && early.result.token.kind == LiteralData) ==>
            Next(limits, s, mode, input, fin) == early)
  {
    NextProgress(limits, s, mode, seen, false);
    if s.error.None? && s.literal.None? {
      var t := SkipSpaces(limits.maxToken, s, seen);
      SkipSpacesStable(seen, input, s, limits.maxToken);
      if t.error.None? && t.pos < |seen| {
        var shape := ShapeAt(mode, seen, t.pos, false);
        ShapeStable(mode, seen, input, t.pos, fin);
        ShapeOutcomeStable(limits, t, shape, seen, input, fin);
      }
    }
  }
}
