/** How much memory and work the lexer needs: when it asks for more input, what it keeps is no more than one
    token, a literal header aside. */
module Bounds {
  import opened Tokens
  import opened LexSpec
  import opened Stability
  import opened Lexing
  import opened ResponseReading

  function HeldAtMost(limits: Limits): nat {
    if limits.maxToken == 0 then 1 else limits.maxToken
  }

  lemma {:induction false} AtomScanFits(input: seq<byte>, start: nat, i: nat, chars: LexMode, max: nat)
    requires start <= i <= |input| && i - start <= max
    ensures AtomScan(input, start, i, chars, max).Stop? ==> AtomScan(input, start, i, chars, max).at - start <= max
    decreases |input| - i
  {
    if i < |input| && IsAtomChar(input[i], chars) && i - start < max {
      AtomScanFits(input, start, i + 1, chars, max);
    }
  }

  lemma {:induction false} TextScanFits(input: seq<byte>, start: nat, i: nat, stop: bool, max: nat)
    requires start <= i <= |input| && i - start <= max
    ensures TextScan(input, start, i, stop, max).Stop? ==> TextScan(input, start, i, stop, max).at - start <= max
    decreases |input| - i
  {
    if i < |input| && !EndsText(input[i], stop) && i - start < max && input[i] != NUL {
      TextScanFits(input, start, i + 1, stop, max);
    }
  }

  lemma {:induction false} QuotedScanFits(input: seq<byte>, start: nat, i: nat, escaped: bool, max: nat)
    requires start < i <= |input| && i - start <= (if max == 0 then 1 else max)
    ensures QuotedScan(input, start, i, escaped, max).Open? ==> |input| - start <= (if max == 0 then 1 else max)
    decreases |input| - i
  {
    if i < |input| && i - start < max {
      if escaped {
        if input[i] == DQUOTE || input[i] == BACKSLASH { QuotedScanFits(input, start, i + 1, false, max); }
      } else if input[i] != DQUOTE {
        QuotedScanFits(input, start, i + 1, input[i] == BACKSLASH, max);
      }
    }
  }

  /** The lexer waits in the middle of a literal header. */
  ghost predicate InHeader(mode: LexMode, s: LexState, input: seq<byte>) {
    s.pos < |input| && ShapeAt(mode, input, s.pos, false).LiteralHeader?
  }

  lemma ShapeHoldsLittle(limits: Limits, s: LexState, shape: Shape, input: seq<byte>)
    requires s.pos < |input| && Begins(shape, input, s.pos, false) && !shape.LiteralHeader?
    requires LexShape(limits, s, shape, input, false).result.NeedMore?
    ensures |input| - s.pos <= HeldAtMost(limits)
  {
    match shape
    case Word(chars, _) => AtomScanFits(input, s.pos, s.pos, chars, limits.maxToken);
    case FreeText(stop) => TextScanFits(input, s.pos, s.pos, stop, limits.maxToken);
    case QuotedString => QuotedScanFits(input, s.pos, s.pos + 1, false, limits.maxToken);
    case _ =>
  }

  /** Whenever `next` asks for more outside a literal header, what is received and not consumed is at
      most one token. */
  lemma WaitingHoldsLittle(limits: Limits, s: LexState, mode: LexMode, input: seq<byte>)
    requires s.pos <= |input|
    ensures var x := Next(limits, s, mode, input, false);
      x.result.NeedMore? ==>
        x.after.pos <= |input| && (InHeader(mode, x.after, input) || |input| - x.after.pos <= HeldAtMost(limits))
  {
    NextProgress(limits, s, mode, input, false);
    if s.error.None? && s.literal.None? {
      var t := SkipSpaces(limits.maxToken, s, input);
      if t.error.None? && t.pos < |input| {
        var shape := ShapeAt(mode, input, t.pos, false);
        ShapeBegins(mode, input, t.pos, false);
        ShapeStable(mode, input, input, t.pos, false);
        ShapeOutcomeStable(limits, t, shape, input, input, false);
        if LexShape(limits, t, shape, input, false).result.NeedMore? && !shape.LiteralHeader? {
          ShapeHoldsLittle(limits, t, shape, input);
        }
      }
    }
  }

  /** Bounded memory: after any call that asks for more outside a literal header, feeding `bytes` leaves
      a buffer of at most twice one token and the bytes fed. */
  method CallThenFeed(lexer: Lexer, mode: LexMode, bytes: seq<byte>) returns (r: LexResult)
    requires lexer.Valid() && !lexer.finished && bytes != []
    modifies lexer
    ensures lexer.Valid() && lexer.fed == old(lexer.fed) + bytes
    ensures r.NeedMore? ==>
      || InHeader(mode, lexer.State(), old(lexer.fed))
      || |lexer.buffer| <= 2 * HeldAtMost(lexer.limits) + |bytes|
  {
    ghost var s := lexer.State();
    WaitingHoldsLittle(lexer.limits, s, mode, lexer.fed);
    r := lexer.Next(mode);
    lexer.Feed(bytes);
  }

  /** Linear scanning: in every reachable state the atom, quoted and text loops have examined, over the
      whole run and however the input was cut, at most one byte for each byte fed, each token and the
      failure, besides the bytes whose scan a change of mode dropped. */
  lemma ScanningIsLinear(lexer: Lexer)
    requires lexer.Valid()
    ensures lexer.examined <= |lexer.fed| + |lexer.emitted| + lexer.wasted + 1
  {
    if !lexer.failed && !lexer.scanning { assert lexer.scan == 0; }
  }

  /** And `ResponseReader::next` never drops a scan: over every run of the reader the loops examine at most
      one byte for each byte of the stream, each token and the failure. */
  lemma ReadingIsLinear(reader: ResponseReader)
    requires reader.Valid()
    ensures reader.lexer.examined <= |reader.lexer.fed| + |reader.lexer.emitted| + 1
  {
    ScanningIsLinear(reader.lexer);
  }
}
