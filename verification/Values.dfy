/** What the values of tokens mean: numbers are the decimal value of their digits, exactly, up to
    2^63 - 1; quoted strings and their contents correspond one to one. */
module Values {
  import opened Tokens
  import opened LexSpec

  // ---- Numbers ----

  /** The decimal value of a run of digits, however long. */
  function Decimal(digits: seq<byte>): nat
    requires AllDigits(digits)
  {
    if digits == [] then 0
    else Decimal(digits[..|digits| - 1]) * 10 + (digits[|digits| - 1] - ZERO)
  }

  lemma {:induction false} DecimalGrows(digits: seq<byte>, k: nat)
    requires AllDigits(digits) && k <= |digits|
    ensures AllDigits(digits[..k]) && Decimal(digits[..k]) <= Decimal(digits)
    decreases |digits|
  {
    if k < |digits| {
      DecimalGrows(digits[..|digits| - 1], k);
      assert digits[..|digits| - 1][..k] == digits[..k];
    } else {
      assert digits[..k] == digits;
    }
  }

  /** The guard before each digit refuses exactly the digits that would take the value beyond the
      limit. */
  lemma GuardIsExact(value: nat, digit: nat)
    requires digit <= 9
    ensures value > (MAX_NUMBER - digit) / 10 <==> value * 10 + digit > MAX_NUMBER
  {
  }

  lemma DecimalStep(digits: seq<byte>, c: byte)
    requires AllDigits(digits) && IsDigit(c)
    ensures AllDigits(digits + [c]) && Decimal(digits + [c]) == Decimal(digits) * 10 + (c - ZERO)
  {
    assert (digits + [c])[..|digits|] == digits;
  }

  /** `at` is the first digit whose prefix is beyond the limit. */
  ghost predicate OverflowsAt(digits: seq<byte>, at: nat) {
    && at < |digits| && AllDigits(digits[..at]) && AllDigits(digits[..at + 1])
    && Decimal(digits[..at]) <= MAX_NUMBER < Decimal(digits[..at + 1])
  }

  /** Reading on from digit `i`, the ones before it amounting to `value`. */
  lemma {:induction false} ReadDigitsIsExact(digits: seq<byte>, i: nat, value: nat)
    requires AllDigits(digits) && i <= |digits|
    requires AllDigits(digits[..i]) && value == Decimal(digits[..i]) <= MAX_NUMBER
    ensures var run := ReadDigits(digits, i, value);
      && (run.Digits? ==> run == Digits(|digits|, Decimal(digits)) && Decimal(digits) <= MAX_NUMBER)
      && (run.Overflow? ==> OverflowsAt(digits, run.at))
    decreases |digits| - i
  {
    if i < |digits| {
      var next := value * 10 + (digits[i] - ZERO);
      assert digits[..i + 1] == digits[..i] + [digits[i]];
      DecimalStep(digits[..i], digits[i]);
      GuardIsExact(value, digits[i] - ZERO);
      if next <= MAX_NUMBER {
        ReadDigitsIsExact(digits, i + 1, next);
      }
    } else {
      assert digits[..i] == digits;
    }
  }

  /** Digits are a number exactly when their decimal value is at most 2^63 - 1, and then that value is
      stored; otherwise the error names the first digit whose prefix is beyond it. */
  lemma NumbersAreExact(digits: seq<byte>)
    requires AllDigits(digits)
    ensures Decimal(digits) <= MAX_NUMBER ==> ReadDigits(digits, 0, 0) == Digits(|digits|, Decimal(digits))
    ensures Decimal(digits) > MAX_NUMBER ==>
      ReadDigits(digits, 0, 0).Overflow? && OverflowsAt(digits, ReadDigits(digits, 0, 0).at)
  {
    ReadDigitsIsExact(digits, 0, 0);
    var run := ReadDigits(digits, 0, 0);
    if run.Overflow? {
      DecimalGrows(digits, run.at + 1);
    }
  }

  /** In a literal header the digits end at the first byte that is not one; reading them is reading just
      those digits. */
  lemma {:induction false} ReadDigitsStops(input: seq<byte>, p: nat, i: nat, end: nat, value: nat)
    requires p <= i <= end <= |input| && AllDigits(input[p .. end]) && (end < |input| ==> !IsDigit(input[end]))
    ensures ReadDigits(input, i, value)
         == match ReadDigits(input[p .. end], i - p, value)
            case Digits(e, v) => Digits(p + e, v)
            case Overflow(at) => Overflow(p + at)
    decreases end - i
  {
    if i < end {
      assert input[p .. end][i - p] == input[i];
      if value <= (MAX_NUMBER - (input[i] - ZERO)) / 10 {
        ReadDigitsStops(input, p, i + 1, end, value * 10 + (input[i] - ZERO));
      }
    }
  }

  // ---- Quoted strings ----

  predicate Quotable(content: seq<byte>) {
    forall i :: 0 <= i < |content| ==> content[i] != NUL && content[i] != CR && content[i] != LF
  }

  predicate NeedsEscape(c: byte) {
    c == DQUOTE || c == BACKSLASH
  }

  function EscapeByte(c: byte): seq<byte> {
    if NeedsEscape(c) then [BACKSLASH, c] else [c]
  }

  function Escape(content: seq<byte>): seq<byte> {
    if content == [] then [] else EscapeByte(content[0]) + Escape(content[1..])
  }

  function QuotedForm(content: seq<byte>): seq<byte> {
    [DQUOTE] + Escape(content) + [DQUOTE]
  }

  lemma EscapeJoins(c: byte, rest: seq<byte>)
    ensures Escape([c] + rest) == EscapeByte(c) + Escape(rest)
  {
    assert ([c] + rest)[1..] == rest;
  }

  /** What stands in `raw` from `i` up to its closing quote is the escaped form of what unescaping gives. */
  ghost predicate EscapedFrom(raw: seq<byte>, i: nat)
    requires i < |raw|
  {
    Quotable(Unescape(raw, i)) && raw[i .. |raw| - 1] == Escape(Unescape(raw, i))
  }

  lemma PlainByteJoins(raw: seq<byte>, i: nat)
    requires i + 1 < |raw| && EscapedFrom(raw, i + 1)
    requires !NeedsEscape(raw[i]) && raw[i] != NUL && raw[i] != CR && raw[i] != LF
    ensures EscapedFrom(raw, i)
  {
    EscapeJoins(raw[i], Unescape(raw, i + 1));
    assert raw[i .. |raw| - 1] == [raw[i]] + raw[i + 1 .. |raw| - 1];
  }

  lemma EscapedByteJoins(raw: seq<byte>, i: nat)
    requires i + 2 < |raw| && EscapedFrom(raw, i + 2)
    requires raw[i] == BACKSLASH && NeedsEscape(raw[i + 1])
    ensures EscapedFrom(raw, i)
  {
    EscapeJoins(raw[i + 1], Unescape(raw, i + 2));
    assert raw[i .. |raw| - 1] == [raw[i], raw[i + 1]] + raw[i + 2 .. |raw| - 1];
  }

  /** A quoted string that closes at `end`, scanned from `i`, just past an escape or plain byte. */
  lemma {:induction false} ClosedIsEscaped(input: seq<byte>, p: nat, i: nat, max: nat, end: nat)
    requires p < i <= |input| && QuotedScan(input, p, i, false, max) == Closed(end)
    ensures i < end <= |input| && input[end - 1] == DQUOTE && end - p <= max
    ensures EscapedFrom(input[p .. end], i - p)
    decreases |input| - i
  {
    if input[i] == BACKSLASH {
      ClosedIsEscaped(input, p, i + 2, max, end);
      SliceAt(input, p, end, i);
      SliceAt(input, p, end, i + 1);
      EscapedByteJoins(input[p .. end], i - p);
    } else if input[i] != DQUOTE {
      ClosedIsEscaped(input, p, i + 1, max, end);
      SliceAt(input, p, end, i);
      PlainByteJoins(input[p .. end], i - p);
    }
  }

  lemma SliceAt(input: seq<byte>, p: nat, end: nat, i: nat)
    requires p <= i < end <= |input|
    ensures input[p .. end][i - p] == input[i]
  {
  }

  /** Every quoted token is the quoted form of its content, which holds no NUL, CR or LF. */
  lemma QuotedTokensAreEscaped(limits: Limits, s: LexState, input: seq<byte>, fin: bool)
    requires s.pos < |input| && input[s.pos] == DQUOTE
    ensures var x := LexQuoted(limits, s, input, fin);
      x.result.Got? ==>
        && Quotable(x.result.token.unescaped)
        && x.result.token.raw == QuotedForm(x.result.token.unescaped)
        && |x.result.token.raw| <= limits.maxToken
  {
    var found := QuotedScan(input, s.pos, s.pos + 1, false, limits.maxToken);
    if found.Closed? {
      var raw := input[s.pos .. found.end];
      ClosedIsEscaped(input, s.pos, s.pos + 1, limits.maxToken, found.end);
      assert raw == [raw[0]] + raw[1 .. |raw| - 1] + [raw[|raw| - 1]];
    }
  }

  /** The escaped form of `content` stands at `i`, with the closing quote behind it. */
  ghost predicate FormAt(input: seq<byte>, i: nat, content: seq<byte>) {
    i <= |input| && Escape(content) + [DQUOTE] <= input[i..]
  }

  lemma PrefixDrops(a: seq<byte>, b: seq<byte>, c: seq<byte>)
    requires a + b <= c
    ensures a <= c && b <= c[|a|..]
  {
    assert forall k :: 0 <= k < |b| ==> b[k] == (a + b)[|a| + k];
  }

  lemma FormAtStep(input: seq<byte>, i: nat, content: seq<byte>)
    requires FormAt(input, i, content) && content != []
    ensures var form := EscapeByte(content[0]);
      && |Escape(content)| == |form| + |Escape(content[1..])|
      && i + |form| <= |input| && input[i] == form[0] && (|form| == 2 ==> input[i + 1] == form[1])
      && FormAt(input, i + |form|, content[1..])
  {
    var form := EscapeByte(content[0]);
    var rest := Escape(content[1..]) + [DQUOTE];
    assert Escape(content) + [DQUOTE] == form + rest;
    PrefixDrops(form, rest, input[i..]);
    assert input[i..][|form|..] == input[i + |form|..];
    assert input[i] == input[i..][0] && (|form| == 2 ==> input[i + 1] == input[i..][1]);
  }

  /** The inside of a quoted form, from `i` on, is scanned to its closing quote, or refused at the
      limit. */
  lemma {:induction false} EscapedIsClosed(input: seq<byte>, p: nat, i: nat, content: seq<byte>, max: nat)
    requires p < i && Quotable(content) && FormAt(input, i, content)
    ensures var end := i + |Escape(content)| + 1;
      QuotedScan(input, p, i, false, max) == if end - p <= max then Closed(end) else BadQuoted(TokenTooLong, p)
    decreases |content|
  {
    if content != [] {
      FormAtStep(input, i, content);
      EscapedIsClosed(input, p, i + |EscapeByte(content[0])|, content[1..], max);
    }
  }

  /** And unescaping it gives the content back. */
  lemma {:induction false} EscapedUnescapes(raw: seq<byte>, i: nat, content: seq<byte>)
    requires FormAt(raw, i, content) && i + |Escape(content)| + 1 == |raw|
    ensures Unescape(raw, i) == content
    decreases |content|
  {
    if content != [] {
      FormAtStep(raw, i, content);
      EscapedUnescapes(raw, i + |EscapeByte(content[0])|, content[1..]);
      assert content == [content[0]] + content[1..];
    }
  }

  /** Every content without NUL, CR or LF, printed as a quoted string anywhere in the input, lexes back
      to itself exactly when its printed form is within the limit, whatever follows it. */
  lemma QuotedFormLexes(limits: Limits, s: LexState, content: seq<byte>, input: seq<byte>, fin: bool)
    requires Quotable(content) && s.pos + |QuotedForm(content)| <= |input|
    requires input[s.pos .. s.pos + |QuotedForm(content)|] == QuotedForm(content)
    ensures var form := QuotedForm(content);
      LexQuoted(limits, s, input, fin)
      == if |form| <= limits.maxToken then
           Lexed(Got(Made(s, Quoted, form).(unescaped := content)), Consumed(s, |form|))
         else Fail(s, TokenTooLong, s.pos)
  {
    var form := QuotedForm(content);
    var e := Escape(content);
    var i := s.pos + 1;
    assert form[1..] == e + [DQUOTE];
    assert form[1..] == input[i .. s.pos + |form|] <= input[i..];
    EscapedIsClosed(input, s.pos, i, content, limits.maxToken);
    EscapedUnescapes(form, 1, content);
  }
}
