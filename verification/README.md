# Verification of Crimson's IMAP tokenizer and network streams

A Dafny model of the parts of Crimson whose correctness rests on reasoning over whole runs rather than
on one function at a time, with proofs of what those parts promise.

* **The tokenizer.** `Lexer` takes bytes in pieces of any size and may stop at any byte. `LexSpec.dfy` says
  what one call of `next` answers as a function of all the bytes received so far; it has no buffer and no
  resume state. `Lexer.dfy` is the class as it runs, with buffer compaction, suspended scans and 64-bit
  counters, and every method is proved to compute that function. `Stability.dfy` and
  `ChunkIndependence.dfy` then prove that the tokens and the ending do not depend on how the stream was
  cut, and `Driving.dfy` runs the class itself through any list of calls; `Lossless.dfy`, `Values.dfy`,
  `PrintLex.dfy`, `LexPrint.dfy` and `Bounds.dfy` prove what the tokens mean, that printing inverts lexing,
  and how much the lexer holds and rescans. `LexTable.dfy` says, mode by mode and byte by byte and
  in plain numbers, what a call answers, its errors and their offsets included, and leaves no case out.
* **The response reader.** `ResponseShape.dfy` is its state machine, `ResponseReader.dfy` the class above
  an arbitrary byte stream (`Streams.dfy`), `ResponseGrammar.dfy` what is read as text and what is not, told
  from the letters of a line's words, `Framing.dfy` the theorem that reading a whole stream gives a
  function of its bytes and its ending, and `Desync.dfy` the proof that text cannot put the reader out of
  step with the server.
* **The streams under it.** `TlsRecords.dfy` and `TlsWriting.dfy` reassemble and send TLS records over an
  abstract record codec; `StreamHelpers.dfy` is the read and write loops; `Interleaving.dfy`, `Attempts.dfy`,
  `Schedule.dfy` and `Connecting.dfy` are the overlapped connect of RFC 8305, over the operating system of `Winsock.dfy`,
  which keeps the story of what it was asked and answered; `Cancellation.dfy` is the cancel and close
  protocol as interleaved steps of threads and of an operating system that reuses descriptors.

`dafny verify dfyconfig.toml` checks everything. Imperative source code is modelled by classes and
methods with loops; each is proved against a pure function, and the theorems are lemmas about those
functions. A ghost history in `Lexer` (bytes fed, tokens emitted, bytes examined) carries the statements
about whole runs.

Foreign calls are arbitrary answers: the deliveries of a stream and the answers of a sink are any finite
script, the record codec is any function satisfying `TlsRecords.Sound`, and the operating system under
`Connect` is any oracle whose clock passes every time eventually.

Three places where the code and its comments differ, decided for the code:

* `tcp_stream.cpp:368-375` puts a wait with nothing in flight down to attempts that could not be started.
  It cannot be that: with nothing in flight the next candidate is begun at once, so this branch
  is reached only when `max_in_flight` is zero. `Connecting.Connect` proves that no such wait happens
  otherwise, and a start with nothing pending is accordingly not staggered.
* `tcp_stream.cpp:65-66` says that families alternate. The code alternates between the first address's
  family and all the others together. Families alternate if and only if the surplus of the others, from
  where the first family is used up, alternates by itself (`Interleaving.FamiliesAlternateExactly`). With two
  families it always does (`TwoFamiliesAlternate`). Of any three it need not: families 1, 2, 2, 3 in this
  order stay as they are (`ThreeFamiliesMayRepeat`). The resolver asks for any family with stream sockets over
  TCP (`resolver.cpp:112-115`) and passes on whatever families it is given; TCP runs over IPv4 and IPv6, so more
  than two are not to be expected, but nothing in the code rules them out.
* `tcp_stream.cpp:391-392` wakes for the next stagger. It does so also while `max_in_flight` withholds the
  candidate that is then due, and then every wait is empty: the loop polls without a pause until an attempt
  ends or its deadline passes. Two addresses, the first silent, `max_in_flight` 1, `attempt_delay` 250 and
  `candidate_timeout` 5000: from 250 to 5000 every wait is for 0 ms (`Connecting.BusyPolling`). Exactly, a wait
  is empty if and only if a next start is due or the deadline of a pending attempt has passed
  (`Connecting.WaitingTime`), and in every connect a wait at which a withheld candidate was due was empty, with
  the cap reached (`Schedule.CappedWaitsAreEmpty`).

## Model

| member | source | states |
|---|---|---|
| Lexing.Lexer.Next | src/protocols/imap/lexer.cpp:70-137 | From any reachable state, buffered and suspended anyhow and for any mode, the answer and the new state are those of the one-shot function on every byte fed so far; the history of emitted tokens stays lossless, and a scan is dropped only when the mode changes |
| Lexing.Lexer.Feed | src/protocols/imap/lexer.cpp:56-68 | Compaction is invisible: offset, pending spaces, partial token and tokens are unchanged, and the buffer never exceeds twice what waited in it plus what is fed |
| Lexing.Lexer.Reclaim | src/protocols/imap/lexer.cpp:62-66 | After compaction the used part is empty, or below the 64 KiB threshold and less than half of an unchanged buffer; no unconsumed byte is lost |
| Lexing.Lexer.NumberOf | src/protocols/imap/lexer.cpp:252-262 | The 64-bit digit loop never wraps and decides exactly as unbounded arithmetic does, naming the first digit beyond 2^63-1 |
| Lexing.Lexer.Unescaped | src/protocols/imap/lexer.cpp:299-306 | The unescaping loop stays in its bounds and yields the quoted content |
| Lexing.Lexer.LexAtom | src/protocols/imap/lexer.cpp:228-268 | A resumed atom scan finds what a scan from the atom's start finds, token, error or wait, and leaves a resumable prefix |
| Lexing.Lexer.LexQuoted | src/protocols/imap/lexer.cpp:270-323 | The same for quoted strings, the remembered backslash included |
| Lexing.Lexer.LexLiteralHeader | src/protocols/imap/lexer.cpp:325-391 | The rescanned header is read as if all its bytes had been there at once |
| Lexing.Lexer.LexText | src/protocols/imap/lexer.cpp:393-418 | The same as for atoms, for free text |
| Lexing.Lexer.NextLiteral | src/protocols/imap/lexer.cpp:420-441 | Content is handed out up to what is available and what is owed, and nothing else |
| Lexing.Lexer.LexEol | src/protocols/imap/lexer.cpp:181-202 | A line end is a CRLF however it was cut; a bare CR or LF is an error, and at the end of input a lone CR is one after it |
| Lexing.Lexer.LexGeneral | src/protocols/imap/lexer.cpp:139-179 | The switch on the first byte, or two after a tilde, picks the shape the one-shot function picks, and leaves a resumable prefix of that shape |
| Lexing.Lexer.DropOtherScan | src/protocols/imap/lexer.cpp:78-82 | A scan made for another mode is forgotten without consuming anything, and only then |
| LexTable.EveryByteIsCovered | src/protocols/imap/lexer.cpp:102-179 | In every mode every byte but a space begins just one of the things that the following rows answer for |
| LexTable.LineEnds | src/protocols/imap/lexer.cpp:181-202 | In every mode: 0D 0A is a line end and ends all nesting; 0A alone, or 0D before anything else, is a bad line ending there; 0D at the end of input is an unexpected end after it, or waits |
| LexTable.Opens | src/protocols/imap/lexer.cpp:107-149 | 5B in normal and resp_text mode, and 28 in normal and astring mode, open a bracket or parenthesis one byte long, or are nested too deeply |
| LexTable.Closes | src/protocols/imap/lexer.cpp:121-155 | 5D in normal and both code modes, and 29 in normal and astring mode, close one, lowering the depth unless it is zero |
| LexTable.Controls | src/protocols/imap/lexer.cpp:173-175 | In normal and astring mode any other control byte is an invalid character there |
| LexTable.FreeTextAnswers | src/protocols/imap/lexer.cpp:393-418 | In text mode any byte, in resp_text mode any but 5B, in code_text mode any but 5D and in code_name mode any but those and the bytes of words begin free text, which reaches to CR, LF or, in a code, 5D; a NUL is an error where it stands, and too much is one at the start |
| LexTable.AtomBytes | src/protocols/imap/lexer.cpp:21-43 | The bytes of words are those above 20 except 22, 28, 29, 7B, 7F and, outside astrings, 5B and 5D |
| LexTable.PlainWords | src/protocols/imap/lexer.cpp:228-268 | In code_name and astring mode a word is an atom whatever it looks like |
| LexTable.NormalWords | src/protocols/imap/lexer.cpp:228-268 | In normal mode a word is NIL by its letters in any case, a number with its decimal value below 2^63, an error at the first digit beyond, or else an atom; too long is an error at its start |
| LexTable.QuotedAnswers | src/protocols/imap/lexer.cpp:270-323 | Inside a quoted string: CR or LF is an unterminated string and NUL an invalid character where they stand, too long an error at its start, and the end of input an unexpected end or a wait |
| LexTable.BackslashAnswers | src/protocols/imap/lexer.cpp:277-297 | After 5C anything but 22 and 5C is a bad escape where it stands |
| LexTable.QuoteCloses | src/protocols/imap/lexer.cpp:299-317 | 22 closes the string: the token holds the content of which its bytes are the escaped form |
| LexTable.HeaderSizes | src/protocols/imap/lexer.cpp:337-362 | In a literal header the size is decimal; 2^63 or more is an error at the digit that makes it so, and no digit one where it should stand |
| LexTable.HeaderCloses | src/protocols/imap/lexer.cpp:362-391 | Then come perhaps 2B, and 7D 0D 0A; a byte that differs is a bad literal where it stands, a size beyond the limit an error at the header, and otherwise the header is read |
| LexTable.TildeWaits | src/protocols/imap/lexer.cpp:160-165 | 7E at the end of what has come waits |
| LexTable.SpacesToTheEnd | src/protocols/imap/lexer.cpp:443-451 | After spaces to the end of input a call waits, or ends cleanly between lines and with no space, or fails at the end |
| LexTable.TooManySpaces | src/protocols/imap/lexer.cpp:84-95 | The space that is one too many is an error where it stands |
| LexTable.InsideLiterals | src/protocols/imap/lexer.cpp:420-441 | Inside a literal neither mode nor bytes matter: content up to what has come and is owed, then the end |
| LexTable.ErrorsAreSticky | src/protocols/imap/lexer.cpp:70-73 | After an error every call answers with it and changes nothing |
| Stability.NextStable | src/protocols/imap/lexer.h:86-90 | A token or error returned early is unchanged by any further input or by the end of input; after a wait, calling again answers as if all input had been there at first |
| Stability.NextProgress | src/protocols/imap/lexer.cpp:443-451 | Every token lowers twice the unconsumed bytes plus one inside a literal; after finish no call asks for more; errors are sticky |
| ChunkIndependence.EveryRunReadsTheOneStream | docs/decisions/0012-imap-lexing-is-resumable-and-parser-directed.md:43-47 | For every list of feed, finish and next calls and every client that chooses modes from the merged tokens, completing the run with any stream it may still be reading gives what reading that stream at once gives |
| Driving.Drive | src/protocols/imap/lexer.h:86-110 | A new lexer taken through any list of feed, finish and next calls for any client goes through exactly the run the theorems speak of |
| ChunkIndependence.TwoCutsAgree | src/protocols/imap/lexer.h:86-90 | Two ways of cutting one stream, each run to its end, give the same merged tokens and the same ending |
| ChunkIndependence.CallsEndTheRun | src/protocols/imap/lexer.cpp:70-76 | Once input is finished a bounded number of calls brings every run to its end |
| ChunkIndependence.FinishedReadingEnds | src/protocols/imap/lexer.cpp:443-451 | A finished input never leaves the lexer waiting |
| ChunkIndependence.PieceThenRestOfLiteral | src/protocols/imap/lexer.cpp:420-441 | A piece of a literal delivered early and then the rest merge to the literal delivered whole, refusals by the client included |
| Lossless.EveryRunIsLossless | docs/decisions/0012-imap-lexing-is-resumable-and-parser-directed.md:55-57 | In every run the tokens with their spaces, then the pending spaces, are the input up to the offset; a clean end accounts for all of it; after a failure the tokens are still a prefix |
| Lossless.EveryTokenIsLocated | src/protocols/imap/lexer.cpp:459-469 | Every token's offset is where its bytes stand in the stream |
| Lossless.LiteralsAreConserved | src/protocols/imap/lexer.cpp:378-441 | A literal end is preceded by exactly the announced number of content bytes, within the limit, and those by the announcement, in every run and whatever modes were asked for |
| Lossless.OnlyContentFollowsAnnouncement | src/protocols/imap/lexer.cpp:420-441 | After an announcement only content may follow, then the end once all of it has come |
| Values.NumbersAreExact | src/protocols/imap/lexer.cpp:252-262 | Digits are accepted exactly when their decimal value is at most 2^63-1, with that value; else the error is at the first digit whose prefix is beyond it |
| Values.ReadDigitsStops | src/protocols/imap/lexer.cpp:346-356 | The digits of a literal header are read as just those digits, so their arithmetic is exact too |
| Values.QuotedTokensAreEscaped | src/protocols/imap/lexer.cpp:277-309 | Every quoted token is a quote, the escaped form of its content and a quote, and the content has no NUL, CR or LF |
| Values.QuotedFormLexes | src/protocols/imap/lexer.cpp:277-317 | Every content without NUL, CR or LF lexes back to itself exactly when its printed form is within the limit, whatever follows |
| PrintLex.PrintedTokensLexBack | docs/decisions/0012-imap-lexing-is-resumable-and-parser-directed.md:55-57 | Every well-formed list of normal-mode tokens, printed, lexes back to itself |
| LexPrint.PrintableExactly | src/protocols/imap/lexer.cpp:139-391 | A printed list of tokens lexes back to itself and a clean end if and only if it is well-formed: tokens valid and within limits, no two words touching, no lone tilde before a header, ending its last line |
| LexPrint.CleanInputsArePrintable | src/protocols/imap/lexer.cpp:139-391 | Whatever lexes cleanly in normal mode is a well-formed list |
| LexPrint.CleanInputsPrintBack | docs/decisions/0012-imap-lexing-is-resumable-and-parser-directed.md:55-57 | Printing the tokens of a cleanly ending input gives the input back, so lexing and printing are inverse |
| Bounds.WaitingHoldsLittle | src/protocols/imap/lexer.cpp:228-241 | When more input is asked for outside a literal header, at most max(1, max_token_bytes) bytes are unconsumed |
| Bounds.CallThenFeed | src/protocols/imap/lexer.cpp:56-68 | After such a call, feeding k bytes leaves a buffer of at most twice that plus k |
| Bounds.ScanningIsLinear | src/protocols/imap/lexer.h:172-178 | In every reachable state the atom, quoted and text loops have examined at most one byte per byte fed, per token and for the failure, besides scans dropped by a change of mode |
| Bounds.ReadingIsLinear | src/protocols/imap/lexer.h:172-178 | Under the response reader no scan is ever dropped, so the bound holds without exception |
| ResponseShape.MergeAdvances | src/protocols/imap/response_reader.cpp:97-108 | Joining the pieces of a literal does not show in the response's progress |
| ResponseShape.ReaderIsLiteralBlind | src/protocols/imap/response_reader.cpp:97-108 | The reader never looks into literals, the condition under which chunking cannot be seen |
| ResponseGrammar.StatusIsSpelled | src/protocols/imap/response_reader.cpp:18-21 | The status words are OK, NO, BAD, PREAUTH and BYE, by their letters in either case |
| ResponseGrammar.StructuredIsSpelled | src/protocols/imap/response_reader.cpp:23-38 | The codes whose arguments have a grammar are the ten named, by their letters in either case |
| ResponseGrammar.ReaderModes | src/protocols/imap/response_reader.cpp:81-176 | The mode asked for is a function of the tokens of the line so far, and the kind of response of its first token: 2B continuation, 2A untagged, else tagged |
| ResponseGrammar.ReaderVerdicts | src/protocols/imap/response_reader.cpp:97-140 | A token is refused if and only if it begins a response and is neither an atom nor a number; the error is at its offset |
| ResponseGrammar.EveryTokenIsReadByItsLine | src/protocols/imap/response_reader.cpp:73-176 | In every run each token was asked for in the mode its line calls for and is of a kind that mode yields, or content of a literal |
| ResponseGrammar.StatusIsReadAsText | src/protocols/imap/response_reader.cpp:137-175 | In every run: after the word of a status response comes a bracket, text or the line end, and to the line end, the arguments of a structured code aside, no literal, quoted string, number, NIL or parenthesis |
| ResponseGrammar.ContinuationIsReadAsText | src/protocols/imap/response_reader.cpp:122-136 | In every run a continuation holds nothing but text |
| ResponseGrammar.DataIsReadAsData | src/protocols/imap/response_reader.cpp:137-138 | In every run a response whose second word is none of the five is read in normal mode to its line end |
| ResponseReading.ResponseReader.ReadToken | src/protocols/imap/response_reader.cpp:45-71 | The read loop answers as the lexer would for all bytes then received; if anything was read, the lexer could not answer on what had been fed before the last read, nor then on anything less; it never reads after the end of the stream, loses nothing when a read fails, and ends on every finite stream |
| ResponseReading.ResponseReader.AdvanceBy | src/protocols/imap/response_reader.cpp:97-176 | The mutable state, kind and bracket depth move as the pure state machine does, refusals included |
| ResponseReading.ResponseReader.Next | src/protocols/imap/response_reader.cpp:73-79 | One call is one step of a run of the lexer with the reader as its client, whatever the deliveries; the stream is read only for need, and a failed read loses nothing |
| Framing.ReadFramed | tests/imap/imap_test_support.h:119-140 | Reader independence: tokens, response kind and outcome of reading a stream to its end are a function of its bytes and of how it ends, for any delivery sizes and whether the end comes with the last bytes or after |
| Framing.FramedMeans | tests/imap/imap_test_support.h:119-140 | That function in plain words: tokens print a prefix of the bytes; a clean end is one of a stream that ended, with all its bytes in the tokens; a network failure is the stream's own |
| Framing.ReadRegardless | src/protocols/imap/response_reader.cpp:45-79 | Reading on after every failed read until the end gives the tokens and the ending of all the bytes ever delivered, read at once |
| Desync.EveryRunStaysInStep | src/protocols/imap/response_reader.cpp:97-176 | In every run: inside a response the lexer is not at a line start, the clean end comes only between responses, a continuation is only ever text, and the bracket count of a code is at least one |
| Desync.CodeEndsAtItsBracket | src/protocols/imap/response_reader.cpp:158-164 | The reader is inside a structured code exactly while no prefix of the tokens has closed the bracket that opened it, and then reads text |
| Desync.TextNeverDesynchronises | src/protocols/imap/response_reader.cpp:137-175 | Once a response is read as text, whatever bytes follow, only text and closing brackets precede its line end, which is the first CR or LF to come and a CRLF, and the next response begins right behind it. So it always is when the rest of the line ends in a CRLF, has no NUL and is within the token limit with the spaces pending; otherwise reading may instead end uncleanly, with nothing but text |
| Desync.EveryRunStaysInStepWithItsStream | src/protocols/imap/response_reader.cpp:81-95 | The same, readable lines included, from every reachable state of every run, for any stream it may still be reading |
| TlsRecords.TlsStream.Read | src/platform/windows/net/tls_stream.cpp:460-557 | Successive reads return exactly the record plaintexts, for any fragmentation and destination sizes; end of stream exactly with the last bytes once the peer has closed, and otherwise only between records (close_notify: section 6.1 of RFC 8446); truncation only inside a record; errors only after all plaintext is returned, unless the hint of a record still to come over-asks and the inner stream breaks, or such a record does not fit the buffer. Whatever it answers, what it returned and what reading on will return is what was owed before |
| TlsRecords.ReadToEnd | src/platform/windows/net/tls_stream.cpp:460-557 | Reading on reaches an end on every stream and yields all plaintext and the one ending the ciphertext has; or, only if a record of this ciphertext is over-hinted or does not fit, a prefix of the plaintext. Record by record: `ClosedByPeer` if and only if whole records lead to one that closes; ciphertext that stops inside a record and then ends is a truncation; between records it ends without close_notify; a broken stream or a rejected record is that error |
| TlsRecords.ReferenceReads | src/platform/windows/net/tls_stream.cpp:482-551 | The reference plaintext and ending, told record by record without it: which whole records lead up to what follows, and what the codec says of that |
| TlsRecords.ReadRegardless | src/platform/windows/net/tls_stream.cpp:460-557 | Any number of reads, failures among them, lose and repeat nothing: what they returned and what is then owed is what was owed at first |
| TlsRecords.FailEarly | src/platform/windows/net/tls_stream.cpp:278-301 | The condition on hints is needed: with a hint of two for a record that lacks one, and a stream that then breaks, waiting fails while the whole record is owed |
| TlsRecords.TlsStream.FillIncoming | src/platform/windows/net/tls_stream.cpp:278-301 | More ciphertext arrives without loss or reordering, as much as was known to be lacking unless the stream ends; it fails only with the inner stream, no whole record waiting, or early as `Read` says |
| TlsRecords.TlsStream.Decrypt | src/platform/windows/net/tls_stream.cpp:482-537 | A whole record is taken over without changing what is owed or how it will end; an incomplete one is kept, and what is needed is what its hint names; an error is the one the ciphertext ends in |
| TlsRecords.TlsStream.HandOver | src/platform/windows/net/tls_stream.cpp:469-477 | Decrypted bytes are handed over in order, and the end of stream comes with the last of them exactly when the peer has closed |
| TlsRecords.TlsStream.EnsureIncomingSpace | src/platform/windows/net/tls_stream.cpp:262-276 | Room is made exactly when the total stays within the maximum, and never beyond it |
| TlsRecords.NextRecord | src/platform/windows/net/tls_stream.cpp:303-315 | A whole record at the front of the waiting bytes is the stream's next record, and the bytes kept are the start of what follows |
| TlsWriting.TlsWriter.WriteSome | src/platform/windows/net/tls_stream.cpp:559-592 | A write fails exactly when the sink does not take the whole record, with the sink's error and that much of the record sent. While no write has failed, what is reported as written is exactly what a peer using the codec reads; afterwards nothing takes back what was accepted before |
| TlsWriting.WriteAfterFailure | src/platform/windows/net/tls_stream.cpp:559-592 | The condition is needed: after a torn record a later write is reported as written and the peer does not read it |
| TlsWriting.ReadOn | src/platform/windows/net/tls_stream.cpp:460-557 | Ciphertext that ends between records can be read so far and then on, as one stream |
| TlsWriting.MoreKeepsPlaintext | src/platform/windows/net/tls_stream.cpp:303-315 | More ciphertext only ever extends the plaintext |
| TlsWriting.FramesAreSound | src/platform/windows/net/tls_stream.cpp:490-535 | The assumptions on codec and sealer can be met: a length-prefixed framing meets them |
| TlsWriting.FramesAreTame | src/platform/windows/net/tls_stream.cpp:490-499 | And its hints are exact and its records fit, for every ciphertext |
| StreamHelpers.WriteAll | src/core/net/stream_helpers.cpp:19-34 | For any answers of the sink: what is sent is a prefix, in order and without repetition; success means all of it; the result is the one the answers determine |
| StreamHelpers.WritingFailsForAReason | src/core/net/stream_helpers.cpp:20-32 | Writing fails if and only if a failure or a broken count comes before all is taken; that failure is reported, a broken count as a logic error |
| StreamHelpers.ReadExactly | src/core/net/stream_helpers.cpp:36-59 | Succeeds exactly when enough is still to come, with its first bytes and an end alongside them tolerated; else reports truncation, also of a stream already at its end, or the stream's error |
| StreamHelpers.ReadToEof | src/core/net/stream_helpers.cpp:61-92 | Replaces what the destination held, unless the cap is zero, by the bytes still to come, in order up to the cap; reports the end only if it was reached; keeps what arrived before a failure |
| Interleaving.InterleaveByFamily | src/platform/windows/net/tcp_stream.cpp:71-101 | The vector loops compute the interleaved order |
| Interleaving.InterleavingIsTheFairOrder | src/platform/windows/net/tcp_stream.cpp:65-70 | An order is the computed one if and only if it keeps the resolver's order on both sides, alternates between them until one is used up and starts with the first address's side |
| Interleaving.InterleavingPermutes | src/platform/windows/net/tcp_stream.cpp:65-70 | Nothing is lost or repeated and the resolver's first choice stays first |
| Interleaving.FamiliesAlternateExactly | src/platform/windows/net/tcp_stream.cpp:65-101 | Families alternate if and only if the surplus of the other families, from where the first address's is used up, alternates by itself |
| Interleaving.TwoFamiliesAlternate | src/platform/windows/net/tcp_stream.cpp:65-66 | With addresses of at most two families, neighbours are of different families until one family is left |
| Interleaving.ThreeFamiliesMayRepeat | src/platform/windows/net/tcp_stream.cpp:71-101 | For any three families there is an order in which two neighbours share one while another is still to come |
| Attempts.BestIsFirstMostDefinite | src/platform/windows/net/tcp_stream.cpp:34-63 | The error kept is the first of the highest rank, a timeout when there are none |
| Attempts.RanksAreRight | src/platform/windows/net/tcp_stream.cpp:41-63 | One error outranks another exactly as the codes say: a cancel, then 10061, then timeouts and 10060, then 10065, 10051 and 10064, then other codes, then 10047 and 10049 |
| Attempts.BestIsReported | src/platform/windows/net/tcp_stream.cpp:41-63 | So none of the failures says more than the error reported, and none before it as much |
| Connecting.RefusalIsTold | src/platform/windows/net/tcp_stream.cpp:34-56 | A race lost with no cancel reports 10061 if any socket answered so, to connect or when asked how it fared, whatever else happened |
| Attempts.BeginAttempt | src/platform/windows/net/tcp_stream.cpp:161-193 | An attempt that cannot begin leaves no socket open, and its failure is recorded against it; one that begins owns exactly one new socket, configured and dialled to its candidate, and is connected or pending as the system answered |
| Attempts.Finish | src/platform/windows/net/tcp_stream.cpp:282-308 | All losers are closed; the winner's return to blocking mode is tried, then its attaching, and it is handed over if and only if both succeed, or else closed with the error of the first that failed |
| Attempts.CheckReady | src/platform/windows/net/tcp_stream.cpp:417-451 | The winner is the first ready attempt whose SO_ERROR reads zero; without one, exactly the ready attempts were asked, in order, every one answered otherwise, and just these are marked and have their failures recorded |
| Attempts.Sweep | src/platform/windows/net/tcp_stream.cpp:453-470 | Exactly the attempts neither failed nor out of time stay open; every attempt out of time has a timeout recorded, at a time past its deadline, and no other has |
| Attempts.NextWake | src/platform/windows/net/tcp_stream.cpp:393-404 | The wait ends no later than anything due, and exactly at the earliest of them or at the slice |
| Connecting.WaitingTime | src/platform/windows/net/tcp_stream.cpp:393-407 | With time left, a wait is empty if and only if a next start is due or a pending attempt's deadline has passed; otherwise it ends no later than any of these and all time, and exactly at one of them or after a slice |
| Connecting.BusyPolling | src/platform/windows/net/tcp_stream.cpp:393-407 | With room for one attempt, a silent one pending and a second candidate due, every wait until the deadline is empty |
| Schedule.CappedWaitsAreEmpty | src/platform/windows/net/tcp_stream.cpp:321-407 | In every connect: a wait at which the next candidate was due was empty, and the cap was reached |
| Schedule.AttemptsHaveTheirTime | src/platform/windows/net/tcp_stream.cpp:340-342 | In every connect an attempt left pending is waited on until a wait finds it ready or ends past its start plus the candidate timeout or past the overall deadline, and not after |
| Connecting.StartNext | src/platform/windows/net/tcp_stream.cpp:321-364 | A start happens only under the cap and after the stagger or with nothing pending, and the race's bookkeeping agrees with what the system saw |
| Connecting.PollPending | src/platform/windows/net/tcp_stream.cpp:383-470 | One wait on all pending sockets, for the time `WaitingTime` names. Then the first ready socket to answer zero wins; or the poll broke, which is recorded; or the attempts left are exactly those not ready and not out of time, every ready one was asked and had failed, each attempt dropped has a failure of its own, and timeouts are recorded only past their deadlines |
| Connecting.TakeTurn | src/platform/windows/net/tcp_stream.cpp:315-470 | A turn past the deadline gives up with a timeout. Before it, every turn but an exhausted one adds exactly one act to the story: the start of the next candidate if it is due, else a wait. It gives up for a failed poll only if the wait broke, and drops an attempt only if it was found ready and had failed or its deadline had passed; schedule and books are kept |
| Connecting.Connect | src/platform/windows/net/tcp_stream.cpp:248-477 | For any answers and clock. Candidates begin at most once, in order, under the cap, staggered and before the overall deadline, each dialled to its own address. Every wait begins before that deadline, for want of anything to begin, on exactly the attempts pending: those left pending by connect that no earlier wait found ready or outlasted; and it is as long as `WaitingTime` says. The cancel flag is looked at before every start and wait, and seen set means cancelled. Open sockets never exceed the cap, and every exit leaves open only the returned one. Either one attempt won, the first to connect, and is handed over or not as the system then answered; or none connected, every socket found ready was asked and had failed, every failure answered was remembered, and the error is the first of those that say most, in the order `Attempts.SaysMore` gives by code. Giving up for a failed poll means the last wait broke, and no other did; exhausted, that every candidate was begun and failed for a cause the system gave or its deadline; out of time, that the deadline had passed and a candidate not begun was withheld by cap or stagger to the last. Timeouts are recorded only past their deadlines. The clock is read once for each start and twice for each wait, and the connect terminates |
| Cancellation.StepKeepsInv | src/platform/windows/net/cancel.cpp:36-77 | Every step of every thread keeps ownership of the descriptor, mutual exclusion and what each cancel knows |
| Cancellation.OnlyOwnDescriptorsAreTouched | src/platform/windows/net/cancel.h:39-46 | In every interleaving CancelIoEx and recv only ever touch this stream's descriptor, still open, however descriptors are reused |
| Cancellation.NoCancelIsLost | src/platform/windows/net/cancel.cpp:38-71 | Once attach has decided and a cancel has finished: attach was refused, or the cancel reached the socket, or close had already taken it |
| Cancellation.MutualExclusion | src/platform/windows/net/cancel.cpp:15-21 | No two threads are inside the critical sections at once |
| Cancellation.PendingRecvIsInterrupted | src/platform/windows/net/cancel.h:34-37 | A recv pending when a cancel looks at the socket is interrupted |
| Cancellation.NoReadAfterCancel | src/platform/windows/net/tcp_stream.cpp:487-493 | Once cancelled, a stream with no read under way never enters recv again |
| Cancellation.KnownRace | src/platform/windows/net/cancel.h:48-54 | The documented race is real: a run exists in which a cancel reaches the socket and finishes, and the recv that follows is not interrupted |
| Cancellation.TheRaceExactly | src/platform/windows/net/cancel.h:48-54 | A cancel that looks at the socket in a reachable state can be followed by an uninterrupted recv if and only if it looks while a read is between its check of the flag and its recv |
| Cancellation.OnlyCancelsRequest | src/platform/windows/net/cancel.cpp:61-63 | In every run the flag is set if and only if a cancel was begun |
| Cancellation.NothingStopsUncancelled | src/platform/windows/net/cancel.cpp:38-48 | With no cancel begun attaching is not refused, a read begun passes the flag, and no recv is or was interrupted |
| Cancellation.CancelsStop | src/platform/windows/net/cancel.cpp:38-48 | Attaching is refused, and a read stopped at the flag, if and only if a cancel was begun by then |
| Cancellation.AReadReturns | src/platform/windows/net/tcp_stream.cpp:478-510 | An uncancelled read passes the flag, enters recv and returns with nothing else changed |
| Cancellation.ACancelFinishes | src/platform/windows/net/cancel.cpp:56-77 | A cancel left alone sets the flag, issues CancelIoEx on the socket attached, interrupts a recv pending on it, and leaves |
| Cancellation.AnAttachFinishes | src/platform/windows/net/cancel.cpp:36-45 | Attaching left alone ends with the socket in the state, or refused |
| Cancellation.ACloseFinishes | src/platform/windows/net/cancel.cpp:47-52 | Closing left alone takes the socket back and only then closes it |
| Cancellation.NobodyIsStuck | src/platform/windows/net/cancel.cpp:36-77 | In every reachable world whoever holds the mutex can go on, and whoever waits for it can once it is free |

## Left out

- Lexing.Lexer: tokens are values. The reuse of the caller's `Token` and the lifetime of `literal_data` views into the buffer (token.h:65-67) are not modelled, nor are allocation failures.
- Lexing.Lexer: stream offsets, pending spaces and depth are unbounded numbers; the model keeps pending spaces within `max_token_bytes` and depth within `max_depth`, so 32-bit fields cannot wrap when those limits fit them, and offsets are taken to stay below 2^64.
- Lexing.Lexer: `feed` after `finish` is outside its contract; a run ignores it.
- Lexing.Lexer.LexAtom: this and the other scanning methods are split into a scan and what follows from it; the order of examination is the source's.
- Bounds.CallThenFeed: literal headers are exempt from the memory bound, as from the linear-scan bound; their digit loop has no length limit and they are rescanned by design (lexer.cpp:325-329).
- ResponseReading.ResponseReader.ReadToken: calls of `ResponseReader::read` with modes of the caller's own choosing are not part of the reader theorems; they bypass the response state.
- ResponseReading.ResponseReader.Next: the reader's own `unexpected_token` is not sticky in the source and is not in the model; the theorems about whole readings stop at the first error.
- ResponseReading.ResponseReader.AdvanceBy: `code_depth_` is an unbounded number. The lexer's depth limit does not bound it, because stray closing parentheses lower the lexer's depth and not this count.
- PrintLex.PrintedTokensLexBack: stated for normal mode. In the other modes the printed form of a token does not say which mode read it.
- Streams.ByteStream: a stream never delivers more than it was asked for; the checks of `read_exactly` and `read_to_eof` for larger counts are therefore absent.
- TlsRecords.TlsStream.Read: the inner stream is assumed to keep the contract of byte_stream.h:60-69, since `fill_incoming` has no guard against a delivery of nothing, and the codec to be prefix-stable.
- TlsRecords.TlsStream.Read: a post-handshake message is a record with no plaintext; `negotiate`, `finish_handshake`, certificates and credentials are calls into Schannel and not modelled, and neither are `shutdown_send` and `close`.
- TlsWriting.TlsWriter.WriteSome: an error of EncryptMessage itself is not modelled; sealing always succeeds.
- Connecting.Connect: time is whole milliseconds, so the truncation of a wait to milliseconds is not visible, by which the source also makes a wait of less than one empty; logging, socket options and address descriptions are one answer of the system; one pass of the source's loop is one call of `Lap`.
- Connecting.Connect: a descriptor is numbered as the attempt it was opened for; their reuse matters for cancelling and is modelled in `Cancellation`.
- Attempts.Definiteness: `NetError` has no retry field here, and codes the source never compares are arbitrary integers.
- Cancellation.StepKeepsInv: steps are sequentially consistent, each critical section is split where it decides, one cancel handle serves one stream, and `write_some`, whose flag check is the same as that of `read`, is not a step of its own.
- Cancellation.KnownRace: the receive timeout that bounds the race is not modelled.
- Error-code tables, `to_string`, resolution, socket handle wrappers, tools and scripts: flat lookups or foreign calls.
