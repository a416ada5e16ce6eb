/** The sending side of TLS: each write seals at most one record and sends the whole of it. What one side
    has written is what the other side's record reassembly reads. */
module TlsWriting {
  import opened Tokens
  import opened Streams
  import opened StreamHelpers
  import opened TlsRecords

  /** How a plaintext is sealed, given the ciphertext sent before it. */
  type Sealer = (seq<byte>, seq<byte>) -> seq<byte>

  /** A sealed record of at most `max` bytes of plaintext opens to it and does not close the stream; a
      part of it is incomplete. */
  ghost predicate Opens(codec: Codec, seal: Sealer, max: nat) {
    && (forall done: seq<byte>, plain: seq<byte> :: |plain| <= max ==>
          seal(done, plain) != [] && codec(done, seal(done, plain)) == Record(plain, |seal(done, plain)|, false))
    && (forall done: seq<byte>, plain: seq<byte>, n: nat :: |plain| <= max && 0 < n < |seal(done, plain)| ==>
          codec(done, seal(done, plain)[..n]).Incomplete?)
  }

  // ---- The assumptions can be met: records framed by a length byte ----

  function OpenFrame(seen: seq<byte>): Opened {
    if seen == [] then Incomplete(1)
    else
      var n: nat := seen[0];
      if |seen| < 1 + n then Incomplete(1 + n - |seen|) else Record(seen[1 .. 1 + n], 1 + n, false)
  }

  const FRAMES: Codec := (done, seen) => OpenFrame(seen)

  const FRAMED: Sealer := (done, plain) => if |plain| < 256 then [|plain|] + plain else []

  lemma FramesAreSound()
    ensures Sound(FRAMES) && Opens(FRAMES, FRAMED, 255)
  {
    forall done: seq<byte>, seen: seq<byte>, input: seq<byte> | seen <= input && !FRAMES(done, seen).Incomplete?
      ensures FRAMES(done, input) == FRAMES(done, seen)
    {
      var n: nat := seen[0];
      assert input[0] == seen[0] && input[1 .. 1 + n] == seen[1 .. 1 + n];
    }
    forall done: seq<byte>, plain: seq<byte> | |plain| <= 255
      ensures FRAMED(done, plain) != []
      ensures FRAMES(done, FRAMED(done, plain)) == Record(plain, |FRAMED(done, plain)|, false)
    {
      assert ([|plain|] + plain)[1 .. 1 + |plain|] == plain;
    }
  }

  /** Their hints are exact, and they fit the buffer, whatever the ciphertext. */
  lemma FramesAreTame(done: seq<byte>, cipher: seq<byte>)
    ensures HintsHold(FRAMES, done, cipher) && FitsBuffer(FRAMES, done, cipher)
  {
    if cipher != [] {
      forall i | 0 < i <= |cipher|
        ensures cipher[..i][0] == cipher[0]
      {
      }
    }
  }

  /** Ciphertext that ends between records can be read up to there and then on. */
  lemma {:induction false} ReadOn(codec: Codec, done: seq<byte>, a: seq<byte>, b: seq<byte>)
    requires Sound(codec) && PlaintextOf(codec, done, a).end == Boundary
    ensures var rest := PlaintextOf(codec, done + a, b);
      PlaintextOf(codec, done, a + b) == Plaintext(PlaintextOf(codec, done, a).bytes + rest.bytes, rest.end)
    decreases |a|
  {
    if a == [] {
      assert a + b == b && done + a == done;
    } else {
      var r := codec(done, a);
      NextRecord(codec, done, a, b);
      FrontRecord(codec, done, a);
      Rejoin(done, a, r.used);
      ReadOn(codec, done + a[..r.used], a[r.used..], b);
      var later, rest := PlaintextOf(codec, done + a[..r.used], a[r.used..]), PlaintextOf(codec, done + a, b);
      Associate(r.plain, later.bytes, rest.bytes);
    }
  }

  lemma Rejoin(done: seq<byte>, a: seq<byte>, n: nat)
    requires n <= |a|
    ensures done + a[..n] + a[n..] == done + a
  {
  }

  lemma Associate(a: seq<byte>, b: seq<byte>, c: seq<byte>)
    ensures (a + b) + c == a + (b + c)
  {
  }

  /** Ciphertext that ends between records begins with a whole one, which does not close the stream. */
  lemma FrontRecord(codec: Codec, done: seq<byte>, a: seq<byte>)
    requires Sound(codec) && a != [] && PlaintextOf(codec, done, a).end == Boundary
    ensures codec(done, a).Record?
    ensures var r := codec(done, a);
      && 0 < r.used <= |a| && !r.closes
      && var later := PlaintextOf(codec, done + a[..r.used], a[r.used..]);
         later.end == Boundary && PlaintextOf(codec, done, a).bytes == r.plain + later.bytes
  {
  }

  /** A sealed record reads as its plaintext, and a part of it as nothing. */
  lemma SealedReads(codec: Codec, seal: Sealer, done: seq<byte>, plain: seq<byte>, n: nat)
    requires Sound(codec) && Opens(codec, seal, |plain|) && n <= |seal(done, plain)|
    ensures var record := seal(done, plain);
      PlaintextOf(codec, done, record[..n])
      == if n == |record| then Plaintext(plain, Boundary) else if n == 0 then Plaintext([], Boundary) else Plaintext([], Inside)
  {
    var record := seal(done, plain);
    if n == |record| {
      assert record[..n] == record;
      assert record[|record|..] == [];
      assert plain + [] == plain;
    }
  }

  /** More ciphertext never takes back what was read of the ciphertext before it. */
  lemma {:induction false} MoreKeepsPlaintext(codec: Codec, done: seq<byte>, a: seq<byte>, b: seq<byte>)
    requires Sound(codec)
    ensures PlaintextOf(codec, done, a).bytes <= PlaintextOf(codec, done, a + b).bytes
    decreases |a|
  {
    if a != [] && codec(done, a).Record? {
      NextRecord(codec, done, a, b);
      NextRecord(codec, done, a, []);
      assert a + [] == a;
      var r := codec(done, a);
      assert a[r.used..] + [] == a[r.used..];
      if !r.closes {
        MoreKeepsPlaintext(codec, done + a[..r.used], a[r.used..], b);
      }
    }
  }

  class TlsWriter {
    const sink: ByteSink
    const codec: Codec
    const seal: Sealer
    const maxMessage: nat

    var context: seq<byte>           // the records sealed so far: the security context
    ghost var accepted: seq<byte>    // plaintext reported as written before any write failed
    ghost var torn: bool             // a write has failed

    /** While no write has failed, what was sent reads back as exactly the plaintext accepted; afterwards the
        peer still reads all that was accepted before. */
    ghost predicate Valid()
      requires Sound(codec)
      reads this, sink
    {
      && maxMessage > 0
      && var read := PlaintextOf(codec, [], sink.sent);
         if torn then accepted <= read.bytes
         else read == Plaintext(accepted, Boundary) && context == sink.sent
    }

    constructor (sink: ByteSink, codec: Codec, seal: Sealer, maxMessage: nat)
      requires Sound(codec) && maxMessage > 0 && sink.sent == []
      ensures this.sink == sink && this.codec == codec && this.seal == seal && this.maxMessage == maxMessage
      ensures Valid() && accepted == [] && !torn
    {
      this.sink, this.codec, this.seal, this.maxMessage := sink, codec, seal, maxMessage;
      context, accepted, torn := [], [], false;
    }

    /** Seals one record's worth of `src` and sends it. The write fails just when the sink does not take the
        whole record, with the sink's error and a part of the record sent. While none has failed, what is
        reported as written is what the peer reads, in order and without loss; and nothing done after a
        failure takes back what was accepted before it. */
    method WriteSome(src: seq<byte>) returns (r: WriteOutcome)
      requires Sound(codec) && Opens(codec, seal, maxMessage) && Valid()
      modifies this, sink
      ensures Valid()
      ensures src == [] ==> r == Accepted(0) && sink.sent == old(sink.sent) && torn == old(torn)
      ensures src != [] ==>
        var n := if |src| < maxMessage then |src| else maxMessage;
        var record := seal(old(context), src[..n]);
        var w := WrittenOf(old(sink.script), |record|);
        && w.count <= |record| && sink.sent == old(sink.sent) + record[..w.count] && sink.script == w.left
        && r == (if w.outcome == Done then Accepted(n) else WriteFailed(w.outcome.error))
        && context == old(context) + record
        && torn == (old(torn) || w.outcome != Done)
      ensures r.Accepted? ==> r.count <= |src|
      ensures accepted == old(accepted) + if r.Accepted? && !torn then src[..r.count] else []
    {
      if src == [] {
        assert accepted + [] == accepted && src[..0] == [];
        return Accepted(0);
      }
      var chunk := if |src| < maxMessage then |src| else maxMessage;
      var record := seal(context, src[..chunk]);
      ghost var before, n := sink.sent, WrittenOf(sink.script, |record|).count;
      context := context + record;
      var sent := WriteAll(sink, record);
      MoreKeepsPlaintext(codec, [], before, record[..n]);
      assert accepted + [] == accepted;
      if sent != Done {
        torn := true;
        return WriteFailed(sent.error);
      }
      if !torn {
        SealedReads(codec, seal, before, src[..chunk], n);
        ReadOn(codec, [], before, record[..n]);
        assert [] + before == before;
        accepted := accepted + src[..chunk];
      }
      r := Accepted(chunk);
    }
  }

  /** A sink that takes one byte of the first record, then fails, and then takes everything. */
  const TEARING: seq<WriteOutcome> := [Accepted(1), WriteFailed(LogicError(Send))]

  lemma TearingTears()
    ensures WrittenOf(TEARING, 2) == Written(Failed(LogicError(Send)), 1, [])
  {
    assert TEARING[1..] == [WriteFailed(LogicError(Send))];
    assert WrittenOf(TEARING[1..], 1) == Written(Failed(LogicError(Send)), 0, []);
  }

  lemma TornReads()
    ensures Sound(FRAMES) && PlaintextOf(FRAMES, [], [1, 1, 9]) == Plaintext([1], Inside)
  {
    FramesAreSound();
    var sent: seq<byte> := [1, 1, 9];
    assert sent[1 .. 2] == [1] && sent[2..] == [9] && sent[..2] == [1, 1];
    assert PlaintextOf(FRAMES, [1, 1], [9]) == Plaintext([], Inside);
    assert [] + sent[..2] == sent[..2];
  }

  lemma FramedByte(done: seq<byte>, src: seq<byte>)
    requires |src| == 1
    ensures FRAMED(done, src[..1]) == [1] + src
  {
  }

  lemma SentTogether(a: seq<byte>, b: seq<byte>)
    requires |a| == 1 && b == [9]
    ensures [] + ([1] + a)[..1] + ([1] + b)[..2] == [1, 1, 9]
  {
  }

  /** The condition that no write has failed is needed: on a sink that tears the first record, a second write
      is reported as written, and its byte is not among those the peer reads. */
  method WriteAfterFailure(a: seq<byte>, b: seq<byte>) returns (first: WriteOutcome, second: WriteOutcome, ghost sent: seq<byte>)
    requires |a| == 1 && b == [9]
    ensures first == WriteFailed(LogicError(Send)) && second == Accepted(1)
    ensures Sound(FRAMES) && PlaintextOf(FRAMES, [], sent) == Plaintext([1], Inside)
  {
    var sink := new ByteSink(TEARING);
    FramesAreSound();
    var writer := new TlsWriter(sink, FRAMES, FRAMED, 255);
    FramedByte(writer.context, a);
    TearingTears();
    first := writer.WriteSome(a);
    FramedByte(writer.context, b);
    second := writer.WriteSome(b);
    sent := sink.sent;
    SentTogether(a, b);
    TornReads();
  }
}
