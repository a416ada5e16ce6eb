/** The TLS record reassembly of `TlsStream::read`, over an abstract record codec and an inner stream
    that cuts the ciphertext anyhow: successive reads return exactly the plaintext of the records. */
module TlsRecords {
  import opened Tokens
  import opened Streams

  const READ_CHUNK: nat := 17 * 1024
  const MAX_INCOMING: nat := 256 * 1024

  // ---- Records ----

  /** What decrypting makes of waiting ciphertext: not yet a whole record (and a hint of how many bytes
      are missing, zero for none), a record of `used` bytes, perhaps the last one (close_notify,
      section 6.1 of RFC 8446), or an error. */
  datatype Opened =
    | Incomplete(missing: nat)
    | Record(plain: seq<byte>, used: nat, closes: bool)
    | Rejected(error: NetError)

  /** The codec sees the ciphertext already consumed, on which its keys and counters depend, and the
      ciphertext that waits. */
  type Codec = (seq<byte>, seq<byte>) -> Opened

  /** What is assumed of the codec: it decides on a record by the bytes of that record alone, and it consumes
      at least a byte. */
  ghost predicate Sound(codec: Codec) {
    && (forall done: seq<byte>, seen: seq<byte>, input: seq<byte> :: seen <= input && !codec(done, seen).Incomplete? ==>
          codec(done, input) == codec(done, seen))
    && (forall done: seq<byte>, seen: seq<byte> :: codec(done, seen).Record? ==> 0 < codec(done, seen).used <= |seen|)
  }

  /** The hints given on the way through the front record never ask for more than it lacks. */
  ghost predicate HintsHold(codec: Codec, done: seq<byte>, cipher: seq<byte>) {
    forall i, j :: 0 < i <= j <= |cipher| && codec(done, cipher[..i]).Incomplete? && j < i + codec(done, cipher[..i]).missing ==>
      codec(done, cipher[..j]).Incomplete?
  }

  /** The buffer holds the front record, as far as it is known at any time, and one more read. */
  ghost predicate FitsBuffer(codec: Codec, done: seq<byte>, cipher: seq<byte>) {
    forall i :: 0 < i <= |cipher| && codec(done, cipher[..i]).Incomplete? ==>
      i < 0x4_0000 - 0x4400 && i + codec(done, cipher[..i]).missing <= 0x4_0000 - 0x4400
  }

  /** Every record of this ciphertext is hinted exactly. */
  ghost predicate Hinted(codec: Codec, done: seq<byte>, cipher: seq<byte>)
    requires Sound(codec)
    decreases |cipher|
  {
    && HintsHold(codec, done, cipher)
    && (cipher != [] && codec(done, cipher).Record? && !codec(done, cipher).closes ==>
          var used := codec(done, cipher).used;
          Hinted(codec, done + cipher[..used], cipher[used..]))
  }

  /** Every record of this ciphertext fits the buffer. */
  ghost predicate Roomy(codec: Codec, done: seq<byte>, cipher: seq<byte>)
    requires Sound(codec)
    decreases |cipher|
  {
    && FitsBuffer(codec, done, cipher)
    && (cipher != [] && codec(done, cipher).Record? && !codec(done, cipher).closes ==>
          var used := codec(done, cipher).used;
          Roomy(codec, done + cipher[..used], cipher[used..]))
  }

  /** How the ciphertext ends: with close_notify, between records, inside one, or at one the codec
      rejects. */
  datatype CipherEnd = CloseNotify | Boundary | Inside | Garbled(error: NetError)

  datatype Plaintext = Plaintext(bytes: seq<byte>, end: CipherEnd)

  /** The reference: the plaintext of the records in `cipher`, after the records in `done`. */
  ghost function PlaintextOf(codec: Codec, done: seq<byte>, cipher: seq<byte>): Plaintext
    requires Sound(codec)
    decreases |cipher|
  {
    if cipher == [] then Plaintext([], Boundary)
    else
      match codec(done, cipher)
      case Incomplete(_) => Plaintext([], Inside)
      case Rejected(e) => Plaintext([], Garbled(e))
      case Record(plain, used, closes) =>
        if closes then Plaintext(plain, CloseNotify)
        else
          var rest := PlaintextOf(codec, done + cipher[..used], cipher[used..]);
          Plaintext(plain + rest.bytes, rest.end)
  }

  /** A record already whole at the front of the waiting ciphertext is the next record of the stream. */
  lemma NextRecord(codec: Codec, done: seq<byte>, seen: seq<byte>, rest: seq<byte>)
    requires Sound(codec) && seen != [] && codec(done, seen).Record?
    ensures var r := codec(done, seen);
      && 0 < r.used <= |seen|
      && PlaintextOf(codec, done, seen + rest)
         == if r.closes then Plaintext(r.plain, CloseNotify)
            else
              var later := PlaintextOf(codec, done + seen[..r.used], seen[r.used..] + rest);
              Plaintext(r.plain + later.bytes, later.end)
  {
    var r := codec(done, seen);
    assert seen <= seen + rest;
    assert (seen + rest)[..r.used] == seen[..r.used];
    assert (seen + rest)[r.used..] == seen[r.used..] + rest;
  }

  /** What taking a record over leaves to come. */
  lemma TakenOver(codec: Codec, done: seq<byte>, seen: seq<byte>, rest: seq<byte>, plain: seq<byte>, used: nat, closes: bool)
    requires Sound(codec) && seen != [] && codec(done, seen) == Record(plain, used, closes)
    ensures 0 < used <= |seen| && [] + PlaintextOf(codec, done, seen + rest).bytes == PlaintextOf(codec, done, seen + rest).bytes
    ensures closes ==> PlaintextOf(codec, done, seen + rest) == Plaintext(plain, CloseNotify) && plain + [] == plain
    ensures !closes ==>
      var later := PlaintextOf(codec, done + seen[..used], seen[used..] + rest);
      && PlaintextOf(codec, done, seen + rest) == Plaintext(plain + later.bytes, later.end)
      && (Hinted(codec, done, seen + rest) ==> Hinted(codec, done + seen[..used], seen[used..] + rest))
      && (Roomy(codec, done, seen + rest) ==> Roomy(codec, done + seen[..used], seen[used..] + rest))
  {
    NextRecord(codec, done, seen, rest);
    if !closes { LaterRecordsToo(codec, done, seen, rest); }
  }

  /** And if all records are hinted exactly, or fit, so do those that follow it. */
  lemma LaterRecordsToo(codec: Codec, done: seq<byte>, seen: seq<byte>, rest: seq<byte>)
    requires Sound(codec) && seen != [] && codec(done, seen).Record? && !codec(done, seen).closes
    ensures var used := codec(done, seen).used;
      && (Hinted(codec, done, seen + rest) ==> Hinted(codec, done + seen[..used], seen[used..] + rest))
      && (Roomy(codec, done, seen + rest) ==> Roomy(codec, done + seen[..used], seen[used..] + rest))
  {
    var used := codec(done, seen).used;
    assert seen <= seen + rest && (seen + rest)[..used] == seen[..used];
    assert (seen + rest)[used..] == seen[used..] + rest;
  }

  /** How reading ends, for a stream whose ciphertext ends in `end` and which then ends in `finale`. */
  datatype TlsEnding = ClosedByPeer | ClosedWithoutNotify | Failing(error: NetError)

  function EndingOf(end: CipherEnd, finale: Finale): TlsEnding {
    match end
    case CloseNotify => ClosedByPeer
    case Garbled(e) => Failing(e)
    case Boundary => if finale.Broken? then Failing(finale.error) else ClosedWithoutNotify
    case Inside => Failing(if finale.Broken? then finale.error else TruncatedError(TlsDecrypt))
  }

  // ---- The same, told record by record ----

  /** The codec opens the first `at` bytes of the ciphertext as whole records, none of which closes the stream,
      with these bytes of plaintext. */
  ghost predicate OpensTo(codec: Codec, done: seq<byte>, cipher: seq<byte>, at: nat, plain: seq<byte>)
    requires Sound(codec)
    decreases |cipher|
  {
    || (at == 0 && plain == [])
    || (cipher != [] && codec(done, cipher).Record? && !codec(done, cipher).closes
        && var r := codec(done, cipher);
           && r.used <= at && r.plain <= plain
           && OpensTo(codec, done + cipher[..r.used], cipher[r.used..], at - r.used, plain[|r.plain|..]))
  }

  /** How reading ends where no such record follows: nothing does; or the record that closes the stream does,
      with some plaintext yet; or what follows is part of a record, or no record. */
  ghost predicate EndsWith(codec: Codec, done: seq<byte>, rest: seq<byte>, finale: Finale, last: seq<byte>, ending: TlsEnding) {
    if rest == [] then
      last == [] && if finale.Broken? then ending == Failing(finale.error) else ending == ClosedWithoutNotify
    else
      match codec(done, rest)
      case Record(plain, _, closes) => closes && last == plain && ending == ClosedByPeer
      case Rejected(error) => last == [] && ending == Failing(error)
      case Incomplete(_) =>
        && last == [] && ending.Failing?
        && if finale.Broken? then ending.error == finale.error else ending.error.cat == Truncated && ending.error.op == TlsDecrypt
  }

  ghost predicate ReadsAs(codec: Codec, done: seq<byte>, cipher: seq<byte>, finale: Finale, all: seq<byte>, ending: TlsEnding)
    requires Sound(codec)
  {
    exists at: nat, plain: seq<byte> ::
      && at <= |cipher| && plain <= all && OpensTo(codec, done, cipher, at, plain)
      && EndsWith(codec, done + cipher[..at], cipher[at..], finale, all[|plain|..], ending)
  }

  /** The plaintext and the ending of the reference are those. */
  lemma {:induction false} ReferenceReads(codec: Codec, done: seq<byte>, cipher: seq<byte>, finale: Finale)
    requires Sound(codec)
    ensures var p := PlaintextOf(codec, done, cipher); ReadsAs(codec, done, cipher, finale, p.bytes, EndingOf(p.end, finale))
    decreases |cipher|
  {
    var p := PlaintextOf(codec, done, cipher);
    if cipher != [] && codec(done, cipher).Record? && !codec(done, cipher).closes {
      var r := codec(done, cipher);
      var later := PlaintextOf(codec, done + cipher[..r.used], cipher[r.used..]);
      ReferenceReads(codec, done + cipher[..r.used], cipher[r.used..], finale);
      OneMoreRecord(codec, done, cipher, finale, later.bytes, EndingOf(later.end, finale));
    } else {
      assert OpensTo(codec, done, cipher, 0, []);
      assert done + cipher[..0] == done && cipher[0..] == cipher && p.bytes[0..] == p.bytes;
    }
  }

  lemma OneMoreRecord(codec: Codec, done: seq<byte>, cipher: seq<byte>, finale: Finale, later: seq<byte>, ending: TlsEnding)
    requires Sound(codec) && cipher != [] && codec(done, cipher).Record? && !codec(done, cipher).closes
    requires var r := codec(done, cipher); ReadsAs(codec, done + cipher[..r.used], cipher[r.used..], finale, later, ending)
    ensures ReadsAs(codec, done, cipher, finale, codec(done, cipher).plain + later, ending)
  {
    var r := codec(done, cipher);
    var done', cipher' := done + cipher[..r.used], cipher[r.used..];
    var at: nat, plain: seq<byte> :|
      && at <= |cipher'| && plain <= later && OpensTo(codec, done', cipher', at, plain)
      && EndsWith(codec, done' + cipher'[..at], cipher'[at..], finale, later[|plain|..], ending);
    Regrouped(done, cipher, r.used, at);
    PlainJoins(r.plain, plain, later);
    assert OpensTo(codec, done, cipher, r.used + at, r.plain + plain);
  }

  lemma Regrouped(done: seq<byte>, cipher: seq<byte>, used: nat, at: nat)
    requires used + at <= |cipher|
    ensures (done + cipher[..used]) + cipher[used..][..at] == done + cipher[..used + at]
    ensures cipher[used..][at..] == cipher[used + at..]
  {
    assert cipher[..used] + cipher[used..][..at] == cipher[..used + at];
  }

  lemma PlainJoins(first: seq<byte>, plain: seq<byte>, later: seq<byte>)
    requires plain <= later
    ensures (first + plain)[|first|..] == plain && first <= first + plain <= first + later
    ensures (first + later)[|first + plain|..] == later[|plain|..]
  {
  }

  /** A failure that comes before all the plaintext has been returned: the inner stream's own while the hint of
      a record of this ciphertext asks for too much, or the refusal to buffer more than the maximum, for a
      record that does not fit. */
  ghost predicate Premature(codec: Codec, done: seq<byte>, cipher: seq<byte>, finale: Finale, error: NetError)
    requires Sound(codec)
  {
    || (!Hinted(codec, done, cipher) && finale == Broken(error))
    || (!Roomy(codec, done, cipher) && error == LogicError(TlsDecrypt) && |cipher| + 0x4400 > 0x4_0000)
  }

  /** The inner stream fails while nothing, or part of a record, waits; or else the failure is premature. */
  ghost predicate FillFails(codec: Codec, done: seq<byte>, cipher: seq<byte>, finale: Finale, error: NetError)
    requires Sound(codec)
  {
    || (finale == Broken(error) && (cipher == [] || codec(done, cipher).Incomplete?))
    || Premature(codec, done, cipher, finale, error)
  }

  /** A failure to read more is then how the stream ends, or premature. */
  lemma FailureIsExplained(codec: Codec, done: seq<byte>, cipher: seq<byte>, finale: Finale, error: NetError)
    requires Sound(codec) && FillFails(codec, done, cipher, finale, error)
    ensures var plain := PlaintextOf(codec, done, cipher);
      (plain.bytes == [] && EndingOf(plain.end, finale) == Failing(error)) || Premature(codec, done, cipher, finale, error)
  {
  }

  // ---- The stream ----

  class TlsStream {
    const inner: ByteStream
    const codec: Codec

    var incoming: seq<byte>      // ciphertext not yet part of `done`
    var capacity: nat            // room there is for it
    var need: nat

    var plaintext: seq<byte>     // the last record's plaintext
    var plaintextOffset: nat     // how much of it the caller has had

    var innerEof: bool
    var peerClosed: bool
    var closedWithoutNotify: bool

    var done: seq<byte>          // ciphertext of the records already decrypted: the security context

    ghost predicate Attached()
      reads this, inner
    {
      && |incoming| <= capacity <= MAX_INCOMING
      && innerEof == inner.ended && inner.lateReads == 0 && KeepsContract(inner.script)
    }

    ghost predicate Holds()
      reads this, inner
    {
      Attached() && plaintextOffset <= |plaintext| && (closedWithoutNotify ==> peerClosed)
    }

    /** Between calls; within one, `need` says what a record still lacks. */
    ghost predicate Valid()
      reads this, inner
    {
      Holds() && need == 0
    }

    /** The ciphertext not yet decrypted, received or still to come. */
    ghost function Cipher(): seq<byte>
      reads this, inner
    {
      incoming + InnerRest()
    }

    ghost function InnerFinale(): Finale
      reads this, inner
    {
      if innerEof then AtEof else FinaleOf(inner.script)
    }

    /** The plaintext still to be returned, if after what waits `rest` is still to come. */
    ghost function OwedWith(rest: seq<byte>): seq<byte>
      requires Sound(codec) && plaintextOffset <= |plaintext|
      reads this
    {
      plaintext[plaintextOffset..] + LaterWith(rest)
    }

    /** The plaintext of records not yet decrypted. */
    ghost function LaterWith(rest: seq<byte>): seq<byte>
      requires Sound(codec)
      reads this
    {
      if peerClosed then [] else PlaintextOf(codec, done, incoming + rest).bytes
    }

    /** What the inner stream will deliver before its end. */
    ghost function InnerRest(): seq<byte>
      reads this, inner
    {
      if innerEof then [] else Content(inner.script)
    }

    /** The plaintext still to be returned. */
    ghost function Owed(): seq<byte>
      requires Sound(codec) && plaintextOffset <= |plaintext|
      reads this, inner
    {
      OwedWith(InnerRest())
    }

    /** The same if the inner stream is read on after every failure. */
    ghost function OwedThrough(): seq<byte>
      requires Sound(codec) && plaintextOffset <= |plaintext|
      reads this, inner
    {
      OwedWith(inner.Everything())
    }

    /** Records to come are hinted exactly, and fit the buffer. */
    ghost predicate WellHinted()
      requires Sound(codec)
      reads this, inner
    {
      peerClosed || Hinted(codec, done, Cipher())
    }

    ghost predicate WithinRoom()
      requires Sound(codec)
      reads this, inner
    {
      peerClosed || Roomy(codec, done, Cipher())
    }

    /** How reading will end once it has been. */
    ghost function Ending(): TlsEnding
      requires Sound(codec)
      reads this, inner
    {
      if closedWithoutNotify then ClosedWithoutNotify
      else if peerClosed then ClosedByPeer
      else EndingOf(PlaintextOf(codec, done, Cipher()).end, InnerFinale())
    }

    constructor (inner: ByteStream, codec: Codec)
      requires Sound(codec) && !inner.ended && inner.lateReads == 0 && KeepsContract(inner.script)
      ensures Valid() && this.inner == inner && this.codec == codec
      ensures Owed() == PlaintextOf(codec, [], Content(inner.script)).bytes
      ensures Ending() == EndingOf(PlaintextOf(codec, [], Content(inner.script)).end, FinaleOf(inner.script))
      ensures OwedThrough() == PlaintextOf(codec, [], Through(inner.script)).bytes
      ensures Drained() && incoming == [] && done == [] && capacity > 0 && InnerRest() == Content(inner.script)
      ensures WellHinted() == Hinted(codec, [], Content(inner.script))
      ensures WithinRoom() == Roomy(codec, [], Content(inner.script))
    {
      this.inner := inner;
      this.codec := codec;
      incoming, capacity, need := [], READ_CHUNK, 0;
      plaintext, plaintextOffset := [], 0;
      innerEof, peerClosed, closedWithoutNotify := false, false, false;
      done := [];
      new;
      AtFirst(Content(inner.script));
      AtFirst(Through(inner.script));
    }

    lemma AtFirst(rest: seq<byte>)
      requires Sound(codec) && incoming == [] && done == [] && plaintext == [] && plaintextOffset == 0 && !peerClosed
      ensures incoming + rest == rest && OwedWith(rest) == PlaintextOf(codec, [], rest).bytes
    {
    }

    /** Makes room for `bytes` more, within the limit. */
    method EnsureIncomingSpace(bytes: nat) returns (ok: bool)
      requires |incoming| <= capacity <= MAX_INCOMING
      modifies this`capacity
      ensures capacity >= old(capacity) && capacity <= MAX_INCOMING
      ensures ok <==> capacity - |incoming| >= bytes
      ensures ok <==> |incoming| + bytes <= 0x4_0000
    {
      if capacity - |incoming| >= bytes {
        return true;
      }
      var wanted := |incoming| + bytes;
      if wanted > MAX_INCOMING {
        return false;
      }
      var doubled := if capacity * 2 < MAX_INCOMING then capacity * 2 else MAX_INCOMING;
      capacity := if wanted > doubled then wanted else doubled;
      ok := true;
    }

    /** What waits is nothing, or part of a record that lacks at least `want` bytes. */
    ghost predicate Lacks(want: nat)
      reads this
    {
      if incoming == [] then want <= 1
      else codec(done, incoming).Incomplete? && (want > 1 ==> want <= codec(done, incoming).missing)
    }

    /** How a read may fail before all the plaintext has been returned. */
    ghost predicate MayFailEarly(error: NetError)
      requires Sound(codec)
      reads this, inner
    {
      || (!WellHinted() && InnerFinale() == Broken(error))
      || (!WithinRoom() && error == LogicError(TlsDecrypt) && |Cipher()| + 0x4400 > 0x4_0000)
    }

    /** How a read may fail: as the stream ends, with nothing left to return, or early. */
    ghost predicate MayFail(error: NetError)
      requires Sound(codec) && plaintextOffset <= |plaintext|
      reads this, inner
    {
      (Owed() == [] && Ending() == Failing(error)) || MayFailEarly(error)
    }

    /** One read from the inner stream, into the room there is; refused when a whole chunk would not fit. */
    method ReceiveOnce() returns (failure: Option<NetError>)
      requires Attached() && !innerEof
      modifies this`incoming, this`capacity, this`innerEof, inner
      ensures Attached() && old(incoming) <= incoming
      ensures incoming + inner.Everything() == old(incoming + inner.Everything())
      ensures failure.None? ==>
        && Cipher() == old(Cipher()) && InnerFinale() == old(InnerFinale())
        && (innerEof || (Reads(inner.script) < Reads(old(inner.script)) && |incoming| > |old(incoming)|))
      ensures failure.Some? ==>
        && !innerEof && incoming == old(incoming)
        && if |old(incoming)| + READ_CHUNK > MAX_INCOMING then failure.value == LogicError(TlsDecrypt)
           else old(InnerFinale()) == Broken(failure.value) && old(Cipher()) == old(incoming)
    {
      var room := EnsureIncomingSpace(READ_CHUNK);
      if room {
        failure := TakeDelivery();
      } else {
        failure := Some(LogicError(TlsDecrypt));
      }
    }

    /** One read from the inner stream, into all the room there is. */
    method TakeDelivery() returns (failure: Option<NetError>)
      requires Attached() && !innerEof && |incoming| < capacity
      modifies this`incoming, this`innerEof, inner
      ensures Attached() && old(incoming) <= incoming
      ensures incoming + inner.Everything() == old(incoming + inner.Everything())
      ensures failure.None? ==>
        && Cipher() == old(Cipher()) && InnerFinale() == old(InnerFinale())
        && (innerEof || (Reads(inner.script) < Reads(old(inner.script)) && |incoming| > |old(incoming)|))
      ensures failure.Some? ==>
        && !innerEof && incoming == old(incoming)
        && old(InnerFinale()) == Broken(failure.value) && old(Cipher()) == old(incoming)
    {
      ghost var before := incoming;
      var result := inner.Read(capacity - |incoming|);
      if result.ReadFailed? {
        Joined([], inner.Everything(), []);
        Joined(before, [], []);
        failure := Some(result.error);
      } else {
        incoming := incoming + result.bytes;
        innerEof := result.eof;
        Joined(before, result.bytes, Content(inner.script));
        Joined(before, result.bytes, inner.Everything());
        Joined(before + result.bytes, [], []);
        failure := None;
      }
    }

    /** Reads more ciphertext, until what the record is known to lack has arrived. */
    method FillIncoming() returns (failure: Option<NetError>)
      requires Sound(codec) && Drained() && !innerEof && Lacks(need)
      modifies this`incoming, this`capacity, this`need, this`innerEof, inner
      ensures Drained() && need == 0 && OwedThrough() == old(OwedThrough())
      ensures failure.None? ==>
        && Owed() == old(Owed()) && Ending() == old(Ending())
        && Cipher() == old(Cipher()) && InnerFinale() == old(InnerFinale())
        && (innerEof || Reads(inner.script) < Reads(old(inner.script)))
        && (innerEof || |incoming| >= |old(incoming)| + old(need))
      ensures failure.Some? ==> old(MayFail(failure.value))
    {
      ghost var cipher, finale := Cipher(), InnerFinale();
      failure := Receive(if need > 1 then need else 1);
      if failure.Some? {
        FailureIsExplained(codec, done, cipher, finale, failure.value);
      }
    }

    /** Reads until `want` bytes more have arrived or the inner stream has ended. It fails only when the
        inner stream does, no whole record waiting, or prematurely. */
    method Receive(wanted: nat) returns (failure: Option<NetError>)
      requires Sound(codec) && Attached() && !innerEof && wanted > 0 && Lacks(wanted)
      modifies this`incoming, this`capacity, this`need, this`innerEof, inner
      ensures Attached() && need == 0 && incoming + inner.Everything() == old(incoming + inner.Everything())
      ensures failure.None? ==>
        && Cipher() == old(Cipher()) && InnerFinale() == old(InnerFinale())
        && (innerEof || (Reads(inner.script) < Reads(old(inner.script)) && |incoming| >= |old(incoming)| + wanted))
      ensures failure.Some? ==> FillFails(codec, done, old(Cipher()), old(InnerFinale()), failure.value)
    {
      var want := wanted;
      need := 0;
      ghost var start, cipher, finale, all := incoming, Cipher(), InnerFinale(), incoming + inner.Everything();
      while want > 0 && !innerEof
        invariant Attached() && need == 0 && incoming + inner.Everything() == all
        invariant start <= incoming && want <= wanted
        invariant want > 0 && !innerEof ==> |incoming| + want <= |start| + wanted
        invariant |incoming| + want >= |start| + wanted
        invariant Cipher() == cipher && InnerFinale() == finale
        invariant want < wanted ==> innerEof || Reads(inner.script) < Reads(old(inner.script))
        invariant Reads(inner.script) <= Reads(old(inner.script)) || innerEof
        decreases !innerEof, Reads(inner.script)
      {
        StillLacking(codec, done, cipher, start, incoming, wanted);
        var before := |incoming|;
        failure := ReceiveOnce();
        if failure.Some? {
          return;
        }
        var arrived := |incoming| - before;
        want := if arrived < want then want - arrived else 0;
      }
      failure := None;
    }

    /** Everything already decrypted has been handed over, and the peer has not closed. */
    ghost predicate Drained()
      reads this, inner
    {
      Attached() && plaintextOffset == |plaintext| && !peerClosed && !closedWithoutNotify
    }

    /** Keeps the ciphertext behind a record of `used` bytes. */
    method KeepExtra(used: nat)
      requires used <= |incoming|
      modifies this`incoming, this`done
      ensures incoming == old(incoming)[used..] && done == old(done) + old(incoming)[..used]
    {
      done := done + incoming[..used];
      incoming := incoming[used..];
    }

    /** Tries to decrypt what waits: takes over a whole record, or notes what it lacks. */
    method Decrypt() returns (failure: Option<NetError>)
      requires Sound(codec) && Drained() && need == 0 && incoming != []
      modifies this`incoming, this`done, this`need, this`plaintext, this`plaintextOffset, this`peerClosed
      ensures Holds() && Owed() == old(Owed()) && Ending() == old(Ending())
      ensures OwedThrough() == old(OwedThrough())
      ensures |Cipher()| <= |old(Cipher())| && InnerFinale() == old(InnerFinale())
      ensures (old(WellHinted()) ==> WellHinted()) && (old(WithinRoom()) ==> WithinRoom())
      ensures failure.None? && need == 0 ==> |Cipher()| < |old(Cipher())|
      ensures failure.None? && need > 0 ==>
        && !innerEof && Drained() && Lacks(need) && incoming == old(incoming)
        && need == if codec(done, incoming).missing > 0 then codec(done, incoming).missing else 1
      ensures failure.Some? ==> need == 0 && Owed() == [] && Ending() == Failing(failure.value)
    {
      ghost var rest := if innerEof then [] else Content(inner.script);
      match codec(done, incoming)
      case Incomplete(missing) =>
        if innerEof {
          assert incoming + rest == incoming;
          return Some(TruncatedError(TlsDecrypt));
        }
        need := if missing > 0 then missing else 1;
        failure := None;
      case Rejected(e) =>
        assert incoming <= incoming + rest;
        failure := Some(e);
      case Record(plain, used, closes) =>
        TakeRecord(plain, used, closes);
        failure := None;
    }

    /** Copies a record's plaintext out and keeps the ciphertext behind it. */
    method TakeRecord(plain: seq<byte>, used: nat, closes: bool)
      requires Sound(codec) && Drained() && need == 0 && incoming != []
      requires codec(done, incoming) == Record(plain, used, closes)
      modifies this`incoming, this`done, this`plaintext, this`plaintextOffset, this`peerClosed
      ensures Valid() && |incoming| < |old(incoming)|
      ensures Owed() == old(Owed()) && Ending() == old(Ending()) && OwedThrough() == old(OwedThrough())
      ensures (old(WellHinted()) ==> WellHinted()) && (old(WithinRoom()) ==> WithinRoom())
    {
      ghost var rest, all := InnerRest(), inner.Everything();
      TakenOver(codec, done, incoming, rest, plain, used, closes);
      TakenOver(codec, done, incoming, all, plain, used, closes);
      Replace(plain, used, closes);
      assert InnerRest() == rest && inner.Everything() == all;
      assert OwedWith(rest) == plain + LaterWith(rest) && OwedWith(all) == plain + LaterWith(all);
    }

    method Replace(plain: seq<byte>, used: nat, closes: bool)
      requires used <= |incoming| && !peerClosed
      modifies this`incoming, this`done, this`plaintext, this`plaintextOffset, this`peerClosed
      ensures plaintextOffset == 0 && plaintext == plain == plaintext[0..] && peerClosed == closes
      ensures incoming == old(incoming)[used..] && done == old(done) + old(incoming)[..used]
    {
      plaintext := plain;
      plaintextOffset := 0;
      KeepExtra(used);
      if closes {
        peerClosed := true;
      }
    }

    /** Hands over decrypted plaintext, at most `size` bytes, with the end of the stream alongside the
        last of them when the peer has closed. */
    method HandOver(size: nat) returns (r: ReadOutcome)
      requires Sound(codec) && Valid() && size > 0 && plaintextOffset < |plaintext|
      modifies this`plaintextOffset
      ensures Valid() && Ending() == old(Ending())
      ensures r.Received? && 0 < |r.bytes| <= size && old(Owed()) == r.bytes + Owed()
      ensures r.eof <==> peerClosed && Owed() == []
      ensures old(OwedThrough()) == r.bytes + OwedThrough()
    {
      ghost var rest, all := InnerRest(), inner.Everything();
      ghost var later := LaterWith(rest);
      var bytes := TakeOut(size);
      assert OwedWith(rest) == plaintext[plaintextOffset..] + later;
      assert |Owed()| == |plaintext| - plaintextOffset + |later|;
      SplitOff(plaintext, old(plaintextOffset), plaintextOffset, later);
      SplitOff(plaintext, old(plaintextOffset), plaintextOffset, LaterWith(all));
      r := Received(bytes, peerClosed && plaintextOffset == |plaintext|);
    }

    method TakeOut(size: nat) returns (bytes: seq<byte>)
      requires size > 0 && plaintextOffset < |plaintext|
      modifies this`plaintextOffset
      ensures old(plaintextOffset) < plaintextOffset <= |plaintext| && |bytes| <= size
      ensures bytes == plaintext[old(plaintextOffset) .. plaintextOffset]
      ensures |bytes| == size || plaintextOffset == |plaintext|
    {
      var count := if size < |plaintext| - plaintextOffset then size else |plaintext| - plaintextOffset;
      bytes := plaintext[plaintextOffset .. plaintextOffset + count];
      plaintextOffset := plaintextOffset + count;
    }

    /** The ciphertext has ended between records and without close_notify. Nothing waits: part of a record
        would have been reported as truncated. */
    method EndWithoutNotify()
      requires Sound(codec) && Drained() && need == 0 && innerEof && incoming == []
      modifies this`peerClosed, this`closedWithoutNotify
      ensures Valid() && peerClosed && closedWithoutNotify
      ensures old(Owed()) == [] && Owed() == [] && Ending() == old(Ending())
      ensures OwedThrough() == old(OwedThrough())
    {
      closedWithoutNotify := true;
      peerClosed := true;
    }

    /** What preparing still has to get through. */
    ghost function ToDo(): nat
      reads this, inner
    {
      |Cipher()| + (if innerEof then 0 else 1 + Reads(inner.script)) + if peerClosed then 0 else 1
    }

    /** Decrypts a record that waits whole, or ends, or receives more. */
    method PrepareOnce() returns (failure: Option<NetError>)
      requires Sound(codec) && Drained() && need == 0
      modifies this, inner
      ensures Valid() && OwedThrough() == old(OwedThrough())
      ensures failure.None? ==>
        && (old(WellHinted()) ==> WellHinted()) && (old(WithinRoom()) ==> WithinRoom())
        && Owed() == old(Owed()) && Ending() == old(Ending()) && InnerFinale() == old(InnerFinale())
        && ToDo() < old(ToDo()) && |Cipher()| <= |old(Cipher())|
      ensures failure.Some? ==> old(MayFail(failure.value))
    {
      if incoming != [] {
        failure := Decrypt();
        if failure.Some? || need == 0 {
          return;
        }
      }
      if innerEof {
        EndWithoutNotify();
        return None;
      }
      failure := FillIncoming();
    }

    /** Decrypts, and receives more, until there is plaintext to hand over or none will come. */
    method Prepare() returns (failure: Option<NetError>)
      requires Sound(codec) && Valid()
      modifies this, inner
      ensures Valid() && OwedThrough() == old(OwedThrough())
      ensures failure.None? ==>
        && (old(WellHinted()) ==> WellHinted()) && (old(WithinRoom()) ==> WithinRoom())
        && (plaintextOffset < |plaintext| || peerClosed) && |Cipher()| <= |old(Cipher())|
        && Owed() == old(Owed()) && Ending() == old(Ending()) && InnerFinale() == old(InnerFinale())
      ensures failure.Some? ==> old(MayFail(failure.value))
    {
      while plaintextOffset == |plaintext| && !peerClosed
        invariant Valid() && |Cipher()| <= |old(Cipher())| && OwedThrough() == old(OwedThrough())
        invariant (old(WellHinted()) ==> WellHinted()) && (old(WithinRoom()) ==> WithinRoom())
        invariant Owed() == old(Owed()) && Ending() == old(Ending()) && InnerFinale() == old(InnerFinale())
        decreases ToDo()
      {
        failure := PrepareOnce();
        if failure.Some? {
          return;
        }
      }
      failure := None;
    }

    /** Unless the peer has closed, all that is to be returned, after what is decrypted, and how it will end. */
    ghost predicate WillRead(all: seq<byte>, ending: TlsEnding)
      requires Sound(codec) && plaintextOffset <= |plaintext|
      reads this, inner
    {
      !peerClosed ==>
        && plaintext[plaintextOffset..] <= all
        && ReadsAs(codec, done, Cipher(), InnerFinale(), all[|plaintext| - plaintextOffset..], ending)
    }

    /** What is owed, and the ending, told record by record. */
    lemma OwedReads()
      requires Sound(codec) && Holds()
      ensures WillRead(Owed(), Ending())
    {
      if !peerClosed {
        ReferenceReads(codec, done, Cipher(), InnerFinale());
        assert Owed()[|plaintext| - plaintextOffset..] == LaterWith(InnerRest());
      }
    }

    /** Reads plaintext. Successive reads return exactly the plaintext of the records, whatever the inner
        stream's deliveries and the destination sizes; the end of the stream is reported once all of it
        has been returned, and only if the peer closed or the ciphertext ended between records; a
        failure is reported, once all of it has been returned, only if the ciphertext ends inside a
        record, the inner stream fails or the codec rejects a record. It can come earlier only if the hint of
        a record to come over-asks, or if one does not fit the buffer. And a failure loses nothing: reading on
        gives what the inner stream goes on to deliver. */
    method Read(size: nat) returns (r: ReadOutcome)
      requires Sound(codec) && Valid()
      modifies this, inner
      ensures Valid() && old(OwedThrough()) == (if r.Received? then r.bytes else []) + OwedThrough()
      ensures r.Received? ==>
        && (old(WellHinted()) ==> WellHinted()) && (old(WithinRoom()) ==> WithinRoom())
        && |Cipher()| <= |old(Cipher())| && InnerFinale() == old(InnerFinale()) && Ending() == old(Ending())
      ensures r.Received? ==> |r.bytes| <= size && old(Owed()) == r.bytes + Owed()
      ensures size == 0 ==> r == Received([], false)
      ensures size > 0 && r.Received? ==> (r.bytes != [] || r.eof) && (r.eof <==> peerClosed && Owed() == [])
      ensures r.Received? && r.eof ==> Ending() == if closedWithoutNotify then ClosedWithoutNotify else ClosedByPeer
      ensures r.ReadFailed? ==> old(MayFail(r.error))
    {
      Joined([], OwedThrough(), []);
      Joined([], Owed(), []);
      if size == 0 {
        return Received([], false);
      }
      var failure := Prepare();
      if failure.Some? {
        return ReadFailed(failure.value);
      }
      if plaintextOffset < |plaintext| {
        r := HandOver(size);
      } else {
        r := Received([], true);
      }
    }
  }

  /** Reads to the end: everything the peer sent, and how it ended, for any size of destination; or, after a
      premature failure, the part before it. Record by record: `ClosedByPeer` only if the codec opened a record
      that closes, and all before it; an end of stream inside a record is a truncation, and between records an
      end without close_notify; and a broken stream or a rejected record is that error. */
  method ReadToEnd(t: TlsStream, size: nat) returns (all: seq<byte>, ending: TlsEnding)
    requires Sound(t.codec) && t.Valid() && size > 0
    modifies t, t.inner
    ensures t.Valid() && all <= old(t.Owed())
    ensures
      || (all == old(t.Owed()) && ending == old(t.Ending()) && old(t.WillRead(all, ending)))
      || (ending.Failing? && old(t.MayFailEarly(ending.error)))
  {
    t.OwedReads();
    all, ending := ReadOut(t, size);
  }

  /** The loop. */
  method ReadOut(t: TlsStream, size: nat) returns (all: seq<byte>, ending: TlsEnding)
    requires Sound(t.codec) && t.Valid() && size > 0
    modifies t, t.inner
    ensures t.Valid() && all <= old(t.Owed())
    ensures
      || (all == old(t.Owed()) && ending == old(t.Ending()))
      || (ending.Failing? && old(t.MayFailEarly(ending.error)))
  {
    all := [];
    ghost var owed, how, cipher, finale := t.Owed(), t.Ending(), t.Cipher(), t.InnerFinale();
    ghost var hinted, roomy := t.WellHinted(), t.WithinRoom();
    ghost var left := owed;
    while true
      invariant t.Valid() && left == t.Owed() && all + left == owed && t.Ending() == how
      invariant |t.Cipher()| <= |cipher| && t.InnerFinale() == finale
      invariant (hinted ==> t.WellHinted()) && (roomy ==> t.WithinRoom())
      decreases |left|
    {
      var r := t.Read(size);
      if r.ReadFailed? {
        Joined(all, left, []);
        return all, Failing(r.error);
      }
      Joined(all, r.bytes, t.Owed());
      all := all + r.bytes;
      left := t.Owed();
      if r.eof {
        return all, if t.closedWithoutNotify then ClosedWithoutNotify else ClosedByPeer;
      }
    }
  }

  lemma Joined(a: seq<byte>, b: seq<byte>, c: seq<byte>)
    ensures a + (b + c) == (a + b) + c
    ensures a + [] == a
  {
  }

  lemma SplitOff(s: seq<byte>, i: nat, j: nat, later: seq<byte>)
    requires i <= j <= |s|
    ensures s[i..] + later == s[i .. j] + (s[j..] + later)
  {
  }

  /** Bytes short of what a record lacks leave it incomplete, and leave room for the next read. */
  lemma StillLacking(codec: Codec, done: seq<byte>, cipher: seq<byte>, start: seq<byte>, now: seq<byte>, wanted: nat)
    requires start <= now <= cipher && |now| < |start| + wanted
    requires if start == [] then wanted == 1
             else codec(done, start).Incomplete? && (wanted > 1 ==> wanted <= codec(done, start).missing)
    ensures now == [] || codec(done, now).Incomplete? || !HintsHold(codec, done, cipher)
    ensures |now| + READ_CHUNK <= MAX_INCOMING || !FitsBuffer(codec, done, cipher)
  {
    assert cipher[..|start|] == start && cipher[..|now|] == now;
    if wanted == 1 { assert now == start; }
  }

  /** Reads as often as there are sizes, and goes on after every failure. Together with what is owed then, what
      was read is what was owed at first. */
  method ReadRegardless(t: TlsStream, sizes: seq<nat>) returns (all: seq<byte>)
    requires Sound(t.codec) && t.Valid()
    modifies t, t.inner
    ensures t.Valid() && all + t.OwedThrough() == old(t.OwedThrough())
  {
    all := [];
    ghost var owed := t.OwedThrough();
    Joined([], owed, []);
    for i := 0 to |sizes|
      invariant t.Valid() && all + t.OwedThrough() == owed
    {
      var r := t.Read(sizes[i]);
      Joined(all, if r.Received? then r.bytes else [], t.OwedThrough());
      if r.Received? {
        all := all + r.bytes;
      }
    }
  }

  // ---- A premature failure ----

  /** Records of two bytes; part of one is hinted to lack two more, though it lacks one. */
  const GREEDY: Codec := (done, seen) =>
    if |seen| < 2 then Incomplete(2) else Record(seen[..1], 2, false)

  lemma GreedyIsSound()
    ensures Sound(GREEDY)
  {
    forall done: seq<byte>, seen: seq<byte>, input: seq<byte> | seen <= input && !GREEDY(done, seen).Incomplete?
      ensures GREEDY(done, input) == GREEDY(done, seen)
    {
      assert input[..1] == seen[..1];
    }
  }

  lemma GreedyOwes()
    requires Sound(GREEDY)
    ensures PlaintextOf(GREEDY, [], [7, 8]).bytes == [7]
  {
    var cipher: seq<byte> := [7, 8];
    assert cipher[2..] == [] && cipher[..1] == [7];
    assert PlaintextOf(GREEDY, [] + cipher[..2], []) == Plaintext([], Boundary);
  }

  /** With one byte of a record waiting, and the other still to come before the inner stream breaks, `Decrypt`
      notes the hint of two. Waiting for them fails, although the record is there to be returned. */
  method FailEarly(t: TlsStream, error: NetError) returns (failure: Option<NetError>)
    requires t.codec == GREEDY && t.Drained() && !t.innerEof && t.incoming == [7] && t.done == [] && t.need == 2
    requires Sound(GREEDY) && t.InnerRest() == [8] && t.InnerFinale() == Broken(error)
    modifies t, t.inner
    ensures failure == Some(error) && old(t.Owed()) == [7]
  {
    GreedyOwes();
    assert t.Cipher() == [7] + [8] == [7, 8];
    assert GREEDY([], [7]) == Incomplete(2);
    failure := t.FillIncoming();
  }
}
