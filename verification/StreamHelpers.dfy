/** The loops over a byte stream that everything else relies on: write everything, read exactly, read to
    the end. The streams under them may deliver and accept anything, broken counts included. */
module StreamHelpers {
  import opened Tokens
  import opened Streams

  const CHUNK_BYTES: nat := 64 * 1024

  // ---- Writing ----

  datatype WriteOutcome = Accepted(count: nat) | WriteFailed(error: NetError)

  /** Where writes go: each one takes as the script says, or as much as it is given when the script has
      run out. A count beyond what was offered is a broken implementation that took all of it. */
  class ByteSink {
    var script: seq<WriteOutcome>
    ghost var sent: seq<byte>

    constructor (script: seq<WriteOutcome>)
      ensures this.script == script && sent == []
    {
      this.script := script;
      sent := [];
    }

    method WriteSome(src: seq<byte>) returns (r: WriteOutcome)
      modifies this
      ensures r == if old(script) == [] then Accepted(|src|) else old(script)[0]
      ensures script == if old(script) == [] then [] else old(script)[1..]
      ensures r.WriteFailed? ==> sent == old(sent)
      ensures r.Accepted? ==> sent == old(sent) + src[..if r.count < |src| then r.count else |src|]
    {
      r := if script == [] then Accepted(|src|) else script[0];
      script := if script == [] then [] else script[1..];
      if r.Accepted? {
        sent := sent + src[..if r.count < |src| then r.count else |src|];
      }
    }
  }

  datatype Written = Written(outcome: Outcome, count: nat, left: seq<WriteOutcome>)

  /** What becomes of `size` bytes offered to a sink that will answer as the script says, and the answers it
      has left: a failure, a count of nothing or a count beyond what was offered stops it. */
  function WrittenOf(script: seq<WriteOutcome>, size: nat): Written
    decreases |script|
  {
    if size == 0 then Written(Done, 0, script)
    else if script == [] then Written(Done, size, [])
    else
      match script[0]
      case WriteFailed(e) => Written(Failed(e), 0, script[1..])
      case Accepted(n) =>
        if n == 0 || n > size then Written(Failed(LogicError(Send)), if n > size then size else 0, script[1..])
        else
          var later := WrittenOf(script[1..], size - n);
          Written(later.outcome, n + later.count, later.left)
  }

  /** Answer `k` is the first that is a failure or a broken count, when `size` bytes are offered. */
  ghost predicate StopsAt(script: seq<WriteOutcome>, size: nat, k: nat) {
    && k < |script| && size > 0
    && if k == 0 then script[0].WriteFailed? || script[0].count == 0 || script[0].count > size
       else script[0].Accepted? && 0 < script[0].count < size && StopsAt(script[1..], size - script[0].count, k - 1)
  }

  /** All is written if and only if no failure and no broken count comes first; the failure that comes
      first is the one reported, a broken count as a logic error. */
  lemma {:induction false} WritingFailsForAReason(script: seq<WriteOutcome>, size: nat) returns (k: nat)
    ensures var w := WrittenOf(script, size);
      && (w.outcome == Done ==> w.count == size && forall i :: !StopsAt(script, size, i))
      && (w.outcome != Done ==>
            StopsAt(script, size, k)
            && w.outcome == Failed(if script[k].WriteFailed? then script[k].error else LogicError(Send)))
    decreases |script|
  {
    k := 0;
    if size > 0 && script != [] && script[0].Accepted? && 0 < script[0].count <= size {
      var later := WritingFailsForAReason(script[1..], size - script[0].count);
      k := later + 1;
    }
  }

  /** Writes all of `src`, or fails having sent a prefix of it; it never reports success short of the
      whole and never sends a byte twice or out of order. */
  method WriteAll(sink: ByteSink, src: seq<byte>) returns (r: Outcome)
    modifies sink
    ensures var w := WrittenOf(old(sink.script), |src|); r == w.outcome && sink.script == w.left
    ensures var n := WrittenOf(old(sink.script), |src|).count;
      n <= |src| && sink.sent == old(sink.sent) + src[..n] && (r == Done ==> n == |src|)
  {
    var at := 0;
    ghost var before, whole := sink.sent, WrittenOf(sink.script, |src|);
    assert before + src[..0] == before;
    while at < |src|
      invariant 0 <= at <= |src| && sink.sent == before + src[..at]
      invariant var later := WrittenOf(sink.script, |src| - at); whole == Written(later.outcome, at + later.count, later.left)
      decreases |src| - at
    {
      var written := sink.WriteSome(src[at..]);
      if written.WriteFailed? {
        return Failed(written.error);
      }
      ghost var taken := if written.count < |src| - at then written.count else |src| - at;
      assert before + src[..at] + src[at..][..taken] == before + src[..at + taken];
      if written.count == 0 || written.count > |src| - at {
        return Failed(LogicError(Send));
      }
      at := at + written.count;
    }
    assert src[..at] == src;
    r := Done;
  }

  // ---- Reading ----

  /** One read, in terms of what is still to come. */
  method ReadOnce(stream: ByteStream, capacity: nat) returns (r: ReadOutcome)
    requires capacity > 0
    modifies stream
    ensures r.ReadFailed? ==> old(stream.Ahead()) == [] && old(stream.EndAhead()) == Broken(r.error)
    ensures r.Received? ==> |r.bytes| <= capacity && r.bytes <= old(stream.Ahead())
    ensures r.Received? && r.eof ==> old(stream.Ahead()) == r.bytes && old(stream.EndAhead()) == AtEof
    ensures r.Received? && !r.eof && r.bytes == [] ==>
      old(stream.Ahead()) == [] && old(stream.EndAhead()) == Broken(LogicError(Recv))
    ensures r.Received? && !r.eof && r.bytes != [] ==>
      && stream.Ahead() == old(stream.Ahead())[|r.bytes|..] && stream.EndAhead() == old(stream.EndAhead())
      && Reads(stream.script) < Reads(old(stream.script)) && !stream.ended && !old(stream.ended)
    ensures stream.lateReads == old(stream.lateReads) + if old(stream.ended) then 1 else 0
  {
    r := stream.Read(capacity);
  }

  /** Filled so far, and `left` still to come: `more` moves from the one to the other. */
  lemma Moved(filled: seq<byte>, left: seq<byte>, more: seq<byte>)
    requires more <= left
    ensures (filled + more) + left[|more|..] == filled + left
    ensures filled + more <= filled + left
    ensures more == left ==> filled + more == filled + left
  {
    assert left == more + left[|more|..];
  }

  /** Fills exactly `size` bytes: they are the first of those still to come. It fails only when the stream
      ends, has ended, or breaks before them, and says which. */
  method ReadExactly(stream: ByteStream, size: nat) returns (r: Outcome, filled: seq<byte>)
    modifies stream
    ensures r == Done <==> |old(stream.Ahead())| >= size
    ensures r == Done ==> filled == old(stream.Ahead())[..size]
    ensures r != Done ==> r == Failed(match old(stream.EndAhead()) case AtEof => TruncatedError(Recv) case Broken(e) => e)
    ensures stream.lateReads == old(stream.lateReads) + if old(stream.ended) && size > 0 then 1 else 0
  {
    filled := [];
    ghost var whole, finale := stream.Ahead(), stream.EndAhead();
    ghost var left := whole;
    while |filled| < size
      invariant |filled| <= size && left == stream.Ahead() && stream.EndAhead() == finale
      invariant filled + left == whole
      invariant stream.ended == old(stream.ended) && stream.lateReads == old(stream.lateReads)
      decreases Reads(stream.script)
    {
      var result := ReadOnce(stream, size - |filled|);
      if result.ReadFailed? {
        return Failed(result.error), filled;
      }
      Moved(filled, left, result.bytes);
      filled := filled + result.bytes;
      if |filled| == size {
        return Done, filled;
      }
      if result.eof {
        return Failed(TruncatedError(Recv)), filled;
      }
      if result.bytes == [] {
        return Failed(LogicError(Recv)), filled;
      }
      left := left[|result.bytes|..];
    }
    r := Done;
  }

  /** One read into a destination of which `total` bytes are filled; the rest of it is dropped. */
  method ReadInto(stream: ByteStream, before: seq<byte>, filled: nat, want: nat)
    returns (r: ReadOutcome, out: seq<byte>, total: nat)
    requires want > 0 && filled <= |before|
    modifies stream
    ensures total == |out| <= filled + want && out <= before[..filled] + old(stream.Ahead())
    ensures r.ReadFailed? ==> out == before[..filled] + old(stream.Ahead()) && old(stream.EndAhead()) == Broken(r.error)
    ensures r.Received? && r.eof ==> out == before[..filled] + old(stream.Ahead()) && old(stream.EndAhead()) == AtEof
    ensures r.Received? && !r.eof && r.bytes == [] ==>
      out == before[..filled] + old(stream.Ahead()) && old(stream.EndAhead()) == Broken(LogicError(Recv))
    ensures r.Received? && !r.eof && r.bytes != [] ==>
      && total > 0 && out + stream.Ahead() == before[..filled] + old(stream.Ahead()) && stream.EndAhead() == old(stream.EndAhead())
      && Reads(stream.script) < Reads(old(stream.script)) && !stream.ended && !old(stream.ended)
    ensures stream.lateReads == old(stream.lateReads) + if old(stream.ended) then 1 else 0
  {
    ghost var left := stream.Ahead();
    r := ReadOnce(stream, want);
    out := before[..filled];
    Moved(out, left, if r.Received? then r.bytes else []);
    if r.Received? {
      out := out + r.bytes;
    }
    total := |out|;
  }

  /** Reads to the end of the stream or to the cap; `before` is what the destination held, which only a cap
      of zero leaves there. All of the bytes still to come, up to the cap, are there, in order; the end is
      reported only if it was reached within the cap. */
  method ReadToEof(stream: ByteStream, before: seq<byte>, maxBytes: nat)
    returns (r: Outcome, out: seq<byte>, total: nat, eof: bool)
    modifies stream
    ensures maxBytes == 0 ==> r == Done && out == before && total == 0 && !eof
    ensures maxBytes > 0 ==> total == |out| <= maxBytes && out <= old(stream.Ahead())
    ensures r == Done && eof ==> out == old(stream.Ahead()) && old(stream.EndAhead()) == AtEof
    ensures r == Done && !eof ==> total == maxBytes
    ensures r != Done ==> !eof && out == old(stream.Ahead()) && old(stream.EndAhead()) == Broken(r.error)
    ensures stream.lateReads == old(stream.lateReads) + if old(stream.ended) && maxBytes > 0 then 1 else 0
  {
    out, total, eof := before, 0, false;
    ghost var whole, finale := stream.Ahead(), stream.EndAhead();
    assert before[..0] + whole == whole;
    while total < maxBytes
      invariant total <= maxBytes && (if total == 0 then out == before else total == |out|)
      invariant out[..total] + stream.Ahead() == whole && stream.EndAhead() == finale
      invariant stream.ended == old(stream.ended) && stream.lateReads == old(stream.lateReads)
      decreases Reads(stream.script)
    {
      var want := if CHUNK_BYTES < maxBytes - total then CHUNK_BYTES else maxBytes - total;
      var result;
      result, out, total := ReadInto(stream, out, total, want);
      if result.ReadFailed? {
        return Failed(result.error), out, total, false;
      }
      if result.eof {
        return Done, out, total, true;
      }
      if result.bytes == [] {
        return Failed(LogicError(Recv)), out, total, false;
      }
      assert out[..total] == out;
    }
    r := Done;
  }
}
