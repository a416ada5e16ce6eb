/** The byte stream the protocol code reads from, as an arbitrary finite script of deliveries: pieces of
    any size, end of stream alongside or after the last bytes, transport errors, and even the
    "nothing happened" result that the contract of ByteStream forbids. */
module Streams {
  import opened Tokens

  datatype NetCat = Wsa | Sspi | Timeout | Cancelled | Truncated | Logic

  datatype NetOp = Socket | Sockopt | Ioctl | Connect | Poll | Recv | Send | TlsEncrypt | TlsDecrypt

  datatype NetError = NetError(native: int, op: NetOp, cat: NetCat)

  function LogicError(op: NetOp): (e: NetError)
    ensures e.native == 0 && e.op == op && e.cat == Logic
  {
    NetError(0, op, Logic)
  }

  function TruncatedError(op: NetOp): (e: NetError)
    ensures e.native == 0 && e.op == op && e.cat == Truncated
  {
    NetError(0, op, Truncated)
  }

  /** What an operation without a result comes to. */
  datatype Outcome = Done | Failed(error: NetError)

  datatype Delivery = Arrives(bytes: seq<byte>, eof: bool) | Breaks(error: NetError)

  datatype ReadOutcome = Received(bytes: seq<byte>, eof: bool) | ReadFailed(error: NetError)

  /** How a stream ends: at end of stream, or by failing. */
  datatype Finale = AtEof | Broken(error: NetError)

  /** All the bytes a stream will deliver before its end. */
  function Content(script: seq<Delivery>): seq<byte> {
    if script == [] || script[0].Breaks? then []
    else if script[0].eof || script[0].bytes == [] then script[0].bytes
    else script[0].bytes + Content(script[1..])
  }

  /** How it ends after them; a delivery of nothing that is not the end breaks the contract, and its
      readers report that as a logic error. */
  function FinaleOf(script: seq<Delivery>): Finale {
    if script == [] then AtEof
    else if script[0].Breaks? then Broken(script[0].error)
    else if script[0].eof then AtEof
    else if script[0].bytes == [] then Broken(LogicError(Recv))
    else FinaleOf(script[1..])
  }

  /** All the bytes it will deliver if it is read on after every failure. */
  function Through(script: seq<Delivery>): seq<byte> {
    if script == [] then []
    else if script[0].Breaks? then Through(script[1..])
    else if script[0].eof then script[0].bytes
    else script[0].bytes + Through(script[1..])
  }

  /** Reads left to make, at least one byte at a time. */
  function Reads(script: seq<Delivery>): nat {
    if script == [] then 1
    else (if script[0].Arrives? then |script[0].bytes| else 0) + 1 + Reads(script[1..])
  }

  /** The deliveries keep the stream's contract: none of them is nothing at all. */
  predicate KeepsContract(script: seq<Delivery>) {
    forall i :: 0 <= i < |script| && script[i].Arrives? ==> script[i].eof || script[i].bytes != []
  }

  /** What is left of a script once its first delivery has been taken, or as much of it as there is room
      for. */
  function Remainder(script: seq<Delivery>, capacity: nat): seq<Delivery>
    requires script != []
  {
    var first := script[0];
    if first.Arrives? && capacity < |first.bytes| then [Arrives(first.bytes[capacity..], first.eof)] + script[1..]
    else script[1..]
  }

  lemma TakingSplits(script: seq<Delivery>, capacity: nat)
    requires script != [] && script[0].Arrives? && 0 < capacity < |script[0].bytes|
    ensures var taken, rest := script[0].bytes[..capacity], Remainder(script, capacity);
      && Content(script) == taken + Content(rest) && FinaleOf(script) == FinaleOf(rest)
      && Through(script) == taken + Through(rest) && Reads(rest) < Reads(script)
  {
    var bytes, tail := script[0].bytes, script[1..];
    var rest := Remainder(script, capacity);
    assert rest[0] == Arrives(bytes[capacity..], script[0].eof) && rest[1..] == tail;
    SplitJoins(bytes, capacity, Content(tail));
    SplitJoins(bytes, capacity, Through(tail));
  }

  lemma SplitJoins(bytes: seq<byte>, n: nat, tail: seq<byte>)
    requires n <= |bytes|
    ensures bytes == bytes[..n] + bytes[n..]
    ensures bytes + tail == bytes[..n] + (bytes[n..] + tail)
  {
  }

  class ByteStream {
    var script: seq<Delivery>
    var ended: bool
    ghost var lateReads: nat    // reads made after the end of the stream was reported
    ghost var made: nat         // all reads made
    ghost var last: nat         // how many bytes the last of them returned

    /** The bytes it will still deliver, and how it ends after them. */
    ghost function Ahead(): seq<byte>
      reads this
    {
      if ended then [] else Content(script)
    }

    ghost function EndAhead(): Finale
      reads this
    {
      if ended then AtEof else FinaleOf(script)
    }

    /** Everything still to come, failures in between or not. */
    ghost function Everything(): seq<byte>
      reads this
    {
      if ended then [] else Through(script)
    }

    constructor (script: seq<Delivery>)
      ensures this.script == script && !ended && lateReads == 0
    {
      this.script := script;
      ended := false;
      lateReads, made, last := 0, 0, 0;
    }

    /** Reads at most `capacity` bytes. A failure loses nothing of what comes after it. */
    method Read(capacity: nat) returns (r: ReadOutcome)
      requires capacity > 0
      modifies this
      ensures lateReads == old(lateReads) + if old(ended) then 1 else 0
      ensures made == old(made) + 1 && last == if r.Received? then |r.bytes| else 0
      ensures Reads(script) <= Reads(old(script)) && (r.ReadFailed? || (r.bytes == [] && !r.eof) ==> Reads(script) < Reads(old(script)))
      ensures old(Everything()) == (if r.Received? then r.bytes else []) + Everything()
      ensures old(ended) ==> r == Received([], true) && ended && script == old(script)
      ensures r.Received? ==> |r.bytes| <= capacity
      ensures !old(ended) && r.ReadFailed? ==>
        Content(old(script)) == [] && FinaleOf(old(script)) == Broken(r.error) && !ended
      ensures !old(ended) && r.Received? && r.eof ==>
        Content(old(script)) == r.bytes && FinaleOf(old(script)) == AtEof && ended
      ensures !old(ended) && r.Received? && !r.eof && r.bytes == [] ==>
        Content(old(script)) == [] && FinaleOf(old(script)) == Broken(LogicError(Recv)) && !ended
      ensures !old(ended) && r.Received? && !r.eof && r.bytes != [] ==>
        && Content(old(script)) == r.bytes + Content(script)
        && FinaleOf(old(script)) == FinaleOf(script)
        && Reads(script) < Reads(old(script)) && !ended
      ensures KeepsContract(old(script)) ==> KeepsContract(script) && (r.Received? ==> r.eof || r.bytes != [])
    {
      made, last := made + 1, 0;
      if ended {
        lateReads := lateReads + 1;
        return Received([], true);
      }
      if script == [] {
        ended := true;
        return Received([], true);
      }
      ghost var before := script;
      if script[0].Arrives? && capacity < |script[0].bytes| { TakingSplits(before, capacity); }
      r := Take(capacity);
      last := if r.Received? then |r.bytes| else 0;
    }

    /** The next delivery, or as much of it as there is room for. */
    method Take(capacity: nat) returns (r: ReadOutcome)
      requires capacity > 0 && !ended && script != []
      modifies this`script, this`ended
      ensures script == Remainder(old(script), capacity)
      ensures match old(script)[0]
        case Breaks(e) => r == ReadFailed(e) && !ended
        case Arrives(bytes, eof) =>
          if |bytes| <= capacity then r == Received(bytes, eof) && ended == eof
          else r == Received(bytes[..capacity], false) && !ended
    {
      match script[0]
      case Breaks(e) =>
        script := script[1..];
        r := ReadFailed(e);
      case Arrives(bytes, eof) =>
        if |bytes| <= capacity {
          script := script[1..];
          ended := eof;
          r := Received(bytes, eof);
        } else {
          script := [Arrives(bytes[capacity..], eof)] + script[1..];
          r := Received(bytes[..capacity], false);
        }
    }
  }
}
