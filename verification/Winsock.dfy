/** The operating system as a connect sees it: a clock and sockets that answer anything, and a record of
    what was asked and answered. */
module Winsock {
  import opened Streams
  import opened Interleaving

  const WSAEWOULDBLOCK := 10035
  const WSAENOTCONN := 10057

  const POLL_SLICE := 200

  function FromWsaCode(op: NetOp, code: int): NetError {
    NetError(code, op, Wsa)
  }

  const TIMED_OUT := NetError(0, NetOp.Connect, Timeout)
  const CANCELLED := NetError(0, NetOp.Connect, Cancelled)
  const NOT_CONNECTED := FromWsaCode(NetOp.Connect, WSAENOTCONN)

  // ---- Answers ----

  datatype PollAnswer = PollBroke(code: int) | Polled(ready: set<nat>)

  datatype SocketState = Unreadable(code: int) | Status(code: int)

  datatype SetUp = InOrder | OptionRefused(code: int) | ModeRefused(code: int)

  function SetUpError(answer: SetUp): NetError
    requires !answer.InOrder?
  {
    if answer.OptionRefused? then FromWsaCode(Sockopt, answer.code) else FromWsaCode(Ioctl, answer.code)
  }

  /** Everything the system answers, by the number of the call; zero is success. */
  datatype Oracle = Oracle(
    clock: nat -> int,
    opening: nat -> int,
    configuring: nat -> SetUp,
    connecting: nat -> int,
    polling: nat -> PollAnswer,
    states: nat -> SocketState,
    restoring: nat -> int,
    requested: nat -> bool)

  // ---- The record ----

  /** An attempt begun: to which address, at which time and reading of the clock, with how many pending. */
  datatype Start = Start(address: Address, at: int, reading: nat, others: nat)

  /** A wait: at which time and reading of the clock, for how long at most, after how many starts, on which
      sockets, and which of them were ready, unless it broke. */
  datatype Wait = Wait(at: int, reading: nat, milliseconds: int, started: nat, sockets: seq<nat>, ready: set<nat>, broke: bool)

  /** To which address a socket was connected, and what connect answered. */
  datatype Dial = Dial(address: Address, code: int)

  /** A socket asked how it fares, and what it answered. */
  datatype Question = Question(socket: nat, answer: SocketState)

  /** A failure reported or a deadline missed, the attempt it befell, and what the clock had last said;
      attempt 0 is none of them. */
  datatype Setback = Setback(attempt: nat, error: NetError, at: int)

  /** What happened so far. `naps` counts the waits on nothing. */
  datatype Story = Story(
    starts: seq<Start>,
    waits: seq<Wait>,
    naps: nat,
    asked: seq<Question>,
    setbacks: seq<Setback>,
    dialled: map<nat, Dial>)

  const NOTHING := Story([], [], 0, [], [], map[])

  /** What SO_ERROR means for an attempt. A socket whose state cannot be read counts as not connected. */
  function Reported(socket: nat, state: SocketState, at: int): seq<Setback> {
    match state
    case Unreadable(code) => [Setback(socket, FromWsaCode(Sockopt, code), at), Setback(socket, NOT_CONNECTED, at)]
    case Status(code) => if code == 0 then [] else [Setback(socket, FromWsaCode(NetOp.Connect, code), at)]
  }

  // ---- The system ----

  /** Nothing is begun and nothing waited for unless the cancel flag has just been looked at and was clear.
      The descriptor of an attempt is numbered as the attempt is. */
  class System {
    const oracle: Oracle
    var calls: nat
    var readings: nat
    var minted: nat
    ghost var latest: int                  // what the clock said last
    ghost var open: set<nat>               // descriptors not closed
    ghost var most: nat                    // the most of them open at any time
    ghost var story: Story
    ghost var configured: set<nat>         // descriptors with their options set, in non-blocking mode
    ghost var connected: set<nat>          // descriptors reported connected
    ghost var restored: map<nat, int>      // what returning to blocking mode answered
    ghost var offered: map<nat, bool>      // whether the cancel handle took the descriptor
    ghost var looked: bool                 // the cancel flag was clear when last looked at, just now
    ghost var cancelSeen: bool

    ghost predicate Valid()
      reads this
    {
      && minted == |story.starts|
      && (forall d :: d in open ==> d <= minted)
      && |open| <= most
    }

    ghost predicate Untouched()
      reads this
    {
      open == {} && most == 0 && story == NOTHING && connected == {} && !cancelSeen
    }

    constructor (oracle: Oracle)
      ensures Valid() && Untouched() && this.oracle == oracle && readings == 0
    {
      this.oracle := oracle;
      calls, readings, minted, latest := 0, 0, 0, 0;
      open, most, story, connected := {}, 0, NOTHING, {};
      configured, restored, offered := {}, map[], map[];
      looked, cancelSeen := false, false;
    }

    method Now() returns (now: int)
      modifies this`readings, this`latest
      ensures now == latest == oracle.clock(old(readings)) && readings == old(readings) + 1
    {
      now := oracle.clock(readings);
      readings := readings + 1;
      latest := now;
    }

    method CancelRequested() returns (yes: bool)
      modifies this`calls, this`looked, this`cancelSeen
      ensures looked == !yes && cancelSeen == (old(cancelSeen) || yes)
    {
      yes := oracle.requested(calls);
      calls := calls + 1;
      looked, cancelSeen := !yes, cancelSeen || yes;
    }

    method OpenSocket(address: Address) returns (code: int, socket: nat)
      requires Valid() && looked
      modifies this`calls, this`minted, this`open, this`most, this`story, this`looked
      ensures Valid() && socket == |story.starts|
      ensures var begun := old(story).(starts := old(story.starts) + [Start(address, latest, readings, |old(open)|)]);
        story == if code == 0 then begun
                 else begun.(setbacks := begun.setbacks + [Setback(socket, FromWsaCode(Socket, code), latest)])
      ensures socket !in old(open) && open == if code == 0 then old(open) + {socket} else old(open)
      ensures most == old(most) || most == |old(open)| + 1
    {
      code := oracle.opening(calls);
      calls, minted := calls + 1, minted + 1;
      socket := minted;
      story := story.(starts := story.starts + [Start(address, latest, readings, |open|)]);
      looked := false;
      if code == 0 {
        assert |open + {socket}| == |open| + 1;
        most := if |open| + 1 > most then |open| + 1 else most;
        open := open + {socket};
      } else {
        story := story.(setbacks := story.setbacks + [Setback(socket, FromWsaCode(Socket, code), latest)]);
      }
    }

    /** The socket options and non-blocking mode. */
    method Configure(socket: nat) returns (r: SetUp)
      requires socket in open
      modifies this`calls, this`story, this`configured
      ensures configured == if r.InOrder? then old(configured) + {socket} else old(configured)
      ensures story == if r.InOrder? then old(story)
                       else old(story).(setbacks := old(story.setbacks) + [Setback(socket, SetUpError(r), latest)])
    {
      r := oracle.configuring(calls);
      calls := calls + 1;
      if r.InOrder? {
        configured := configured + {socket};
      } else {
        story := story.(setbacks := story.setbacks + [Setback(socket, SetUpError(r), latest)]);
      }
    }

    /** A non-blocking connect: zero if it completed at once, WSAEWOULDBLOCK if it is pending. */
    method BeginConnect(socket: nat, address: Address) returns (code: int)
      requires socket in open && socket in configured
      modifies this`calls, this`story, this`connected
      ensures connected == if code == 0 then old(connected) + {socket} else old(connected)
      ensures var called := old(story).(dialled := old(story.dialled)[socket := Dial(address, code)]);
        story == if code == 0 || code == WSAEWOULDBLOCK then called
                 else called.(setbacks := called.setbacks + [Setback(socket, FromWsaCode(NetOp.Connect, code), latest)])
    {
      code := oracle.connecting(calls);
      calls := calls + 1;
      story := story.(dialled := story.dialled[socket := Dial(address, code)]);
      if code == 0 {
        connected := connected + {socket};
      } else if code != WSAEWOULDBLOCK {
        story := story.(setbacks := story.setbacks + [Setback(socket, FromWsaCode(NetOp.Connect, code), latest)]);
      }
    }

    method Close(socket: nat)
      requires Valid() && socket in open
      modifies this`open
      ensures Valid() && open == old(open) - {socket}
    {
      open := open - {socket};
    }

    /** Waits on nothing, at most one slice, so that a cancel is noticed soon. */
    method Sleep(milliseconds: int)
      requires 0 <= milliseconds <= POLL_SLICE && looked
      modifies this`story, this`looked
      ensures story == old(story).(naps := old(story.naps) + 1)
    {
      story := story.(naps := story.naps + 1);
      looked := false;
    }

    /** Waits on the sockets; only they can be ready. */
    method Poll(sockets: seq<nat>, milliseconds: int) returns (r: PollAnswer)
      requires (forall d :: d in sockets ==> d in open) && 0 <= milliseconds <= POLL_SLICE && looked
      modifies this`calls, this`story, this`looked
      ensures r.Polled? ==> forall d :: d in r.ready ==> d in sockets
      ensures var waited := old(story).(waits := old(story.waits)
                              + [Wait(latest, readings, milliseconds, |old(story.starts)|, sockets, if r.Polled? then r.ready else {}, r.PollBroke?)]);
        story == if r.Polled? then waited
                 else waited.(setbacks := waited.setbacks + [Setback(0, FromWsaCode(NetOp.Poll, r.code), latest)])
    {
      r := oracle.polling(calls);
      calls := calls + 1;
      looked := false;
      if r.Polled? {
        r := Polled(set d | d in r.ready && d in sockets);
      }
      story := story.(waits := story.waits
        + [Wait(latest, readings, milliseconds, |story.starts|, sockets, if r.Polled? then r.ready else {}, r.PollBroke?)]);
      if r.PollBroke? {
        story := story.(setbacks := story.setbacks + [Setback(0, FromWsaCode(NetOp.Poll, r.code), latest)]);
      }
    }

    /** SO_ERROR. */
    method SocketError(socket: nat) returns (r: SocketState)
      requires socket in open
      modifies this`calls, this`story, this`connected
      ensures connected == if r == Status(0) then old(connected) + {socket} else old(connected)
      ensures story == old(story).(asked := old(story.asked) + [Question(socket, r)],
                                   setbacks := old(story.setbacks) + Reported(socket, r, latest))
    {
      r := oracle.states(calls);
      calls := calls + 1;
      story := story.(asked := story.asked + [Question(socket, r)], setbacks := story.setbacks + Reported(socket, r, latest));
      connected := if r == Status(0) then connected + {socket} else connected;
    }

    method RestoreBlocking(socket: nat) returns (code: int)
      requires socket in open
      modifies this`calls, this`restored
      ensures restored == old(restored)[socket := code]
    {
      code := oracle.restoring(calls);
      calls := calls + 1;
      restored := restored[socket := code];
    }

    /** Refused if a cancel has been requested. */
    method AttachCancelSocket(socket: nat) returns (ok: bool)
      requires socket in open
      modifies this`calls, this`offered
      ensures offered == old(offered)[socket := ok]
    {
      ok := !oracle.requested(calls);
      calls := calls + 1;
      offered := offered[socket := ok];
    }

    /** Records that a deadline has passed by what the clock said last. */
    ghost method Miss(attempt: nat)
      modifies this`story
      ensures story == old(story).(setbacks := old(story.setbacks) + [Setback(attempt, TIMED_OUT, latest)])
    {
      story := story.(setbacks := story.setbacks + [Setback(attempt, TIMED_OUT, latest)]);
    }
  }
}
