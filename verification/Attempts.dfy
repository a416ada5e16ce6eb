/** Connection attempts: beginning one, asking those that polled ready, giving up those out of time, and
    handing over the one that answers. */
module Attempts {
  import opened Tokens
  import opened Streams
  import opened Interleaving
  import opened Winsock

  // ---- How much a failure says ----

  const WSAEAFNOSUPPORT := 10047
  const WSAEADDRNOTAVAIL := 10049
  const WSAENETUNREACH := 10051
  const WSAETIMEDOUT := 10060
  const WSAECONNREFUSED := 10061
  const WSAEHOSTDOWN := 10064
  const WSAEHOSTUNREACH := 10065

  function Definiteness(error: NetError): nat {
    if error.cat == Cancelled then 100
    else if error.cat == Timeout then 40
    else if error.native == WSAECONNREFUSED then 50
    else if error.native == WSAETIMEDOUT then 40
    else if error.native in {WSAEHOSTUNREACH, WSAENETUNREACH, WSAEHOSTDOWN} then 30
    else if error.native in {WSAEAFNOSUPPORT, WSAEADDRNOTAVAIL} then 10
    else 20
  }

  /** The error to report so far, and how much it says. */
  datatype Best = Best(error: NetError, rank: int)

  function Remember(best: Best, error: NetError): Best {
    if Definiteness(error) > best.rank then Best(error, Definiteness(error)) else best
  }

  function BestOf(setbacks: seq<Setback>): Best {
    if setbacks == [] then Best(TIMED_OUT, -1)
    else Remember(BestOf(setbacks[..|setbacks| - 1]), setbacks[|setbacks| - 1].error)
  }

  /** `k` is the first of the failures that say the most. */
  ghost predicate FirstMostDefinite(setbacks: seq<Setback>, k: nat) {
    && k < |setbacks|
    && (forall i :: 0 <= i < |setbacks| ==> Definiteness(setbacks[i].error) <= Definiteness(setbacks[k].error))
    && (forall i :: 0 <= i < k ==> Definiteness(setbacks[i].error) < Definiteness(setbacks[k].error))
  }

  /** Of the failures remembered, the first of the most definite is reported; a timeout if there are none. */
  lemma {:induction false} BestIsFirstMostDefinite(setbacks: seq<Setback>) returns (k: nat)
    ensures setbacks == [] ==> BestOf(setbacks).error == TIMED_OUT
    ensures setbacks != [] ==>
      FirstMostDefinite(setbacks, k) && BestOf(setbacks) == Best(setbacks[k].error, Definiteness(setbacks[k].error))
  {
    k := 0;
    if setbacks != [] {
      var n := |setbacks| - 1;
      k := BestIsFirstMostDefinite(setbacks[..n]);
      if n == 0 || Definiteness(setbacks[n].error) > BestOf(setbacks[..n]).rank {
        k := n;
      }
    }
  }

  lemma BestOfOneMore(setbacks: seq<Setback>, setback: Setback)
    ensures BestOf(setbacks + [setback]) == Remember(BestOf(setbacks), setback.error)
  {
    assert (setbacks + [setback])[..|setbacks|] == setbacks;
  }

  // ---- Which failure is reported, in codes ----

  /** The host answered and declined: WSAECONNREFUSED. */
  predicate IsRefusal(error: NetError) {
    error.cat != Cancelled && error.cat != Timeout && error.native == 10061
  }

  /** Time ran out, here or in the system: WSAETIMEDOUT. */
  predicate IsTimeout(error: NetError) {
    error.cat != Cancelled && (error.cat == Timeout || error.native == 10060)
  }

  /** WSAEHOSTUNREACH, WSAENETUNREACH or WSAEHOSTDOWN. */
  predicate IsUnreachable(error: NetError) {
    error.cat != Cancelled && error.cat != Timeout && error.native in {10065, 10051, 10064}
  }

  /** WSAEAFNOSUPPORT or WSAEADDRNOTAVAIL. */
  predicate IsUnsupported(error: NetError) {
    error.cat != Cancelled && error.cat != Timeout && error.native in {10047, 10049}
  }

  /** `error` says more than `other`: a cancel than anything, then a refusal, then a timeout, then a host or
      network that cannot be reached; an unsupported family says less than anything else. */
  predicate SaysMore(error: NetError, other: NetError) {
    if error.cat == Cancelled then other.cat != Cancelled
    else if other.cat == Cancelled then false
    else if IsRefusal(error) then !IsRefusal(other)
    else if IsRefusal(other) then false
    else if IsTimeout(error) then !IsTimeout(other)
    else if IsTimeout(other) then false
    else if IsUnreachable(error) then !IsUnreachable(other)
    else if IsUnreachable(other) then false
    else !IsUnsupported(error) && IsUnsupported(other)
  }

  lemma RanksAreRight(error: NetError, other: NetError)
    ensures Definiteness(error) > Definiteness(other) <==> SaysMore(error, other)
  {
  }

  /** The error is that of a setback such that none says more, and none before it says as much. */
  ghost predicate Foremost(error: NetError, setbacks: seq<Setback>) {
    exists k :: 0 <= k < |setbacks| && setbacks[k].error == error
      && (forall i :: 0 <= i < |setbacks| ==> !SaysMore(setbacks[i].error, error))
      && (forall i :: 0 <= i < k ==> SaysMore(error, setbacks[i].error))
  }

  /** What is reported of these failures; of none, a timeout. */
  ghost predicate Reports(error: NetError, setbacks: seq<Setback>) {
    if setbacks == [] then error.cat == Timeout else Foremost(error, setbacks)
  }

  lemma BestIsReported(setbacks: seq<Setback>)
    ensures Reports(BestOf(setbacks).error, setbacks)
  {
    if setbacks != [] {
      var k := BestIsFirstMostDefinite(setbacks);
      var error := BestOf(setbacks).error;
      forall i | 0 <= i < |setbacks|
        ensures !SaysMore(setbacks[i].error, error) && (i < k ==> SaysMore(error, setbacks[i].error))
      {
        RanksAreRight(setbacks[i].error, error);
        RanksAreRight(error, setbacks[i].error);
      }
    }
  }

  /** A refusal among the failures, and no cancel, is what is reported. */
  lemma RefusalIsReported(error: NetError, setbacks: seq<Setback>, k: nat)
    requires Reports(error, setbacks) && k < |setbacks| && IsRefusal(setbacks[k].error)
    requires forall i :: 0 <= i < |setbacks| ==> setbacks[i].error.cat != Cancelled
    ensures error.native == 10061 && error.cat != Timeout
  {
    assert !SaysMore(setbacks[k].error, error);
  }

  /** Something befell the attempt. */
  ghost predicate HasSetback(setbacks: seq<Setback>, attempt: nat) {
    exists k :: 0 <= k < |setbacks| && setbacks[k].attempt == attempt
  }

  lemma SetbacksStay(setbacks: seq<Setback>, more: seq<Setback>, attempt: nat)
    requires HasSetback(setbacks, attempt) && setbacks <= more
    ensures HasSetback(more, attempt)
  {
    var k :| 0 <= k < |setbacks| && setbacks[k].attempt == attempt;
    assert more[k] == setbacks[k];
  }

  lemma SetbackAdded(setbacks: seq<Setback>, setback: Setback)
    ensures HasSetback(setbacks + [setback], setback.attempt)
  {
    assert (setbacks + [setback])[|setbacks|] == setback;
  }

  /** The attempt has failed with this error. */
  ghost predicate HasFailure(setbacks: seq<Setback>, attempt: nat, error: NetError) {
    exists k :: 0 <= k < |setbacks| && setbacks[k].attempt == attempt && setbacks[k].error == error
  }

  /** What a socket answered when asked is among the setbacks: its error code, or that it could not be read. */
  ghost predicate IsTold(q: Question, setbacks: seq<Setback>) {
    match q.answer
    case Unreadable(code) => HasFailure(setbacks, q.socket, NetError(code, Sockopt, Wsa))
    case Status(code) => code != 0 ==> HasFailure(setbacks, q.socket, NetError(code, NetOp.Connect, Wsa))
  }

  ghost predicate AllTold(questions: seq<Question>, setbacks: seq<Setback>) {
    forall i :: 0 <= i < |questions| ==> IsTold(questions[i], setbacks)
  }

  /** And so is what connect answered, when it declined. */
  ghost predicate DialsTold(dialled: map<nat, Dial>, setbacks: seq<Setback>) {
    forall n :: n in dialled && dialled[n].code != 0 && dialled[n].code != 10035 ==>
      HasFailure(setbacks, n, NetError(dialled[n].code, NetOp.Connect, Wsa))
  }

  lemma FailureStaysTold(setbacks: seq<Setback>, more: seq<Setback>, attempt: nat, error: NetError)
    requires HasFailure(setbacks, attempt, error) && setbacks <= more
    ensures HasFailure(more, attempt, error)
  {
    var k :| 0 <= k < |setbacks| && setbacks[k].attempt == attempt && setbacks[k].error == error;
    assert more[k] == setbacks[k];
  }

  lemma StillTold(questions: seq<Question>, dialled: map<nat, Dial>, setbacks: seq<Setback>, more: seq<Setback>)
    requires AllTold(questions, setbacks) && setbacks <= more
    ensures AllTold(questions, more)
    ensures DialsTold(dialled, setbacks) ==> DialsTold(dialled, more)
  {
    forall i | 0 <= i < |questions|
      ensures IsTold(questions[i], more)
    {
      var q := questions[i];
      assert IsTold(q, setbacks);
      match q.answer
      case Unreadable(code) => FailureStaysTold(setbacks, more, q.socket, NetError(code, Sockopt, Wsa));
      case Status(code) =>
        if code != 0 { FailureStaysTold(setbacks, more, q.socket, NetError(code, NetOp.Connect, Wsa)); }
    }
    if DialsTold(dialled, setbacks) {
      forall n | n in dialled && dialled[n].code != 0 && dialled[n].code != 10035
        ensures HasFailure(more, n, NetError(dialled[n].code, NetOp.Connect, Wsa))
      {
        FailureStaysTold(setbacks, more, n, NetError(dialled[n].code, NetOp.Connect, Wsa));
      }
    }
  }

  lemma AnswerIsTold(questions: seq<Question>, setbacks: seq<Setback>, socket: nat, answer: SocketState, at: int)
    requires AllTold(questions, setbacks)
    ensures AllTold(questions + [Question(socket, answer)], setbacks + Reported(socket, answer, at))
  {
    var more := setbacks + Reported(socket, answer, at);
    StillTold(questions, map[], setbacks, more);
    if answer != Status(0) { assert more[|setbacks|].attempt == socket; }
  }

  // ---- Attempts and the descriptors they own ----

  datatype Attempt = Attempt(socket: nat, address: Address, deadline: int, ordinal: nat, failed: bool)

  /** Of the setbacks from `from` on each is one the system answered, or the timeout of one of these attempts,
      past its deadline. */
  ghost predicate MissesDue(attempts: seq<Attempt>, setbacks: seq<Setback>, from: nat) {
    forall k :: from <= k < |setbacks| ==>
      setbacks[k].error.cat == Wsa || (setbacks[k].error.cat == Timeout && DueMiss(attempts, setbacks[k]))
  }

  ghost predicate DueMiss(attempts: seq<Attempt>, setback: Setback) {
    exists i :: 0 <= i < |attempts| && attempts[i].socket == setback.attempt && attempts[i].deadline <= setback.at
  }

  /** The attempts own the open descriptors, one each. */
  ghost predicate Own(attempts: seq<Attempt>, open: set<nat>) {
    if attempts == [] then open == {}
    else
      var last := attempts[|attempts| - 1].socket;
      last in open && Own(attempts[..|attempts| - 1], open - {last})
  }

  lemma {:induction false} OwnCount(attempts: seq<Attempt>, open: set<nat>)
    requires Own(attempts, open)
    ensures |open| == |attempts|
  {
    if attempts != [] {
      OwnCount(attempts[..|attempts| - 1], open - {attempts[|attempts| - 1].socket});
    }
  }

  lemma {:induction false} OwnDrop(attempts: seq<Attempt>, k: nat, open: set<nat>)
    requires Own(attempts, open) && k < |attempts|
    ensures attempts[k].socket in open
    ensures Own(attempts[..k] + attempts[k + 1..], open - {attempts[k].socket})
  {
    var n := |attempts| - 1;
    if k == n {
      assert attempts[..k] + attempts[k + 1..] == attempts[..n];
    } else {
      var last, mine := attempts[n].socket, attempts[k].socket;
      OwnDrop(attempts[..n], k, open - {last});
      var rest := attempts[..k] + attempts[k + 1..];
      assert rest[..|rest| - 1] == attempts[..n][..k] + attempts[..n][k + 1..];
      assert open - {mine} - {last} == open - {last} - {mine};
    }
  }

  lemma OwnNext(attempts: seq<Attempt>, i: nat, open: set<nat>)
    requires i < |attempts| && Own(attempts[i..], open)
    ensures attempts[i].socket in open && Own(attempts[i + 1..], open - {attempts[i].socket})
  {
    assert attempts[i..][..0] + attempts[i..][0 + 1..] == attempts[i + 1..];
    OwnDrop(attempts[i..], 0, open);
  }

  lemma OwnAdd(attempts: seq<Attempt>, open: set<nat>, attempt: Attempt)
    requires Own(attempts, open) && attempt.socket !in open
    ensures Own(attempts + [attempt], open + {attempt.socket})
  {
    assert (attempts + [attempt])[..|attempts|] == attempts;
    assert open + {attempt.socket} - {attempt.socket} == open;
  }

  lemma {:induction false} OwnMarked(inFlight: seq<Attempt>, marked: seq<Attempt>, open: set<nat>)
    requires Own(inFlight, open) && SameButFailed(inFlight, marked)
    ensures Own(marked, open)
  {
    if inFlight != [] {
      var n := |inFlight| - 1;
      OwnMarked(inFlight[..n], marked[..n], open - {inFlight[n].socket});
    }
  }

  /** The same attempts, some of them marked as failed. */
  ghost predicate SameButFailed(inFlight: seq<Attempt>, marked: seq<Attempt>) {
    |marked| == |inFlight| && forall i :: 0 <= i < |inFlight| ==> marked[i] == inFlight[i].(failed := marked[i].failed)
  }

  ghost predicate NoneFailed(attempts: seq<Attempt>) {
    forall i :: 0 <= i < |attempts| ==> !attempts[i].failed
  }

  /** The descriptors of the attempts, in order. */
  function SocketsOf(attempts: seq<Attempt>): seq<nat> {
    seq(|attempts|, i requires 0 <= i < |attempts| => attempts[i].socket)
  }

  lemma OwnHolds(attempts: seq<Attempt>, open: set<nat>)
    requires Own(attempts, open)
    ensures forall d :: d in SocketsOf(attempts) ==> d in open
  {
    forall i | 0 <= i < |attempts|
      ensures attempts[i].socket in open
    {
      OwnDrop(attempts, i, open);
    }
  }

  // ---- Beginning ----

  datatype Begun = Begun(socket: nat, connected: bool) | NotBegun(error: NetError)

  /** The candidate was dialled on this socket and declined, or was not dialled at all. */
  ghost predicate Declined(before: map<nat, Dial>, after: map<nat, Dial>, socket: nat, candidate: Address, error: NetError) {
    || after == before
    || exists code :: code != 0 && code != 10035 && after == before[socket := Dial(candidate, code)]
         && error == NetError(code, NetOp.Connect, Wsa)
  }

  /** The story after an attempt was begun, or could not be. */
  ghost predicate Begins(story: Story, story': Story, start: Start, begun: Begun, now: int) {
    var n := |story.starts| + 1;
    if begun.Begun? then
      && begun.socket == n
      && story' == story.(starts := story.starts + [start],
                          dialled := story.dialled[n := Dial(start.address, if begun.connected then 0 else WSAEWOULDBLOCK)])
    else
      && story' == story.(starts := story.starts + [start], setbacks := story.setbacks + [Setback(n, begun.error, now)],
                          dialled := story'.dialled)
      && Declined(story.dialled, story'.dialled, n, start.address, begun.error) && begun.error.cat == Wsa
  }

  /** What beginning an attempt did to the descriptors. */
  ghost predicate OpenedAs(begun: Begun, open: set<nat>, open': set<nat>, connected: set<nat>, connected': set<nat>) {
    if begun.Begun? then
      && begun.socket !in open && open' == open + {begun.socket}
      && connected' == if begun.connected then connected + {begun.socket} else connected
    else open' == open && connected' == connected
  }

  /** Begins an attempt without waiting for it. An attempt that cannot begin leaves no socket open and is
      failed by the error the system gave; one that begins was dialled to the candidate, and is connected or
      pending just as the system answered. */
  method BeginAttempt(system: System, candidate: Address) returns (r: Begun)
    requires system.Valid() && system.looked
    modifies system`calls, system`minted, system`open, system`most, system`story, system`connected, system`configured,
      system`looked
    ensures system.Valid()
    ensures Begins(old(system.story), system.story, Start(candidate, system.latest, system.readings, |old(system.open)|), r, system.latest)
    ensures OpenedAs(r, old(system.open), system.open, old(system.connected), system.connected)
    ensures system.most == old(system.most) || system.most == |old(system.open)| + 1
  {
    var code, socket := system.OpenSocket(candidate);
    if code != 0 {
      return NotBegun(FromWsaCode(Socket, code));
    }
    var configured := system.Configure(socket);
    if !configured.InOrder? {
      system.Close(socket);
      return NotBegun(SetUpError(configured));
    }
    code := system.BeginConnect(socket, candidate);
    if code == 0 {
      return Begun(socket, true);
    }
    if code != WSAEWOULDBLOCK {
      system.Close(socket);
      return NotBegun(FromWsaCode(NetOp.Connect, code));
    }
    return Begun(socket, false);
  }

  // ---- Ending ----

  /** The attempts go out of scope, and each closes its socket. */
  method CloseAll(system: System, attempts: seq<Attempt>, ghost owned: set<nat>)
    requires system.Valid() && Own(attempts, owned) && owned <= system.open
    modifies system`open
    ensures system.Valid() && system.open == old(system.open) - owned
  {
    ghost var left := owned;
    for i := 0 to |attempts|
      invariant system.Valid() && Own(attempts[i..], left) && left <= owned
      invariant system.open == old(system.open) - (owned - left)
    {
      OwnNext(attempts, i, left);
      system.Close(attempts[i].socket);
      left := left - {attempts[i].socket};
    }
    assert left == {};
  }

  datatype ConnectOutcome = Connected(socket: nat, address: Address, ordinal: nat) | NotConnected(error: NetError)

  /** What handing over the attempt's socket must come to: its return to blocking mode has been tried, and
      after that the cancel handle asked to take it; the first of the two to fail decides. */
  ghost predicate HandedOver(r: ConnectOutcome, socket: nat, address: Address, ordinal: nat, restored: map<nat, int>, offered: map<nat, bool>) {
    && socket in restored
    && if restored[socket] != 0 then r == NotConnected(NetError(restored[socket], Ioctl, Wsa))
       else
         && socket in offered
         && r == if offered[socket] then Connected(socket, address, ordinal) else NotConnected(NetError(0, NetOp.Connect, Cancelled))
  }

  /** A winner: everything else is closed, and its socket is handed over, or closed too. */
  method Finish(system: System, winner: Attempt, losers: seq<Attempt>) returns (r: ConnectOutcome)
    requires system.Valid() && winner.socket in system.open && Own(losers, system.open - {winner.socket})
    modifies system`calls, system`open, system`restored, system`offered
    ensures system.Valid() && HandedOver(r, winner.socket, winner.address, winner.ordinal, system.restored, system.offered)
    ensures system.open == if r.Connected? then {winner.socket} else {}
  {
    CloseAll(system, losers, system.open - {winner.socket});
    assert system.open == {winner.socket};
    var code := system.RestoreBlocking(winner.socket);
    if code != 0 {
      system.Close(winner.socket);
      return NotConnected(FromWsaCode(Ioctl, code));
    }
    var attached := system.AttachCancelSocket(winner.socket);
    if !attached {
      system.Close(winner.socket);
      return NotConnected(CANCELLED);
    }
    return Connected(winner.socket, winner.address, winner.ordinal);
  }

  // ---- Waking ----

  function Min(a: int, b: int): int {
    if b < a then b else a
  }

  function Clamp(value: int, low: int, high: int): int {
    if value < low then low else if value > high then high else value
  }

  /** When to wake: no later than anything that is due, and within a slice. */
  method NextWake(now: int, inFlight: seq<Attempt>, nextStart: Option<int>, overall: int) returns (wake: int)
    ensures wake <= now + POLL_SLICE && wake <= overall
    ensures nextStart.Some? ==> wake <= nextStart.value
    ensures forall a :: a in inFlight ==> wake <= a.deadline
    ensures wake == now + POLL_SLICE || wake == overall || nextStart == Some(wake)
      || exists a :: a in inFlight && a.deadline == wake
  {
    wake := now + POLL_SLICE;
    if nextStart.Some? {
      wake := Min(wake, nextStart.value);
    }
    for i := 0 to |inFlight|
      invariant wake <= now + POLL_SLICE && (nextStart.Some? ==> wake <= nextStart.value)
      invariant forall k :: 0 <= k < i ==> wake <= inFlight[k].deadline
      invariant wake == now + POLL_SLICE || nextStart == Some(wake)
        || exists a :: a in inFlight && a.deadline == wake
    {
      wake := Min(wake, inFlight[i].deadline);
    }
    wake := Min(wake, overall);
  }

  // ---- Asking the ready ones ----

  /** The descriptors among `ready`, in the order of the attempts. */
  function ReadyOf(attempts: seq<Attempt>, ready: set<nat>): seq<nat> {
    if attempts == [] then []
    else
      var last, others := attempts[|attempts| - 1].socket, ReadyOf(attempts[..|attempts| - 1], ready);
      if last in ready then others + [last] else others
  }

  /** The questions put to just these sockets, in order, all of which had failed. */
  ghost predicate AllRefused(questions: seq<Question>, sockets: seq<nat>) {
    |questions| == |sockets|
    && forall k :: 0 <= k < |questions| ==> questions[k].socket == sockets[k] && questions[k].answer != Status(0)
  }

  /** How far the ready sockets have been asked: of the first `i` attempts exactly the ready ones were asked,
      had failed, have their setbacks and are marked; the others are as they were. */
  ghost predicate Asked(inFlight: seq<Attempt>, after: seq<Attempt>, i: nat, ready: set<nat>, questions: seq<Question>, setbacks: seq<Setback>) {
    && i <= |inFlight| && SameButFailed(inFlight, after)
    && AllRefused(questions, ReadyOf(inFlight[..i], ready))
    && (forall k :: 0 <= k < |inFlight| ==> (after[k].failed <==> k < i && inFlight[k].socket in ready))
    && (forall k :: 0 <= k < i && after[k].failed ==> HasSetback(setbacks, inFlight[k].socket))
  }

  lemma AskedSkips(inFlight: seq<Attempt>, after: seq<Attempt>, i: nat, ready: set<nat>, questions: seq<Question>, setbacks: seq<Setback>)
    requires Asked(inFlight, after, i, ready, questions, setbacks) && i < |inFlight| && inFlight[i].socket !in ready
    ensures Asked(inFlight, after, i + 1, ready, questions, setbacks)
  {
    assert inFlight[..i + 1][..i] == inFlight[..i];
  }

  lemma AskedMarks(inFlight: seq<Attempt>, after: seq<Attempt>, i: nat, ready: set<nat>, questions: seq<Question>, setbacks: seq<Setback>,
    answer: SocketState, at: int)
    requires Asked(inFlight, after, i, ready, questions, setbacks) && i < |inFlight| && inFlight[i].socket in ready
    requires answer != Status(0)
    ensures Asked(inFlight, after[i := after[i].(failed := true)], i + 1, ready,
                  questions + [Question(inFlight[i].socket, answer)], setbacks + Reported(inFlight[i].socket, answer, at))
  {
    var d := inFlight[i].socket;
    var more := setbacks + Reported(d, answer, at);
    assert inFlight[..i + 1][..i] == inFlight[..i];
    assert more[|setbacks|].attempt == d;
    forall k | 0 <= k < i && after[k].failed
      ensures HasSetback(more, inFlight[k].socket)
    {
      SetbacksStay(setbacks, more, inFlight[k].socket);
    }
  }

  /** The winner is the first ready attempt that answered zero: those ready before it had failed. */
  ghost predicate FirstToAnswer(inFlight: seq<Attempt>, w: nat, ready: set<nat>, questions: seq<Question>) {
    && w < |inFlight| && inFlight[w].socket in ready
    && questions != [] && questions[|questions| - 1] == Question(inFlight[w].socket, Status(0))
    && AllRefused(questions[..|questions| - 1], ReadyOf(inFlight[..w], ready))
  }

  lemma ReportsAreNoMisses(setbacks: seq<Setback>, from: nat, socket: nat, answer: SocketState, at: int)
    requires MissesDue([], setbacks, from)
    ensures MissesDue([], setbacks + Reported(socket, answer, at), from)
  {
    var more := setbacks + Reported(socket, answer, at);
    forall k | from <= k < |more|
      ensures more[k].error.cat == Wsa || (more[k].error.cat == Timeout && DueMiss([], more[k]))
    {
      if k < |setbacks| { assert more[k] == setbacks[k]; }
    }
  }

  /** Asks every socket that polled ready how it fares: the first that is connected wins, and those that
      failed are remembered and marked. */
  method CheckReady(system: System, inFlight: seq<Attempt>, ready: set<nat>, best: Best)
    returns (after: seq<Attempt>, best': Best, winner: Option<nat>, ghost questions: seq<Question>)
    requires Own(inFlight, system.open) && best == BestOf(system.story.setbacks) && NoneFailed(inFlight)
    modifies system`calls, system`story, system`connected
    ensures system.story == old(system.story).(asked := old(system.story.asked) + questions, setbacks := system.story.setbacks)
    ensures old(system.story.setbacks) <= system.story.setbacks
    ensures MissesDue([], system.story.setbacks, |old(system.story.setbacks)|) && AllTold(questions, system.story.setbacks)
    ensures winner.Some? ==>
      && FirstToAnswer(inFlight, winner.value, ready, questions)
      && system.connected == old(system.connected) + {inFlight[winner.value].socket}
    ensures winner.None? ==>
      && Asked(inFlight, after, |inFlight|, ready, questions, system.story.setbacks)
      && best' == BestOf(system.story.setbacks) && system.connected == old(system.connected)
  {
    after, best', winner, questions := inFlight, best, None, [];
    ghost var story := system.story;
    assert story.asked + [] == story.asked;
    for i := 0 to |inFlight|
      invariant best' == BestOf(system.story.setbacks) && system.connected == old(system.connected)
      invariant story.setbacks <= system.story.setbacks && MissesDue([], system.story.setbacks, |story.setbacks|)
      invariant system.story == story.(asked := story.asked + questions, setbacks := system.story.setbacks)
      invariant Asked(inFlight, after, i, ready, questions, system.story.setbacks)
      invariant AllTold(questions, system.story.setbacks)
    {
      var won;
      after, best', won, questions := AskNext(system, inFlight, i, ready, after, best', story, questions);
      if won {
        winner := Some(i);
        return;
      }
    }
  }

  /** The next attempt's turn to be asked, if it polled ready. */
  method AskNext(system: System, inFlight: seq<Attempt>, i: nat, ready: set<nat>, marked: seq<Attempt>, best: Best,
    ghost story: Story, ghost asked: seq<Question>)
    returns (after: seq<Attempt>, best': Best, won: bool, ghost questions: seq<Question>)
    requires Own(inFlight, system.open) && best == BestOf(system.story.setbacks) && i < |inFlight|
    requires Asked(inFlight, marked, i, ready, asked, system.story.setbacks) && AllTold(asked, system.story.setbacks)
    requires story.setbacks <= system.story.setbacks && MissesDue([], system.story.setbacks, |story.setbacks|)
    requires system.story == story.(asked := story.asked + asked, setbacks := system.story.setbacks)
    modifies system`calls, system`story, system`connected
    ensures story.setbacks <= system.story.setbacks && MissesDue([], system.story.setbacks, |story.setbacks|)
    ensures system.story == story.(asked := story.asked + questions, setbacks := system.story.setbacks)
    ensures AllTold(questions, system.story.setbacks)
    ensures won ==>
      FirstToAnswer(inFlight, i, ready, questions) && system.connected == old(system.connected) + {inFlight[i].socket}
    ensures !won ==>
      && Asked(inFlight, after, i + 1, ready, questions, system.story.setbacks)
      && best' == BestOf(system.story.setbacks) && system.connected == old(system.connected)
  {
    after, best', won, questions := marked, best, false, asked;
    ghost var setbacks := system.story.setbacks;
    if inFlight[i].socket in ready {
      ghost var answer;
      won, best', answer := Ask(system, inFlight, i, best);
      questions := asked + [Question(inFlight[i].socket, answer)];
      assert story.asked + questions == (story.asked + asked) + [Question(inFlight[i].socket, answer)];
      AnswerIsTold(asked, setbacks, inFlight[i].socket, answer, system.latest);
      ReportsAreNoMisses(setbacks, |story.setbacks|, inFlight[i].socket, answer, system.latest);
      if won {
        assert questions[..|asked|] == asked;
      } else {
        AskedMarks(inFlight, marked, i, ready, asked, setbacks, answer, system.latest);
        after := marked[i := marked[i].(failed := true)];
      }
    } else {
      AskedSkips(inFlight, marked, i, ready, asked, setbacks);
    }
  }

  /** Asks one socket. SO_ERROR is what counts, not what the poll reported. */
  method Ask(system: System, inFlight: seq<Attempt>, i: nat, best: Best)
    returns (connected: bool, best': Best, ghost answer: SocketState)
    requires Own(inFlight, system.open) && i < |inFlight| && best == BestOf(system.story.setbacks)
    modifies system`calls, system`story, system`connected
    ensures system.story == old(system.story).(asked := old(system.story.asked) + [Question(inFlight[i].socket, answer)],
                                               setbacks := old(system.story.setbacks) + Reported(inFlight[i].socket, answer, system.latest))
    ensures connected <==> answer == Status(0)
    ensures system.connected == if connected then old(system.connected) + {inFlight[i].socket} else old(system.connected)
    ensures !connected ==> best' == BestOf(system.story.setbacks)
  {
    best' := best;
    OwnDrop(inFlight, i, system.open);
    ghost var before := system.story.setbacks;
    var d := inFlight[i].socket;
    var state := system.SocketError(d);
    answer := state;
    if state == Status(0) {
      return true, best', answer;
    }
    var code := state.code;
    if state.Unreadable? {
      ghost var unread := Setback(d, FromWsaCode(Sockopt, code), system.latest);
      BestOfOneMore(before, unread);
      assert system.story.setbacks == before + [unread] + [Setback(d, NOT_CONNECTED, system.latest)];
      before := before + [unread];
      best' := Remember(best', FromWsaCode(Sockopt, code));
      code := WSAENOTCONN;
    }
    BestOfOneMore(before, Setback(d, FromWsaCode(NetOp.Connect, code), system.latest));
    best' := Remember(best', FromWsaCode(NetOp.Connect, code));
    return false, best', answer;
  }

  // ---- Giving up those out of time ----

  /** The attempts that have neither failed nor run out of time. */
  function Surviving(attempts: seq<Attempt>, now: int): seq<Attempt> {
    if attempts == [] then []
    else
      var last, others := attempts[|attempts| - 1], Surviving(attempts[..|attempts| - 1], now);
      if last.failed || last.deadline <= now then others else others + [last]
  }

  lemma {:induction false} SurvivorsAre(attempts: seq<Attempt>, now: int)
    ensures |Surviving(attempts, now)| <= |attempts|
    ensures forall a :: a in Surviving(attempts, now) <==> a in attempts && !a.failed && now < a.deadline
  {
    if attempts != [] {
      SurvivorsAre(attempts[..|attempts| - 1], now);
      assert attempts == attempts[..|attempts| - 1] + [attempts[|attempts| - 1]];
    }
  }

  /** The attempts that were not found ready and have not run out of time, in order. */
  function Kept(attempts: seq<Attempt>, ready: set<nat>, now: int): seq<Attempt> {
    if attempts == [] then []
    else
      var last, others := attempts[|attempts| - 1], Kept(attempts[..|attempts| - 1], ready, now);
      if last.socket in ready || last.deadline <= now then others else others + [last]
  }

  /** With just the ready ones marked, those are the survivors. */
  lemma {:induction false} SurvivorsAreKept(inFlight: seq<Attempt>, marked: seq<Attempt>, ready: set<nat>, now: int)
    requires NoneFailed(inFlight) && SameButFailed(inFlight, marked)
    requires forall k :: 0 <= k < |inFlight| ==> (marked[k].failed <==> inFlight[k].socket in ready)
    ensures Surviving(marked, now) == Kept(inFlight, ready, now)
    decreases |inFlight|
  {
    if inFlight != [] {
      var n := |inFlight| - 1;
      SurvivorsAreKept(inFlight[..n], marked[..n], ready, now);
      assert !marked[n].failed ==> marked[n] == inFlight[n];
    }
  }

  lemma {:induction false} KeptAre(attempts: seq<Attempt>, ready: set<nat>, now: int)
    ensures |Kept(attempts, ready, now)| <= |attempts|
    ensures forall a :: a in Kept(attempts, ready, now) <==> a in attempts && a.socket !in ready && now < a.deadline
  {
    if attempts != [] {
      KeptAre(attempts[..|attempts| - 1], ready, now);
      assert attempts == attempts[..|attempts| - 1] + [attempts[|attempts| - 1]];
    }
  }

  /** The ordinals go up, so no two attempts share one. */
  ghost predicate Rising(attempts: seq<Attempt>) {
    forall i, j :: 0 <= i < j < |attempts| ==> attempts[i].socket < attempts[j].socket
  }

  lemma {:induction false} KeptRise(attempts: seq<Attempt>, ready: set<nat>, now: int)
    requires Rising(attempts)
    ensures Rising(Kept(attempts, ready, now))
  {
    if attempts != [] {
      var n := |attempts| - 1;
      KeptRise(attempts[..n], ready, now);
      KeptAre(attempts[..n], ready, now);
      var others := Kept(attempts[..n], ready, now);
      forall i | 0 <= i < |others|
        ensures others[i].socket < attempts[n].socket
      {
        assert others[i] in attempts[..n];
      }
    }
  }

  /** How far a sweep has come: `kept` of the first `i`, those out of time with their setbacks, the rest not
      looked at. */
  ghost predicate Swept(kept: seq<Attempt>, inFlight: seq<Attempt>, i: nat, now: int, open: set<nat>, setbacks: seq<Setback>) {
    && i <= |inFlight| && Own(kept + inFlight[i..], open)
    && kept == Surviving(inFlight[..i], now)
    && (forall k :: 0 <= k < i && !inFlight[k].failed && inFlight[k].deadline <= now ==> HasSetback(setbacks, inFlight[k].socket))
  }

  lemma SweepBegins(inFlight: seq<Attempt>, now: int, open: set<nat>, setbacks: seq<Setback>)
    requires Own(inFlight, open)
    ensures Swept([], inFlight, 0, now, open, setbacks)
  {
    assert [] + inFlight[0..] == inFlight;
  }

  lemma SweepEnds(kept: seq<Attempt>, inFlight: seq<Attempt>, now: int, open: set<nat>, setbacks: seq<Setback>)
    requires Swept(kept, inFlight, |inFlight|, now, open, setbacks)
    ensures Own(kept, open) && kept == Surviving(inFlight, now)
  {
    assert inFlight[..|inFlight|] == inFlight && kept + inFlight[|inFlight|..] == kept;
  }

  lemma SweepDrops(kept: seq<Attempt>, inFlight: seq<Attempt>, i: nat, now: int, open: set<nat>, setbacks: seq<Setback>, more: seq<Setback>)
    requires Swept(kept, inFlight, i, now, open, setbacks) && i < |inFlight| && setbacks <= more
    requires inFlight[i].failed || (inFlight[i].deadline <= now && HasSetback(more, inFlight[i].socket))
    ensures inFlight[i].socket in open
    ensures Swept(kept, inFlight, i + 1, now, open - {inFlight[i].socket}, more)
  {
    assert inFlight[..i + 1][..i] == inFlight[..i];
    Dropped(kept, inFlight, i, open);
    forall k | 0 <= k < i && !inFlight[k].failed && inFlight[k].deadline <= now
      ensures HasSetback(more, inFlight[k].socket)
    {
      SetbacksStay(setbacks, more, inFlight[k].socket);
    }
  }

  lemma SweepKeeps(kept: seq<Attempt>, inFlight: seq<Attempt>, i: nat, now: int, open: set<nat>, setbacks: seq<Setback>)
    requires Swept(kept, inFlight, i, now, open, setbacks) && i < |inFlight|
    requires !inFlight[i].failed && now < inFlight[i].deadline
    ensures Swept(kept + [inFlight[i]], inFlight, i + 1, now, open, setbacks)
  {
    assert inFlight[..i + 1][..i] == inFlight[..i];
    assert kept + inFlight[i..] == kept + [inFlight[i]] + inFlight[i + 1..];
  }

  lemma Dropped(kept: seq<Attempt>, inFlight: seq<Attempt>, i: nat, open: set<nat>)
    requires i < |inFlight| && Own(kept + inFlight[i..], open)
    ensures inFlight[i].socket in open
    ensures Own(kept + inFlight[i + 1..], open - {inFlight[i].socket})
  {
    var all := kept + inFlight[i..];
    assert all[|kept|] == inFlight[i];
    assert all[..|kept|] + all[|kept| + 1..] == kept + inFlight[i + 1..];
    OwnDrop(all, |kept|, open);
  }

  /** Every attempt out of time has its setback. */
  ghost predicate Expired(inFlight: seq<Attempt>, now: int, setbacks: seq<Setback>) {
    forall k :: 0 <= k < |inFlight| && !inFlight[k].failed && inFlight[k].deadline <= now ==> HasSetback(setbacks, inFlight[k].socket)
  }

  /** Drops the attempts that failed or ran out of time, closing their sockets. */
  method Sweep(system: System, inFlight: seq<Attempt>, now: int, best: Best) returns (kept: seq<Attempt>, best': Best)
    requires system.Valid() && Own(inFlight, system.open) && best == BestOf(system.story.setbacks) && now == system.latest
    modifies system`open, system`story
    ensures system.Valid() && Own(kept, system.open) && best' == BestOf(system.story.setbacks)
    ensures system.story == old(system.story).(setbacks := system.story.setbacks) && old(system.story.setbacks) <= system.story.setbacks
    ensures kept == Surviving(inFlight, now) && Expired(inFlight, now, system.story.setbacks)
    ensures MissesDue(inFlight, system.story.setbacks, |old(system.story.setbacks)|)
  {
    kept, best' := [], best;
    ghost var story := system.story;
    SweepBegins(inFlight, now, system.open, system.story.setbacks);
    for i := 0 to |inFlight|
      invariant system.Valid() && best' == BestOf(system.story.setbacks)
      invariant system.story == story.(setbacks := system.story.setbacks) && story.setbacks <= system.story.setbacks
      invariant MissesDue(inFlight, system.story.setbacks, |story.setbacks|)
      invariant Swept(kept, inFlight, i, now, system.open, system.story.setbacks)
    {
      kept, best' := SweepOne(system, inFlight, i, now, kept, best', |story.setbacks|);
    }
    SweepEnds(kept, inFlight, now, system.open, system.story.setbacks);
  }

  lemma OneMoreMiss(inFlight: seq<Attempt>, i: nat, setbacks: seq<Setback>, from: nat, missed: Setback)
    requires MissesDue(inFlight, setbacks, from)
    requires i < |inFlight| && inFlight[i].socket == missed.attempt && inFlight[i].deadline <= missed.at
    requires missed.error.cat == Timeout
    ensures MissesDue(inFlight, setbacks + [missed], from)
  {
    var more := setbacks + [missed];
    forall k | from <= k < |more|
      ensures more[k].error.cat == Wsa || (more[k].error.cat == Timeout && DueMiss(inFlight, more[k]))
    {
      assert k < |setbacks| ==> more[k] == setbacks[k];
    }
  }

  method SweepOne(system: System, inFlight: seq<Attempt>, i: nat, now: int, kept: seq<Attempt>, best: Best, ghost from: nat)
    returns (kept': seq<Attempt>, best': Best)
    requires system.Valid() && best == BestOf(system.story.setbacks) && now == system.latest
    requires i < |inFlight| && Swept(kept, inFlight, i, now, system.open, system.story.setbacks)
    requires MissesDue(inFlight, system.story.setbacks, from)
    modifies system`open, system`story
    ensures system.Valid() && best' == BestOf(system.story.setbacks)
    ensures system.story == old(system.story).(setbacks := system.story.setbacks) && old(system.story.setbacks) <= system.story.setbacks
    ensures MissesDue(inFlight, system.story.setbacks, from)
    ensures Swept(kept', inFlight, i + 1, now, system.open, system.story.setbacks)
  {
    kept', best' := kept, best;
    ghost var setbacks := system.story.setbacks;
    if inFlight[i].failed {
      SweepDrops(kept, inFlight, i, now, system.open, setbacks, setbacks);
      system.Close(inFlight[i].socket);
    } else if inFlight[i].deadline <= now {
      best' := GiveUp(system, inFlight, i, now, kept, best, from);
    } else {
      SweepKeeps(kept, inFlight, i, now, system.open, setbacks);
      kept' := kept + [inFlight[i]];
    }
  }

  /** An attempt out of time is given up. */
  method GiveUp(system: System, inFlight: seq<Attempt>, i: nat, now: int, ghost kept: seq<Attempt>, best: Best, ghost from: nat)
    returns (best': Best)
    requires system.Valid() && best == BestOf(system.story.setbacks) && now == system.latest
    requires i < |inFlight| && Swept(kept, inFlight, i, now, system.open, system.story.setbacks)
    requires !inFlight[i].failed && inFlight[i].deadline <= now && MissesDue(inFlight, system.story.setbacks, from)
    modifies system`open, system`story
    ensures system.Valid() && best' == BestOf(system.story.setbacks)
    ensures system.story == old(system.story).(setbacks := system.story.setbacks) && old(system.story.setbacks) <= system.story.setbacks
    ensures MissesDue(inFlight, system.story.setbacks, from)
    ensures Swept(kept, inFlight, i + 1, now, system.open, system.story.setbacks)
  {
    ghost var setbacks := system.story.setbacks;
    ghost var missed := Setback(inFlight[i].socket, TIMED_OUT, now);
    SetbackAdded(setbacks, missed);
    OneMoreMiss(inFlight, i, setbacks, from, missed);
    SweepDrops(kept, inFlight, i, now, system.open, setbacks, setbacks + [missed]);
    BestOfOneMore(setbacks, missed);
    best' := Remember(best, TIMED_OUT);
    system.Miss(inFlight[i].socket);
    system.Close(inFlight[i].socket);
  }
}
