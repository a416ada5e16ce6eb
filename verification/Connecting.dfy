/** Connecting to one of several resolved addresses by overlapping attempts (sections 4 and 5 of RFC 8305),
    against an operating system whose answers and clock are arbitrary. */
module Connecting {
  import opened Tokens
  import opened Streams
  import opened Interleaving
  import opened Winsock
  import opened Attempts
  import opened Schedule

  /** How often the clock is read for what was done: once for a start or a wait on nothing, and twice for a
      wait on sockets. */
  function Acts(story: Story): nat {
    |story.starts| + 2 * |story.waits| + story.naps
  }

  /** The last thing done was done at the last look at the clock, or is a wait that has just ended. */
  ghost predicate JustActed(story: Story, readings: nat) {
    || (story.starts != [] && story.starts[|story.starts| - 1].reading == readings)
    || (story.waits != [] && story.waits[|story.waits| - 1].reading + 1 == readings
        && story.waits[|story.waits| - 1].started == |story.starts|)
    || story.naps > 0
  }

  // ---- Who was heard ----

  ghost predicate Refused(asked: seq<Question>, d: nat) {
    exists j :: 0 <= j < |asked| && asked[j].socket == d && asked[j].answer != Status(0)
  }

  /** Every socket found ready was asked, and had failed. */
  ghost predicate Heard(w: Wait, asked: seq<Question>) {
    forall d :: d in w.ready ==> Refused(asked, d)
  }

  ghost predicate AllHeard(waits: seq<Wait>, asked: seq<Question>) {
    forall k :: 0 <= k < |waits| ==> Heard(waits[k], asked)
  }

  /** Of the sockets found ready, `d` was the first that had not failed; it said so last of all. */
  ghost predicate FirstReady(w: Wait, asked: seq<Question>, d: nat) {
    && asked != [] && asked[|asked| - 1] == Question(d, Status(0)) && d in w.ready
    && exists i :: 0 <= i < |w.sockets| && w.sockets[i] == d
         && forall j :: 0 <= j < i && w.sockets[j] in w.ready ==> Refused(asked, w.sockets[j])
  }

  /** `d` connected, by connecting at once or as the first of those found ready by the last wait; everyone
      found ready by an earlier wait had failed. */
  ghost predicate FirstToConnect(d: nat, story: Story) {
    || (d in story.dialled && story.dialled[d].code == 0 && AllHeard(story.waits, story.asked))
    || (story.waits != [] && FirstReady(story.waits[|story.waits| - 1], story.asked, d)
        && AllHeard(story.waits[..|story.waits| - 1], story.asked))
  }

  lemma StillRefused(asked: seq<Question>, more: seq<Question>, d: nat)
    requires Refused(asked, d) && asked <= more
    ensures Refused(more, d)
  {
    var j :| 0 <= j < |asked| && asked[j].socket == d && asked[j].answer != Status(0);
    assert more[j] == asked[j];
  }

  lemma StillHeard(waits: seq<Wait>, asked: seq<Question>, more: seq<Question>)
    requires AllHeard(waits, asked) && asked <= more
    ensures AllHeard(waits, more)
  {
    forall k, d | 0 <= k < |waits| && d in waits[k].ready
      ensures Refused(more, d)
    {
      assert Heard(waits[k], asked);
      StillRefused(asked, more, d);
    }
  }

  /** Asking all of a list of sockets, with none connected, is to have heard each. */
  lemma RefusedAll(asked: seq<Question>, questions: seq<Question>, sockets: seq<nat>, d: nat)
    requires AllRefused(questions, sockets) && d in sockets
    ensures Refused(asked + questions, d)
  {
    var k :| 0 <= k < |sockets| && sockets[k] == d;
    assert (asked + questions)[|asked| + k] == questions[k];
  }

  lemma {:induction false} ReadyAreListed(attempts: seq<Attempt>, ready: set<nat>, i: nat)
    requires i < |attempts| && attempts[i].socket in ready
    ensures attempts[i].socket in ReadyOf(attempts, ready)
  {
    if i < |attempts| - 1 {
      ReadyAreListed(attempts[..|attempts| - 1], ready, i);
    }
  }

  /** After a wait whose ready sockets had all failed, all have been heard. */
  lemma HeardAll(inFlight: seq<Attempt>, waits: seq<Wait>, w: Wait, asked: seq<Question>, questions: seq<Question>)
    requires AllHeard(waits, asked) && w.sockets == SocketsOf(inFlight) && forall d :: d in w.ready ==> d in w.sockets
    requires AllRefused(questions, ReadyOf(inFlight, w.ready))
    ensures AllHeard(waits + [w], asked + questions)
  {
    StillHeard(waits, asked, asked + questions);
    forall d | d in w.ready
      ensures Refused(asked + questions, d)
    {
      var i :| 0 <= i < |w.sockets| && w.sockets[i] == d;
      ReadyAreListed(inFlight, w.ready, i);
      RefusedAll(asked, questions, ReadyOf(inFlight, w.ready), d);
    }
    assert Heard(w, asked + questions);
  }

  lemma FoundFirst(inFlight: seq<Attempt>, i: nat, waits: seq<Wait>, w: Wait, asked: seq<Question>, questions: seq<Question>)
    requires AllHeard(waits, asked) && w.sockets == SocketsOf(inFlight)
    requires FirstToAnswer(inFlight, i, w.ready, questions)
    ensures FirstReady(w, asked + questions, inFlight[i].socket) && AllHeard(waits, asked + questions)
  {
    var more, front := asked + questions, questions[..|questions| - 1];
    StillHeard(waits, asked, more);
    forall j | 0 <= j < i && w.sockets[j] in w.ready
      ensures Refused(more, w.sockets[j])
    {
      assert inFlight[..i][j] == inFlight[j];
      ReadyAreListed(inFlight[..i], w.ready, j);
      RefusedAll(asked, front, ReadyOf(inFlight[..i], w.ready), w.sockets[j]);
      StillRefused(asked + front, more, w.sockets[j]);
    }
    assert w.sockets[i] == inFlight[i].socket;
  }

  // ---- How long to wait ----

  /** A deadline of one of the attempts is at most `t`. */
  ghost predicate DeadlineBy(inFlight: seq<Attempt>, t: int) {
    exists a :: a in inFlight && a.deadline <= t
  }

  ghost predicate DeadlineAt(inFlight: seq<Attempt>, t: int) {
    exists a :: a in inFlight && a.deadline == t
  }

  /** With time left, the wait is empty if and only if a next start is due or a deadline has passed, however
      many attempts are pending; otherwise it ends just when one of these is due, all time is over, or the
      slice. */
  ghost predicate Timed(milliseconds: int, now: int, inFlight: seq<Attempt>, nextStart: Option<int>, overall: int) {
    var end := now + milliseconds;
    && 0 <= milliseconds <= 200
    && (now < overall ==> (milliseconds == 0 <==> (nextStart.Some? && nextStart.value <= now) || DeadlineBy(inFlight, now)))
    && (milliseconds > 0 ==> end <= overall && (nextStart.Some? ==> end <= nextStart.value) && forall a :: a in inFlight ==> end <= a.deadline)
    && (0 < milliseconds < 200 ==> end == overall || nextStart == Some(end) || DeadlineAt(inFlight, end))
  }

  /** So with one address of two begun at 0 and silent, room for one attempt at a time and a delay of 250, every
      wait from 250 until that attempt's deadline at 5000 is empty: the next start is due, and cannot be made. */
  lemma BusyPolling(now: int, silent: Attempt, milliseconds: int)
    requires 250 <= now < 5000 && silent.deadline == 5000 && Timed(milliseconds, now, [silent], Some(250), 20000)
    ensures milliseconds == 0
  {
  }

  method WaitingTime(now: int, inFlight: seq<Attempt>, nextStart: Option<int>, overall: int) returns (milliseconds: int)
    ensures Timed(milliseconds, now, inFlight, nextStart, overall)
  {
    var wake := NextWake(now, inFlight, nextStart, overall);
    milliseconds := Clamp(wake - now, 0, POLL_SLICE);
  }

  // ---- Polling ----

  /** What polling the pending attempts led to. */
  datatype Round =
    | Winner(index: nat, attempt: Attempt, losers: seq<Attempt>)
    | CannotPoll
    | Remaining(inFlight: seq<Attempt>)

  /** One more wait on these attempts, for the time it should take. */
  ghost predicate OneWait(w: Wait, inFlight: seq<Attempt>, now: int, reading: nat, nextStart: Option<int>, started: nat, overall: int) {
    && w == Wait(now, reading, w.milliseconds, started, SocketsOf(inFlight), w.ready, w.broke)
    && (forall d :: d in w.ready ==> d in w.sockets)
    && Timed(w.milliseconds, now, inFlight, nextStart, overall)
  }

  /** The attempts left by a wait are those not found ready and not out of time; each of the others has a
      setback, those found ready were asked and had failed, and timeouts are of those out of time. */
  ghost predicate Left(left: seq<Attempt>, inFlight: seq<Attempt>, ready: set<nat>, questions: seq<Question>,
    setbacks: seq<Setback>, from: nat, now: int) {
    && AllRefused(questions, ReadyOf(inFlight, ready))
    && left == Kept(inFlight, ready, now)
    && (forall a :: a in inFlight && a !in left ==> HasSetback(setbacks, a.socket))
    && MissesDue(inFlight, setbacks, from)
  }

  /** What came of a wait. The first attempt found ready to answer zero wins, all ready before it having been
      asked and failed; or the poll broke; or the attempts left are those the wait did not retire. */
  ghost predicate RoundHolds(round: Round, inFlight: seq<Attempt>, best: Best, w: Wait, questions: seq<Question>, story: Story, story': Story,
    open: set<nat>, connected: set<nat>, connected': set<nat>, now: int) {
    && story' == story.(waits := story.waits + [w], asked := story.asked + questions, setbacks := story'.setbacks)
    && story.setbacks <= story'.setbacks && MissesDue(inFlight, story'.setbacks, |story.setbacks|)
    && w.broke == round.CannotPoll? && AllTold(questions, story'.setbacks)
    && match round
       case Winner(i, attempt, losers) =>
         && FirstToAnswer(inFlight, i, w.ready, questions) && attempt == inFlight[i]
         && attempt.socket in open && Own(losers, open - {attempt.socket}) && connected' == connected + {attempt.socket}
       case CannotPoll =>
         && Own(inFlight, open) && w.ready == {} && questions == [] && connected' == connected && best == BestOf(story'.setbacks)
       case Remaining(left) =>
         && Own(left, open) && connected' == connected && best == BestOf(story'.setbacks)
         && Left(left, inFlight, w.ready, questions, story'.setbacks, |story.setbacks|, now)
  }

  /** Polls the pending attempts together, once, and says what came of it. */
  method PollPending(system: System, inFlight: seq<Attempt>, now: int, nextStart: Option<int>, overall: int, best: Best)
    returns (r: Round, best': Best, ghost w: Wait, ghost questions: seq<Question>)
    requires system.Valid() && Own(inFlight, system.open) && best == BestOf(system.story.setbacks) && NoneFailed(inFlight)
    requires now == system.latest && system.looked
    modifies system`calls, system`readings, system`latest, system`open, system`story, system`connected, system`looked
    ensures system.Valid() && OneWait(w, inFlight, now, old(system.readings), nextStart, |old(system.story.starts)|, overall)
    ensures RoundHolds(r, inFlight, best', w, questions, old(system.story), system.story, system.open, old(system.connected),
                       system.connected, system.latest)
    ensures if r.CannotPoll? then system.readings == old(system.readings)
            else system.readings == old(system.readings) + 1 && system.latest == system.oracle.clock(w.reading)
  {
    best', questions := best, [];
    var milliseconds := WaitingTime(now, inFlight, nextStart, overall);
    var polled;
    polled, w := WaitOnAll(system, inFlight, milliseconds);
    assert old(system.story.asked) + [] == old(system.story.asked);
    if polled.PollBroke? {
      BestOfOneMore(old(system.story.setbacks), Setback(0, FromWsaCode(NetOp.Poll, polled.code), now));
      best' := Remember(best, FromWsaCode(NetOp.Poll, polled.code));
      r := CannotPoll;
    } else {
      r, best', questions := Examine(system, inFlight, polled.ready, best);
    }
  }

  /** The poll itself, on every attempt. */
  method WaitOnAll(system: System, inFlight: seq<Attempt>, milliseconds: int) returns (polled: PollAnswer, ghost w: Wait)
    requires Own(inFlight, system.open) && system.looked && 0 <= milliseconds <= POLL_SLICE
    modifies system`calls, system`story, system`looked
    ensures w == Wait(system.latest, system.readings, milliseconds, |old(system.story.starts)|, SocketsOf(inFlight),
                      if polled.Polled? then polled.ready else {}, polled.PollBroke?)
    ensures forall d :: d in w.ready ==> d in w.sockets
    ensures var waited := old(system.story).(waits := old(system.story.waits) + [w]);
      system.story == if polled.Polled? then waited
                      else waited.(setbacks := waited.setbacks + [Setback(0, FromWsaCode(NetOp.Poll, polled.code), system.latest)])
  {
    ghost var before := system.story;
    OwnHolds(inFlight, system.open);
    polled := system.Poll(SocketsOf(inFlight), milliseconds);
    w := system.story.waits[|before.waits|];
  }

  /** What to make of the sockets that polled ready, and of the time that has passed. */
  method Examine(system: System, inFlight: seq<Attempt>, ready: set<nat>, best: Best)
    returns (r: Round, best': Best, ghost questions: seq<Question>)
    requires system.Valid() && Own(inFlight, system.open) && best == BestOf(system.story.setbacks) && NoneFailed(inFlight)
    modifies system`calls, system`readings, system`latest, system`open, system`story, system`connected
    ensures system.Valid() && system.readings == old(system.readings) + 1 && !r.CannotPoll?
    ensures system.latest == system.oracle.clock(old(system.readings))
    ensures system.story == old(system.story).(asked := old(system.story.asked) + questions, setbacks := system.story.setbacks)
    ensures old(system.story.setbacks) <= system.story.setbacks
    ensures MissesDue(inFlight, system.story.setbacks, |old(system.story.setbacks)|) && AllTold(questions, system.story.setbacks)
    ensures r.Remaining? ==> best' == BestOf(system.story.setbacks) && system.connected == old(system.connected)
    ensures r.Winner? ==>
      && FirstToAnswer(inFlight, r.index, ready, questions) && r.attempt == inFlight[r.index]
      && r.attempt.socket in system.open && Own(r.losers, system.open - {r.attempt.socket})
      && system.connected == old(system.connected) + {r.attempt.socket}
    ensures r.Remaining? ==>
      && Own(r.inFlight, system.open)
      && Left(r.inFlight, inFlight, ready, questions, system.story.setbacks, |old(system.story.setbacks)|, system.latest)
  {
    var later := system.Now();
    var checked, winner;
    checked, best', winner, questions := CheckReady(system, inFlight, ready, best);
    MissesOfMore(inFlight, system.story.setbacks, |old(system.story.setbacks)|);
    if winner.Some? {
      var i := winner.value;
      OwnDrop(inFlight, i, system.open);
      r := Winner(i, inFlight[i], inFlight[..i] + inFlight[i + 1..]);
    } else {
      r, best' := Retire(system, inFlight, checked, ready, later, best', questions, |old(system.story.setbacks)|);
    }
  }

  lemma MissesOfMore(inFlight: seq<Attempt>, setbacks: seq<Setback>, from: nat)
    requires MissesDue([], setbacks, from)
    ensures MissesDue(inFlight, setbacks, from)
  {
  }

  /** Drops the attempts that failed and those out of time. */
  method Retire(system: System, inFlight: seq<Attempt>, checked: seq<Attempt>, ready: set<nat>, later: int, best: Best,
    ghost questions: seq<Question>, ghost from: nat)
    returns (r: Round, best': Best)
    requires system.Valid() && Own(inFlight, system.open) && best == BestOf(system.story.setbacks) && NoneFailed(inFlight)
    requires later == system.latest && from <= |system.story.setbacks| && MissesDue(inFlight, system.story.setbacks, from)
    requires Asked(inFlight, checked, |inFlight|, ready, questions, system.story.setbacks) && AllTold(questions, system.story.setbacks)
    modifies system`open, system`story
    ensures AllTold(questions, system.story.setbacks)
    ensures system.Valid() && r.Remaining? && Own(r.inFlight, system.open) && best' == BestOf(system.story.setbacks)
    ensures system.story == old(system.story).(setbacks := system.story.setbacks)
    ensures old(system.story.setbacks) <= system.story.setbacks
    ensures Left(r.inFlight, inFlight, ready, questions, system.story.setbacks, from, later)
  {
    OwnMarked(inFlight, checked, system.open);
    ghost var setbacks := system.story.setbacks;
    var kept;
    kept, best' := Sweep(system, checked, later, best);
    StillTold(questions, map[], setbacks, system.story.setbacks);
    KeptAreLeft(inFlight, checked, kept, ready, questions, setbacks, system.story.setbacks, from, later);
    r := Remaining(kept);
  }

  lemma KeptAreLeft(inFlight: seq<Attempt>, checked: seq<Attempt>, kept: seq<Attempt>, ready: set<nat>, questions: seq<Question>,
    setbacks: seq<Setback>, more: seq<Setback>, from: nat, now: int)
    requires NoneFailed(inFlight) && Asked(inFlight, checked, |inFlight|, ready, questions, setbacks) && setbacks <= more
    requires kept == Surviving(checked, now) && Expired(checked, now, more)
    requires MissesDue(inFlight, setbacks, from) && MissesDue(checked, more, |setbacks|)
    ensures Left(kept, inFlight, ready, questions, more, from, now)
  {
    assert inFlight[..|inFlight|] == inFlight;
    SurvivorsAreKept(inFlight, checked, ready, now);
    KeptAre(inFlight, ready, now);
    forall i | 0 <= i < |inFlight| && inFlight[i] !in kept
      ensures HasSetback(more, inFlight[i].socket)
    {
      AttemptDropped(inFlight, checked, i, ready, questions, setbacks, more, now);
    }
    forall k | from <= k < |more|
      ensures more[k].error.cat == Wsa || (more[k].error.cat == Timeout && DueMiss(inFlight, more[k]))
    {
      MissIsDue(inFlight, checked, setbacks, more, from, k);
    }
  }

  lemma MissIsDue(inFlight: seq<Attempt>, checked: seq<Attempt>, setbacks: seq<Setback>, more: seq<Setback>, from: nat, k: nat)
    requires SameButFailed(inFlight, checked) && setbacks <= more && from <= k < |more|
    requires MissesDue(inFlight, setbacks, from) && MissesDue(checked, more, |setbacks|)
    ensures more[k].error.cat == Wsa || (more[k].error.cat == Timeout && DueMiss(inFlight, more[k]))
  {
    if k < |setbacks| {
      assert more[k] == setbacks[k];
    } else if more[k].error.cat != Wsa {
      var i :| 0 <= i < |checked| && checked[i].socket == more[k].attempt && checked[i].deadline <= more[k].at;
      assert inFlight[i].socket == checked[i].socket && inFlight[i].deadline == checked[i].deadline;
    }
  }

  lemma AttemptDropped(inFlight: seq<Attempt>, checked: seq<Attempt>, i: nat, ready: set<nat>, questions: seq<Question>,
    setbacks: seq<Setback>, more: seq<Setback>, now: int)
    requires NoneFailed(inFlight) && Asked(inFlight, checked, |inFlight|, ready, questions, setbacks) && setbacks <= more
    requires Expired(checked, now, more) && i < |inFlight| && (inFlight[i].socket in ready || inFlight[i].deadline <= now)
    ensures HasSetback(more, inFlight[i].socket)
  {
    if checked[i].failed {
      SetbacksStay(setbacks, more, inFlight[i].socket);
    } else {
      assert checked[i] == inFlight[i];
    }
  }

  // ---- The race ----

  datatype Resolved = Addresses(addresses: seq<Address>) | Unresolved(error: NetError)

  /** Why a connect ended. */
  datatype Ending = NoAddresses | CancelSeen | Won | OutOfTime | PollFailed | Exhausted

  /** The race was lost, and the best error is reported. */
  predicate Lost(why: Ending) {
    why == OutOfTime || why == PollFailed || why == Exhausted
  }

  /** The attempt is the one started under its ordinal, to be given up when its time, or all time, is over. */
  predicate Matches(attempt: Attempt, starts: seq<Start>, plan: Plan) {
    && 0 < attempt.ordinal <= |starts| && attempt.socket == attempt.ordinal
    && attempt.address == starts[attempt.ordinal - 1].address
    && attempt.deadline == DeadlineOf(starts[attempt.ordinal - 1], plan)
  }

  ghost predicate AllMatch(attempts: seq<Attempt>, starts: seq<Start>, plan: Plan) {
    forall i :: 0 <= i < |attempts| ==> !attempts[i].failed && Matches(attempts[i], starts, plan)
  }

  ghost predicate Runs(inFlight: seq<Attempt>, n: nat) {
    exists i :: 0 <= i < |inFlight| && inFlight[i].socket == n
  }

  /** Of every attempt begun, it is pending or something befell it. */
  ghost predicate Accounted(n: nat, inFlight: seq<Attempt>, setbacks: seq<Setback>) {
    forall k :: 1 <= k <= n ==> Runs(inFlight, k) || HasSetback(setbacks, k)
  }

  /** The attempts held are just those pending. */
  ghost predicate Current(inFlight: seq<Attempt>, story: Story, plan: Plan, clock: nat -> int) {
    forall n :: Runs(inFlight, n) <==> Pending(n, |story.starts|, story, story.waits, plan, clock)
  }

  /** None connected at once. */
  ghost predicate NoneAtOnce(dialled: map<nat, Dial>) {
    forall n :: n in dialled ==> dialled[n].code != 0
  }

  /** Whatever the system answered to a question or a call of connect, if it was a failure, is remembered. */
  ghost predicate Told(story: Story) {
    AllTold(story.asked, story.setbacks) && DialsTold(story.dialled, story.setbacks)
  }

  ghost predicate Unbroken(waits: seq<Wait>) {
    forall k :: 0 <= k < |waits| ==> !waits[k].broke
  }

  /** The last wait broke, and no other. */
  ghost predicate BrokeLast(waits: seq<Wait>) {
    waits != [] && waits[|waits| - 1].broke && Unbroken(waits[..|waits| - 1])
  }

  /** A connect that has not ended: the attempts pending, how many candidates were begun, when the next
      one is due, and the error to report so far. */
  datatype Race = Race(inFlight: seq<Attempt>, next: nat, nextStart: int, best: Best)

  /** Where it stands, against what the system was asked and answered. */
  ghost predicate Racing(race: Race, story: Story, plan: Plan, clock: nat -> int) {
    && Scheduled(story, plan, clock)
    && InPlace(race, story, plan)
    && Accounted(race.next, race.inFlight, story.setbacks)
    && Current(race.inFlight, story, plan, clock)
    && AllHeard(story.waits, story.asked) && NoneAtOnce(story.dialled) && Told(story)
  }

  ghost predicate InPlace(race: Race, story: Story, plan: Plan) {
    && race.best == BestOf(story.setbacks) && race.next == |story.starts|
    && |race.inFlight| <= plan.options.maxInFlight && AllMatch(race.inFlight, story.starts, plan) && Rising(race.inFlight)
    && (story.starts == [] ==> race.inFlight == [])
    && (story.starts != [] ==> race.nextStart == story.starts[race.next - 1].at + plan.options.attemptDelay)
  }

  /** The next candidate may be begun: there is one, the cap allows it, and its head start is over or nothing
      is pending. */
  predicate IsDue(race: Race, plan: Plan, now: int) {
    && race.next < |plan.candidates| && |race.inFlight| < plan.options.maxInFlight
    && (race.inFlight == [] || now >= race.nextStart)
  }

  /** What a turn of the connect loop led to. */
  datatype Turn = GoesOn(race: Race) | Wins(attempt: Attempt, losers: seq<Attempt>) | GivesUp(race: Race, why: Ending)

  /** A winner was started, and was the first to connect; every other open descriptor is a loser's. */
  ghost predicate FairWin(attempt: Attempt, losers: seq<Attempt>, open: set<nat>, connected: set<nat>, story: Story, plan: Plan,
    clock: nat -> int) {
    && Scheduled(story, plan, clock) && Unbroken(story.waits)
    && attempt.socket in open && Own(losers, open - {attempt.socket})
    && connected == {attempt.socket} && FirstToConnect(attempt.socket, story)
    && Matches(attempt, story.starts, plan)
  }

  /** The turn is accounted for: until there is a winner nothing is connected and every open descriptor is
      pending; and giving up has a reason. */
  ghost predicate Fair(r: Turn, open: set<nat>, connected: set<nat>, story: Story, latest: int, plan: Plan, clock: nat -> int) {
    if r.Wins? then FairWin(r.attempt, r.losers, open, connected, story, plan, clock)
    else
      && connected == {} && Own(r.race.inFlight, open) && Racing(r.race, story, plan, clock)
      && (if r.GivesUp? && r.why == PollFailed then BrokeLast(story.waits) else Unbroken(story.waits))
      && (r.GivesUp? ==> Lost(r.why))
      && (r.GivesUp? && r.why == OutOfTime ==> latest >= plan.overall)
      && (r.GivesUp? && r.why == Exhausted ==> r.race.inFlight == [] && |story.starts| == |plan.candidates|)
  }

  /** What one turn adds to the story: the start of the candidate that is due, or else one wait. */
  ghost predicate OneAct(before: Story, after: Story, due: bool) {
    if due then |after.starts| == |before.starts| + 1 && after.waits == before.waits && after.naps == before.naps
    else
      && after.starts == before.starts
      && ((|after.waits| == |before.waits| + 1 && after.naps == before.naps)
          || (after.waits == before.waits && after.naps == before.naps + 1))
  }

  // ---- Beginning the next ----

  lemma AccountedAfterStart(n: nat, inFlight: seq<Attempt>, setbacks: seq<Setback>, attempt: Attempt, setback: Setback)
    requires Accounted(n, inFlight, setbacks) && setback.attempt == n + 1
    ensures attempt.socket == n + 1 ==> Accounted(n + 1, inFlight + [attempt], setbacks)
    ensures Accounted(n + 1, inFlight, setbacks + [setback])
  {
    var more, failed := inFlight + [attempt], setbacks + [setback];
    assert more[|inFlight|] == attempt && failed[|setbacks|].attempt == n + 1;
    forall k | 1 <= k <= n
      ensures Runs(more, k) || HasSetback(setbacks, k)
      ensures Runs(inFlight, k) || HasSetback(failed, k)
    {
      if Runs(inFlight, k) {
        var i :| 0 <= i < |inFlight| && inFlight[i].socket == k;
        assert more[i] == inFlight[i];
      } else {
        SetbacksStay(setbacks, failed, k);
      }
    }
  }

  /** What to make of an attempt begun, or not. */
  function Launched(race: Race, candidate: Address, begun: Begun, now: int, plan: Plan): Turn {
    var after := race.(next := race.next + 1, nextStart := now + plan.options.attemptDelay);
    match begun
    case NotBegun(error) => GoesOn(after.(best := Remember(race.best, error)))
    case Begun(socket, connected) =>
      var attempt := Attempt(socket, candidate, Min(now + plan.options.candidateTimeout, plan.overall), race.next + 1, false);
      if connected then Wins(attempt, race.inFlight) else GoesOn(after.(inFlight := race.inFlight + [attempt]))
  }

  /** A start that is due, against the race. */
  ghost predicate DueStart(start: Start, race: Race, plan: Plan) {
    && IsDue(race, plan, start.at) && start.at < plan.overall
    && start.address == plan.candidates[race.next] && start.others == |race.inFlight|
  }

  lemma BeginsOneStart(story: Story, story': Story, start: Start, begun: Begun, now: int)
    requires Begins(story, story', start, begun, now)
    ensures OneStartOn(story, story', start)
  {
    if begun.NotBegun? && story'.dialled != story.dialled {
      var code :| code != 0 && code != WSAEWOULDBLOCK && story'.dialled == story.dialled[|story.starts| + 1 := Dial(start.address, code)];
    }
  }

  lemma StartIsScheduled(race: Race, start: Start, begun: Begun, story: Story, story': Story, now: int, plan: Plan, clock: nat -> int)
    requires Scheduled(story, plan, clock) && InPlace(race, story, plan) && DueStart(start, race, plan)
    requires Begins(story, story', start, begun, now)
    ensures Scheduled(story', plan, clock)
  {
    BeginsOneStart(story, story', start, begun, now);
    PacedGrows(story.starts, start, plan);
    GenuineStill(story.setbacks, story.starts, story'.starts, plan);
    GenuineGrows(story.setbacks, story'.setbacks, story'.starts, plan);
    OneMoreStart(story, story', start, plan, clock);
  }

  /** Who is pending after the start: who was before, and the new attempt if it was left pending. */
  lemma PendingAfterStart(n: nat, story: Story, story': Story, start: Start, begun: Begun, now: int, plan: Plan, clock: nat -> int)
    requires Scheduled(story, plan, clock) && Begins(story, story', start, begun, now)
    ensures Pending(n, |story'.starts|, story', story'.waits, plan, clock) <==>
      || Pending(n, |story.starts|, story, story.waits, plan, clock)
      || (n == |story'.starts| && begun.Begun? && !begun.connected)
  {
    BeginsOneStart(story, story', start, begun, now);
    if n <= |story.starts| {
      PendingStill(n, |story.starts|, story, story', start, story.waits, plan, clock);
    } else {
      assert n !in story.dialled;
      assert forall k :: 0 <= k < |story.waits| ==> Patiently(story.waits[k], story.starts, plan);
    }
  }

  lemma RunsOneMore(inFlight: seq<Attempt>, attempt: Attempt, n: nat)
    ensures Runs(inFlight + [attempt], n) <==> Runs(inFlight, n) || n == attempt.socket
  {
    var more := inFlight + [attempt];
    assert more[|inFlight|] == attempt;
    assert forall i :: 0 <= i < |inFlight| ==> more[i] == inFlight[i];
  }

  lemma CurrentAfterStart(race: Race, start: Start, begun: Begun, story: Story, story': Story, now: int, plan: Plan, clock: nat -> int)
    requires Racing(race, story, plan, clock) && Begins(story, story', start, begun, now)
    requires !(begun.Begun? && begun.connected)
    ensures var r := Launched(race, start.address, begun, start.at, plan);
      Current(r.race.inFlight, story', plan, clock)
  {
    var r := Launched(race, start.address, begun, start.at, plan);
    forall n: nat
      ensures Runs(r.race.inFlight, n) <==> Pending(n, |story'.starts|, story', story'.waits, plan, clock)
    {
      PendingAfterStart(n, story, story', start, begun, now, plan, clock);
      if begun.Begun? { RunsOneMore(race.inFlight, r.race.inFlight[|race.inFlight|], n); }
    }
  }

  /** The race goes on in place after a start. */
  lemma InPlaceAfterStart(race: Race, start: Start, begun: Begun, story: Story, story': Story, now: int, plan: Plan)
    requires InPlace(race, story, plan) && DueStart(start, race, plan) && Begins(story, story', start, begun, now)
    requires Accounted(race.next, race.inFlight, story.setbacks)
    requires !(begun.Begun? && begun.connected)
    ensures var r := Launched(race, start.address, begun, start.at, plan);
      r.GoesOn? && InPlace(r.race, story', plan) && Accounted(r.race.next, r.race.inFlight, story'.setbacks)
  {
    if begun.NotBegun? {
      BestOfOneMore(story.setbacks, Setback(race.next + 1, begun.error, now));
    }
    AccountedAfterStart(race.next, race.inFlight, story.setbacks, Attempt(race.next + 1, start.address, DeadlineOf(start, plan), race.next + 1, false),
      Setback(race.next + 1, if begun.NotBegun? then begun.error else TIMED_OUT, now));
  }

  lemma ToldAfterStart(story: Story, story': Story, start: Start, begun: Begun, now: int)
    requires Told(story) && Begins(story, story', start, begun, now)
    ensures Told(story')
  {
    StillTold(story.asked, story.dialled, story.setbacks, story'.setbacks);
    if begun.NotBegun? {
      var n := |story.starts| + 1;
      assert story'.setbacks[|story.setbacks|] == Setback(n, begun.error, now);
      assert HasFailure(story'.setbacks, n, begun.error);
    }
  }

  lemma LaunchedRaces(race: Race, start: Start, begun: Begun, story: Story, story': Story, now: int, plan: Plan, clock: nat -> int)
    requires Racing(race, story, plan, clock) && DueStart(start, race, plan) && Begins(story, story', start, begun, now)
    requires !(begun.Begun? && begun.connected)
    ensures var r := Launched(race, start.address, begun, start.at, plan);
      r.GoesOn? && Racing(r.race, story', plan, clock)
  {
    StartIsScheduled(race, start, begun, story, story', now, plan, clock);
    ToldAfterStart(story, story', start, begun, now);
    InPlaceAfterStart(race, start, begun, story, story', now, plan);
    CurrentAfterStart(race, start, begun, story, story', now, plan, clock);
  }

  lemma LaunchedOwns(race: Race, candidate: Address, begun: Begun, now: int, plan: Plan, open: set<nat>)
    requires Own(race.inFlight, open) && (begun.Begun? ==> begun.socket !in open)
    ensures var r := Launched(race, candidate, begun, now, plan);
      if r.Wins? then Own(r.losers, open + {r.attempt.socket} - {r.attempt.socket})
      else r.GoesOn? && Own(r.race.inFlight, if begun.Begun? then open + {begun.socket} else open)
  {
    if begun.Begun? {
      assert open + {begun.socket} - {begun.socket} == open;
      OwnAdd(race.inFlight, open,
        Attempt(begun.socket, candidate, Min(now + plan.options.candidateTimeout, plan.overall), race.next + 1, false));
    }
  }

  lemma LaunchedWins(race: Race, start: Start, begun: Begun, story: Story, story': Story, open: set<nat>, open': set<nat>,
    connected': set<nat>, now: int, plan: Plan, clock: nat -> int)
    requires Racing(race, story, plan, clock) && DueStart(start, race, plan) && Begins(story, story', start, begun, now)
    requires Unbroken(story.waits) && Own(race.inFlight, open) && OpenedAs(begun, open, open', {}, connected')
    requires begun.Begun? && begun.connected
    ensures var r := Launched(race, start.address, begun, start.at, plan);
      r.Wins? && FairWin(r.attempt, r.losers, open', connected', story', plan, clock)
  {
    LaunchedOwns(race, start.address, begun, start.at, plan, open);
    StartIsScheduled(race, start, begun, story, story', now, plan, clock);
  }

  lemma LaunchedIsFair(race: Race, start: Start, begun: Begun, story: Story, story': Story, open: set<nat>, open': set<nat>,
    connected': set<nat>, now: int, plan: Plan, clock: nat -> int)
    requires Racing(race, story, plan, clock) && DueStart(start, race, plan) && Begins(story, story', start, begun, now)
    requires Unbroken(story.waits) && Own(race.inFlight, open) && OpenedAs(begun, open, open', {}, connected')
    ensures var r := Launched(race, start.address, begun, start.at, plan);
      !r.GivesUp? && Fair(r, open', connected', story', now, plan, clock)
  {
    if begun.Begun? && begun.connected {
      LaunchedWins(race, start, begun, story, story', open, open', connected', now, plan, clock);
    } else {
      LaunchedOwns(race, start.address, begun, start.at, plan, open);
      LaunchedRaces(race, start, begun, story, story', now, plan, clock);
    }
  }

  /** A turn in which the next candidate is begun. */
  method StartNext(system: System, plan: Plan, race: Race, now: int) returns (r: Turn)
    requires system.Valid() && Own(race.inFlight, system.open) && now == system.latest < plan.overall
    requires Racing(race, system.story, plan, system.oracle.clock) && Unbroken(system.story.waits) && IsDue(race, plan, now)
    requires system.most <= plan.options.maxInFlight && system.looked && system.connected == {}
    modifies system`calls, system`minted, system`open, system`most, system`story, system`connected, system`configured,
      system`looked
    ensures system.Valid() && system.most <= plan.options.maxInFlight && !r.GivesUp?
    ensures OneAct(old(system.story), system.story, true) && JustActed(system.story, system.readings)
    ensures Fair(r, system.open, system.connected, system.story, system.latest, plan, system.oracle.clock)
  {
    var candidate := plan.candidates[race.next];
    OwnCount(race.inFlight, system.open);
    ghost var story, open := system.story, system.open;
    ghost var start := Start(candidate, now, system.readings, |race.inFlight|);
    var begun := BeginAttempt(system, candidate);
    r := Launched(race, candidate, begun, now, plan);
    LaunchedIsFair(race, start, begun, story, system.story, open, system.open, system.connected, now, plan, system.oracle.clock);
  }

  // ---- Waiting ----

  lemma RunsListed(inFlight: seq<Attempt>, n: nat)
    ensures Runs(inFlight, n) <==> n in SocketsOf(inFlight)
  {
    if Runs(inFlight, n) {
      var i :| 0 <= i < |inFlight| && inFlight[i].socket == n;
      assert SocketsOf(inFlight)[i] == n;
    }
  }

  /** The deadlines of the attempts are those their starts gave them. */
  lemma DeadlinesMatch(inFlight: seq<Attempt>, starts: seq<Start>, plan: Plan, t: int)
    requires AllMatch(inFlight, starts, plan)
    ensures DeadlineBy(inFlight, t) <==> HasDeadlineBy(SocketsOf(inFlight), starts, plan, t)
    ensures DeadlineAt(inFlight, t) <==> HasDeadlineAt(SocketsOf(inFlight), starts, plan, t)
    ensures (forall a :: a in inFlight ==> t <= a.deadline) ==> DeadlinesFrom(SocketsOf(inFlight), starts, plan, t)
  {
    var sockets := SocketsOf(inFlight);
    forall i | 0 <= i < |inFlight|
      ensures inFlight[i].socket == sockets[i] && 0 < sockets[i] <= |starts|
      ensures inFlight[i].deadline == DeadlineOf(starts[sockets[i] - 1], plan)
      ensures inFlight[i] in inFlight && sockets[i] in sockets
    {
    }
  }

  lemma WaitIsPatient(race: Race, story: Story, w: Wait, now: int, reading: nat, nextStart: Option<int>, plan: Plan)
    requires InPlace(race, story, plan) && race.inFlight != [] && !IsDue(race, plan, now) && now < plan.overall
    requires nextStart == if race.next < |plan.candidates| then Some(race.nextStart) else None
    requires OneWait(w, race.inFlight, now, reading, nextStart, |story.starts|, plan.overall)
    ensures Patiently(w, story.starts, plan)
  {
    DeadlinesMatch(race.inFlight, story.starts, plan, now);
    DeadlinesMatch(race.inFlight, story.starts, plan, now + w.milliseconds);
    assert NextStart(w, story.starts, plan) == nextStart;
  }

  /** It is on every attempt pending. */
  lemma WaitIsOnPending(race: Race, story: Story, w: Wait, plan: Plan, clock: nat -> int)
    requires Current(race.inFlight, story, plan, clock) && Rising(race.inFlight)
    requires w.sockets == SocketsOf(race.inFlight) && w.started == |story.starts|
    ensures forall n :: n in w.sockets <==> Pending(n, w.started, story, story.waits, plan, clock)
    ensures forall i, j :: 0 <= i < j < |w.sockets| ==> w.sockets[i] < w.sockets[j]
  {
    forall n: nat
      ensures n in w.sockets <==> Pending(n, w.started, story, story.waits, plan, clock)
    {
      RunsListed(race.inFlight, n);
    }
  }

  lemma MissesAreGenuine(inFlight: seq<Attempt>, setbacks: seq<Setback>, more: seq<Setback>, starts: seq<Start>, plan: Plan)
    requires AllMatch(inFlight, starts, plan) && AllGenuine(setbacks, starts, plan) && setbacks <= more
    requires MissesDue(inFlight, more, |setbacks|)
    ensures AllGenuine(more, starts, plan)
  {
    forall k | |setbacks| <= k < |more|
      ensures Genuine(more[k], starts, plan)
    {
      if more[k].error.cat == Timeout {
        assert DueMiss(inFlight, more[k]);
        var i :| 0 <= i < |inFlight| && inFlight[i].socket == more[k].attempt && inFlight[i].deadline <= more[k].at;
      }
    }
    GenuineGrows(setbacks, more, starts, plan);
  }

  /** A wait that was due, and what befell attempts at its end. */
  ghost predicate WaitedOn(race: Race, story: Story, story': Story, w: Wait, plan: Plan) {
    && OneWaitOn(story, story', w) && Patiently(w, story.starts, plan)
    && w.sockets == SocketsOf(race.inFlight) && w.started == |story.starts| && (forall d :: d in w.ready ==> d in w.sockets)
    && story.setbacks <= story'.setbacks && MissesDue(race.inFlight, story'.setbacks, |story.setbacks|)
  }

  lemma WaitIsScheduled(race: Race, story: Story, story': Story, w: Wait, plan: Plan, clock: nat -> int)
    requires Racing(race, story, plan, clock) && WaitedOn(race, story, story', w, plan)
    ensures Scheduled(story', plan, clock)
  {
    WaitIsOnPending(race, story, w, plan, clock);
    MissesAreGenuine(race.inFlight, story.setbacks, story'.setbacks, story.starts, plan);
    OneMoreWait(story, story', w, plan, clock);
  }

  lemma StillMatch(inFlight: seq<Attempt>, left: seq<Attempt>, starts: seq<Start>, plan: Plan)
    requires AllMatch(inFlight, starts, plan) && forall a :: a in left ==> a in inFlight
    ensures AllMatch(left, starts, plan)
  {
    forall i | 0 <= i < |left|
      ensures !left[i].failed && Matches(left[i], starts, plan)
    {
      assert left[i] in inFlight;
    }
  }

  lemma StillAccounted(n: nat, inFlight: seq<Attempt>, left: seq<Attempt>, setbacks: seq<Setback>, more: seq<Setback>)
    requires Accounted(n, inFlight, setbacks) && setbacks <= more
    requires forall a :: a in inFlight && a !in left ==> HasSetback(more, a.socket)
    ensures Accounted(n, left, more)
  {
    forall k | 1 <= k <= n
      ensures Runs(left, k) || HasSetback(more, k)
    {
      if Runs(inFlight, k) {
        var i :| 0 <= i < |inFlight| && inFlight[i].socket == k;
        if inFlight[i] in left {
          var j :| 0 <= j < |left| && left[j] == inFlight[i];
        }
      } else {
        SetbacksStay(setbacks, more, k);
      }
    }
  }

  lemma KeptRan(inFlight: seq<Attempt>, n: nat, w: Wait, starts: seq<Start>, plan: Plan, clock: nat -> int)
    requires AllMatch(inFlight, starts, plan) && w.started == |starts|
    requires Runs(Kept(inFlight, w.ready, clock(w.reading)), n)
    ensures Runs(inFlight, n) && 0 < n <= |starts| && !Retires(w, n, DeadlineOf(starts[n - 1], plan), clock)
  {
    var kept := Kept(inFlight, w.ready, clock(w.reading));
    KeptAre(inFlight, w.ready, clock(w.reading));
    var i :| 0 <= i < |kept| && kept[i].socket == n;
    assert kept[i] in inFlight;
    var j :| 0 <= j < |inFlight| && inFlight[j] == kept[i];
  }

  lemma RanAreKept(inFlight: seq<Attempt>, n: nat, w: Wait, starts: seq<Start>, plan: Plan, clock: nat -> int)
    requires AllMatch(inFlight, starts, plan) && !w.broke && w.started == |starts|
    requires Runs(inFlight, n) && 0 < n <= |starts| && !Retires(w, n, DeadlineOf(starts[n - 1], plan), clock)
    ensures Runs(Kept(inFlight, w.ready, clock(w.reading)), n)
  {
    var kept := Kept(inFlight, w.ready, clock(w.reading));
    KeptAre(inFlight, w.ready, clock(w.reading));
    var j :| 0 <= j < |inFlight| && inFlight[j].socket == n;
    assert inFlight[j] in inFlight && Matches(inFlight[j], starts, plan);
    var i :| 0 <= i < |kept| && kept[i] == inFlight[j];
  }

  /** Kept is who ran and was not retired by the wait. */
  lemma KeptRun(inFlight: seq<Attempt>, n: nat, w: Wait, starts: seq<Start>, plan: Plan, clock: nat -> int)
    requires AllMatch(inFlight, starts, plan) && !w.broke && w.started == |starts|
    ensures Runs(Kept(inFlight, w.ready, clock(w.reading)), n)
      <==> Runs(inFlight, n) && 0 < n <= |starts| && !Retires(w, n, DeadlineOf(starts[n - 1], plan), clock)
  {
    if Runs(Kept(inFlight, w.ready, clock(w.reading)), n) {
      KeptRan(inFlight, n, w, starts, plan, clock);
    } else if Runs(inFlight, n) && 0 < n <= |starts| && !Retires(w, n, DeadlineOf(starts[n - 1], plan), clock) {
      RanAreKept(inFlight, n, w, starts, plan, clock);
    }
  }

  lemma CurrentAfterWait(inFlight: seq<Attempt>, story: Story, story': Story, w: Wait, plan: Plan, clock: nat -> int)
    requires Current(inFlight, story, plan, clock) && AllMatch(inFlight, story.starts, plan) && Rising(inFlight)
    requires OneWaitOn(story, story', w) && !w.broke && w.started == |story.starts|
    ensures Current(Kept(inFlight, w.ready, clock(w.reading)), story', plan, clock)
  {
    forall n: nat
      ensures Runs(Kept(inFlight, w.ready, clock(w.reading)), n) <==> Pending(n, |story'.starts|, story', story'.waits, plan, clock)
    {
      PendingAfterWait(n, story, story', w, plan, clock);
      KeptRun(inFlight, n, w, story.starts, plan, clock);
    }
  }

  lemma CurrentAfterBreak(inFlight: seq<Attempt>, story: Story, story': Story, w: Wait, plan: Plan, clock: nat -> int)
    requires Current(inFlight, story, plan, clock) && OneWaitOn(story, story', w) && w.broke
    ensures Current(inFlight, story', plan, clock)
  {
    forall n: nat
      ensures Runs(inFlight, n) <==> Pending(n, |story'.starts|, story', story'.waits, plan, clock)
    {
      PendingAfterWait(n, story, story', w, plan, clock);
    }
  }

  /** The race goes on with the attempts a wait has left. */
  lemma RacingAfterWait(race: Race, story: Story, story': Story, w: Wait, questions: seq<Question>, left: seq<Attempt>, best: Best,
    plan: Plan, clock: nat -> int)
    requires Racing(race, story, plan, clock) && WaitedOn(race, story, story', w, plan) && !w.broke
    requires story'.asked == story.asked + questions && best == BestOf(story'.setbacks) && AllTold(questions, story'.setbacks)
    requires Left(left, race.inFlight, w.ready, questions, story'.setbacks, |story.setbacks|, clock(w.reading))
    ensures Racing(race.(inFlight := left, best := best), story', plan, clock)
  {
    WaitIsScheduled(race, story, story', w, plan, clock);
    InPlaceAfterWait(race, story, story', w, left, best, plan, clock(w.reading));
    StillAccounted(race.next, race.inFlight, left, story.setbacks, story'.setbacks);
    CurrentAfterWait(race.inFlight, story, story', w, plan, clock);
    StillTold(story.asked, story.dialled, story.setbacks, story'.setbacks);
    HeardAll(race.inFlight, story.waits, w, story.asked, questions);
  }

  lemma InPlaceAfterWait(race: Race, story: Story, story': Story, w: Wait, left: seq<Attempt>, best: Best, plan: Plan, now: int)
    requires InPlace(race, story, plan) && OneWaitOn(story, story', w)
    requires left == Kept(race.inFlight, w.ready, now) && best == BestOf(story'.setbacks)
    ensures InPlace(race.(inFlight := left, best := best), story', plan)
  {
    KeptAre(race.inFlight, w.ready, now);
    KeptRise(race.inFlight, w.ready, now);
    StillMatch(race.inFlight, left, story.starts, plan);
    if race.inFlight == [] { assert left == []; }
  }

  /** Or ends after a wait that broke. */
  lemma RacingAfterBreak(race: Race, story: Story, story': Story, w: Wait, best: Best, plan: Plan, clock: nat -> int)
    requires Racing(race, story, plan, clock) && WaitedOn(race, story, story', w, plan) && w.broke && w.ready == {}
    requires story'.asked == story.asked && best == BestOf(story'.setbacks)
    ensures Racing(race.(best := best), story', plan, clock)
  {
    WaitIsScheduled(race, story, story', w, plan, clock);
    StillAccounted(race.next, race.inFlight, race.inFlight, story.setbacks, story'.setbacks);
    CurrentAfterBreak(race.inFlight, story, story', w, plan, clock);
    StillTold(story.asked, story.dialled, story.setbacks, story'.setbacks);
    HeardOneMore(story.waits, w, story.asked);
  }

  lemma HeardOneMore(waits: seq<Wait>, w: Wait, asked: seq<Question>)
    requires AllHeard(waits, asked) && w.ready == {}
    ensures AllHeard(waits + [w], asked)
  {
    var more := waits + [w];
    forall k | 0 <= k < |more|
      ensures Heard(more[k], asked)
    {
      if k < |waits| { assert more[k] == waits[k]; }
    }
  }

  lemma UnbrokenAfterWait(waits: seq<Wait>, w: Wait)
    requires Unbroken(waits)
    ensures if w.broke then BrokeLast(waits + [w]) else Unbroken(waits + [w])
  {
    assert (waits + [w])[..|waits|] == waits;
  }

  /** A wait found the winner. */
  lemma WinnerFound(race: Race, i: nat, losers: seq<Attempt>, story: Story, story': Story, w: Wait, questions: seq<Question>,
    open: set<nat>, connected: set<nat>, plan: Plan, clock: nat -> int)
    requires Racing(race, story, plan, clock) && Unbroken(story.waits) && WaitedOn(race, story, story', w, plan) && !w.broke
    requires FirstToAnswer(race.inFlight, i, w.ready, questions) && story'.asked == story.asked + questions
    requires race.inFlight[i].socket in open && Own(losers, open - {race.inFlight[i].socket})
    requires connected == {race.inFlight[i].socket}
    ensures FairWin(race.inFlight[i], losers, open, connected, story', plan, clock)
  {
    WaitIsScheduled(race, story, story', w, plan, clock);
    FoundFirst(race.inFlight, i, story.waits, w, story.asked, questions);
    assert (story.waits + [w])[..|story.waits|] == story.waits;
    UnbrokenAfterWait(story.waits, w);
  }

  /** What a wait comes to for the race. */
  function Waited(race: Race, round: Round, best: Best): Turn {
    match round
    case Winner(_, attempt, losers) => Wins(attempt, losers)
    case CannotPoll => GivesUp(race.(best := best), PollFailed)
    case Remaining(left) => GoesOn(race.(inFlight := left, best := best))
  }

  lemma WaitedIsFair(race: Race, round: Round, best: Best, w: Wait, questions: seq<Question>, story: Story, story': Story,
    open: set<nat>, connected: set<nat>, latest: int, plan: Plan, clock: nat -> int)
    requires Racing(race, story, plan, clock) && Unbroken(story.waits) && Patiently(w, story.starts, plan)
    requires w.sockets == SocketsOf(race.inFlight) && w.started == |story.starts| && forall d :: d in w.ready ==> d in w.sockets
    requires RoundHolds(round, race.inFlight, best, w, questions, story, story', open, {}, connected,
                        if w.broke then latest else clock(w.reading))
    ensures Fair(Waited(race, round, best), open, connected, story', latest, plan, clock)
  {
    UnbrokenAfterWait(story.waits, w);
    match round
    case Winner(i, attempt, losers) =>
      WinnerFound(race, i, losers, story, story', w, questions, open, connected, plan, clock);
    case CannotPoll =>
      assert story.asked + [] == story.asked;
      RacingAfterBreak(race, story, story', w, best, plan, clock);
    case Remaining(left) =>
      RacingAfterWait(race, story, story', w, questions, left, best, plan, clock);
  }

  /** Polling, when nothing is due and something is pending, is a fair turn. */
  lemma PollIsFair(race: Race, round: Round, best: Best, w: Wait, questions: seq<Question>, story: Story, story': Story,
    open: set<nat>, connected: set<nat>, now: int, reading: nat, latest: int, nextStart: Option<int>, plan: Plan, clock: nat -> int)
    requires Racing(race, story, plan, clock) && Unbroken(story.waits)
    requires race.inFlight != [] && !IsDue(race, plan, now) && now < plan.overall
    requires nextStart == if race.next < |plan.candidates| then Some(race.nextStart) else None
    requires OneWait(w, race.inFlight, now, reading, nextStart, |story.starts|, plan.overall)
    requires w.broke || latest == clock(w.reading)
    requires RoundHolds(round, race.inFlight, best, w, questions, story, story', open, {}, connected, latest)
    ensures Fair(Waited(race, round, best), open, connected, story', latest, plan, clock)
  {
    WaitIsPatient(race, story, w, now, reading, nextStart, plan);
    WaitedIsFair(race, round, best, w, questions, story, story', open, connected, latest, plan, clock);
  }

  /** A turn in which nothing is due and something is pending. */
  method PollTurn(system: System, plan: Plan, race: Race, now: int) returns (r: Turn)
    requires system.Valid() && Own(race.inFlight, system.open)
    requires Racing(race, system.story, plan, system.oracle.clock) && Unbroken(system.story.waits)
    requires race.inFlight != [] && now == system.latest < plan.overall && system.looked && system.connected == {}
    requires !IsDue(race, plan, now)
    modifies system`calls, system`readings, system`latest, system`open, system`story, system`connected, system`looked
    ensures system.Valid() && OneAct(old(system.story), system.story, false)
    ensures old(system.readings) <= system.readings <= old(system.readings) + 1
    ensures r.GoesOn? ==> system.readings == old(system.readings) + 1 && JustActed(system.story, system.readings)
    ensures r.GivesUp? ==> r.why == PollFailed
    ensures Fair(r, system.open, system.connected, system.story, system.latest, plan, system.oracle.clock)
  {
    var nextStart := if race.next < |plan.candidates| then Some(race.nextStart) else None;
    ghost var story, readings := system.story, system.readings;
    MatchingHaveNotFailed(race.inFlight, story.starts, plan);
    var round, best;
    ghost var w, questions;
    round, best, w, questions := PollPending(system, race.inFlight, now, nextStart, plan.overall, race.best);
    PollIsFair(race, round, best, w, questions, story, system.story, system.open, system.connected, now, readings, system.latest,
               nextStart, plan, system.oracle.clock);
    r := Waited(race, round, best);
  }

  lemma MatchingHaveNotFailed(inFlight: seq<Attempt>, starts: seq<Start>, plan: Plan)
    requires AllMatch(inFlight, starts, plan)
    ensures NoneFailed(inFlight)
  {
  }

  // ---- A turn ----

  /** A turn with time left: begin the next candidate if it is due, else wait, if there is anything to
      wait for. */
  method Proceed(system: System, plan: Plan, race: Race, now: int) returns (r: Turn)
    requires system.Valid() && Own(race.inFlight, system.open) && system.most <= plan.options.maxInFlight
    requires Racing(race, system.story, plan, system.oracle.clock) && Unbroken(system.story.waits)
    requires now == system.latest < plan.overall && system.looked && system.connected == {}
    modifies system`calls, system`minted, system`open, system`most, system`story, system`connected, system`configured,
      system`readings, system`latest, system`looked
    ensures system.Valid() && system.most <= plan.options.maxInFlight && old(system.readings) <= system.readings
    ensures if r.GivesUp? && r.why == Exhausted then system.story == old(system.story) && system.readings == old(system.readings)
            else OneAct(old(system.story), system.story, IsDue(race, plan, now))
    ensures 1 + system.readings + Acts(old(system.story)) <= old(system.readings) + Acts(system.story)
         || (r.GivesUp? && r.why == Exhausted)
    ensures r.GoesOn? ==>
      && JustActed(system.story, system.readings)
      && 1 + system.readings + Acts(old(system.story)) == old(system.readings) + Acts(system.story)
    ensures r.GivesUp? ==> r.why != OutOfTime
    ensures Fair(r, system.open, system.connected, system.story, system.latest, plan, system.oracle.clock)
  {
    if race.next < |plan.candidates| && |race.inFlight| < plan.options.maxInFlight && (race.inFlight == [] || now >= race.nextStart) {
      r := StartNext(system, plan, race, now);
    } else if race.inFlight != [] {
      r := PollTurn(system, plan, race, now);
    } else if race.next >= |plan.candidates| {
      r := GivesUp(race, Exhausted);
    } else {
      NapRaces(race, system.story, plan, system.oracle.clock);
      system.Sleep(Clamp(race.nextStart - now, 0, POLL_SLICE));
      r := GoesOn(race);
    }
  }

  lemma NapRaces(race: Race, story: Story, plan: Plan, clock: nat -> int)
    requires Racing(race, story, plan, clock) && plan.options.maxInFlight == 0
    ensures Racing(race, story.(naps := story.naps + 1), plan, clock)
  {
    SameStartsAndWaits(race.inFlight, story, story.(naps := story.naps + 1), plan, clock);
  }

  /** Who is waited on and who is pending does not depend on anything else in the story. */
  lemma SameStartsAndWaits(inFlight: seq<Attempt>, story: Story, story': Story, plan: Plan, clock: nat -> int)
    requires NoneAbandoned(story, plan, clock) && Current(inFlight, story, plan, clock)
    requires story'.starts == story.starts && story'.waits == story.waits && story'.dialled == story.dialled
    requires AllGenuine(story'.setbacks, story.starts, plan)
    ensures NoneAbandoned(story', plan, clock) && Current(inFlight, story', plan, clock)
  {
    forall k | 0 <= k < |story.waits|
      ensures WaitsOnPending(story', k, plan, clock)
    {
      assert WaitsOnPending(story, k, plan, clock);
      SameWhoPend(story, story', story.waits[k].started, story.waits[..k], plan, clock);
    }
    SameWhoPend(story, story', |story.starts|, story.waits, plan, clock);
  }

  lemma LateRaces(race: Race, story: Story, now: int, plan: Plan, clock: nat -> int)
    requires Racing(race, story, plan, clock) && now >= plan.overall
    ensures Racing(race.(best := Remember(race.best, TIMED_OUT)), story.(setbacks := story.setbacks + [Setback(0, TIMED_OUT, now)]),
                   plan, clock)
  {
    var late := Setback(0, TIMED_OUT, now);
    BestOfOneMore(story.setbacks, late);
    StillTold(story.asked, story.dialled, story.setbacks, story.setbacks + [late]);
    StillAccounted(race.next, race.inFlight, race.inFlight, story.setbacks, story.setbacks + [late]);
    LateScheduled(race.inFlight, story, late, plan, clock);
  }

  lemma LateScheduled(inFlight: seq<Attempt>, story: Story, late: Setback, plan: Plan, clock: nat -> int)
    requires Scheduled(story, plan, clock) && Current(inFlight, story, plan, clock) && Genuine(late, story.starts, plan)
    ensures var after := story.(setbacks := story.setbacks + [late]);
      Scheduled(after, plan, clock) && Current(inFlight, after, plan, clock)
  {
    var after := story.(setbacks := story.setbacks + [late]);
    GenuineGrows(story.setbacks, after.setbacks, story.starts, plan);
    SameStartsAndWaits(inFlight, story, after, plan, clock);
  }

  lemma LateIsFair(race: Race, story: Story, open: set<nat>, connected: set<nat>, now: int, plan: Plan, clock: nat -> int)
    requires Racing(race, story, plan, clock) && Unbroken(story.waits) && now >= plan.overall
    requires Own(race.inFlight, open) && connected == {}
    ensures Fair(GivesUp(race.(best := Remember(race.best, TIMED_OUT)), OutOfTime), open, connected,
                 story.(setbacks := story.setbacks + [Setback(0, TIMED_OUT, now)]), now, plan, clock)
  {
    LateRaces(race, story, now, plan, clock);
  }

  /** What a turn does, given the time at its start: nothing once time is over or nothing is left to try,
      and otherwise one act, which is beginning the next candidate if that is due. */
  ghost predicate TookTurn(r: Turn, race: Race, before: Story, after: Story, now: int, plan: Plan) {
    if now >= plan.overall then
      r.GivesUp? && r.why == OutOfTime && after == before.(setbacks := before.setbacks + [Setback(0, TIMED_OUT, now)])
    else if r.GivesUp? && r.why == Exhausted then after == before
    else !(r.GivesUp? && r.why == OutOfTime) && OneAct(before, after, IsDue(race, plan, now))
  }

  /** A turn after all time is over. */
  method GiveUpLate(system: System, plan: Plan, race: Race, now: int) returns (r: Turn)
    requires Own(race.inFlight, system.open) && system.connected == {} && now == system.latest >= plan.overall
    requires Racing(race, system.story, plan, system.oracle.clock) && Unbroken(system.story.waits)
    modifies system`story
    ensures r.GivesUp? && r.why == OutOfTime
    ensures system.story == old(system.story).(setbacks := old(system.story.setbacks) + [Setback(0, TIMED_OUT, now)])
    ensures Fair(r, system.open, system.connected, system.story, system.latest, plan, system.oracle.clock)
  {
    LateIsFair(race, system.story, system.open, system.connected, now, plan, system.oracle.clock);
    system.Miss(0);
    r := GivesUp(race.(best := Remember(race.best, TIMED_OUT)), OutOfTime);
  }

  /** One turn of the loop after its look at the cancel flag. */
  method TakeTurn(system: System, plan: Plan, race: Race) returns (r: Turn)
    requires system.Valid() && Own(race.inFlight, system.open) && system.most <= plan.options.maxInFlight
    requires Racing(race, system.story, plan, system.oracle.clock) && Unbroken(system.story.waits)
    requires system.looked && system.connected == {}
    modifies system`calls, system`minted, system`open, system`most, system`story, system`connected, system`configured,
      system`readings, system`latest, system`looked
    ensures system.Valid() && system.most <= plan.options.maxInFlight
    ensures TookTurn(r, race, old(system.story), system.story, system.oracle.clock(old(system.readings)), plan)
    ensures old(system.readings) < system.readings
    ensures system.readings + Acts(old(system.story)) <= old(system.readings) + 1 + Acts(system.story)
    ensures r.GoesOn? ==>
      && JustActed(system.story, system.readings)
      && system.readings + Acts(old(system.story)) == old(system.readings) + Acts(system.story)
    ensures r.GivesUp? && r.why == OutOfTime ==> system.readings == old(system.readings) + 1
    ensures Fair(r, system.open, system.connected, system.story, system.latest, plan, system.oracle.clock)
  {
    var now := system.Now();
    if now >= plan.overall {
      r := GiveUpLate(system, plan, race, now);
    } else {
      r := Proceed(system, plan, race, now);
    }
  }

  // ---- Connecting ----

  /** Any time is reached by the clock after finitely many readings, and not taken back. */
  ghost predicate Patient(clock: nat -> int, patience: int -> nat) {
    forall t, n: nat :: patience(t) <= n ==> t <= clock(n)
  }

  /** When time ran out, `readings` looks at the clock after the start, a candidate not begun had been
      withheld: by the cap or its head start, which the last thing done was a wait for; or because the first
      look at the clock since the last start, or since the beginning, was already too late. */
  ghost predicate Withheld(story: Story, plan: Plan, readings: nat, first: nat) {
    || |story.starts| == |plan.candidates|
    || plan.options.maxInFlight == 0
    || (Acts(story) == 0 && readings == first + 1)
    || (story.starts != [] && readings == story.starts[|story.starts| - 1].reading + 1)
    || (story.waits != [] && story.starts != []
        && var w, last := story.waits[|story.waits| - 1], story.starts[|story.starts| - 1];
           w.started == |story.starts| && readings == w.reading + 2
           && (|w.sockets| == plan.options.maxInFlight || w.at < last.at + plan.options.attemptDelay))
  }

  /** Every attempt begun has its setback. */
  ghost predicate AllFailed(story: Story) {
    forall n :: 1 <= n <= |story.starts| ==> HasSetback(story.setbacks, n)
  }

  /** The attempt failed by what the system answered or by its deadline: it could not be dialled or was
      declined, or it was found ready and said it had failed, or a wait ended past its deadline. */
  ghost predicate FailedForCause(n: nat, story: Story, plan: Plan, clock: nat -> int)
    requires 1 <= n <= |story.starts|
  {
    || n !in story.dialled || story.dialled[n].code !in {0, 10035}
    || (exists k :: 0 <= k < |story.waits| && n in story.waits[k].ready && Refused(story.asked, n))
    || (exists k :: 0 <= k < |story.waits| && n <= story.waits[k].started
          && DeadlineOf(story.starts[n - 1], plan) <= clock(story.waits[k].reading))
  }

  /** How a race that found no winner ended. */
  ghost predicate EndedWithout(why: Ending, story: Story, plan: Plan, clock: nat -> int, readings: nat, first: nat) {
    && (why == CancelSeen || Lost(why))
    && AllHeard(story.waits, story.asked) && NoneAtOnce(story.dialled) && Told(story)
    && (if why == PollFailed then BrokeLast(story.waits) else Unbroken(story.waits))
    && (why == OutOfTime ==> Withheld(story, plan, readings, first))
    && (why == Exhausted ==>
          && |story.starts| == |plan.candidates| && AllFailed(story)
          && forall n :: 1 <= n <= |story.starts| ==> FailedForCause(n, story, plan, clock))
  }

  lemma NothingPending(race: Race, story: Story, plan: Plan, clock: nat -> int)
    requires Racing(race, story, plan, clock) && race.inFlight == []
    ensures AllFailed(story)
    ensures forall n :: 1 <= n <= |story.starts| ==> FailedForCause(n, story, plan, clock)
  {
    forall n: nat | 1 <= n <= |story.starts|
      ensures FailedForCause(n, story, plan, clock)
    {
      assert !Runs(race.inFlight, n);
      NotPending(n, story, plan, clock);
    }
  }

  lemma NotPending(n: nat, story: Story, plan: Plan, clock: nat -> int)
    requires 1 <= n <= |story.starts| && !Pending(n, |story.starts|, story, story.waits, plan, clock)
    requires AllHeard(story.waits, story.asked) && NoneAtOnce(story.dialled)
    ensures FailedForCause(n, story, plan, clock)
  {
    if n in story.dialled && story.dialled[n].code == WSAEWOULDBLOCK {
      var k :| 0 <= k < |story.waits| && Retires(story.waits[k], n, DeadlineOf(story.starts[n - 1], plan), clock);
      assert Heard(story.waits[k], story.asked);
    }
  }

  lemma LateWithheld(story: Story, after: Story, plan: Plan, clock: nat -> int, readings: nat, first: nat)
    requires Scheduled(story, plan, clock) && readings == first + Acts(story)
    requires Acts(story) == 0 || JustActed(story, readings)
    requires after == story.(setbacks := after.setbacks)
    ensures Withheld(after, plan, readings + 1, first)
  {
    if story.waits != [] {
      assert Patiently(story.waits[|story.waits| - 1], story.starts, plan);
    }
  }

  /** How a race is decided: by its first attempt to connect, or without one, for a reason. */
  ghost predicate Decided(r: Turn, open: set<nat>, connected: set<nat>, story: Story, plan: Plan, clock: nat -> int,
    readings: nat, first: nat) {
    if r.Wins? then FairWin(r.attempt, r.losers, open, connected, story, plan, clock)
    else
      && r.GivesUp? && Scheduled(story, plan, clock)
      && connected == {} && EndedWithout(r.why, story, plan, clock, readings, first)
      && Own(r.race.inFlight, open) && r.race.best == BestOf(story.setbacks)
  }

  lemma TurnDecides(r: Turn, race: Race, before: Story, open: set<nat>, connected: set<nat>, story: Story, now: int, latest: int,
    plan: Plan, clock: nat -> int, readings: nat, readings': nat, first: nat)
    requires Scheduled(before, plan, clock) && readings == first + Acts(before)
    requires Acts(before) == 0 || JustActed(before, readings)
    requires TookTurn(r, race, before, story, now, plan) && !r.GoesOn?
    requires Fair(r, open, connected, story, latest, plan, clock)
    requires r.GivesUp? && r.why == OutOfTime ==> readings' == readings + 1
    ensures Decided(r, open, connected, story, plan, clock, readings', first)
  {
    if r.GivesUp? && r.why == OutOfTime {
      LateWithheld(before, story, plan, clock, readings, first);
    }
    if r.GivesUp? && r.why == Exhausted {
      NothingPending(r.race, story, plan, clock);
    }
  }

  /** A race with no winner yet, each of its turns so far with a reading of the clock and an act. */
  ghost predicate Underway(race: Race, open: set<nat>, connected: set<nat>, story: Story, plan: Plan, clock: nat -> int,
    readings: nat, first: nat) {
    && Own(race.inFlight, open) && connected == {}
    && Racing(race, story, plan, clock) && Unbroken(story.waits)
    && readings == first + Acts(story)
    && (Acts(story) == 0 || JustActed(story, readings))
  }

  lemma CancelDecides(race: Race, open: set<nat>, connected: set<nat>, story: Story, plan: Plan, clock: nat -> int,
    readings: nat, first: nat)
    requires Underway(race, open, connected, story, plan, clock, readings, first)
    ensures Decided(GivesUp(race, CancelSeen), open, connected, story, plan, clock, readings, first)
  {
  }

  /** After a turn the race is under way or decided. */
  lemma TurnEnds(r: Turn, race: Race, before: Story, open: set<nat>, connected: set<nat>, story: Story, now: int, latest: int,
    plan: Plan, clock: nat -> int, readings: nat, readings': nat, first: nat)
    requires Scheduled(before, plan, clock) && readings == first + Acts(before)
    requires Acts(before) == 0 || JustActed(before, readings)
    requires TookTurn(r, race, before, story, now, plan)
    requires Fair(r, open, connected, story, latest, plan, clock)
    requires r.GivesUp? && r.why == OutOfTime ==> readings' == readings + 1
    requires r.GoesOn? ==> JustActed(story, readings') && readings' + Acts(before) == readings + Acts(story)
    ensures if r.GoesOn? then now < plan.overall && Underway(r.race, open, connected, story, plan, clock, readings', first)
            else Decided(r, open, connected, story, plan, clock, readings', first)
  {
    if !r.GoesOn? {
      TurnDecides(r, race, before, open, connected, story, now, latest, plan, clock, readings, readings', first);
    }
  }

  /** One pass of the loop: a look at the cancel flag, and a turn. */
  method Lap(system: System, plan: Plan, race: Race, ghost first: nat) returns (r: Turn)
    requires system.Valid() && !system.cancelSeen && system.most <= plan.options.maxInFlight
    requires Underway(race, system.open, system.connected, system.story, plan, system.oracle.clock, system.readings, first)
    modifies system`calls, system`minted, system`open, system`most, system`story, system`connected, system`configured,
      system`readings, system`latest, system`looked, system`cancelSeen
    ensures system.Valid() && system.most <= plan.options.maxInFlight
    ensures system.cancelSeen <==> r.GivesUp? && r.why == CancelSeen
    ensures r.GoesOn? ==>
      && old(system.readings) < system.readings && system.oracle.clock(old(system.readings)) < plan.overall
      && Underway(r.race, system.open, system.connected, system.story, plan, system.oracle.clock, system.readings, first)
    ensures !r.GoesOn? ==>
      && system.readings <= first + 1 + Acts(system.story)
      && (r.GivesUp? && r.why == OutOfTime ==> system.latest >= plan.overall)
      && Decided(r, system.open, system.connected, system.story, plan, system.oracle.clock, system.readings, first)
  {
    var requested := system.CancelRequested();
    if requested {
      CancelDecides(race, system.open, system.connected, system.story, plan, system.oracle.clock, system.readings, first);
      r := GivesUp(race, CancelSeen);
    } else {
      ghost var story, readings := system.story, system.readings;
      r := TakeTurn(system, plan, race);
      TurnEnds(r, race, story, system.open, system.connected, system.story, system.oracle.clock(readings),
               system.latest, plan, system.oracle.clock, readings, system.readings, first);
    }
  }

  lemma NothingBegun(started: int, plan: Plan, clock: nat -> int, readings: nat)
    ensures Underway(Race([], 0, started, Best(TIMED_OUT, -1)), {}, {}, NOTHING, plan, clock, readings, readings)
  {
  }

  /** The loop: lap after lap until there is a winner or a reason to give up. */
  method RaceOn(system: System, plan: Plan, started: int, ghost patience: int -> nat) returns (r: Turn)
    requires system.Valid() && system.Untouched() && Patient(system.oracle.clock, patience)
    modifies system`calls, system`minted, system`open, system`most, system`story, system`connected, system`configured,
      system`readings, system`latest, system`looked, system`cancelSeen
    ensures system.Valid() && system.most <= plan.options.maxInFlight
    ensures system.readings <= old(system.readings) + 1 + Acts(system.story)
    ensures system.cancelSeen <==> r.GivesUp? && r.why == CancelSeen
    ensures r.GivesUp? && r.why == OutOfTime ==> system.latest >= plan.overall
    ensures Decided(r, system.open, system.connected, system.story, plan, system.oracle.clock, system.readings, old(system.readings))
  {
    var race := Race([], 0, started, Best(TIMED_OUT, -1));
    ghost var first := system.readings;
    NothingBegun(started, plan, system.oracle.clock, first);
    while true
      invariant system.Valid() && !system.cancelSeen && system.most <= plan.options.maxInFlight
      invariant Underway(race, system.open, system.connected, system.story, plan, system.oracle.clock, system.readings, first)
      decreases patience(plan.overall) - system.readings
    {
      r := Lap(system, plan, race, first);
      if !r.GoesOn? {
        return;
      }
      race := r.race;
    }
  }

  /** The end of a race: the winner is handed over, or everything pending closed and the error reported. */
  method Conclude(system: System, turn: Turn) returns (r: ConnectOutcome)
    requires system.Valid() && !turn.GoesOn?
    requires if turn.Wins? then turn.attempt.socket in system.open && Own(turn.losers, system.open - {turn.attempt.socket})
             else Own(turn.race.inFlight, system.open)
    modifies system`calls, system`open, system`restored, system`offered
    ensures system.Valid()
    ensures system.open == if r.Connected? then {r.socket} else {}
    ensures if turn.Wins? then
        HandedOver(r, turn.attempt.socket, turn.attempt.address, turn.attempt.ordinal, system.restored, system.offered)
      else r == NotConnected(if turn.why == CancelSeen then CANCELLED else turn.race.best.error)
  {
    if turn.Wins? {
      r := Finish(system, turn.attempt, turn.losers);
    } else {
      CloseAll(system, turn.race.inFlight, system.open);
      r := NotConnected(if turn.why == CancelSeen then CANCELLED else turn.race.best.error);
    }
  }

  lemma OrderedSize(addresses: seq<Address>)
    ensures |Interleaved(addresses)| == |addresses|
  {
    InterleavingPermutes(addresses);
    assert |Interleaved(addresses)| == |multiset(Interleaved(addresses))| == |multiset(addresses)|;
  }

  function WhyOf(turn: Turn): Ending
    requires !turn.GoesOn?
  {
    if turn.Wins? then Won else turn.why
  }

  function WinnerOf(turn: Turn): nat
    requires !turn.GoesOn?
  {
    if turn.Wins? then turn.attempt.socket else 0
  }

  /** What a connect that had addresses to try came to: either `winner` was the first attempt to connect, and
      was handed over or not just as the system then answered; or none connected, every socket found ready
      was asked and had failed, and the error is that of a cancel or the first of the most definite ones. */
  ghost predicate Settled(r: ConnectOutcome, why: Ending, winner: nat, connected: set<nat>, restored: map<nat, int>,
    offered: map<nat, bool>, story: Story, plan: Plan, clock: nat -> int, readings: nat, first: nat) {
    if why == Won then
      && connected == {winner} && 0 < winner <= |story.starts| && Unbroken(story.waits)
      && FirstToConnect(winner, story)
      && HandedOver(r, winner, story.starts[winner - 1].address, winner, restored, offered)
    else
      && connected == {} && EndedWithout(why, story, plan, clock, readings, first)
      && r.NotConnected?
      && if why == CancelSeen then r.error == NetError(0, NetOp.Connect, Cancelled)
         else r.error == BestOf(story.setbacks).error && Reports(r.error, story.setbacks)
  }

  lemma DecidedSettles(turn: Turn, r: ConnectOutcome, open: set<nat>, connected: set<nat>, restored: map<nat, int>,
    offered: map<nat, bool>, story: Story, plan: Plan, clock: nat -> int, readings: nat, first: nat)
    requires Decided(turn, open, connected, story, plan, clock, readings, first)
    requires if turn.Wins? then
        HandedOver(r, turn.attempt.socket, turn.attempt.address, turn.attempt.ordinal, restored, offered)
      else r == NotConnected(if turn.why == CancelSeen then CANCELLED else turn.race.best.error)
    ensures Settled(r, WhyOf(turn), WinnerOf(turn), connected, restored, offered, story, plan, clock, readings, first)
  {
    BestIsReported(story.setbacks);
  }

  /** A race that has been decided is concluded. */
  method Settle(system: System, turn: Turn, plan: Plan, ghost first: nat)
    returns (r: ConnectOutcome, why: Ending, ghost winner: nat)
    requires system.Valid()
    requires Decided(turn, system.open, system.connected, system.story, plan, system.oracle.clock, system.readings, first)
    modifies system`calls, system`open, system`restored, system`offered
    ensures system.Valid() && system.open == if r.Connected? then {r.socket} else {}
    ensures why == WhyOf(turn)
    ensures Settled(r, why, winner, system.connected, system.restored, system.offered, system.story, plan,
                    system.oracle.clock, system.readings, first)
  {
    ghost var open := system.open;
    r := Conclude(system, turn);
    why, winner := WhyOf(turn), WinnerOf(turn);
    DecidedSettles(turn, r, open, system.connected, system.restored, system.offered, system.story, plan,
                   system.oracle.clock, system.readings, first);
  }

  /** The whole race: the schedule was kept, it came to its end as it should, and no sooner than it may. */
  ghost predicate RanAs(r: ConnectOutcome, why: Ending, winner: nat, connected: set<nat>, restored: map<nat, int>,
    offered: map<nat, bool>, story: Story, plan: Plan, clock: nat -> int, readings: nat, first: nat, latest: int) {
    && Scheduled(story, plan, clock)
    && Settled(r, why, winner, connected, restored, offered, story, plan, clock, readings, first)
    && (why == OutOfTime ==> latest >= plan.overall)
  }

  function PlanFor(addresses: seq<Address>, options: Options, started: int): Plan {
    Plan(Interleaved(addresses), options, started + options.overallTimeout)
  }

  method MakePlan(addresses: seq<Address>, options: Options, started: int) returns (plan: Plan)
    ensures plan == PlanFor(addresses, options, started)
  {
    var candidates := InterleaveByFamily(addresses);
    plan := Plan(candidates, options, started + options.overallTimeout);
  }

  /** The race among the candidates. `winner` is the attempt that won it, if any. */
  method RunRace(system: System, plan: Plan, started: int, ghost patience: int -> nat)
    returns (r: ConnectOutcome, why: Ending, ghost winner: nat)
    requires system.Valid() && system.Untouched() && Patient(system.oracle.clock, patience)
    modifies system
    ensures system.Valid() && system.most <= plan.options.maxInFlight
    ensures system.readings <= old(system.readings) + 1 + Acts(system.story)
    ensures system.cancelSeen <==> why == CancelSeen
    ensures system.open == if r.Connected? then {r.socket} else {}
    ensures why != NoAddresses
    ensures RanAs(r, why, winner, system.connected, system.restored, system.offered, system.story, plan, system.oracle.clock,
                  system.readings, old(system.readings), system.latest)
  {
    ghost var first := system.readings;
    var turn := RaceOn(system, plan, started, patience);
    r, why, winner := Settle(system, turn, plan, first);
  }

  /** A socket answered with this code, to connect or when asked how it fared. */
  ghost predicate Answered(story: Story, code: int) {
    || (exists n :: n in story.dialled && story.dialled[n].code == code)
    || (exists i :: 0 <= i < |story.asked| && story.asked[i].answer == Status(code))
  }

  lemma AnswersAreSetbacks(story: Story, code: int) returns (k: nat)
    requires Told(story) && Answered(story, code) && code != 0 && code != 10035
    ensures k < |story.setbacks| && story.setbacks[k].error == NetError(code, NetOp.Connect, Wsa)
  {
    var d: nat;
    if exists n :: n in story.dialled && story.dialled[n].code == code {
      d :| d in story.dialled && story.dialled[d].code == code;
    } else {
      var i :| 0 <= i < |story.asked| && story.asked[i].answer == Status(code);
      assert IsTold(story.asked[i], story.setbacks);
      d := story.asked[i].socket;
    }
    assert HasFailure(story.setbacks, d, NetError(code, NetOp.Connect, Wsa));
    k :| 0 <= k < |story.setbacks| && story.setbacks[k].attempt == d && story.setbacks[k].error == NetError(code, NetOp.Connect, Wsa);
  }

  /** Of a race that was lost with no cancel: if any attempt was refused, that is what is reported, whatever
      else happened. */
  lemma RefusalIsTold(r: ConnectOutcome, why: Ending, winner: nat, connected: set<nat>, restored: map<nat, int>,
    offered: map<nat, bool>, story: Story, plan: Plan, clock: nat -> int, readings: nat, first: nat, latest: int)
    requires RanAs(r, why, winner, connected, restored, offered, story, plan, clock, readings, first, latest)
    requires why != Won && why != CancelSeen && Answered(story, 10061)
    ensures r.NotConnected? && r.error.native == 10061 && r.error.cat == Wsa
  {
    forall i | 0 <= i < |story.setbacks|
      ensures story.setbacks[i].error.cat == Wsa || story.setbacks[i].error.cat == Timeout
    {
      assert Genuine(story.setbacks[i], story.starts, plan);
    }
    var k := AnswersAreSetbacks(story, 10061);
    RefusalIsReported(r.error, story.setbacks, k);
  }

  /** Connects to the first address that answers, as the policy promises and whatever the system answers.
      The schedule is kept, and in time: when attempts begin, on whom and for how long it waits, and that no
      attempt is given up before it fails or its deadline passes. Who wins, and that the winner is handed over
      or why it is not. That a race is lost only for a reason: a poll that broke, all time over, or every
      attempt having failed for a cause of its own; and then with the first of the most definite errors. What
      is left open; and that it ends. `winner` is the attempt that won, if any. */
  method Connect(system: System, resolved: Resolved, options: Options, ghost patience: int -> nat)
    returns (r: ConnectOutcome, why: Ending, ghost winner: nat)
    requires system.Valid() && system.Untouched() && Patient(system.oracle.clock, patience)
    modifies system
    ensures system.Valid() && system.most <= options.maxInFlight
    ensures system.open == if r.Connected? then {r.socket} else {}
    ensures system.readings <= old(system.readings) + 2 + Acts(system.story)
    ensures why == NoAddresses <==> resolved.Unresolved?
    ensures resolved.Unresolved? ==> r == NotConnected(resolved.error) && system.story == NOTHING
    ensures resolved.Addresses? ==>
      RanAs(r, why, winner, system.connected, system.restored, system.offered, system.story,
            PlanFor(resolved.addresses, options, system.oracle.clock(old(system.readings))), system.oracle.clock,
            system.readings, old(system.readings) + 1, system.latest)
    ensures system.cancelSeen <==> why == CancelSeen
    ensures why == Exhausted ==> resolved.Addresses? && |system.story.starts| == |resolved.addresses|
  {
    var started := system.Now();
    if resolved.Unresolved? {
      r, why, winner := NotConnected(resolved.error), NoAddresses, 0;
    } else {
      OrderedSize(resolved.addresses);
      var plan := MakePlan(resolved.addresses, options, started);
      r, why, winner := RunRace(system, plan, started, patience);
    }
  }
}
