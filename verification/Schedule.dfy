/** When candidates are begun, what is waited for and for how long, and what retires an attempt: the policy
    of a connect (sections 4 and 5 of RFC 8305), as properties of what the system was asked and answered. */
module Schedule {
  import opened Tokens
  import opened Streams
  import opened Interleaving
  import opened Winsock
  import opened Attempts

  datatype Options = Options(attemptDelay: int, candidateTimeout: int, overallTimeout: int, maxInFlight: nat)

  /** The candidates in order, the policy, and when all time is over. */
  datatype Plan = Plan(candidates: seq<Address>, options: Options, overall: int)

  function DeadlineOf(start: Start, plan: Plan): int {
    Min(start.at + plan.options.candidateTimeout, plan.overall)
  }

  // ---- Starts ----

  /** The candidates begun so far are the first of the list, each once, in order and in time; when one was
      begun, fewer than the cap were pending; and if any was, the one before it had had its head start. */
  ghost predicate Paced(starts: seq<Start>, plan: Plan) {
    && |starts| <= |plan.candidates|
    && (forall k :: 0 <= k < |starts| ==>
          starts[k].address == plan.candidates[k] && starts[k].at < plan.overall && starts[k].others < plan.options.maxInFlight)
    && (forall i, j :: 0 <= i < j < |starts| && j == i + 1 && starts[j].others > 0 ==>
          starts[j].at >= starts[i].at + plan.options.attemptDelay)
  }

  // ---- Waits ----

  /** When the next candidate may be begun, if one is left. */
  function NextStart(w: Wait, starts: seq<Start>, plan: Plan): Option<int>
    requires 0 < w.started <= |starts|
  {
    if w.started < |plan.candidates| then Some(starts[w.started - 1].at + plan.options.attemptDelay) else None
  }

  /** One of the attempts waited on has a deadline of `t`, or by then. */
  ghost predicate HasDeadlineBy(sockets: seq<nat>, starts: seq<Start>, plan: Plan, t: int) {
    exists d :: d in sockets && 0 < d <= |starts| && DeadlineOf(starts[d - 1], plan) <= t
  }

  ghost predicate HasDeadlineAt(sockets: seq<nat>, starts: seq<Start>, plan: Plan, t: int) {
    exists d :: d in sockets && 0 < d <= |starts| && DeadlineOf(starts[d - 1], plan) == t
  }

  ghost predicate DeadlinesFrom(sockets: seq<nat>, starts: seq<Start>, plan: Plan, t: int) {
    forall d :: d in sockets && 0 < d <= |starts| ==> t <= DeadlineOf(starts[d - 1], plan)
  }

  /** The next start is due, or the deadline of an attempt waited on. */
  ghost predicate SomethingDue(w: Wait, starts: seq<Start>, plan: Plan)
    requires 0 < w.started <= |starts|
  {
    var next := NextStart(w, starts, plan);
    || (next.Some? && next.value <= w.at)
    || HasDeadlineBy(w.sockets, starts, plan, w.at)
  }

  /** The wait is over when all time is, when the next start is due and when the deadline of an attempt waited
      on is. */
  ghost predicate EndsInTime(w: Wait, starts: seq<Start>, plan: Plan)
    requires 0 < w.started <= |starts|
  {
    var next, end := NextStart(w, starts, plan), w.at + w.milliseconds;
    && end <= plan.overall && (next.Some? ==> end <= next.value)
    && DeadlinesFrom(w.sockets, starts, plan, end)
  }

  /** And no sooner, unless the slice is. */
  ghost predicate EndsWithCause(w: Wait, starts: seq<Start>, plan: Plan)
    requires 0 < w.started <= |starts|
  {
    var next, end := NextStart(w, starts, plan), w.at + w.milliseconds;
    || end == plan.overall || next == Some(end)
    || HasDeadlineAt(w.sockets, starts, plan, end)
  }

  /** A wait begun in time and for want of anything to begin: while candidates remain, the cap was reached or
      the next one was not due. It is empty if and only if something is due, and otherwise ends just when
      something will be. */
  ghost predicate Patiently(w: Wait, starts: seq<Start>, plan: Plan) {
    && 0 < w.started <= |starts| && 0 <= w.milliseconds <= 200 && w.at < plan.overall
    && (w.started < |plan.candidates| ==>
          |w.sockets| == plan.options.maxInFlight || w.at < starts[w.started - 1].at + plan.options.attemptDelay)
    && (w.milliseconds == 0 <==> SomethingDue(w, starts, plan))
    && (w.milliseconds > 0 ==> EndsInTime(w, starts, plan))
    && (0 < w.milliseconds < 200 ==> EndsWithCause(w, starts, plan))
  }

  ghost predicate Prompt(waits: seq<Wait>, starts: seq<Start>, plan: Plan) {
    forall k :: 0 <= k < |waits| ==> Patiently(waits[k], starts, plan)
  }

  // ---- Who is waited on ----

  /** After this wait the attempt is done with: it was found ready, or its deadline had passed. */
  ghost predicate Retires(w: Wait, n: nat, deadline: int, clock: nat -> int) {
    !w.broke && n <= w.started && (n in w.ready || deadline <= clock(w.reading))
  }

  /** Of the first `begun` attempts, the `n`th is pending after these waits: connect left it pending, and
      none of the waits retired it. */
  ghost predicate Pending(n: nat, begun: nat, story: Story, waits: seq<Wait>, plan: Plan, clock: nat -> int) {
    && 1 <= n <= begun <= |story.starts|
    && n in story.dialled && story.dialled[n].code == 10035
    && forall k :: 0 <= k < |waits| ==> !Retires(waits[k], n, DeadlineOf(story.starts[n - 1], plan), clock)
  }

  /** The `k`th wait is on every attempt then pending, and on nothing else, each once. */
  ghost predicate WaitsOnPending(story: Story, k: nat, plan: Plan, clock: nat -> int)
    requires k < |story.waits|
  {
    var w := story.waits[k];
    && (forall n :: n in w.sockets <==> Pending(n, w.started, story, story.waits[..k], plan, clock))
    && (forall i, j :: 0 <= i < j < |w.sockets| ==> w.sockets[i] < w.sockets[j])
  }

  /** Each attempt was dialled to its own candidate. */
  ghost predicate DialledRight(story: Story) {
    forall n :: n in story.dialled ==> 1 <= n <= |story.starts| && story.dialled[n].address == story.starts[n - 1].address
  }

  /** A setback is what the system answered; or a timeout, against an attempt only past its deadline, and against
      none only past them all. */
  ghost predicate Genuine(setback: Setback, starts: seq<Start>, plan: Plan) {
    || setback.error.cat == Wsa
    || (setback.error.cat == Timeout
        && if setback.attempt == 0 then setback.at >= plan.overall
           else setback.attempt <= |starts| && setback.at >= DeadlineOf(starts[setback.attempt - 1], plan))
  }

  ghost predicate AllGenuine(setbacks: seq<Setback>, starts: seq<Start>, plan: Plan) {
    forall k :: 0 <= k < |setbacks| ==> Genuine(setbacks[k], starts, plan)
  }

  ghost predicate NoneAbandoned(story: Story, plan: Plan, clock: nat -> int) {
    && DialledRight(story) && AllGenuine(story.setbacks, story.starts, plan)
    && forall k :: 0 <= k < |story.waits| ==> WaitsOnPending(story, k, plan, clock)
  }

  /** The schedule was kept: starts paced, waits prompt and on every attempt pending, and no wait on nothing
      unless the cap forbids every attempt. */
  ghost predicate Scheduled(story: Story, plan: Plan, clock: nat -> int) {
    && Paced(story.starts, plan)
    && Prompt(story.waits, story.starts, plan)
    && (plan.options.maxInFlight >= 1 ==> story.naps == 0)
    && NoneAbandoned(story, plan, clock)
  }

  /** Busy polling. While the cap holds back a candidate that is due, every wait is empty, for as long as the
      attempts pending stay silent: there is nothing else for a connect in this state to do, and it does not
      pause. */
  lemma CappedWaitsAreEmpty(story: Story, plan: Plan, clock: nat -> int, k: nat)
    requires Scheduled(story, plan, clock) && k < |story.waits| && story.waits[k].started < |plan.candidates|
    requires var w := story.waits[k]; 0 < w.started <= |story.starts| && NextStart(w, story.starts, plan).value <= w.at
    ensures story.waits[k].milliseconds == 0 && |story.waits[k].sockets| == plan.options.maxInFlight
  {
    assert Patiently(story.waits[k], story.starts, plan);
  }

  // ---- One more start ----

  lemma PromptGrows(waits: seq<Wait>, starts: seq<Start>, more: seq<Start>, plan: Plan)
    requires Prompt(waits, starts, plan) && starts <= more && forall k :: 0 <= k < |waits| ==> OnEarlier(waits[k])
    ensures Prompt(waits, more, plan)
  {
    forall k | 0 <= k < |waits|
      ensures Patiently(waits[k], more, plan)
    {
      assert OnEarlier(waits[k]);
      PatientStill(waits[k], starts, more, plan);
    }
  }

  /** Only attempts begun before it are waited on. */
  ghost predicate OnEarlier(w: Wait) {
    forall d :: d in w.sockets ==> 0 < d <= w.started
  }

  lemma PatientStill(w: Wait, starts: seq<Start>, more: seq<Start>, plan: Plan)
    requires Patiently(w, starts, plan) && starts <= more && OnEarlier(w)
    ensures Patiently(w, more, plan)
  {
    assert forall d :: d in w.sockets ==> starts[d - 1] == more[d - 1];
  }

  lemma PendingIsEarlier(story: Story, plan: Plan, clock: nat -> int)
    requires NoneAbandoned(story, plan, clock)
    ensures forall k :: 0 <= k < |story.waits| ==> OnEarlier(story.waits[k])
  {
    forall k | 0 <= k < |story.waits|
      ensures OnEarlier(story.waits[k])
    {
      assert WaitsOnPending(story, k, plan, clock);
    }
  }

  lemma PacedGrows(starts: seq<Start>, start: Start, plan: Plan)
    requires Paced(starts, plan)
    requires var n := |starts|;
      && n < |plan.candidates| && start.address == plan.candidates[n] && start.at < plan.overall
      && start.others < plan.options.maxInFlight
      && (n == 0 || start.others == 0 || start.at >= starts[n - 1].at + plan.options.attemptDelay)
    ensures Paced(starts + [start], plan)
  {
  }

  /** The story with one more start, which dialled at most its own candidate. */
  ghost predicate OneStartOn(story: Story, story': Story, start: Start) {
    && story'.starts == story.starts + [start] && story'.waits == story.waits && story'.naps == story.naps
    && (story'.dialled == story.dialled
        || exists code :: story'.dialled == story.dialled[|story.starts| + 1 := Dial(start.address, code)])
  }

  /** Who was pending before a start is afterwards, after any of the waits so far. */
  lemma PendingStill(n: nat, begun: nat, story: Story, story': Story, start: Start, waits: seq<Wait>, plan: Plan, clock: nat -> int)
    requires OneStartOn(story, story', start) && begun <= |story.starts|
    ensures Pending(n, begun, story', waits, plan, clock) <==> Pending(n, begun, story, waits, plan, clock)
  {
    if 1 <= n <= begun { assert story'.starts[n - 1] == story.starts[n - 1]; }
  }

  lemma GenuineStill(setbacks: seq<Setback>, starts: seq<Start>, more: seq<Start>, plan: Plan)
    requires AllGenuine(setbacks, starts, plan) && starts <= more
    ensures AllGenuine(setbacks, more, plan)
  {
    forall k | 0 <= k < |setbacks|
      ensures Genuine(setbacks[k], more, plan)
    {
      assert Genuine(setbacks[k], starts, plan);
    }
  }

  lemma NoneAbandonedAtStart(story: Story, story': Story, start: Start, plan: Plan, clock: nat -> int)
    requires NoneAbandoned(story, plan, clock) && OneStartOn(story, story', start)
    requires forall k :: 0 <= k < |story.waits| ==> story.waits[k].started <= |story.starts|
    requires AllGenuine(story'.setbacks, story'.starts, plan)
    ensures NoneAbandoned(story', plan, clock)
  {
    forall k | 0 <= k < |story'.waits|
      ensures WaitsOnPending(story', k, plan, clock)
    {
      var w := story.waits[k];
      assert WaitsOnPending(story, k, plan, clock);
      forall n: nat
        ensures n in w.sockets <==> Pending(n, w.started, story', story'.waits[..k], plan, clock)
      {
        PendingStill(n, w.started, story, story', start, story.waits[..k], plan, clock);
      }
    }
  }

  lemma OneMoreStart(story: Story, story': Story, start: Start, plan: Plan, clock: nat -> int)
    requires Scheduled(story, plan, clock) && OneStartOn(story, story', start)
    requires Paced(story'.starts, plan) && AllGenuine(story'.setbacks, story'.starts, plan)
    ensures Scheduled(story', plan, clock)
  {
    PendingIsEarlier(story, plan, clock);
    PromptGrows(story.waits, story.starts, story'.starts, plan);
    assert forall k :: 0 <= k < |story.waits| ==> Patiently(story.waits[k], story.starts, plan);
    NoneAbandonedAtStart(story, story', start, plan, clock);
  }

  // ---- One more wait ----

  lemma PromptAfterWait(waits: seq<Wait>, w: Wait, starts: seq<Start>, plan: Plan)
    requires Prompt(waits, starts, plan) && Patiently(w, starts, plan)
    ensures Prompt(waits + [w], starts, plan)
  {
    var more := waits + [w];
    forall k | 0 <= k < |more|
      ensures Patiently(more[k], starts, plan)
    {
      if k < |waits| { assert more[k] == waits[k]; }
    }
  }

  /** The story with one more wait, and whatever befell attempts at its end. */
  ghost predicate OneWaitOn(story: Story, story': Story, w: Wait) {
    story' == story.(waits := story.waits + [w], asked := story'.asked, setbacks := story'.setbacks)
  }

  lemma NoneAbandonedAtWait(story: Story, story': Story, w: Wait, plan: Plan, clock: nat -> int)
    requires NoneAbandoned(story, plan, clock) && OneWaitOn(story, story', w)
    requires forall n :: n in w.sockets <==> Pending(n, w.started, story, story.waits, plan, clock)
    requires forall i, j :: 0 <= i < j < |w.sockets| ==> w.sockets[i] < w.sockets[j]
    requires AllGenuine(story'.setbacks, story'.starts, plan)
    ensures NoneAbandoned(story', plan, clock)
  {
    forall k | 0 <= k < |story'.waits|
      ensures WaitsOnPending(story', k, plan, clock)
    {
      assert story'.waits[..k] == story.waits[..k];
      if k < |story.waits| {
        assert WaitsOnPending(story, k, plan, clock);
        SameWhoPend(story, story', story.waits[k].started, story.waits[..k], plan, clock);
      } else {
        assert story.waits[..k] == story.waits;
        SameWhoPend(story, story', w.started, story.waits, plan, clock);
      }
    }
  }

  lemma SameWhoPend(story: Story, story': Story, begun: nat, waits: seq<Wait>, plan: Plan, clock: nat -> int)
    requires story'.starts == story.starts && story'.dialled == story.dialled
    ensures forall n :: Pending(n, begun, story', waits, plan, clock) <==> Pending(n, begun, story, waits, plan, clock)
  {
  }

  lemma OneMoreWait(story: Story, story': Story, w: Wait, plan: Plan, clock: nat -> int)
    requires Scheduled(story, plan, clock) && OneWaitOn(story, story', w) && Patiently(w, story.starts, plan)
    requires forall n :: n in w.sockets <==> Pending(n, w.started, story, story.waits, plan, clock)
    requires forall i, j :: 0 <= i < j < |w.sockets| ==> w.sockets[i] < w.sockets[j]
    requires AllGenuine(story'.setbacks, story'.starts, plan)
    ensures Scheduled(story', plan, clock)
  {
    PromptAfterWait(story.waits, w, story.starts, plan);
    NoneAbandonedAtWait(story, story', w, plan, clock);
  }

  /** After one more wait, pending is who was before it and was not retired by it. */
  lemma PendingAfterWait(n: nat, story: Story, story': Story, w: Wait, plan: Plan, clock: nat -> int)
    requires OneWaitOn(story, story', w)
    ensures Pending(n, |story'.starts|, story', story'.waits, plan, clock) <==>
      && Pending(n, |story.starts|, story, story.waits, plan, clock)
      && !Retires(w, n, DeadlineOf(story.starts[n - 1], plan), clock)
  {
    var more := story.waits + [w];
    assert more[|story.waits|] == w;
    assert forall k :: 0 <= k < |story.waits| ==> more[k] == story.waits[k];
  }

  // ---- Setbacks ----

  lemma GenuineGrows(setbacks: seq<Setback>, more: seq<Setback>, starts: seq<Start>, plan: Plan)
    requires AllGenuine(setbacks, starts, plan) && setbacks <= more
    requires forall k :: |setbacks| <= k < |more| ==> Genuine(more[k], starts, plan)
    ensures AllGenuine(more, starts, plan)
  {
    forall k | 0 <= k < |more|
      ensures Genuine(more[k], starts, plan)
    {
      if k < |setbacks| { assert more[k] == setbacks[k]; }
    }
  }

  // ---- What no schedule does ----

  /** An attempt's time is the candidate timeout from its start, or what all time leaves of it. Nobody is
      waited on after a wait that ended past it, or that found them ready; and nobody connect left pending is
      not waited on before. */
  lemma AttemptsHaveTheirTime(story: Story, plan: Plan, clock: nat -> int, k: nat, n: nat)
    requires Scheduled(story, plan, clock) && k < |story.waits| && 1 <= n <= story.waits[k].started
    ensures n <= |story.starts|
    ensures var due := story.starts[n - 1].at + plan.options.candidateTimeout;
      n in story.waits[k].sockets <==>
        && n in story.dialled && story.dialled[n].code == 10035
        && forall j :: 0 <= j < k && !story.waits[j].broke && n <= story.waits[j].started ==>
             && n !in story.waits[j].ready
             && clock(story.waits[j].reading) < due && clock(story.waits[j].reading) < plan.overall
  {
    assert Patiently(story.waits[k], story.starts, plan) && WaitsOnPending(story, k, plan, clock);
    var before := story.waits[..k];
    var due := DeadlineOf(story.starts[n - 1], plan);
    if Pending(n, story.waits[k].started, story, before, plan, clock) {
      forall j | 0 <= j < k && !story.waits[j].broke && n <= story.waits[j].started
        ensures n !in story.waits[j].ready && clock(story.waits[j].reading) < due
      {
        assert !Retires(before[j], n, due, clock);
      }
    }
  }
}
