/** Cancelling a connection from other threads, as interleaved steps: the owner attaches its socket,
    reads and closes; any number of threads cancel; and the operating system hands closed descriptors
    out again at once. Each step is one action between two of which any other thread may run. */
module Cancellation {
  import opened Tokens

  // ---- States ----

  datatype Who = Mine | Theirs

  /** What the thread that owns the stream is doing. */
  datatype OwnerAt =
    | NoSocket
    | Created                              // the socket exists; it is not attached
    | Attaching                            // in attach_cancel_socket, mutex held
    | AttachDecided(accepted: bool)        // the same, about to release the mutex
    | Refused                              // attach said no; the socket is still open
    | Ready                                // the stream is in use
    | Checked                              // in read: the flag was clear, recv is not entered
    | Receiving(interrupted: bool)         // in recv
    | Taking                               // in take_cancel_socket, mutex held
    | TakeDecided                          // the same, about to release the mutex
    | Taken                                // about to close the descriptor
    | Gone(refused: bool)                  // closed

  /** What a cancelling thread is doing. `reached` is the descriptor CancelIoEx was issued on, if any;
      `closing` says that the owner had by then taken the descriptor back. */
  datatype CancelAt =
    | Waiting                                          // the flag is set; the mutex is not held
    | Holding
    | Issued(reached: Option<nat>, closing: bool)      // about to release the mutex
    | Finished(reached: Option<nat>, closing: bool)

  datatype Holder = OwnerHolds | CancelHolds(id: nat)

  /** `socket` and `requested` are the fields of CancelState; `open` is the system's table of open
      descriptors. */
  datatype World = World(
    owner: OwnerAt,
    fd: nat,
    socket: Option<nat>,
    requested: bool,
    mutex: Option<Holder>,
    open: map<nat, Who>,
    cancels: map<nat, CancelAt>)

  /** Before anything has happened; other connections hold whatever they hold. */
  ghost predicate Initial(w: World) {
    && w.owner == NoSocket && w.socket == None && !w.requested && w.mutex == None && w.cancels == map[]
    && forall d :: d in w.open ==> w.open[d] == Theirs
  }

  // ---- Steps ----

  datatype Step =
    | Create(fd: nat)
    | EnterAttach | DecideAttach | LeaveAttach | DropRefused
    | BeginRead | EnterRecv | LeaveRecv
    | EnterTake | DecideTake | LeaveTake | CloseSocket
    | StartCancel(id: nat) | EnterCancel(id: nat) | Issue(id: nat) | LeaveCancel(id: nat)
    | OthersOpen(fd: nat) | OthersClose(fd: nat)

  predicate CancelIs(w: World, id: nat, at: CancelAt) {
    id in w.cancels && w.cancels[id] == at
  }

  predicate Enabled(w: World, step: Step) {
    match step
    case Create(fd) => w.owner == NoSocket && fd !in w.open
    case EnterAttach => w.owner == Created && w.mutex == None
    case DecideAttach => w.owner == Attaching
    case LeaveAttach => w.owner.AttachDecided?
    case DropRefused => w.owner == Refused
    case BeginRead => w.owner == Ready
    case EnterRecv => w.owner == Checked
    case LeaveRecv => w.owner.Receiving?
    case EnterTake => w.owner == Ready && w.mutex == None
    case DecideTake => w.owner == Taking
    case LeaveTake => w.owner == TakeDecided
    case CloseSocket => w.owner == Taken
    case StartCancel(id) => id !in w.cancels
    case EnterCancel(id) => CancelIs(w, id, Waiting) && w.mutex == None
    case Issue(id) => CancelIs(w, id, Holding)
    case LeaveCancel(id) => id in w.cancels && w.cancels[id].Issued?
    case OthersOpen(fd) => fd !in w.open
    case OthersClose(fd) => fd in w.open && w.open[fd] == Theirs
  }

  predicate HasTaken(owner: OwnerAt) {
    owner == TakeDecided || owner == Taken || owner == Gone(false)
  }

  function Take(w: World, step: Step): World
    requires Enabled(w, step)
  {
    match step
    case Create(fd) => w.(owner := Created, fd := fd, open := w.open[fd := Mine])
    case EnterAttach => w.(owner := Attaching, mutex := Some(OwnerHolds))
    case DecideAttach =>
      if w.requested then w.(owner := AttachDecided(false))
      else w.(owner := AttachDecided(true), socket := Some(w.fd))
    case LeaveAttach => w.(owner := if w.owner.accepted then Ready else Refused, mutex := None)
    case DropRefused => w.(owner := Gone(true), open := w.open - {w.fd})
    case BeginRead => if w.requested then w else w.(owner := Checked)
    case EnterRecv => w.(owner := Receiving(false))
    case LeaveRecv => w.(owner := Ready)
    case EnterTake => w.(owner := Taking, mutex := Some(OwnerHolds))
    case DecideTake => w.(owner := TakeDecided, socket := None)
    case LeaveTake => w.(owner := Taken, mutex := None)
    case CloseSocket => w.(owner := Gone(false), open := w.open - {w.fd})
    case StartCancel(id) => w.(requested := true, cancels := w.cancels[id := Waiting])
    case EnterCancel(id) => w.(mutex := Some(CancelHolds(id)), cancels := w.cancels[id := Holding])
    case Issue(id) =>
      w.(cancels := w.cancels[id := Issued(w.socket, HasTaken(w.owner))],
         owner := if w.socket == Some(w.fd) && w.owner.Receiving? then Receiving(true) else w.owner)
    case LeaveCancel(id) =>
      w.(mutex := None, cancels := w.cancels[id := Finished(w.cancels[id].reached, w.cancels[id].closing)])
    case OthersOpen(fd) => w.(open := w.open[fd := Theirs])
    case OthersClose(fd) => w.(open := w.open - {fd})
  }

  /** A run: the worlds it goes through, one step apart. */
  ghost predicate IsRun(run: seq<World>) {
    && run != [] && Initial(run[0])
    && forall i :: 0 <= i < |run| - 1 ==> Moves(run[i], run[i + 1])
  }

  ghost predicate Moves(w: World, w': World) {
    exists step :: Enabled(w, step) && w' == Take(w, step)
  }

  // ---- The invariant ----

  /** The socket is attached: between attach's decision and take's. */
  predicate IsAttached(owner: OwnerAt) {
    owner == AttachDecided(true) || owner == Ready || owner == Checked || owner.Receiving? || owner == Taking
  }

  predicate OwnerInside(owner: OwnerAt) {
    owner == Attaching || owner.AttachDecided? || owner == Taking || owner == TakeDecided
  }

  predicate CancelInside(at: CancelAt) {
    at == Holding || at.Issued?
  }

  predicate Undecided(owner: OwnerAt) {
    owner == NoSocket || owner == Created || owner == Attaching
  }

  predicate WasRefused(owner: OwnerAt) {
    owner == AttachDecided(false) || owner == Refused || owner == Gone(true)
  }

  /** What a cancel that has looked at the socket knows. */
  ghost predicate Settled(w: World, reached: Option<nat>, closing: bool) {
    match reached
    case Some(d) => d == w.fd && !Undecided(w.owner)
    case None => if closing then HasTaken(w.owner) else Undecided(w.owner) || WasRefused(w.owner)
  }

  /** The descriptor of this stream, and no other, is the owner's for as long as its socket lives. */
  ghost predicate Owned(w: World) {
    && (w.owner != NoSocket && !w.owner.Gone? ==> w.fd in w.open && w.open[w.fd] == Mine)
    && (forall d :: d in w.open && w.open[d] == Mine ==> d == w.fd && w.owner != NoSocket && !w.owner.Gone?)
    && w.socket == if IsAttached(w.owner) then Some(w.fd) else None
  }

  ghost predicate Locked(w: World) {
    && (w.mutex == Some(OwnerHolds) <==> OwnerInside(w.owner))
    && (forall id :: id in w.cancels ==> (CancelInside(w.cancels[id]) <==> w.mutex == Some(CancelHolds(id))))
    && (forall id :: w.mutex == Some(CancelHolds(id)) ==> id in w.cancels)
  }

  ghost predicate Known(w: World) {
    && (w.requested <==> w.cancels != map[])
    && (WasRefused(w.owner) || w.owner == Receiving(true) ==> w.cancels != map[])
    && (forall id :: id in w.cancels && (w.cancels[id].Issued? || w.cancels[id].Finished?) ==>
          Settled(w, w.cancels[id].reached, w.cancels[id].closing))
  }

  ghost predicate Inv(w: World) {
    Owned(w) && Locked(w) && Known(w)
  }

  lemma InitialInv(w: World)
    requires Initial(w)
    ensures Inv(w)
  {
  }

  /** Steps that leave the owner's state and its socket as they are. */
  predicate LeavesOwner(step: Step) {
    step.StartCancel? || step.EnterCancel? || step.LeaveCancel? || step.OthersOpen? || step.OthersClose?
  }

  lemma OthersKeepOwned(w: World, step: Step)
    requires Owned(w) && Enabled(w, step) && LeavesOwner(step)
    ensures Owned(Take(w, step))
  {
  }

  lemma SocketStepsKeepOwned(w: World, step: Step)
    requires Owned(w) && Enabled(w, step) && (step.Create? || step.DropRefused? || step.CloseSocket?)
    ensures Owned(Take(w, step))
  {
  }

  lemma StepKeepsOwned(w: World, step: Step)
    requires Owned(w) && Enabled(w, step)
    ensures Owned(Take(w, step))
  {
    if LeavesOwner(step) {
      OthersKeepOwned(w, step);
    } else if step.Create? || step.DropRefused? || step.CloseSocket? {
      SocketStepsKeepOwned(w, step);
    } else {
      assert Take(w, step).open == w.open;
    }
  }

  lemma StepKeepsLocked(w: World, step: Step)
    requires Inv(w) && Enabled(w, step)
    ensures Locked(Take(w, step))
  {
    match step
    case StartCancel(id) =>
    case EnterCancel(id) =>
    case Issue(id) =>
    case LeaveCancel(id) =>
    case _ => assert Take(w, step).cancels == w.cancels;
  }

  lemma CancelKeepsKnown(w: World, step: Step)
    requires Inv(w) && Enabled(w, step) && LeavesOwner(step)
    ensures Known(Take(w, step))
  {
    match step
    case StartCancel(id) =>
    case EnterCancel(id) =>
    case LeaveCancel(id) =>
    case _ =>
  }

  lemma IssueKeepsKnown(w: World, id: nat)
    requires Inv(w) && Enabled(w, Issue(id))
    ensures Known(Take(w, Issue(id)))
  {
  }

  /** The owner decides only while no cancel is inside, so what a cancel saw stays true of it. */
  lemma StepKeepsKnown(w: World, step: Step)
    requires Inv(w) && Enabled(w, step)
    ensures Known(Take(w, step))
  {
    if LeavesOwner(step) {
      CancelKeepsKnown(w, step);
    } else if step.Issue? {
      IssueKeepsKnown(w, step.id);
    } else {
      assert Take(w, step).cancels == w.cancels;
    }
  }

  lemma StepKeepsInv(w: World, step: Step)
    requires Inv(w) && Enabled(w, step)
    ensures Inv(Take(w, step))
  {
    StepKeepsOwned(w, step);
    StepKeepsLocked(w, step);
    StepKeepsKnown(w, step);
  }

  lemma {:induction false} RunKeepsInv(run: seq<World>, i: nat)
    requires IsRun(run) && i < |run|
    ensures Inv(run[i])
    decreases i
  {
    if i == 0 {
      InitialInv(run[0]);
    } else {
      RunKeepsInv(run, i - 1);
      assert Moves(run[i - 1], run[i - 1 + 1]);
      var step :| Enabled(run[i - 1], step) && run[i] == Take(run[i - 1], step);
      StepKeepsInv(run[i - 1], step);
    }
  }

  // ---- Safety ----

  /** In every interleaving, CancelIoEx is only ever issued on the descriptor of this stream, still open
      and still its own, however descriptors are handed out again; and so is recv. */
  lemma OnlyOwnDescriptorsAreTouched(run: seq<World>, i: nat)
    requires IsRun(run) && i < |run|
    ensures var w := run[i];
      && (forall id :: Enabled(w, Issue(id)) && w.socket.Some? ==>
            w.socket == Some(w.fd) && w.fd in w.open && w.open[w.fd] == Mine)
      && (w.owner.Receiving? ==> w.fd in w.open && w.open[w.fd] == Mine)
  {
    RunKeepsInv(run, i);
  }

  /** Once attach has decided and a cancel has finished: attach was refused, or the cancel reached the
      attached socket, or close had already taken it when the cancel looked. */
  lemma NoCancelIsLost(run: seq<World>, i: nat, id: nat)
    requires IsRun(run) && i < |run|
    requires id in run[i].cancels && run[i].cancels[id].Finished?
    requires !Undecided(run[i].owner)
    ensures var w := run[i]; var cancel := w.cancels[id];
      || WasRefused(w.owner)
      || cancel.reached == Some(w.fd)
      || (cancel.closing && HasTaken(w.owner))
  {
    RunKeepsInv(run, i);
  }

  /** The mutex is held by one thread at a time. */
  lemma MutualExclusion(run: seq<World>, i: nat, id: nat, id': nat)
    requires IsRun(run) && i < |run|
    requires id in run[i].cancels && CancelInside(run[i].cancels[id])
    ensures !OwnerInside(run[i].owner)
    ensures id' in run[i].cancels && CancelInside(run[i].cancels[id']) ==> id' == id
  {
    RunKeepsInv(run, i);
  }

  predicate InRead(owner: OwnerAt) {
    owner == Checked || owner.Receiving?
  }

  /** A recv that is pending when a cancel looks at the socket is interrupted by it. */
  lemma PendingRecvIsInterrupted(run: seq<World>, i: nat, id: nat)
    requires IsRun(run) && i < |run|
    requires Enabled(run[i], Issue(id)) && run[i].owner.Receiving?
    ensures Take(run[i], Issue(id)).owner == Receiving(true)
  {
    RunKeepsInv(run, i);
  }

  lemma NoReadStarts(w: World, w': World)
    requires Moves(w, w')
    requires w.requested && !InRead(w.owner)
    ensures w'.requested && !InRead(w'.owner)
  {
    var step :| Enabled(w, step) && w' == Take(w, step);
    match step
    case Issue(id) =>
    case StartCancel(id) =>
    case EnterRecv =>
    case _ =>
  }

  /** Once cancelled, a stream with no read under way never gets past the flag into recv again. */
  lemma {:induction false} NoReadAfterCancel(run: seq<World>, i: nat, j: nat)
    requires IsRun(run) && i <= j < |run|
    requires run[i].requested && !InRead(run[i].owner)
    ensures run[j].requested && !InRead(run[j].owner)
    decreases j
  {
    if i < j {
      NoReadAfterCancel(run, i, j - 1);
      assert Moves(run[j - 1], run[j - 1 + 1]);
      NoReadStarts(run[j - 1], run[j]);
    }
  }

  /** Reading, and not to be interrupted: past the flag, or in a recv no cancel has reached. */
  predicate Unstopped(owner: OwnerAt) {
    owner == Checked || owner == Receiving(false)
  }

  lemma StaysStopped(w: World, w': World)
    requires Moves(w, w')
    requires w.requested && !Unstopped(w.owner)
    ensures w'.requested && !Unstopped(w'.owner)
  {
    var step :| Enabled(w, step) && w' == Take(w, step);
    match step
    case Issue(id) =>
    case StartCancel(id) =>
    case EnterRecv =>
    case _ =>
  }

  lemma {:induction false} RunStaysStopped(run: seq<World>, i: nat, j: nat)
    requires IsRun(run) && i <= j < |run|
    requires run[i].requested && !Unstopped(run[i].owner)
    ensures !Unstopped(run[j].owner) && run[j].requested
    decreases j
  {
    if i < j {
      RunStaysStopped(run, i, j - 1);
      assert Moves(run[j - 1], run[j - 1 + 1]);
      StaysStopped(run[j - 1], run[j]);
    }
  }

  /** A longer run in which some recv is entered, or stays, uninterrupted. */
  ghost predicate ReadsOn(run: seq<World>, longer: seq<World>) {
    IsRun(longer) && run <= longer && longer[|longer| - 1].owner == Receiving(false)
  }

  ghost predicate CanReadOn(run: seq<World>) {
    exists longer :: ReadsOn(run, longer)
  }

  lemma CheckedReadsOn(run: seq<World>, id: nat)
    requires IsRun(run) && Enabled(run[|run| - 1], Issue(id)) && run[|run| - 1].owner == Checked
    ensures CanReadOn(run + [Take(run[|run| - 1], Issue(id))])
  {
    var seen := Extended(run, Issue(id), Take(run[|run| - 1], Issue(id)));
    var longer := Extended(seen, EnterRecv, Take(seen[|run|], EnterRecv));
    assert ReadsOn(seen, longer);
  }

  lemma OthersDoNotReadOn(run: seq<World>, id: nat, longer: seq<World>)
    requires IsRun(run) && Enabled(run[|run| - 1], Issue(id)) && run[|run| - 1].owner != Checked
    ensures !ReadsOn(run + [Take(run[|run| - 1], Issue(id))], longer)
  {
    var seen := run + [Take(run[|run| - 1], Issue(id))];
    RunKeepsInv(run, |run| - 1);
    if ReadsOn(seen, longer) {
      assert longer[|run|] == seen[|run|];
      RunStaysStopped(longer, |run|, |longer| - 1);
    }
  }

  /** The race the source documents, exactly: a cancel that looks at the socket can be followed by an
      uninterrupted recv if and only if it looks while a read is between its look at the flag and its recv.
      In every other state the recv under way is interrupted and no other is ever entered. */
  lemma TheRaceExactly(run: seq<World>, id: nat)
    requires IsRun(run) && Enabled(run[|run| - 1], Issue(id))
    ensures CanReadOn(run + [Take(run[|run| - 1], Issue(id))]) <==> run[|run| - 1].owner == Checked
  {
    if run[|run| - 1].owner == Checked {
      CheckedReadsOn(run, id);
    } else {
      var seen := run + [Take(run[|run| - 1], Issue(id))];
      if CanReadOn(seen) {
        var longer :| ReadsOn(seen, longer);
        OthersDoNotReadOn(run, id, longer);
      }
    }
  }

  // ---- What is not cancelled goes on ----

  /** In every run: the flag is set if and only if some cancel was begun. */
  lemma OnlyCancelsRequest(run: seq<World>, i: nat)
    requires IsRun(run) && i < |run|
    ensures run[i].requested <==> run[i].cancels != map[]
  {
    RunKeepsInv(run, i);
  }

  /** So with no cancel begun, attaching is not refused, no read stops at the flag, and no recv is interrupted;
      and none has been. */
  lemma NothingStopsUncancelled(run: seq<World>, i: nat)
    requires IsRun(run) && i < |run| && run[i].cancels == map[]
    ensures var w := run[i];
      && !WasRefused(w.owner) && w.owner != Receiving(true)
      && (w.owner == Attaching ==> Take(w, DecideAttach).owner == AttachDecided(true) && Take(w, DecideAttach).socket == Some(w.fd))
      && (w.owner == Ready ==> Take(w, BeginRead).owner == Checked)
  {
    RunKeepsInv(run, i);
  }

  /** Attaching is refused if and only if a cancel was begun by the time it decides; and a read stops at the flag
      if and only if one was begun by the time it looks. */
  lemma CancelsStop(run: seq<World>, i: nat)
    requires IsRun(run) && i < |run|
    ensures var w := run[i];
      && (w.owner == Attaching ==> (Take(w, DecideAttach).owner == AttachDecided(false) <==> w.cancels != map[]))
      && (w.owner == Ready ==> (Take(w, BeginRead) == w <==> w.cancels != map[]))
  {
    RunKeepsInv(run, i);
  }

  /** A read with no cancel begun: past the flag, into recv and back, with nothing else changed. */
  lemma AReadReturns(run: seq<World>, i: nat)
    requires IsRun(run) && i < |run| && run[i].cancels == map[] && run[i].owner == Ready
    ensures var w := run[i];
      var checked := w.(owner := Checked); var receiving := w.(owner := Receiving(false));
      && Enabled(w, BeginRead) && Take(w, BeginRead) == checked
      && Enabled(checked, EnterRecv) && Take(checked, EnterRecv) == receiving
      && Enabled(receiving, LeaveRecv) && Take(receiving, LeaveRecv) == w
  {
    RunKeepsInv(run, i);
  }

  /** A recv returns from wherever it is, interrupted or not. */
  lemma RecvReturns(w: World)
    requires w.owner.Receiving?
    ensures Enabled(w, LeaveRecv) && Take(w, LeaveRecv) == w.(owner := Ready)
  {
  }

  /** A cancel begun while nobody holds the mutex, and left alone: it sets the flag, issues CancelIoEx on the
      socket if one is attached, interrupting a recv pending on it, and leaves. */
  lemma ACancelFinishes(run: seq<World>, i: nat, id: nat)
    requires IsRun(run) && i < |run| && run[i].mutex == None && id !in run[i].cancels
    ensures var w := run[i];
      var begun := w.(requested := true, cancels := w.cancels[id := Waiting]);
      var holding := begun.(mutex := Some(CancelHolds(id)), cancels := w.cancels[id := Holding]);
      var issued := holding.(cancels := w.cancels[id := Issued(w.socket, HasTaken(w.owner))],
                             owner := if w.owner.Receiving? then Receiving(true) else w.owner);
      && Enabled(w, StartCancel(id)) && Take(w, StartCancel(id)) == begun
      && Enabled(begun, EnterCancel(id)) && Take(begun, EnterCancel(id)) == holding
      && Enabled(holding, Issue(id)) && Take(holding, Issue(id)) == issued
      && Enabled(issued, LeaveCancel(id))
      && Take(issued, LeaveCancel(id)) == issued.(mutex := None, cancels := w.cancels[id := Finished(w.socket, HasTaken(w.owner))])
  {
    RunKeepsInv(run, i);
    var w := run[i];
    assert w.cancels[id := Waiting][id := Holding] == w.cancels[id := Holding];
    assert w.cancels[id := Holding][id := Issued(w.socket, HasTaken(w.owner))] == w.cancels[id := Issued(w.socket, HasTaken(w.owner))];
  }

  /** Attaching, left alone: accepted with the socket in the cancel state, or refused if a cancel was begun. */
  lemma AnAttachFinishes(run: seq<World>, i: nat)
    requires IsRun(run) && i < |run| && run[i].mutex == None && run[i].owner == Created
    ensures var w := run[i];
      var inside := w.(owner := Attaching, mutex := Some(OwnerHolds));
      var decided := if w.cancels == map[] then inside.(owner := AttachDecided(true), socket := Some(w.fd))
                     else inside.(owner := AttachDecided(false));
      && Enabled(w, EnterAttach) && Take(w, EnterAttach) == inside
      && Enabled(inside, DecideAttach) && Take(inside, DecideAttach) == decided
      && Enabled(decided, LeaveAttach)
      && Take(decided, LeaveAttach) == decided.(owner := if w.cancels == map[] then Ready else Refused, mutex := None)
  {
    RunKeepsInv(run, i);
  }

  /** Closing, left alone: the socket is taken out of the cancel state, and only then closed. */
  lemma ACloseFinishes(run: seq<World>, i: nat)
    requires IsRun(run) && i < |run| && run[i].mutex == None && run[i].owner == Ready
    ensures var w := run[i];
      var inside := w.(owner := Taking, mutex := Some(OwnerHolds));
      var decided := inside.(owner := TakeDecided, socket := None);
      var taken := decided.(owner := Taken, mutex := None);
      && Enabled(w, EnterTake) && Take(w, EnterTake) == inside
      && Enabled(inside, DecideTake) && Take(inside, DecideTake) == decided
      && Enabled(decided, LeaveTake) && Take(decided, LeaveTake) == taken
      && Enabled(taken, CloseSocket) && Take(taken, CloseSocket) == taken.(owner := Gone(false), open := w.open - {w.fd})
  {
  }

  /** In every reachable world each thread that is not done can take its next step, or waits for the mutex, which
      is held by a thread that can take its own. */
  ghost predicate CanStep(w: World, holder: Holder) {
    match holder
    case OwnerHolds => Enabled(w, DecideAttach) || Enabled(w, LeaveAttach) || Enabled(w, DecideTake) || Enabled(w, LeaveTake)
    case CancelHolds(id) => Enabled(w, Issue(id)) || Enabled(w, LeaveCancel(id))
  }

  lemma NobodyIsStuck(run: seq<World>, i: nat)
    requires IsRun(run) && i < |run|
    ensures var w := run[i];
      && (w.mutex.Some? ==> CanStep(w, w.mutex.value))
      && (forall id :: id in w.cancels && w.cancels[id] == Waiting && w.mutex == None ==> Enabled(w, EnterCancel(id)))
      && (w.owner == Created && w.mutex == None ==> Enabled(w, EnterAttach))
      && (w.owner == Ready && w.mutex == None ==> Enabled(w, EnterTake))
  {
    RunKeepsInv(run, i);
  }

  /** A run, beside connections `other`, that ends in an uninterrupted recv although a cancel has reached
      the socket and finished. */
  ghost predicate RacedRun(run: seq<World>, other: map<nat, Who>) {
    && IsRun(run) && run[0].open == other
    && var w := run[|run| - 1];
      w.owner == Receiving(false) && CancelIs(w, 0, Finished(Some(w.fd), false))
  }

  lemma Move(w: World, step: Step, w': World)
    requires Enabled(w, step) && w' == Take(w, step)
    ensures Moves(w, w')
  {
  }

  /** A stream attached, before any cancel. */
  function Attached(other: map<nat, Who>, owner: OwnerAt): World {
    World(owner, 0, Some(0), false, None, other[0 := Mine], map[])
  }

  /** The same with one cancel under way. */
  function Raced(other: map<nat, Who>, owner: OwnerAt, mutex: Option<Holder>, at: CancelAt): World {
    World(owner, 0, Some(0), true, mutex, other[0 := Mine], map[0 := at])
  }

  lemma RaceBegins(other: map<nat, Who>) returns (run: seq<World>)
    requires forall d :: d in other ==> other[d] == Theirs
    requires 0 !in other
    ensures IsRun(run) && run[0].open == other && run[|run| - 1] == Attached(other, Checked)
  {
    var mine := other[0 := Mine];
    var w0 := World(NoSocket, 0, None, false, None, other, map[]);
    var w1 := World(Created, 0, None, false, None, mine, map[]);
    var w2 := World(Attaching, 0, None, false, Some(OwnerHolds), mine, map[]);
    var w3 := World(AttachDecided(true), 0, Some(0), false, Some(OwnerHolds), mine, map[]);
    Move(w0, Create(0), w1);
    Move(w1, EnterAttach, w2);
    Move(w2, DecideAttach, w3);
    Move(w3, LeaveAttach, Attached(other, Ready));
    Move(Attached(other, Ready), BeginRead, Attached(other, Checked));
    run := [w0, w1, w2, w3, Attached(other, Ready), Attached(other, Checked)];
  }

  lemma Extended(run: seq<World>, step: Step, w: World) returns (longer: seq<World>)
    requires IsRun(run) && Enabled(run[|run| - 1], step) && w == Take(run[|run| - 1], step)
    ensures IsRun(longer) && longer == run + [w]
  {
    Move(run[|run| - 1], step, w);
    longer := run + [w];
  }

  lemma RaceMeets(other: map<nat, Who>) returns (run: seq<World>)
    requires forall d :: d in other ==> other[d] == Theirs
    requires 0 !in other
    ensures IsRun(run) && run[0].open == other
    ensures run[|run| - 1] == Raced(other, Checked, Some(CancelHolds(0)), Holding)
  {
    run := RaceBegins(other);
    run := Extended(run, StartCancel(0), Raced(other, Checked, None, Waiting));
    run := Extended(run, EnterCancel(0), Raced(other, Checked, Some(CancelHolds(0)), Holding));
  }

  lemma RaceGoesOn(other: map<nat, Who>) returns (run: seq<World>)
    requires forall d :: d in other ==> other[d] == Theirs
    requires 0 !in other
    ensures IsRun(run) && run[0].open == other
    ensures run[|run| - 1] == Raced(other, Checked, Some(CancelHolds(0)), Issued(Some(0), false))
  {
    run := RaceMeets(other);
    run := Extended(run, Issue(0), Raced(other, Checked, Some(CancelHolds(0)), Issued(Some(0), false)));
  }

  /** The race the source documents is real: a cancel can finish, having reached the socket, between a
      read's look at the flag and its recv, and that recv is then not interrupted. */
  lemma KnownRace(other: map<nat, Who>)
    requires forall d :: d in other ==> other[d] == Theirs
    requires 0 !in other
    ensures exists run :: RacedRun(run, other)
  {
    var run := RaceGoesOn(other);
    run := Extended(run, LeaveCancel(0), Raced(other, Checked, None, Finished(Some(0), false)));
    run := Extended(run, EnterRecv, Raced(other, Receiving(false), None, Finished(Some(0), false)));
    assert RacedRun(run, other);
  }
}
