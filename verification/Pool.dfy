/**
 The worker pool as a state machine: every step is one channel, lock or flag operation of a
 submitting caller, a worker or a closing caller, and a run is any interleaving of them.
 */
module Pool {

  // A call of Submit. Its place in the list of calls names its run.
  datatype Phase =
    | Entering            // in front of the read lock
    | Checking            // holds the read lock, in front of the closed flag
    | Selecting           // holds the read lock, in the select that sends the run
    | Sent                // holds the read lock, the run is queued
    | Refused             // holds the read lock, the run was not queued
    | Waiting             // in the select on the completion channel
    | Returned(ok: bool)

  datatype Submit = Submit(chan: nat, phase: Phase)

  datatype Worker = Idle | Running(run: nat) | Signalling(run: nat) | Exited

  // A call of Close. Holding counts the flag and the channels it has closed under the write lock.
  datatype Closer = Starting | Locking | Holding(shut: nat) | Draining | Closed

  // The once in front of closing: nobody is in it, one call is, or it is over.
  datatype Once = Fresh | Busy | Over

  datatype State = State(
    cap: nat,
    queue: seq<nat>,
    closed: bool,
    stopClosed: bool,
    runsClosed: bool,
    once: Once,
    workers: seq<Worker>,
    submits: seq<Submit>,
    closers: seq<Closer>,
    slots: map<nat, nat>,    // completion channel -> the run whose signal it holds
    accepted: seq<nat>,      // every run ever sent, in order
    started: seq<nat>,       // every run ever received, in order
    ran: seq<nat>)           // every run whose job has returned, in order

  datatype Event =
    | Begin(chan: nat) | RLock(r: nat) | Check(r: nat)
    | Send(r: nat) | Leave(r: nat) | Stop(r: nat) | UnlockSent(r: nat) | UnlockRefused(r: nat)
    | Receive(r: nat) | Abandon(r: nat)
    | Take(w: nat) | Finish(w: nat) | Signal(w: nat) | Exit(w: nat)
    | BeginClose | EnterOnce(k: nat) | PassOnce(k: nat) | Lock(k: nat)
    | SetClosed(k: nat) | CloseStop(k: nat) | CloseRuns(k: nat) | Unlock(k: nat) | Drained(k: nat)

  const DEFAULT_QUEUE := 1024

  /** A pool of so many workers on a queue of that depth, each with its default where it is not positive. */
  function NewPool(workers: int, queue: int, procs: nat): State
    requires procs > 0
  {
    var n: nat := if workers <= 0 then procs else workers;
    State(if queue <= 0 then DEFAULT_QUEUE else queue, [], false, false, false, Fresh,
      seq(n, i requires 0 <= i < n => Idle), [], [], map[], [], [], [])
  }

  predicate Reading(p: Phase) {
    p.Checking? || p.Selecting? || p.Sent? || p.Refused?
  }

  /** A closing call waits for the write lock or holds it; no new reader gets in. */
  predicate WriterAhead(s: State) {
    exists k :: 0 <= k < |s.closers| && (s.closers[k].Locking? || s.closers[k].Holding?)
  }

  predicate NoReaders(s: State) {
    forall r :: 0 <= r < |s.submits| ==> !Reading(s.submits[r].phase)
  }

  predicate At(s: State, r: nat, p: Phase) {
    r < |s.submits| && s.submits[r].phase == p
  }

  predicate HoldsAt(s: State, k: nat, shut: nat) {
    k < |s.closers| && s.closers[k] == Holding(shut)
  }

  /** The step can be taken. A context may end at any time. */
  predicate Enabled(s: State, ev: Event) {
    match ev
    case Begin(_) => true
    case RLock(r) => At(s, r, Entering) && !WriterAhead(s)
    case Check(r) => At(s, r, Checking)
    case Send(r) => At(s, r, Selecting) && (|s.queue| < s.cap || s.runsClosed)
    case Leave(r) => At(s, r, Selecting)
    case Stop(r) => At(s, r, Selecting) && s.stopClosed
    case UnlockSent(r) => At(s, r, Sent)
    case UnlockRefused(r) => At(s, r, Refused)
    case Receive(r) => At(s, r, Waiting) && s.submits[r].chan in s.slots
    case Abandon(r) => At(s, r, Waiting)
    case Take(w) => w < |s.workers| && s.workers[w].Idle? && s.queue != []
    case Finish(w) => w < |s.workers| && s.workers[w].Running?
    case Signal(w) =>
      && w < |s.workers| && s.workers[w].Signalling? && s.workers[w].run < |s.submits|
      && s.submits[s.workers[w].run].chan !in s.slots
    case Exit(w) => w < |s.workers| && s.workers[w].Idle? && s.queue == [] && s.runsClosed
    case BeginClose => true
    case EnterOnce(k) => k < |s.closers| && s.closers[k].Starting? && s.once.Fresh?
    case PassOnce(k) => k < |s.closers| && s.closers[k].Starting? && s.once.Over?
    case Lock(k) => k < |s.closers| && s.closers[k].Locking? && NoReaders(s)
    case SetClosed(k) => HoldsAt(s, k, 0)
    case CloseStop(k) => HoldsAt(s, k, 1)
    case CloseRuns(k) => HoldsAt(s, k, 2)
    case Unlock(k) => HoldsAt(s, k, 3)
    case Drained(k) =>
      && k < |s.closers| && s.closers[k].Draining?
      && forall w :: 0 <= w < |s.workers| ==> s.workers[w].Exited?
  }

  /** A send on a closed channel and a second close of one both panic. */
  predicate Panics(s: State, ev: Event) {
    (ev.Send? && s.runsClosed) || (ev.CloseStop? && s.stopClosed) || (ev.CloseRuns? && s.runsClosed)
  }

  function Move(s: State, r: nat, p: Phase): State
    requires r < |s.submits|
  {
    s.(submits := s.submits[r := s.submits[r].(phase := p)])
  }

  function Work(s: State, w: nat, p: Worker): State
    requires w < |s.workers|
  {
    s.(workers := s.workers[w := p])
  }

  function Shut(s: State, k: nat, p: Closer): State
    requires k < |s.closers|
  {
    s.(closers := s.closers[k := p])
  }

  function Next(s: State, ev: Event): State
    requires Enabled(s, ev)
  {
    match ev
    case Begin(chan) => s.(submits := s.submits + [Submit(chan, Entering)])
    case RLock(r) => Move(s, r, Checking)
    case Check(r) => Move(s, r, if s.closed then Refused else Selecting)
    case Send(r) => Move(s, r, Sent).(queue := s.queue + [r], accepted := s.accepted + [r])
    case Leave(r) => Move(s, r, Refused)
    case Stop(r) => Move(s, r, Refused)
    case UnlockSent(r) => Move(s, r, Waiting)
    case UnlockRefused(r) => Move(s, r, Returned(false))
    case Receive(r) => Move(s, r, Returned(true)).(slots := s.slots - {s.submits[r].chan})
    case Abandon(r) => Move(s, r, Returned(false))
    case Take(w) => Work(s, w, Running(s.queue[0])).(queue := s.queue[1..], started := s.started + [s.queue[0]])
    case Finish(w) => Work(s, w, Signalling(s.workers[w].run)).(ran := s.ran + [s.workers[w].run])
    case Signal(w) =>
      var run := s.workers[w].run;
      Work(s, w, Idle).(slots := s.slots[s.submits[run].chan := run])
    case Exit(w) => Work(s, w, Exited)
    case BeginClose => s.(closers := s.closers + [Starting])
    case EnterOnce(k) => Shut(s, k, Locking).(once := Busy)
    case PassOnce(k) => Shut(s, k, Draining)
    case Lock(k) => Shut(s, k, Holding(0))
    case SetClosed(k) => Shut(s, k, Holding(1)).(closed := true)
    case CloseStop(k) => Shut(s, k, Holding(2)).(stopClosed := true)
    case CloseRuns(k) => Shut(s, k, Holding(3)).(runsClosed := true)
    case Unlock(k) => Shut(s, k, Draining).(once := Over)
    case Drained(k) => Shut(s, k, Closed)
  }

  /** The events can be taken one after the other. */
  predicate Runs(s: State, evs: seq<Event>)
    decreases |evs|
  {
    evs == [] || (Enabled(s, evs[0]) && Runs(Next(s, evs[0]), evs[1..]))
  }

  function After(s: State, evs: seq<Event>): State
    requires Runs(s, evs)
    decreases |evs|
  {
    if evs == [] then s else After(Next(s, evs[0]), evs[1..])
  }
}
