/** The pool gets on: without new calls every run ends, and it ends with every call returned. */
module PoolProgress {
  import opened Pool
  import opened PoolSafety
  import opened PoolAnswers

  /** A step the pool and its callers take by themselves, with no new call and no context ending. */
  predicate Internal(ev: Event) {
    !ev.Begin? && !ev.BeginClose? && !ev.Leave? && !ev.Abandon?
  }

  /** Every call of Submit and of Close has returned. */
  predicate Settled(s: State) {
    && (forall r :: 0 <= r < |s.submits| ==> s.submits[r].phase.Returned?)
    && (forall k :: 0 <= k < |s.closers| ==> s.closers[k].Closed?)
  }

  predicate Resting(s: State) {
    forall w :: 0 <= w < |s.workers| ==> s.workers[w].Idle? || s.workers[w].Exited?
  }

  /** While a call has not returned, some step can be taken, senders on a full queue and a pending Close included. */
  lemma NoStuck(s: State) returns (ev: Event)
    requires Answers(s) && !Settled(s)
    ensures Internal(ev) && Enabled(s, ev)
  {
    hide Settled, Answers;
    if w :| 0 <= w < |s.workers| && s.workers[w].Running? {
      ev := Finish(w);
    } else if w :| 0 <= w < |s.workers| && s.workers[w].Signalling? {
      SlotFree(s, w);
      ev := Signal(w);
    } else if s.queue != [] {
      ev := Taken(s);
    } else if k :| 0 <= k < |s.closers| && s.closers[k].Holding? {
      ev := Shutting(s, k);
    } else if r :| 0 <= r < |s.submits| && Reading(s.submits[r].phase) {
      ev := Read(s, r);
    } else if k :| 0 <= k < |s.closers| && s.closers[k].Locking? {
      ev := Lock(k);
    } else if r :| 0 <= r < |s.submits| && s.submits[r].phase.Entering? {
      ev := RLock(r);
    } else if r :| 0 <= r < |s.submits| && s.submits[r].phase.Waiting? {
      Heard(s, r);
      ev := Receive(r);
    } else {
      ev := Closers(s);
    }
  }

  lemma Taken(s: State) returns (ev: Event)
    requires Answers(s) && Resting(s) && s.queue != []
    ensures Internal(ev) && Enabled(s, ev)
  {
    hide OneLive, Signals, Closing, Locked, Queued, Hands;
    assert s.workers[0].Idle?;
    ev := Take(0);
  }

  lemma Shutting(s: State, k: nat) returns (ev: Event)
    requires Answers(s) && k < |s.closers| && s.closers[k].Holding?
    ensures Internal(ev) && Enabled(s, ev)
  {
    hide OneLive, Signals, Locked, Queued, Worked;
    var n := s.closers[k].shut;
    ev := if n == 0 then SetClosed(k) else if n == 1 then CloseStop(k) else if n == 2 then CloseRuns(k) else Unlock(k);
  }

  lemma Read(s: State, r: nat) returns (ev: Event)
    requires Answers(s) && r < |s.submits| && Reading(s.submits[r].phase) && s.queue == []
    ensures Internal(ev) && Enabled(s, ev)
  {
    hide OneLive, Signals, Locked, Closing, Worked, Distinct;
    match s.submits[r].phase
    case Checking => ev := Check(r);
    case Selecting => ev := Send(r);
    case Sent => ev := UnlockSent(r);
    case Refused => ev := UnlockRefused(r);
  }

  /** With every worker at rest and nothing queued, the signal of a waiting call is there. */
  lemma Heard(s: State, r: nat)
    requires Answers(s) && Resting(s) && s.queue == [] && r < |s.submits| && s.submits[r].phase.Waiting?
    ensures Enabled(s, Receive(r))
  {
    hide OneLive, Locked, Closing, Distinct, Gone;
    assert s.accepted == s.started;
    assert r in s.ran by { assert forall w: nat :: !RunBy(s, w, r); }
    assert forall w: nat :: !SignalledBy(s, w, r);
    assert InSlot(s, r);
  }

  lemma Closers(s: State) returns (ev: Event)
    requires Answers(s) && Resting(s) && s.queue == [] && !Settled(s)
    requires forall k :: 0 <= k < |s.closers| ==> !Inside(s.closers[k])
    requires forall r :: 0 <= r < |s.submits| ==> s.submits[r].phase.Returned?
    ensures Internal(ev) && Enabled(s, ev)
  {
    hide OneLive, Signals, Locked, Queued, Hands, Gone;
    var k :| 0 <= k < |s.closers| && !s.closers[k].Closed?;
    if s.closers[k].Starting? {
      ev := if s.once.Fresh? then EnterOnce(k) else PassOnce(k);
    } else if w :| 0 <= w < |s.workers| && s.workers[w].Idle? {
      ev := Exit(w);
    } else {
      ev := Drained(k);
    }
  }

  // ---- every step but a new call uses something up ----

  function Total<T>(s: seq<T>, weigh: T -> nat): nat {
    if s == [] then 0 else Total(s[..|s| - 1], weigh) + weigh(s[|s| - 1])
  }

  lemma {:induction false} TotalAt<T>(s: seq<T>, weigh: T -> nat, i: nat, x: T)
    requires i < |s|
    ensures Total(s[i := x], weigh) + weigh(s[i]) == Total(s, weigh) + weigh(x)
    decreases |s|
  {
    var n := |s| - 1;
    if i == n {
      assert s[i := x][..n] == s[..n];
    } else {
      assert s[i := x][..n] == s[..n][i := x];
      TotalAt(s[..n], weigh, i, x);
    }
  }

  function OfPhase(b: Submit): nat {
    match b.phase
    case Entering => 9
    case Checking => 8
    case Selecting => 7
    case Sent => 3
    case Waiting => 2
    case Refused => 1
    case Returned(_) => 0
  }

  function OfWorker(w: Worker): nat {
    match w
    case Running(_) => 3
    case Signalling(_) => 2
    case Idle => 1
    case Exited => 0
  }

  function OfCloser(c: Closer): nat {
    match c
    case Starting => 7
    case Locking => 6
    case Holding(n) => if n <= 3 then 5 - n else 2
    case Draining => 1
    case Closed => 0
  }

  /** What is left to do for the calls there are. */
  function Left(s: State): nat {
    Total(s.submits, OfPhase) + Total(s.workers, OfWorker) + Total(s.closers, OfCloser) + 3 * |s.queue|
  }

  lemma Uses(s: State, ev: Event)
    requires Enabled(s, ev) && !ev.Begin? && !ev.BeginClose?
    ensures Left(Next(s, ev)) < Left(s)
  {
    hide Next, Enabled, Left;
    if Submits(ev) {
      CallUses(s, ev);
    } else if Closes(ev) {
      CloseUses(s, ev);
    } else {
      WorkUses(s, ev);
    }
  }

  lemma CallUses(s: State, ev: Event)
    requires Enabled(s, ev) && Submits(ev) && !ev.Begin?
    ensures Left(Next(s, ev)) < Left(s)
  {
    hide Total, NoReaders, WriterAhead, Closes, OfWorker, OfCloser;
    var t := Next(s, ev);
    TotalAt(s.submits, OfPhase, ev.r, t.submits[ev.r]);
    assert t.submits == s.submits[ev.r := t.submits[ev.r]];
  }

  lemma CloseUses(s: State, ev: Event)
    requires Enabled(s, ev) && Closes(ev) && !ev.BeginClose?
    ensures Left(Next(s, ev)) < Left(s)
  {
    hide Total, NoReaders, WriterAhead, Submits, OfPhase, OfWorker;
    var t := Next(s, ev);
    TotalAt(s.closers, OfCloser, ev.k, t.closers[ev.k]);
    assert t.closers == s.closers[ev.k := t.closers[ev.k]];
  }

  lemma WorkUses(s: State, ev: Event)
    requires Enabled(s, ev) && !Submits(ev) && !Closes(ev)
    ensures Left(Next(s, ev)) < Left(s)
  {
    hide Total, NoReaders, WriterAhead, OfPhase, OfCloser;
    var t := Next(s, ev);
    TotalAt(s.workers, OfWorker, ev.w, t.workers[ev.w]);
    assert t.workers == s.workers[ev.w := t.workers[ev.w]];
  }

  predicate NoCalls(evs: seq<Event>) {
    forall i :: 0 <= i < |evs| ==> !evs[i].Begin? && !evs[i].BeginClose?
  }

  lemma {:induction false} RunUses(s: State, evs: seq<Event>)
    requires Runs(s, evs) && NoCalls(evs)
    ensures |evs| + Left(After(s, evs)) <= Left(s)
    decreases |evs|
  {
    hide Enabled, Next, Left;
    if evs != [] {
      Uses(s, evs[0]);
      RunUses(Next(s, evs[0]), evs[1..]);
    }
  }

  /**
   From any state a pool can get into, a run without new calls takes no more steps than are left,
   and where it cannot go on by itself every Submit and every Close has returned.
   */
  lemma CallsReturn(workers: int, queue: int, procs: nat, before: seq<Event>, evs: seq<Event>)
    requires procs > 0 && Runs(NewPool(workers, queue, procs), before) && LendsAll(NewPool(workers, queue, procs), before)
    requires Runs(After(NewPool(workers, queue, procs), before), evs) && NoCalls(evs)
    ensures
      var s := After(NewPool(workers, queue, procs), before);
      && |evs| <= Left(s)
      && (Settled(After(s, evs)) || exists ev :: Internal(ev) && Enabled(After(s, evs), ev))
  {
    hide After, Runs, LendsAll, NewPool, Answers, Settled, Internal, Enabled, Left;
    var s := After(NewPool(workers, queue, procs), before);
    InitAnswers(workers, queue, procs);
    RunAnswers(NewPool(workers, queue, procs), before);
    RunUses(s, evs);
    LendsNothing(s, evs);
    RunAnswers(s, evs);
    if !Settled(After(s, evs)) { var ev := NoStuck(After(s, evs)); }
  }

  lemma {:induction false} LendsNothing(s: State, evs: seq<Event>)
    requires Runs(s, evs) && NoCalls(evs)
    ensures LendsAll(s, evs)
    decreases |evs|
  {
    hide Enabled, Next;
    if evs != [] { LendsNothing(Next(s, evs[0]), evs[1..]); }
  }
}
