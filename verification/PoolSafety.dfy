/** What every interleaving of the pool keeps. */
module PoolSafety {
  import opened Pool

  predicate Distinct(s: seq<nat>) {
    forall i, j :: 0 <= i < j < |s| ==> s[i] != s[j]
  }

  // ---- the once, the locks and the flags ----

  predicate Inside(c: Closer) {
    c.Locking? || c.Holding?
  }

  /** One call at a time is in the once, and shuts the flag and the channels one after the other. */
  ghost predicate Closing(s: State) {
    && (forall k :: 0 <= k < |s.closers| && Inside(s.closers[k]) ==>
          s.once.Busy? &&
          match s.closers[k]
          case Holding(n) => n <= 3 && s.closed == (n >= 1) && s.stopClosed == (n >= 2) && s.runsClosed == (n >= 3)
          case _ => !s.closed && !s.stopClosed && !s.runsClosed)
    && (forall j, k :: 0 <= j < k < |s.closers| ==> !(Inside(s.closers[j]) && Inside(s.closers[k])))
    && (forall k :: 0 <= k < |s.closers| && (s.closers[k].Draining? || s.closers[k].Closed?) ==> s.once.Over?)
    && (s.once.Fresh? ==> !s.closed && !s.stopClosed && !s.runsClosed)
    && (s.once.Busy? ==> exists k :: 0 <= k < |s.closers| && Inside(s.closers[k]))
    && (s.once.Over? ==> s.closed && s.stopClosed && s.runsClosed)
  }

  /** The write lock shuts readers out, and a reader past the flag found it unset. */
  ghost predicate Locked(s: State) {
    && (forall k :: 0 <= k < |s.closers| && s.closers[k].Holding? ==> NoReaders(s))
    && (forall r :: 0 <= r < |s.submits| && (s.submits[r].phase.Selecting? || s.submits[r].phase.Sent?) ==> !s.closed)
  }

  // ---- the runs ----

  /** Runs start in the order they were sent, and each was sent by one call that has not come back refused. */
  ghost predicate Queued(s: State) {
    && s.accepted == s.started + s.queue && Distinct(s.accepted)
    && |s.queue| <= s.cap && 0 < s.cap
    && (forall r :: r in s.accepted ==> r < |s.submits|)
    && (forall r :: 0 <= r < |s.submits| && (s.submits[r].phase.Sent? || s.submits[r].phase.Waiting?) ==> r in s.accepted)
    && (forall r :: 0 <= r < |s.submits| && s.submits[r].phase.Returned? && s.submits[r].phase.ok ==> r in s.accepted)
    && (forall r :: 0 <= r < |s.submits| && Early(s.submits[r].phase) ==> r !in s.accepted)
  }

  predicate Early(p: Phase) {
    p.Entering? || p.Checking? || p.Selecting? || p.Refused?
  }

  predicate RunBy(s: State, w: nat, r: nat) {
    w < |s.workers| && s.workers[w] == Running(r)
  }

  /** A started run is in the hands of one worker or has run, once. */
  ghost predicate Hands(s: State) {
    && Distinct(s.ran) && (forall r :: r in s.ran ==> r in s.started)
    && (forall w :: 0 <= w < |s.workers| && s.workers[w].Running? ==> s.workers[w].run in s.started && s.workers[w].run !in s.ran)
    && (forall v, w :: 0 <= v < w < |s.workers| && s.workers[v].Running? ==> s.workers[w] != s.workers[v])
    && (forall r :: r in s.started && r !in s.ran ==> exists w :: RunBy(s, w, r))
    && (forall w :: 0 <= w < |s.workers| && s.workers[w].Signalling? ==> s.workers[w].run in s.ran)
  }

  /** A worker leaves an empty queue nobody can send to, and Close comes back when all have left. */
  ghost predicate Gone(s: State) {
    && |s.workers| > 0
    && (forall w :: 0 <= w < |s.workers| && s.workers[w].Exited? ==> s.runsClosed && s.queue == [])
    && (forall k :: 0 <= k < |s.closers| && s.closers[k].Closed? ==> forall w :: 0 <= w < |s.workers| ==> s.workers[w].Exited?)
  }

  ghost predicate Worked(s: State) {
    Hands(s) && Gone(s)
  }

  ghost predicate Inv(s: State) {
    Closing(s) && Locked(s) && Queued(s) && Worked(s)
  }

  lemma InitInv(workers: int, queue: int, procs: nat)
    requires procs > 0
    ensures Inv(NewPool(workers, queue, procs))
  {
    hide Closing, Locked, Hands, Gone, Queued;
    NewClosing(workers, queue, procs);
    NewWorked(workers, queue, procs);
  }

  lemma NewClosing(workers: int, queue: int, procs: nat)
    requires procs > 0
    ensures Closing(NewPool(workers, queue, procs)) && Locked(NewPool(workers, queue, procs))
  {
  }

  lemma NewWorked(workers: int, queue: int, procs: nat)
    requires procs > 0
    ensures Queued(NewPool(workers, queue, procs)) && Hands(NewPool(workers, queue, procs)) && Gone(NewPool(workers, queue, procs))
  {
  }

  /** A new pool has the workers and the queue it was asked for, its defaults where that is not positive, and nothing else. */
  lemma NewPoolIs(workers: int, queue: int, procs: nat)
    requires procs > 0
    ensures
      var s := NewPool(workers, queue, procs);
      && |s.workers| == (if workers > 0 then workers else procs) && (forall w :: 0 <= w < |s.workers| ==> s.workers[w].Idle?)
      && s.cap == (if queue > 0 then queue else 1024)
      && s.queue == [] && s.submits == [] && s.closers == [] && s.slots == map[] && s.once.Fresh?
  {
  }

  // ---- what a step leaves alone ----

  predicate Closes(ev: Event) {
    || ev.BeginClose? || ev.EnterOnce? || ev.PassOnce? || ev.Lock? || ev.SetClosed?
    || ev.CloseStop? || ev.CloseRuns? || ev.Unlock? || ev.Drained?
  }

  predicate Submits(ev: Event) {
    || ev.Begin? || ev.RLock? || ev.Check? || ev.Send? || ev.Leave? || ev.Stop?
    || ev.UnlockSent? || ev.UnlockRefused? || ev.Receive? || ev.Abandon?
  }

  lemma Untouched(s: State, ev: Event)
    requires Enabled(s, ev)
    ensures
      var t := Next(s, ev);
      && t.cap == s.cap && |t.workers| == |s.workers|
      && (!Submits(ev) && !ev.Take? ==> t.queue == s.queue && t.started == s.started)
      && (!Closes(ev) ==> t.closers == s.closers && t.once == s.once)
      && (!Closes(ev) ==> t.closed == s.closed && t.stopClosed == s.stopClosed && t.runsClosed == s.runsClosed)
      && (!Submits(ev) ==> t.submits == s.submits && t.accepted == s.accepted)
      && (Submits(ev) || Closes(ev) ==> t.workers == s.workers && t.started == s.started && t.ran == s.ran)
      && (Closes(ev) ==> t.queue == s.queue && t.slots == s.slots)
  {
    hide Next, Enabled;
    if Submits(ev) { ByCall(s, ev); } else if Closes(ev) { ByClose(s, ev); } else { ByWorker(s, ev); }
  }

  lemma ByCall(s: State, ev: Event)
    requires Enabled(s, ev) && Submits(ev)
    ensures
      var t := Next(s, ev);
      t == s.(submits := t.submits, queue := t.queue, accepted := t.accepted, slots := t.slots)
  {
  }

  lemma ByClose(s: State, ev: Event)
    requires Enabled(s, ev) && Closes(ev)
    ensures
      var t := Next(s, ev);
      t == s.(closers := t.closers, once := t.once, closed := t.closed, stopClosed := t.stopClosed, runsClosed := t.runsClosed)
  {
  }

  lemma ByWorker(s: State, ev: Event)
    requires Enabled(s, ev) && !Submits(ev) && !Closes(ev)
    ensures
      var t := Next(s, ev);
      && t == s.(workers := t.workers, queue := t.queue, started := t.started, ran := t.ran, slots := t.slots)
      && |t.workers| == |s.workers| && (!ev.Take? ==> t.queue == s.queue && t.started == s.started)
  {
  }

  /** A call of Submit moves on by itself, from a phase the new one may follow. */
  lemma CallMoves(s: State, ev: Event) returns (p: Phase)
    requires Enabled(s, ev) && Submits(ev) && !ev.Begin?
    ensures ev.r < |s.submits| && Next(s, ev).submits == s.submits[ev.r := s.submits[ev.r].(phase := p)]
    ensures
      var q := s.submits[ev.r].phase;
      && (Reading(p) ==> Reading(q) || !WriterAhead(s))
      && (Early(p) ==> Early(q))
      && (p.Selecting? || p.Sent? ==> q.Selecting? || !s.closed)
      && (p.Sent? ==> ev.Send?)
      && (p.Waiting? ==> q.Sent?)
      && (p.Returned? && p.ok ==> q.Waiting? && ev.Receive?)
      && !q.Returned?
    ensures ev.Send? ==> p.Sent? && s.submits[ev.r].phase.Selecting?
  {
    hide WriterAhead;
    p := Next(s, ev).submits[ev.r].phase;
  }

  lemma NewCall(s: State, ev: Event)
    requires Enabled(s, ev) && ev.Begin?
    ensures Next(s, ev) == s.(submits := s.submits + [Submit(ev.chan, Entering)])
  {
  }

  /** Only a send changes what is queued. */
  lemma CallQueues(s: State, ev: Event)
    requires Enabled(s, ev) && Submits(ev)
    ensures
      var t := Next(s, ev);
      if ev.Send? then t.queue == s.queue + [ev.r] && t.accepted == s.accepted + [ev.r]
      else t.queue == s.queue && t.accepted == s.accepted
    ensures !ev.Receive? ==> Next(s, ev).slots == s.slots
  {
  }

  // ---- closing ----

  lemma ClosingKept(s: State, ev: Event)
    requires Inv(s) && Enabled(s, ev)
    ensures Closing(Next(s, ev))
  {
    hide Queued, Worked, Locked, NoReaders, WriterAhead;
    if !Closes(ev) {
      hide Next, Enabled;
      Untouched(s, ev);
      SameClosers(s, Next(s, ev));
    } else if ev.BeginClose? || ev.EnterOnce? || ev.PassOnce? {
      Arrives(s, ev);
    } else {
      Shuts(s, ev);
    }
  }

  lemma SameClosers(s: State, t: State)
    requires Closing(s) && t.closers == s.closers && t.once == s.once
    requires t.closed == s.closed && t.stopClosed == s.stopClosed && t.runsClosed == s.runsClosed
    ensures Closing(t)
  {
  }

  lemma Arrives(s: State, ev: Event)
    requires Closing(s) && Enabled(s, ev) && (ev.BeginClose? || ev.EnterOnce? || ev.PassOnce?)
    ensures Closing(Next(s, ev))
  {
    hide NoReaders, WriterAhead;
    var t := Next(s, ev);
    if s.once.Busy? {
      var k :| 0 <= k < |s.closers| && Inside(s.closers[k]);
      assert Inside(t.closers[k]);
    }
    if ev.EnterOnce? { assert Inside(t.closers[ev.k]); }
  }

  lemma Shuts(s: State, ev: Event)
    requires Closing(s) && Enabled(s, ev)
    requires ev.Lock? || ev.SetClosed? || ev.CloseStop? || ev.CloseRuns? || ev.Unlock? || ev.Drained?
    ensures Closing(Next(s, ev))
  {
    hide NoReaders, WriterAhead;
    var t := Next(s, ev);
    if ev.Unlock? || ev.Drained? {
      Comes(s, ev);
    } else {
      assert t.closers == s.closers[ev.k := t.closers[ev.k]] && Inside(t.closers[ev.k]);
    }
  }

  lemma Comes(s: State, ev: Event)
    requires Closing(s) && Enabled(s, ev) && (ev.Unlock? || ev.Drained?)
    ensures Closing(Next(s, ev))
  {
    hide NoReaders, WriterAhead;
    var t := Next(s, ev);
    assert t.closers == s.closers[ev.k := t.closers[ev.k]] && Inside(s.closers[ev.k]) == ev.Unlock?;
  }

  lemma LockedKept(s: State, ev: Event)
    requires Inv(s) && Enabled(s, ev)
    ensures Locked(Next(s, ev))
  {
    hide Queued, Worked;
    if !Submits(ev) && !Closes(ev) {
      hide Next, Enabled;
      Untouched(s, ev);
    } else if Submits(ev) {
      Admits(s, ev);
    } else {
      ShutsOut(s, ev);
    }
  }

  /** A call gets the read lock only where no closing call is ahead of it. */
  lemma Admits(s: State, ev: Event)
    requires Locked(s) && Enabled(s, ev) && Submits(ev)
    ensures Locked(Next(s, ev))
  {
    hide Next, Enabled;
    Untouched(s, ev);
    if ev.Begin? {
      NewCall(s, ev);
    } else {
      var p := CallMoves(s, ev);
    }
  }

  /** A closing call gets the write lock only where no call reads. */
  lemma ShutsOut(s: State, ev: Event)
    requires Locked(s) && Enabled(s, ev) && Closes(ev)
    ensures Locked(Next(s, ev))
  {
    hide WriterAhead, Submits;
    ByClose(s, ev);
  }

  // ---- the queue ----

  lemma QueuedKept(s: State, ev: Event)
    requires Inv(s) && Enabled(s, ev)
    ensures Queued(Next(s, ev))
  {
    hide Worked, Distinct;
    if !Submits(ev) && !ev.Take? {
      hide Closing, Locked;
      StaysQueued(s, ev);
    } else if ev.Take? {
      hide Closing, Locked;
      TakesFirst(s, ev);
    } else if ev.Send? {
      NoPanic(s, ev);
      Sends(s, ev);
    } else {
      Calls(s, ev);
    }
  }

  lemma StaysQueued(s: State, ev: Event)
    requires Queued(s) && Enabled(s, ev) && !Submits(ev) && !ev.Take?
    ensures Queued(Next(s, ev))
  {
    hide Distinct, Next, Enabled;
    Untouched(s, ev);
  }

  lemma TakesFirst(s: State, ev: Event)
    requires Queued(s) && Enabled(s, ev) && ev.Take?
    ensures Queued(Next(s, ev))
  {
    hide Distinct;
    var t := Next(s, ev);
    assert s.started + s.queue == (s.started + [s.queue[0]]) + s.queue[1..];
  }

  lemma Sends(s: State, ev: Event)
    requires Queued(s) && Enabled(s, ev) && ev.Send? && |s.queue| < s.cap
    ensures Queued(Next(s, ev))
  {
    var t := Next(s, ev);
    assert t.accepted == s.started + (s.queue + [ev.r]);
    assert ev.r !in s.accepted;
  }

  lemma Calls(s: State, ev: Event)
    requires Queued(s) && Enabled(s, ev) && Submits(ev) && !ev.Send?
    ensures Queued(Next(s, ev))
  {
    hide Distinct, Next, Enabled, Reading, WriterAhead, Closes;
    Untouched(s, ev);
    CallQueues(s, ev);
    if ev.Begin? {
      NewCall(s, ev);
      assert |s.submits| !in s.accepted;
    } else {
      var p := CallMoves(s, ev);
    }
  }

  /** No call sends on the closed queue, and no channel is closed twice. */
  lemma NoPanic(s: State, ev: Event)
    requires Inv(s) && Enabled(s, ev)
    ensures !Panics(s, ev)
    ensures !ev.Stop?
  {
    hide Queued, Worked, NoReaders, WriterAhead;
  }

  // ---- the workers ----

  lemma WorkedKept(s: State, ev: Event)
    requires Inv(s) && Enabled(s, ev)
    ensures Worked(Next(s, ev))
  {
    hide *;
    Parts(s);
    NoPanic(s, ev);
    HandsKept(s, ev);
    GoneKept(s, ev);
    Both(Next(s, ev));
  }

  lemma Parts(s: State)
    requires Inv(s)
    ensures Closing(s) && Locked(s) && Queued(s) && Hands(s) && Gone(s)
  {
  }

  lemma Both(s: State)
    requires Hands(s) && Gone(s)
    ensures Worked(s)
  {
  }

  lemma HandsKept(s: State, ev: Event)
    requires Hands(s) && Queued(s) && Enabled(s, ev)
    ensures Hands(Next(s, ev))
  {
    if Submits(ev) || Closes(ev) {
      hide *;
      Untouched(s, ev);
      SameHands(s, Next(s, ev));
    } else if ev.Take? {
      Takes(s, ev);
    } else {
      hide Queued;
      Steps(s, ev);
    }
  }

  lemma SameHands(s: State, t: State)
    requires Hands(s) && t.workers == s.workers && t.started == s.started && t.ran == s.ran
    ensures Hands(t)
  {
    hide Distinct;
    assert forall r :: r in t.started && r !in t.ran ==> exists w :: RunBy(s, w, r) && RunBy(t, w, r);
  }

  lemma GoneKept(s: State, ev: Event)
    requires Gone(s) && Enabled(s, ev) && !Panics(s, ev)
    ensures Gone(Next(s, ev))
  {
    if Submits(ev) {
      hide Next, Enabled;
      Untouched(s, ev);
      CallQueues(s, ev);
    } else if Closes(ev) {
      ClosersGone(s, ev);
    } else {
      WorkersGone(s, ev);
    }
  }

  /** A closing call comes back when every worker has left. */
  lemma ClosersGone(s: State, ev: Event)
    requires Gone(s) && Enabled(s, ev) && Closes(ev)
    ensures Gone(Next(s, ev))
  {
    hide NoReaders, WriterAhead, Submits;
    ByClose(s, ev);
  }

  lemma WorkersGone(s: State, ev: Event)
    requires Gone(s) && Enabled(s, ev) && !Submits(ev) && !Closes(ev)
    ensures Gone(Next(s, ev))
  {
    hide NoReaders, WriterAhead;
  }

  lemma Takes(s: State, ev: Event)
    requires Hands(s) && Queued(s) && Enabled(s, ev) && ev.Take?
    ensures Hands(Next(s, ev))
  {
    var t, first := Next(s, ev), s.queue[0];
    assert s.accepted[|s.started|] == first;
    assert first !in s.started by { assert forall i :: 0 <= i < |s.started| ==> s.accepted[i] == s.started[i]; }
    assert RunBy(t, ev.w, first);
    forall r | r in t.started && r !in t.ran && r != first ensures exists w :: RunBy(t, w, r) {
      var w :| RunBy(s, w, r);
      assert RunBy(t, w, r);
    }
  }

  lemma Steps(s: State, ev: Event)
    requires Hands(s) && Enabled(s, ev) && (ev.Finish? || ev.Signal? || ev.Exit?)
    ensures Hands(Next(s, ev))
  {
    hide NoReaders, WriterAhead, Submits, Closes;
    var t := Next(s, ev);
    forall r | r in t.started && r !in t.ran ensures exists w :: RunBy(t, w, r) {
      var w :| RunBy(s, w, r);
      assert RunBy(t, w, r);
    }
  }

  /** Every step keeps everything. */
  lemma Kept(s: State, ev: Event)
    requires Inv(s) && Enabled(s, ev)
    ensures Inv(Next(s, ev))
  {
    hide *;
    ClosingKept(s, ev);
    LockedKept(s, ev);
    QueuedKept(s, ev);
    WorkedKept(s, ev);
    Conjoin(Next(s, ev));
  }

  lemma Conjoin(s: State)
    requires Closing(s) && Locked(s) && Queued(s) && Worked(s)
    ensures Inv(s)
  {
  }

  // ---- over whole runs ----

  lemma {:induction false} RunKeeps(s: State, evs: seq<Event>)
    requires Inv(s) && Runs(s, evs)
    ensures Inv(After(s, evs))
    decreases |evs|
  {
    hide Inv, Enabled, Next;
    if evs != [] {
      Kept(s, evs[0]);
      RunKeeps(Next(s, evs[0]), evs[1..]);
    }
  }

  /** Nothing panics after any run of a new pool, and no call in its select ever sees the pool stop. */
  lemma NeverPanics(workers: int, queue: int, procs: nat, evs: seq<Event>, ev: Event)
    requires procs > 0 && Runs(NewPool(workers, queue, procs), evs) && Enabled(After(NewPool(workers, queue, procs), evs), ev)
    ensures !Panics(After(NewPool(workers, queue, procs), evs), ev) && !ev.Stop?
  {
    hide *;
    InitInv(workers, queue, procs);
    RunKeeps(NewPool(workers, queue, procs), evs);
    NoPanic(After(NewPool(workers, queue, procs), evs), ev);
  }

  /**
   Every run that was sent starts once, in the order of the sends, on one worker, and its job
   returns at most once; the ones that have not started are the queue.
   */
  lemma RunsOnce(workers: int, queue: int, procs: nat, evs: seq<Event>)
    requires procs > 0 && Runs(NewPool(workers, queue, procs), evs)
    ensures
      var s := After(NewPool(workers, queue, procs), evs);
      && s.accepted == s.started + s.queue && Distinct(s.accepted) && Distinct(s.ran)
      && (forall r :: r in s.started ==> r in s.ran || exists w :: RunBy(s, w, r))
      && (forall w, r :: RunBy(s, w, r) ==> r in s.started && r !in s.ran && forall v :: RunBy(s, v, r) ==> v == w)
      && (forall r :: r in s.ran ==> r in s.started)
  {
    InitInv(workers, queue, procs);
    RunKeeps(NewPool(workers, queue, procs), evs);
    hide After, Runs, NewPool, Distinct, Closing, Locked;
    OneEach(After(NewPool(workers, queue, procs), evs));
  }

  lemma OneEach(s: State)
    requires Hands(s)
    ensures forall w, r :: RunBy(s, w, r) ==> r in s.started && r !in s.ran && forall v :: RunBy(s, v, r) ==> v == w
  {
    hide Distinct;
  }

  /** When a call of Close has come back, the queue is empty, every worker is gone and every run sent has run. */
  lemma CloseDrains(workers: int, queue: int, procs: nat, evs: seq<Event>, k: nat)
    requires procs > 0 && Runs(NewPool(workers, queue, procs), evs)
    requires k < |After(NewPool(workers, queue, procs), evs).closers|
    requires After(NewPool(workers, queue, procs), evs).closers[k].Closed?
    ensures
      var s := After(NewPool(workers, queue, procs), evs);
      && s.queue == [] && s.closed && (forall w :: 0 <= w < |s.workers| ==> s.workers[w].Exited?)
      && (forall r :: r in s.accepted <==> r in s.ran)
  {
    InitInv(workers, queue, procs);
    RunKeeps(NewPool(workers, queue, procs), evs);
    AllRan(After(NewPool(workers, queue, procs), evs), k);
  }

  lemma AllRan(s: State, k: nat)
    requires Inv(s) && k < |s.closers| && s.closers[k].Closed?
    ensures s.queue == [] && s.closed && (forall w :: 0 <= w < |s.workers| ==> s.workers[w].Exited?)
    ensures forall r :: r in s.accepted <==> r in s.ran
  {
    hide Locked, Distinct;
    assert s.workers[0].Exited?;
    assert s.accepted == s.started;
  }
}
