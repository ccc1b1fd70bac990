/** Why a submitting caller is turned away: its own context or a closed pool, and nothing else. */
module PoolRefusals {
  import opened Pool
  import opened PoolSafety
  import opened PoolAnswers

  /** A run is its last event behind the run in front of it. */
  lemma {:induction false} LastEvent(s: State, evs: seq<Event>)
    requires Runs(s, evs) && evs != []
    ensures
      var front, ev := evs[..|evs| - 1], evs[|evs| - 1];
      && Runs(s, front) && Enabled(After(s, front), ev) && After(s, evs) == Next(After(s, front), ev)
      && (LendsAll(s, evs) ==> LendsAll(s, front))
    decreases |evs|
  {
    hide Enabled, Next, Lends;
    var front := evs[..|evs| - 1];
    if |evs| == 1 {
      assert evs[1..] == [] && front == [];
    } else {
      LastEvent(Next(s, evs[0]), evs[1..]);
      assert evs[1..][..|evs| - 2] == front[1..] && front[0] == evs[0];
    }
  }

  // The call's context ended in front of the queue, or it found the pool closed.
  ghost predicate TurnedAway(s: State, evs: seq<Event>, r: nat)
    requires Runs(s, evs)
  {
    || Leave(r) in evs
    || exists k :: 0 <= k < |evs| && evs[k] == Check(r) && Runs(s, evs[..k]) && After(s, evs[..k]).closed
  }

  // The call was refused, or came back refused.
  predicate Out(s: State, r: nat) {
    r < |s.submits| && (s.submits[r].phase.Refused? || (s.submits[r].phase == Returned(false) && r !in s.accepted))
  }

  // Its context ended while it waited for its job.
  predicate GaveUp(s: State, r: nat) {
    r < |s.submits| && s.submits[r].phase == Returned(false) && r in s.accepted
  }

  /** What a step can do to a call that was not refused. */
  lemma StepRefuses(s: State, ev: Event, r: nat)
    requires Inv(s) && Enabled(s, ev) && Out(Next(s, ev), r) && !Out(s, r)
    ensures ev == Leave(r) || (ev == Check(r) && s.closed)
  {
    hide NoReaders, WriterAhead, Closing, Locked, Worked, Distinct;
    NoPanic(s, ev);
    if !Submits(ev) { Others(s, ev); }
  }

  lemma StepGivesUp(s: State, ev: Event, r: nat)
    requires Inv(s) && Enabled(s, ev) && GaveUp(Next(s, ev), r) && !GaveUp(s, r)
    ensures ev == Abandon(r)
  {
    hide NoReaders, WriterAhead, Closing, Locked, Worked, Distinct;
    if !Submits(ev) { Others(s, ev); }
  }

  lemma Longer(s: State, evs: seq<Event>, r: nat)
    requires Runs(s, evs) && evs != [] && Runs(s, evs[..|evs| - 1]) && TurnedAway(s, evs[..|evs| - 1], r)
    ensures TurnedAway(s, evs, r)
  {
    hide Runs, After;
    var front := evs[..|evs| - 1];
    if Leave(r) !in front {
      var k :| 0 <= k < |front| && front[k] == Check(r) && Runs(s, front[..k]) && After(s, front[..k]).closed;
      assert front[..k] == evs[..k];
    }
  }

  /** A call is refused only where its own context ended or it found the pool closed. */
  lemma {:induction false} RefusedWhy(workers: int, queue: int, procs: nat, evs: seq<Event>, r: nat)
    requires procs > 0 && Runs(NewPool(workers, queue, procs), evs)
    requires Out(After(NewPool(workers, queue, procs), evs), r)
    ensures TurnedAway(NewPool(workers, queue, procs), evs, r)
    decreases |evs|
  {
    hide NewPool, Next, Enabled, Inv, Out, TurnedAway, Runs, After;
    var s := NewPool(workers, queue, procs);
    if evs == [] {
      NoCallYet(workers, queue, procs, r);
    } else {
      var front, ev := evs[..|evs| - 1], evs[|evs| - 1];
      LastEvent(s, evs);
      if Out(After(s, front), r) {
        RefusedWhy(workers, queue, procs, front, r);
        Longer(s, evs, r);
      } else {
        InitInv(workers, queue, procs);
        RunKeeps(s, front);
        StepRefuses(After(s, front), ev, r);
        LastTurns(s, evs, r);
      }
    }
  }

  lemma NoCallYet(workers: int, queue: int, procs: nat, r: nat)
    requires procs > 0
    ensures Runs(NewPool(workers, queue, procs), []) && After(NewPool(workers, queue, procs), []) == NewPool(workers, queue, procs)
    ensures !Out(NewPool(workers, queue, procs), r) && !GaveUp(NewPool(workers, queue, procs), r)
  {
  }

  lemma LastTurns(s: State, evs: seq<Event>, r: nat)
    requires Runs(s, evs) && evs != [] && Runs(s, evs[..|evs| - 1])
    requires evs[|evs| - 1] == Leave(r) || (evs[|evs| - 1] == Check(r) && After(s, evs[..|evs| - 1]).closed)
    ensures TurnedAway(s, evs, r)
  {
  }

  lemma {:induction false} GaveUpWhy(workers: int, queue: int, procs: nat, evs: seq<Event>, r: nat)
    requires procs > 0 && Runs(NewPool(workers, queue, procs), evs)
    requires GaveUp(After(NewPool(workers, queue, procs), evs), r)
    ensures Abandon(r) in evs
    decreases |evs|
  {
    hide NewPool, Next, Enabled, Inv, GaveUp, Runs, After;
    var s := NewPool(workers, queue, procs);
    if evs == [] {
      NoCallYet(workers, queue, procs, r);
    } else {
      var front, ev := evs[..|evs| - 1], evs[|evs| - 1];
      LastEvent(s, evs);
      if GaveUp(After(s, front), r) {
        GaveUpWhy(workers, queue, procs, front, r);
      } else {
        InitInv(workers, queue, procs);
        RunKeeps(s, front);
        StepGivesUp(After(s, front), ev, r);
      }
    }
  }

  /** False has one of three causes: the context ended in front of the queue, it ended while the job ran, or the pool was closed. */
  lemma FalseWhy(workers: int, queue: int, procs: nat, evs: seq<Event>, r: nat)
    requires procs > 0 && Runs(NewPool(workers, queue, procs), evs)
    requires At(After(NewPool(workers, queue, procs), evs), r, Returned(false))
    ensures
      Abandon(r) in evs || Leave(r) in evs ||
      exists k ::
        0 <= k < |evs| && evs[k] == Check(r) &&
        Runs(NewPool(workers, queue, procs), evs[..k]) && After(NewPool(workers, queue, procs), evs[..k]).closed
  {
    hide NewPool, Runs, After;
    if r in After(NewPool(workers, queue, procs), evs).accepted {
      GaveUpWhy(workers, queue, procs, evs, r);
    } else {
      RefusedWhy(workers, queue, procs, evs, r);
    }
  }

  // Nobody closes the pool.
  lemma {:induction false} StaysOpen(workers: int, queue: int, procs: nat, evs: seq<Event>)
    requires procs > 0 && Runs(NewPool(workers, queue, procs), evs) && BeginClose !in evs
    ensures After(NewPool(workers, queue, procs), evs).closers == [] && !After(NewPool(workers, queue, procs), evs).closed
    decreases |evs|
  {
    hide NewPool, Next, Enabled, Runs, After;
    var s := NewPool(workers, queue, procs);
    if evs == [] {
      NoCallYet(workers, queue, procs, 0);
      NewOpen(workers, queue, procs);
    } else {
      LastEvent(s, evs);
      StaysOpen(workers, queue, procs, evs[..|evs| - 1]);
      OpenStep(After(s, evs[..|evs| - 1]), evs[|evs| - 1]);
    }
  }

  lemma NewOpen(workers: int, queue: int, procs: nat)
    requires procs > 0
    ensures NewPool(workers, queue, procs).closers == [] && !NewPool(workers, queue, procs).closed
  {
  }

  lemma OpenStep(s: State, ev: Event)
    requires Enabled(s, ev) && !ev.BeginClose? && s.closers == [] && !s.closed
    ensures Next(s, ev).closers == [] && !Next(s, ev).closed
  {
    hide NoReaders, WriterAhead;
  }

  /**
   On a pool nobody closes, where no context ends and channels are lent one call at a time, every
   Submit that comes back heard true, and its job has returned.
   */
  lemma AllHeard(workers: int, queue: int, procs: nat, evs: seq<Event>, r: nat)
    requires procs > 0 && Runs(NewPool(workers, queue, procs), evs) && LendsAll(NewPool(workers, queue, procs), evs)
    requires BeginClose !in evs && Leave(r) !in evs && Abandon(r) !in evs
    requires r < |After(NewPool(workers, queue, procs), evs).submits|
    requires After(NewPool(workers, queue, procs), evs).submits[r].phase.Returned?
    ensures After(NewPool(workers, queue, procs), evs).submits[r].phase.ok && r in After(NewPool(workers, queue, procs), evs).ran
  {
    hide NewPool, Runs, After, LendsAll, Inv, OneLive;
    var s := NewPool(workers, queue, procs);
    var t := After(s, evs);
    if !t.submits[r].phase.ok {
      FalseWhy(workers, queue, procs, evs, r);
      var k :| 0 <= k < |evs| && evs[k] == Check(r) && Runs(s, evs[..k]) && After(s, evs[..k]).closed;
      StaysOpen(workers, queue, procs, evs[..k]);
    } else {
      InitAnswers(workers, queue, procs);
      RunAnswers(s, evs);
      assert Done(t, r);
    }
  }

  /**
   Nobody is shut out: a call may begin at any time and its context may end wherever it waits, closing
   may begin at any time, and a call in front of a queue with room can send its run.
   */
  lemma NobodyShutOut(s: State, chan: nat, r: nat)
    ensures Enabled(s, Begin(chan)) && Enabled(s, BeginClose)
    ensures Next(s, Begin(chan)).submits == s.submits + [Submit(chan, Entering)] && Next(s, BeginClose).closers == s.closers + [Starting]
    ensures At(s, r, Selecting) ==> Enabled(s, Leave(r)) && At(Next(s, Leave(r)), r, Refused)
    ensures At(s, r, Waiting) ==> Enabled(s, Abandon(r)) && At(Next(s, Abandon(r)), r, Returned(false))
    ensures At(s, r, Selecting) && |s.queue| < s.cap ==> Enabled(s, Send(r)) && Next(s, Send(r)).queue == s.queue + [r]
    ensures At(s, r, Checking) && !s.closed ==> Enabled(s, Check(r)) && At(Next(s, Check(r)), r, Selecting)
    ensures At(s, r, Entering) && s.closers == [] ==> Enabled(s, RLock(r)) && At(Next(s, RLock(r)), r, Checking)
  {
  }
}
