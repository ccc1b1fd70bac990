/** What a submitting caller hears, where nobody lends a channel whose last run it did not see finish. */
module PoolAnswers {
  import opened Pool
  import opened PoolSafety

  /** The call is over and its run is too: it was seen to finish, or never accepted. */
  predicate Spent(s: State, r: nat) {
    Done(s, r) || (r < |s.submits| && s.submits[r].phase == Returned(false) && r !in s.accepted)
  }

  /** A lender lends a channel again only where every call it lent it to is over, and its run too. */
  ghost predicate Lends(s: State, ev: Event) {
    ev.Begin? ==> forall r: nat :: 0 <= r < |s.submits| && s.submits[r].chan == ev.chan ==> Spent(s, r)
  }

  ghost predicate LendsAll(s: State, evs: seq<Event>)
    requires Runs(s, evs)
    decreases |evs|
  {
    evs == [] || (Lends(s, evs[0]) && LendsAll(Next(s, evs[0]), evs[1..]))
  }

  predicate SignalledBy(s: State, w: nat, r: nat) {
    w < |s.workers| && s.workers[w] == Signalling(r)
  }

  predicate Done(s: State, r: nat) {
    r < |s.submits| && s.submits[r].phase == Returned(true)
  }

  /** The signal of a run stands in the slot of its channel. */
  predicate InSlot(s: State, r: nat) {
    r < |s.submits| && s.submits[r].chan in s.slots && s.slots[s.submits[r].chan] == r
  }

  /** Of two calls on one channel the earlier is spent. */
  ghost predicate OneLive(s: State) {
    forall q: nat, r: nat :: q < r < |s.submits| && s.submits[q].chan == s.submits[r].chan ==> Spent(s, q)
  }

  /** The signal of a run that returned is in the hands of one worker, in its slot, or was heard. */
  ghost predicate Signals(s: State) {
    && (forall c :: c in s.slots ==> InSlot(s, s.slots[c]) && s.submits[s.slots[c]].chan == c)
    && (forall r: nat :: InSlot(s, r) ==> r in s.ran && !Done(s, r) && forall w: nat :: !SignalledBy(s, w, r))
    && (forall v: nat, w: nat, r: nat :: SignalledBy(s, v, r) && SignalledBy(s, w, r) ==> v == w)
    && (forall w: nat, r: nat :: SignalledBy(s, w, r) ==> !Done(s, r))
    && (forall r: nat :: Done(s, r) ==> r in s.ran)
    && (forall r: nat :: r in s.ran ==> InSlot(s, r) || Done(s, r) || exists w: nat :: SignalledBy(s, w, r))
  }

  lemma OneLiveKept(s: State, ev: Event)
    requires Enabled(s, ev) && OneLive(s) && Lends(s, ev)
    ensures OneLive(Next(s, ev))
  {
    hide Next, Enabled, Spent;
    var t := Next(s, ev);
    SpentStays(s, ev);
    SameChannels(s, ev);
  }

  lemma SpentStays(s: State, ev: Event)
    requires Enabled(s, ev)
    ensures forall r: nat :: Spent(s, r) ==> Spent(Next(s, ev), r)
  {
    hide Next, Enabled, Closes, Early, Reading, WriterAhead;
    if Submits(ev) {
      CallQueues(s, ev);
      if ev.Begin? { NewCall(s, ev); } else { var p := CallMoves(s, ev); }
    } else {
      hide Submits;
      Others(s, ev);
    }
  }

  lemma Others(s: State, ev: Event)
    requires Enabled(s, ev) && !Submits(ev)
    ensures Next(s, ev).submits == s.submits && Next(s, ev).accepted == s.accepted
  {
    hide Next, Enabled;
    Untouched(s, ev);
  }

  lemma SameChannels(s: State, ev: Event)
    requires Enabled(s, ev)
    ensures
      var t := Next(s, ev);
      && |t.submits| == |s.submits| + (if ev.Begin? then 1 else 0)
      && (forall r :: 0 <= r < |s.submits| ==> t.submits[r].chan == s.submits[r].chan)
      && (ev.Begin? ==> t.submits[|s.submits|].chan == ev.chan)
  {
    hide Next, Enabled;
    if Submits(ev) { CallChannels(s, ev); } else { Untouched(s, ev); }
  }

  lemma CallChannels(s: State, ev: Event)
    requires Enabled(s, ev) && Submits(ev)
    ensures
      var t := Next(s, ev);
      && |t.submits| == |s.submits| + (if ev.Begin? then 1 else 0)
      && (forall r :: 0 <= r < |s.submits| ==> t.submits[r].chan == s.submits[r].chan)
      && (ev.Begin? ==> t.submits[|s.submits|].chan == ev.chan)
  {
    hide NoReaders, WriterAhead;
  }

  /** A call that waits finds its own signal in its slot and no other. */
  lemma OwnSignal(s: State, r: nat)
    requires OneLive(s) && Signals(s) && r < |s.submits| && !Done(s, r) && s.submits[r].chan in s.slots
    requires r in s.accepted && forall q: nat :: q in s.ran ==> q in s.accepted
    ensures InSlot(s, r)
  {
    var q := s.slots[s.submits[r].chan];
    assert InSlot(s, q) && !Done(s, q) && !Spent(s, q) && !Spent(s, r);
  }

  lemma SignalsKept(s: State, ev: Event)
    requires Inv(s) && Enabled(s, ev) && OneLive(s) && Signals(s)
    ensures Signals(Next(s, ev))
  {
    hide Inv, Signals, OneLive, Hands, Queued, Closing, Locked, Gone, Next, Enabled, Distinct;
    Parts(s);
    SubmitsKnown(s);
    if Closes(ev) {
      Untouched(s, ev);
      SameSignals(s, Next(s, ev));
    } else if ev.Receive? {
      HearsAccepted(s, ev.r);
      Hears(s, ev);
    } else if Submits(ev) {
      CallsOn(s, ev);
    } else if ev.Signal? {
      Sends(s, ev);
    } else {
      WorksOn(s, ev);
    }
  }

  lemma HearsAccepted(s: State, r: nat)
    requires Queued(s) && Enabled(s, Receive(r))
    ensures r in s.accepted
  {
    hide Distinct;
  }

  lemma SubmitsKnown(s: State)
    requires Queued(s) && Hands(s)
    ensures forall r: nat :: r in s.ran ==> r < |s.submits| && r in s.accepted
    ensures forall r: nat :: r < |s.submits| && s.submits[r].phase.Waiting? ==> r in s.accepted
  {
    hide Distinct;
    assert forall r: nat :: r in s.started ==> r in s.accepted;
  }

  lemma SameSignals(s: State, t: State)
    requires Signals(s) && t.submits == s.submits && t.slots == s.slots && t.workers == s.workers && t.ran == s.ran
    ensures Signals(t)
  {
    assert forall r: nat :: (InSlot(t, r) <==> InSlot(s, r)) && (Done(t, r) <==> Done(s, r));
    assert forall w: nat, r: nat :: SignalledBy(t, w, r) <==> SignalledBy(s, w, r);
  }

  lemma CallsOn(s: State, ev: Event)
    requires Signals(s) && Enabled(s, ev) && Submits(ev) && !ev.Receive?
    requires forall r: nat :: r in s.ran ==> r < |s.submits|
    ensures Signals(Next(s, ev))
  {
    hide Next, Enabled, Signals, InSlot;
    Untouched(s, ev);
    CallQueues(s, ev);
    SameChannels(s, ev);
    SameDone(s, ev);
    SlotsKnown(s);
    SignalsElsewhere(s, Next(s, ev));
  }

  lemma SameDone(s: State, ev: Event)
    requires Enabled(s, ev) && Submits(ev) && !ev.Receive?
    ensures forall r: nat :: Done(Next(s, ev), r) <==> Done(s, r)
  {
    hide Next, Enabled, Closes, Early, Reading, WriterAhead;
    if ev.Begin? { NewCall(s, ev); } else { var p := CallMoves(s, ev); }
  }

  lemma SlotsKnown(s: State)
    requires Signals(s)
    ensures forall c :: c in s.slots ==> s.slots[c] < |s.submits| && InSlot(s, s.slots[c])
  {
  }

  /** New calls and calls that move on leave the signals where they are. */
  lemma SignalsElsewhere(s: State, t: State)
    requires Signals(s) && t.slots == s.slots && t.workers == s.workers && t.ran == s.ran
    requires |s.submits| <= |t.submits| && forall r :: 0 <= r < |s.submits| ==> t.submits[r].chan == s.submits[r].chan
    requires forall c :: c in s.slots ==> s.slots[c] < |s.submits| && InSlot(s, s.slots[c])
    requires forall r: nat :: Done(t, r) <==> Done(s, r)
    ensures Signals(t)
  {
    hide Done;
    assert forall r: nat :: InSlot(t, r) <==> InSlot(s, r);
    assert forall w: nat, r: nat :: SignalledBy(t, w, r) <==> SignalledBy(s, w, r);
    hide InSlot, SignalledBy;
  }

  lemma Hears(s: State, ev: Event)
    requires Signals(s) && OneLive(s) && Enabled(s, ev) && ev.Receive?
    requires ev.r in s.accepted && forall q: nat :: q in s.ran ==> q in s.accepted
    ensures Signals(Next(s, ev))
  {
    OwnSignal(s, ev.r);
    hide OneLive;
    var t := Next(s, ev);
    assert t.workers == s.workers && t.ran == s.ran;
    assert forall w: nat, r: nat :: SignalledBy(t, w, r) <==> SignalledBy(s, w, r);
    assert forall r: nat :: Done(t, r) <==> Done(s, r) || r == ev.r;
    assert forall r: nat :: InSlot(t, r) <==> InSlot(s, r) && r != ev.r;
  }

  lemma Sends(s: State, ev: Event)
    requires Signals(s) && Hands(s) && Enabled(s, ev) && ev.Signal?
    ensures Signals(Next(s, ev))
  {
    hide Distinct;
    var t, run := Next(s, ev), s.workers[ev.w].run;
    assert SignalledBy(s, ev.w, run);
    assert t.submits == s.submits && t.ran == s.ran;
    assert forall w: nat, r: nat :: SignalledBy(t, w, r) <==> SignalledBy(s, w, r) && w != ev.w;
    assert forall r: nat :: Done(t, r) <==> Done(s, r);
    assert forall r: nat :: InSlot(t, r) <==> InSlot(s, r) || r == run;
    hide Next, Enabled, InSlot, SignalledBy, Done;
    assert Signals(t);
  }

  lemma WorksOn(s: State, ev: Event)
    requires Signals(s) && Hands(s) && Enabled(s, ev) && (ev.Take? || ev.Finish? || ev.Exit?)
    ensures Signals(Next(s, ev))
  {
    hide Distinct;
    var t := Next(s, ev);
    assert t.submits == s.submits && t.slots == s.slots;
    assert forall r: nat :: (InSlot(t, r) <==> InSlot(s, r)) && (Done(t, r) <==> Done(s, r));
    if ev.Finish? {
      Finishes(s, ev);
    } else {
      assert t.ran == s.ran;
      assert forall w: nat, r: nat :: SignalledBy(t, w, r) <==> SignalledBy(s, w, r);
    }
  }

  lemma Finishes(s: State, ev: Event)
    requires Signals(s) && Hands(s) && Enabled(s, ev) && ev.Finish?
    ensures Signals(Next(s, ev))
  {
    hide Distinct;
    var t, run := Next(s, ev), s.workers[ev.w].run;
    assert t.submits == s.submits && t.slots == s.slots && t.ran == s.ran + [run];
    assert forall r: nat :: (InSlot(t, r) <==> InSlot(s, r)) && (Done(t, r) <==> Done(s, r));
    assert forall w: nat, r: nat :: SignalledBy(t, w, r) <==> SignalledBy(s, w, r) || (w == ev.w && r == run);
    assert run !in s.ran && SignalledBy(t, ev.w, run);
    assert forall w: nat :: !SignalledBy(s, w, run);
    forall r: nat | r in t.ran ensures InSlot(t, r) || Done(t, r) || exists w: nat :: SignalledBy(t, w, r) {
      if r != run && !InSlot(s, r) && !Done(s, r) {
        var w: nat :| SignalledBy(s, w, r);
        assert SignalledBy(t, w, r);
      }
    }
  }

  // ---- over whole runs ----

  ghost predicate Answers(s: State) {
    Inv(s) && OneLive(s) && Signals(s)
  }

  lemma {:induction false} RunAnswers(s: State, evs: seq<Event>)
    requires Answers(s) && Runs(s, evs) && LendsAll(s, evs)
    ensures Answers(After(s, evs))
    decreases |evs|
  {
    hide Inv, OneLive, Signals, Enabled, Next, Lends;
    if evs != [] {
      Kept(s, evs[0]);
      OneLiveKept(s, evs[0]);
      SignalsKept(s, evs[0]);
      RunAnswers(Next(s, evs[0]), evs[1..]);
    }
  }

  lemma InitAnswers(workers: int, queue: int, procs: nat)
    requires procs > 0
    ensures Answers(NewPool(workers, queue, procs))
  {
    InitInv(workers, queue, procs);
    hide Inv;
  }

  /** A call that hears true hears it of its own job, which has returned. */
  lemma TrueIsOwn(workers: int, queue: int, procs: nat, evs: seq<Event>, r: nat)
    requires procs > 0 && Runs(NewPool(workers, queue, procs), evs) && LendsAll(NewPool(workers, queue, procs), evs)
    requires Enabled(After(NewPool(workers, queue, procs), evs), Receive(r))
    ensures
      var s := After(NewPool(workers, queue, procs), evs);
      s.slots[s.submits[r].chan] == r && r in s.ran
  {
    hide After, Runs, NewPool, LendsAll, Closing, Locked, Queued, Worked, OneLive;
    InitAnswers(workers, queue, procs);
    RunAnswers(NewPool(workers, queue, procs), evs);
    Parts(After(NewPool(workers, queue, procs), evs));
    SubmitsKnown(After(NewPool(workers, queue, procs), evs));
    OwnSignal(After(NewPool(workers, queue, procs), evs), r);
  }

  /** No worker ever waits to hand its signal over. */
  lemma NeverBlocks(workers: int, queue: int, procs: nat, evs: seq<Event>, w: nat)
    requires procs > 0 && Runs(NewPool(workers, queue, procs), evs) && LendsAll(NewPool(workers, queue, procs), evs)
    requires w < |After(NewPool(workers, queue, procs), evs).workers|
    requires After(NewPool(workers, queue, procs), evs).workers[w].Signalling?
    ensures Enabled(After(NewPool(workers, queue, procs), evs), Signal(w))
  {
    hide After, Runs, NewPool, LendsAll;
    InitAnswers(workers, queue, procs);
    RunAnswers(NewPool(workers, queue, procs), evs);
    SlotFree(After(NewPool(workers, queue, procs), evs), w);
  }

  lemma SlotFree(s: State, w: nat)
    requires Answers(s) && w < |s.workers| && s.workers[w].Signalling?
    ensures Enabled(s, Signal(w))
  {
    hide Inv, Distinct;
    Parts(s);
    SubmitsKnown(s);
    var run := s.workers[w].run;
    assert SignalledBy(s, w, run) && run in s.ran;
    if s.submits[run].chan in s.slots { OwnSignal(s, run); }
  }

  // ---- a channel lent too early ----

  lemma {:induction false} Then(s: State, evs: seq<Event>, ev: Event)
    requires Runs(s, evs) && Enabled(After(s, evs), ev)
    ensures Runs(s, evs + [ev]) && After(s, evs + [ev]) == Next(After(s, evs), ev)
    ensures LendsAll(s, evs + [ev]) ==> LendsAll(s, evs) && Lends(After(s, evs), ev)
    decreases |evs|
  {
    hide Enabled, Next, Lends;
    if evs == [] {
      assert [] + [ev] == [ev];
    } else {
      assert (evs + [ev])[1..] == evs[1..] + [ev] && (evs + [ev])[0] == evs[0];
      Then(Next(s, evs[0]), evs[1..], ev);
    }
  }

  /** A call on an open pool with an empty queue sends its run and waits. */
  lemma Call(s: State, before: seq<Event>, chan: nat) returns (evs: seq<Event>)
    requires Runs(s, before)
    requires
      var t := After(s, before);
      t.closers == [] && !t.closed && !t.runsClosed && t.queue == [] && t.cap > 0
    ensures Runs(s, evs)
    ensures
      var t := After(s, before);
      var r := |t.submits|;
      After(s, evs) == t.(submits := t.submits + [Submit(chan, Waiting)], queue := [r], accepted := t.accepted + [r])
    ensures LendsAll(s, evs) ==> Lends(After(s, before), Begin(chan))
  {
    hide Runs, After, LendsAll, Lends;
    var r := |After(s, before).submits|;
    Then(s, before, Begin(chan));
    evs := before + [Begin(chan)];
    Then(s, evs, RLock(r));
    evs := evs + [RLock(r)];
    Then(s, evs, Check(r));
    evs := evs + [Check(r)];
    Then(s, evs, Send(r));
    evs := evs + [Send(r)];
    Then(s, evs, UnlockSent(r));
    evs := evs + [UnlockSent(r)];
  }

  /** One call leaves early, and its run goes through behind it. */
  lemma LeftBehind(s: State, chan: nat) returns (evs: seq<Event>)
    requires Fresh(s)
    ensures Runs(s, evs)
    ensures
      var t := After(s, evs);
      && t.closers == [] && !t.closed && !t.runsClosed && t.queue == [] && t.cap > 0
      && t.submits == [Submit(chan, Returned(false))] && t.slots == map[chan := 0] && t.ran == [0] && 0 in t.accepted
  {
    hide Runs, After, LendsAll, Lends, WriterAhead, NoReaders;
    NoEvents(s);
    evs := Call(s, [], chan);
    Then(s, evs, Abandon(0));
    evs := evs + [Abandon(0)];
    evs := RunThrough(s, evs);
  }

  /** A pool nobody has called yet. */
  predicate Fresh(s: State) {
    && s.closers == [] && !s.closed && !s.runsClosed && s.queue == [] && s.cap > 0 && s.submits == [] && s.slots == map[]
    && s.ran == [] && s.accepted == [] && s.started == [] && s.workers != [] && s.workers[0].Idle?
  }

  lemma RunThrough(s: State, before: seq<Event>) returns (evs: seq<Event>)
    requires Runs(s, before)
    requires
      var t := After(s, before);
      t.workers != [] && t.workers[0].Idle? && t.queue == [0] && |t.submits| == 1 && t.slots == map[]
    ensures Runs(s, evs)
    ensures
      var t := After(s, before);
      After(s, evs) == t.(queue := [], started := t.started + [0], ran := t.ran + [0], slots := map[t.submits[0].chan := 0])
  {
    hide Runs, After, LendsAll, Lends, WriterAhead, NoReaders;
    Then(s, before, Take(0));
    evs := before + [Take(0)];
    Then(s, evs, Finish(0));
    evs := evs + [Finish(0)];
    Then(s, evs, Signal(0));
    evs := evs + [Signal(0)];
    assert After(s, evs).workers == After(s, before).workers;
  }

  lemma NewIsFresh(workers: int, queue: int, procs: nat)
    requires procs > 0
    ensures Fresh(NewPool(workers, queue, procs))
  {
  }

  /**
   In every pool, a caller that lends its channel again after a run it did not wait for can hear true
   before its own job has run: the signal it receives is the one of the run it left.
   */
  lemma LentTwice(workers: int, queue: int, procs: nat, chan: nat) returns (evs: seq<Event>)
    requires procs > 0
    ensures Runs(NewPool(workers, queue, procs), evs) && !LendsAll(NewPool(workers, queue, procs), evs)
    ensures var s := After(NewPool(workers, queue, procs), evs); Done(s, 1) && s.submits[1].chan == chan && s.ran == [0]
  {
    hide Runs, After, LendsAll, NewPool, WriterAhead, NoReaders;
    var s := NewPool(workers, queue, procs);
    NewIsFresh(workers, queue, procs);
    evs := LeftBehind(s, chan);
    assert !Lends(After(s, evs), Begin(chan)) by { assert After(s, evs).submits[0].chan == chan && !Spent(After(s, evs), 0); }
    evs := Call(s, evs, chan);
    Then(s, evs, Receive(1));
    evs := evs + [Receive(1)];
  }

  lemma NoEvents(s: State)
    ensures Runs(s, []) && After(s, []) == s
  {
  }
}
