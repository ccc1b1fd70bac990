/** The runtime that holds the deadline and the connection in its fields. */
module DeadlineRuntime {
  import D = Deadline
  import opened Deadline

  lemma ReleaseKeeps(s: State)
    ensures Release(s).bound == s.bound
  {
  }

  // A reset, one call of the source behind the other.
  lemma ResetSteps(s: State, t: State)
    requires t == if (s.timer != Off || s.timedOut) && s.bound then D.BindContext(Release(s)) else Release(s)
    ensures
      D.ResetLimits(s) == Refresh(t.(timeLimit := 0, ignoreAbort := false, timedOut := false,
        client := t.host, clientDone := WatchEnd(t.host), inRequest := false))
    ensures Held(D.ResetLimits(s))
  {
  }

  class Runtime {
    var host: Option<Ctx>
    var client: Option<Ctx>
    var clientDone: Option<Ctx>
    var watching: bool
    var ignoreAbort: bool
    var inRequest: bool
    var timeLimit: nat
    var timer: Timer
    var timedOut: bool
    var deadlineArmed: bool
    var bound: bool
    var cancelled: bool
    var ended: set<Ctx>

    /** A runtime whose host gave it a context. */
    constructor (host: Option<Ctx>)
      ensures Held(Now()) && Now() == D.ResetLimits(Now()) && this.host == host && bound && !cancelled
    {
      this.host, client, clientDone := host, host, WatchEnd(host);
      watching := WatchEnd(host).Some?;
      ignoreAbort, inRequest, timeLimit, timer, timedOut := false, false, 0, Off, false;
      deadlineArmed := WatchEnd(host).Some?;
      bound, cancelled, ended := true, false, {};
    }

    ghost function Now(): State
      reads this
    {
      State(host, client, clientDone, watching, ignoreAbort, inRequest, timeLimit, timer, timedOut, deadlineArmed, bound, cancelled, ended)
    }

    /** The flag the statement loop reads says again whether anything can stop the run. */
    method RefreshDeadlineArmed()
      modifies this`deadlineArmed
      ensures Now() == Refresh(old(Now())) && Consistent(Now())
    {
      deadlineArmed := watching || clientDone.Some? || timer != Off;
    }

    method BindContext()
      modifies this
      ensures Now() == D.BindContext(old(Now())) && Consistent(Now())
    {
      bound, cancelled := true, false;
      watching := WatchEnd(host).Some?;
      RefreshDeadlineArmed();
    }

    method ArmTimer()
      modifies this
      ensures Now() == D.ArmTimer(old(Now())) && Held(Now())
    {
      if timer != Off { timer := Off; }
      timedOut := false;
      if timeLimit <= 0 {
        RefreshDeadlineArmed();
        return;
      }
      timer := Ticking;
      RefreshDeadlineArmed();
    }

    method SetTimeLimit(limit: int)
      modifies this
      ensures Now() == D.SetTimeLimit(old(Now()), limit) && Held(Now())
    {
      timeLimit := if limit < 0 then 0 else if limit < MAX_LIMIT then limit else MAX_LIMIT;
      ArmTimer();
    }

    /** The timer goes off, in one step. */
    method TimerFires()
      requires timer == Ticking
      modifies this
      ensures Now() == Fire(old(Now()))
    {
      timer, timedOut := Fired, true;
      if bound { cancelled := true; }
    }

    // The client of this run, or the host where it can end the run, is gone.
    predicate Lost()
      reads this
    {
      (clientDone.Some? && clientDone.value in ended) || (watching && (cancelled || (host.Some? && host.value in ended)))
    }

    /** A limit is reported before a lost client, which a script may ignore, and a limit it may not. */
    method CheckDeadline() returns (hit: Hit)
      ensures hit == TimedOut <==> timedOut
      ensures hit == Aborted <==> !timedOut && !ignoreAbort && Lost()
      ensures hit == D.CheckDeadline(Now())
      ensures Held(Now()) ==> (hit == Fine <==> Gate(Now()) == Fine)
    {
      if timedOut { return TimedOut; }
      if ignoreAbort { return Fine; }
      if (clientDone.Some? && clientDone.value in ended) || (watching && (cancelled || (host.Some? && host.value in ended))) {
        return Aborted;
      }
      hit := Fine;
    }

    /** The request's client is the one whose loss stops a statement, whatever was ignored before. The limit stays. */
    method BeginRequest(c: Option<Ctx>) returns (saved: (Option<Ctx>, Option<Ctx>, bool, bool))
      modifies this
      ensures SameClock(old(Now()), Now()) && Consistent(Now())
      ensures Gate(Now()) == TimedOut <==> timedOut && deadlineArmed
      ensures !timedOut && c.Some? && c.value.canEnd && c.value in ended ==> Gate(Now()) == Aborted
      ensures Gate(Now()) == Aborted ==> (c.Some? && c.value.canEnd && c.value in ended) || old(watching && Lost())
      ensures Now() == D.BeginRequest(old(Now()), c)
      ensures saved == old((client, clientDone, ignoreAbort, inRequest))
    {
      saved := (client, clientDone, ignoreAbort, inRequest);
      client, clientDone := c, WatchEnd(c);
      ignoreAbort, inRequest := false, true;
      RefreshDeadlineArmed();
    }

    /** The connection and the abort setting are those from before, the limit is the one the request left. */
    method EndRequest(saved: (Option<Ctx>, Option<Ctx>, bool, bool), ghost before: State)
      requires saved == (before.client, before.clientDone, before.ignoreAbort, before.inRequest)
      modifies this
      ensures SameClock(old(Now()), Now()) && Consistent(Now()) && ignoreAbort == before.ignoreAbort
      ensures before.host == old(host) && before.watching == old(watching) && before.bound == old(bound) ==> SameConnection(before, Now())
      ensures
        (Consistent(before) && before.host == old(host) && before.watching == old(watching) &&
         SameClock(before, old(Now())) && before.ended == old(ended))
        ==> Gate(Now()) == Gate(before)
      ensures Now() == D.EndRequest(old(Now()), before)
    {
      client, clientDone, ignoreAbort, inRequest := saved.0, saved.1, saved.2, saved.3;
      RefreshDeadlineArmed();
    }

    /** Nothing that has happened stops a statement any more, and a limit that is still running may. */
    method SuspendDeadline() returns (saved: (bool, bool, Option<Ctx>))
      modifies this
      ensures Gate(Now()) == Fine && (deadlineArmed <==> timer != Off) && Held(Now())
      ensures timer == Ticking ==> Gate(Fire(Now())) == TimedOut
      ensures Now() == Suspend(old(Now())) && saved == old((timedOut, watching, clientDone))
    {
      saved := (timedOut, watching, clientDone);
      timedOut, watching, clientDone := false, false, None;
      RefreshDeadlineArmed();
    }

    /** What had stopped the run stops it again; what stopped it meanwhile does not. */
    method ResumeDeadline(saved: (bool, bool, Option<Ctx>), ghost before: State)
      requires saved == (before.timedOut, before.watching, before.clientDone)
      modifies this
      ensures Consistent(Now()) && timer == old(timer) && timeLimit == old(timeLimit)
      ensures Gate(Now()) == TimedOut <==> before.timedOut && (before.watching || before.clientDone.Some? || timer != Off)
      ensures Now() == Resume(old(Now()), before)
    {
      timedOut, watching, clientDone := saved.0, saved.1, saved.2;
      RefreshDeadlineArmed();
    }

    /** No limit can run out any more, and whether the run is watched at all is the connection's alone. */
    method ReleaseDeadline()
      modifies this
      ensures Fire(Now()) == Now() && (deadlineArmed <==> watching || clientDone.Some?)
      ensures timedOut == old(timedOut) && timeLimit == old(timeLimit)
      ensures Now() == Release(old(Now()))
    {
      if timer != Off { timer := Off; }
      RefreshDeadlineArmed();
    }

    method ResetLimits()
      modifies this
      ensures Now() == D.ResetLimits(old(Now())) && Held(Now())
    {
      hide D.ResetLimits, D.BindContext, Release, Refresh, Held, Consistent, Gate, Fire;
      var used := timer != Off || timedOut;
      ReleaseDeadline();
      ReleaseKeeps(old(Now()));
      if used && bound { BindContext(); }
      ghost var t := Now();
      timeLimit, ignoreAbort, timedOut := 0, false, false;
      client, clientDone, inRequest := host, WatchEnd(host), false;
      RefreshDeadlineArmed();
      ResetSteps(old(Now()), t);
    }
  }
}
