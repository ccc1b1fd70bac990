/** The execution deadline and the client connection of a runtime, as functions of its fields. */
module Deadline {

  datatype Option<+T> = None | Some(value: T)

  // A context and whether it can end at all.
  datatype Ctx = Ctx(id: nat, canEnd: bool)

  // A timer that is not there, one that runs, or one that has gone off and is still held.
  datatype Timer = Off | Ticking | Fired

  datatype Hit = Fine | TimedOut | Aborted

  datatype State = State(
    host: Option<Ctx>,
    client: Option<Ctx>,
    clientDone: Option<Ctx>,
    watching: bool,
    ignoreAbort: bool,
    inRequest: bool,
    timeLimit: nat,
    timer: Timer,
    timedOut: bool,
    armed: bool,
    bound: bool,        // the context bindings take was built
    cancelled: bool,    // and the timer ended it
    ended: set<Ctx>)    // the contexts of the world that have ended

  const MAX_LIMIT := 100 * 365 * 24 * 3600 * 1_000_000_000

  /** The channel that closes when a context ends, none for one that cannot. */
  function WatchEnd(c: Option<Ctx>): Option<Ctx> {
    if c.Some? && c.value.canEnd then c else None
  }

  function Refresh(s: State): State {
    s.(armed := s.watching || s.clientDone.Some? || s.timer != Off)
  }

  function BindContext(s: State): State {
    Refresh(s.(bound := true, cancelled := false, watching := WatchEnd(s.host).Some?))
  }

  function ArmTimer(s: State): State {
    Refresh(s.(timedOut := false, timer := if s.timeLimit == 0 then Off else Ticking))
  }

  function SetTimeLimit(s: State, limit: int): State {
    ArmTimer(s.(timeLimit := if limit < 0 then 0 else if limit < MAX_LIMIT then limit else MAX_LIMIT))
  }

  /** The timer goes off: the flag first, then the context. */
  function Fire(s: State): State {
    if s.timer == Ticking then s.(timer := Fired, timedOut := true, cancelled := s.bound || s.cancelled) else s
  }

  function End(s: State, c: Ctx): State {
    if c.canEnd then s.(ended := s.ended + {c}) else s
  }

  predicate Over(s: State, c: Option<Ctx>) {
    c.Some? && c.value in s.ended
  }

  function CheckDeadline(s: State): Hit {
    if s.timedOut then TimedOut
    else if s.ignoreAbort then Fine
    else if Over(s, s.clientDone) || (s.watching && (s.cancelled || Over(s, s.host))) then Aborted
    else Fine
  }

  /** What a statement meets before it starts. */
  function Gate(s: State): Hit {
    if s.armed then CheckDeadline(s) else Fine
  }

  function BeginRequest(s: State, c: Option<Ctx>): State {
    Refresh(s.(client := c, clientDone := WatchEnd(c), ignoreAbort := false, inRequest := true))
  }

  /** The request ends, and what it was saved from before comes back. */
  function EndRequest(s: State, saved: State): State {
    Refresh(s.(client := saved.client, clientDone := saved.clientDone, ignoreAbort := saved.ignoreAbort, inRequest := saved.inRequest))
  }

  function Suspend(s: State): State {
    Refresh(s.(timedOut := false, watching := false, clientDone := None))
  }

  function Resume(s: State, saved: State): State {
    Refresh(s.(timedOut := saved.timedOut, watching := saved.watching, clientDone := saved.clientDone))
  }

  function Release(s: State): State {
    Refresh(s.(timer := Off))
  }

  function ResetLimits(s: State): State {
    var used := s.timer != Off || s.timedOut;
    var r := Release(s);
    var t := if used && s.bound then BindContext(r) else r;
    Refresh(t.(timeLimit := 0, ignoreAbort := false, timedOut := false,
      client := t.host, clientDone := WatchEnd(t.host), inRequest := false))
  }

  /** The field the statement loop reads says whether anything can stop the run, and only a timer runs out. */
  predicate Consistent(s: State) {
    s.armed == (s.watching || s.clientDone.Some? || s.timer != Off)
  }

  /** A limit that ran out is held by its timer. */
  predicate Held(s: State) {
    Consistent(s) && (s.timedOut ==> s.timer == Fired)
  }

  // ---- statements ----

  // What happens while a statement runs: the script moves its settings, or the world moves on.
  datatype Act = Limit(limit: int) | Ignore(on: bool) | Ring | Gone(c: Ctx)

  datatype Stmt =
    | Do(acts: seq<Act>, fails: bool)
    | Try(body: seq<Stmt>, catches: bool, handler: seq<Stmt>, finally_: seq<Stmt>)
    // What happens while the condition in front of each iteration is evaluated, and while the last one is.
    | Loop(tests: seq<seq<Act>>, body: seq<Stmt>)
    | Request(c: Option<Ctx>, body: seq<Stmt>)

  datatype Outcome = Ran | Failed | Stopped(hit: Hit)

  function Apply(s: State, a: Act): State {
    match a
    case Limit(limit) => SetTimeLimit(s, limit)
    case Ignore(on) => s.(ignoreAbort := on)
    case Ring => Fire(s)
    case Gone(c) => End(s, c)
  }

  function ApplyAll(s: State, acts: seq<Act>): State
    decreases |acts|
  {
    if acts == [] then s else ApplyAll(Apply(s, acts[0]), acts[1..])
  }

  // A statement that ran or a loop condition that was evaluated: the state it started in and what happened while it did.
  datatype Start = Start(state: State, acts: seq<Act>, stmt: bool)

  function After(st: Start): State {
    ApplyAll(st.state, st.acts)
  }

  // The state behind an execution, how it ended, and the statements that ran, in order.
  datatype Done = Done(state: State, out: Outcome, starts: seq<Start>)

  function Then(first: Done, second: Done): Done {
    Done(second.state, second.out, first.starts + second.starts)
  }

  /** A statement list: a gate on entry and one in front of every statement. */
  function Exec(s: State, stmts: seq<Stmt>): Done
    decreases stmts, 1
  {
    if Gate(s) != Fine then Done(s, Stopped(Gate(s)), []) else ExecList(s, stmts)
  }

  function ExecList(s: State, stmts: seq<Stmt>): Done
    decreases stmts, 0
  {
    if stmts == [] then Done(s, Ran, [])
    else if Gate(s) != Fine then Done(s, Stopped(Gate(s)), [])
    else
      var first := ExecStmt(s, stmts[0]);
      if first.out != Ran then first else Then(first, ExecList(first.state, stmts[1..]))
  }

  function ExecStmt(s: State, stmt: Stmt): Done
    decreases stmt, 0
  {
    match stmt
    case Do(acts, fails) => Done(ApplyAll(s, acts), if fails then Failed else Ran, [Start(s, acts, true)])
    case Try(body, catches, handler, fin) =>
      var tried := Exec(s, body);
      if tried.out.Stopped? then tried else
      var caught := if tried.out == Failed && catches then Then(tried, Exec(tried.state, handler)) else tried;
      if fin == [] then caught else
      var last := Then(caught, Exec(caught.state, fin));
      if last.out == Ran then last.(out := caught.out) else last
    case Loop(tests, body) => ExecLoop(s, tests, body)
    case Request(c, body) =>
      // Whatever ends the handler is recorded with the request, and the script goes on behind it.
      var inner := Exec(BeginRequest(s, c), body);
      Done(EndRequest(inner.state, s), Ran, inner.starts)
  }

  // A condition is evaluated without a gate in front of it.
  function Test(s: State, acts: seq<Act>): Done {
    Done(ApplyAll(s, acts), Ran, [Start(s, acts, false)])
  }

  function ExecLoop(s: State, tests: seq<seq<Act>>, body: seq<Stmt>): Done
    decreases body, 2, |tests|
  {
    if tests == [] then Done(s, Ran, [])
    else if |tests| == 1 then Test(s, tests[0])
    else
      var test := Test(s, tests[0]);
      var round := Then(test, Exec(test.state, body));
      if round.out != Ran then round else Then(round, ExecLoop(round.state, tests[1..], body))
  }

  // ---- what every step keeps ----

  lemma {:induction false} ActsKeep(s: State, acts: seq<Act>)
    requires Held(s)
    ensures Held(ApplyAll(s, acts))
    decreases |acts|
  {
    if acts != [] {
      hide Held, Apply;
      ActKeeps(s, acts[0]);
      ActsKeep(Apply(s, acts[0]), acts[1..]);
    }
  }

  lemma ActKeeps(s: State, act: Act)
    requires Held(s)
    ensures Held(Apply(s, act))
  {
  }

  /** Every statement starts in a state the gate lets through. */
  predicate Opened(starts: seq<Start>) {
    forall k :: 0 <= k < |starts| && starts[k].stmt ==> Gate(starts[k].state) == Fine && !starts[k].state.timedOut
  }

  lemma OpenedCat(a: seq<Start>, b: seq<Start>)
    requires Opened(a) && Opened(b)
    ensures Opened(a + b)
  {
  }

  lemma {:induction false} ExecKeeps(s: State, stmts: seq<Stmt>)
    requires Held(s)
    ensures Held(Exec(s, stmts).state) && Opened(Exec(s, stmts).starts)
    decreases stmts, 1
  {
    if Gate(s) == Fine { ListKeeps(s, stmts); }
  }

  lemma {:induction false} ListKeeps(s: State, stmts: seq<Stmt>)
    requires Held(s)
    ensures Held(ExecList(s, stmts).state) && Opened(ExecList(s, stmts).starts)
    decreases stmts, 0
  {
    if stmts != [] && Gate(s) == Fine {
      StmtKeeps(s, stmts[0]);
      var first := ExecStmt(s, stmts[0]);
      if first.out == Ran {
        ListKeeps(first.state, stmts[1..]);
        OpenedCat(first.starts, ExecList(first.state, stmts[1..]).starts);
      }
    }
  }

  lemma {:induction false} StmtKeeps(s: State, stmt: Stmt)
    requires Held(s) && Gate(s) == Fine
    ensures Held(ExecStmt(s, stmt).state) && Opened(ExecStmt(s, stmt).starts)
    decreases stmt, 0
  {
    hide Opened;
    match stmt
    case Do(acts, fails) =>
      ActsKeep(s, acts);
      OneStart(s, acts);
    case Try(body, catches, handler, fin) => TryKeeps(s, stmt);
    case Loop(tests, body) => LoopKeeps(s, tests, body);
    case Request(c, body) =>
      ExecKeeps(BeginRequest(s, c), body);
  }

  lemma OneStart(s: State, acts: seq<Act>)
    requires Held(s) && Gate(s) == Fine
    ensures Opened([Start(s, acts, true)])
  {
  }

  lemma {:induction false} TryKeeps(s: State, stmt: Stmt)
    requires Held(s) && Gate(s) == Fine && stmt.Try?
    ensures Held(ExecStmt(s, stmt).state) && Opened(ExecStmt(s, stmt).starts)
    decreases stmt, 0, 0
  {
    hide Opened, Held, Exec;
    var tried := Exec(s, stmt.body);
    ExecKeeps(s, stmt.body);
    if !tried.out.Stopped? {
      var handled := Exec(tried.state, stmt.handler);
      ExecKeeps(tried.state, stmt.handler);
      OpenedCat(tried.starts, handled.starts);
      var caught := if tried.out == Failed && stmt.catches then Then(tried, handled) else tried;
      ExecKeeps(caught.state, stmt.finally_);
      OpenedCat(caught.starts, Exec(caught.state, stmt.finally_).starts);
    }
  }

  lemma {:induction false} LoopKeeps(s: State, tests: seq<seq<Act>>, body: seq<Stmt>)
    requires Held(s)
    ensures Held(ExecLoop(s, tests, body).state) && Opened(ExecLoop(s, tests, body).starts)
    decreases body, 2, |tests|
  {
    hide Held, Opened, Exec;
    if tests == [] {
      NoStarts();
    } else {
      var test := Test(s, tests[0]);
      TestKeeps(s, tests[0]);
      if |tests| > 1 {
        var round := Then(test, Exec(test.state, body));
        ExecKeeps(test.state, body);
        OpenedCat(test.starts, Exec(test.state, body).starts);
        if round.out == Ran {
          LoopKeeps(round.state, tests[1..], body);
          OpenedCat(round.starts, ExecLoop(round.state, tests[1..], body).starts);
        }
      }
    }
  }

  lemma NoStarts()
    ensures Opened([])
  {
  }

  lemma TestKeeps(s: State, acts: seq<Act>)
    requires Held(s)
    ensures Held(Test(s, acts).state) && Opened(Test(s, acts).starts)
  {
    ActsKeep(s, acts);
  }

  // ---- the deadline ----

  /**
   Once a limit has run out, nothing starts: every statement list ends at once, an empty one
   included, whether or not a disconnect is ignored, and leaves everything as it was.
   */
  lemma RanOut(s: State, stmts: seq<Stmt>)
    requires Held(s) && s.timedOut
    ensures Exec(s, stmts) == Done(s, Stopped(TimedOut), [])
  {
  }

  /** A limit that goes off takes effect at the next statement, whatever the settings are. */
  lemma FiringStops(s: State, stmts: seq<Stmt>)
    requires Held(s) && s.timer == Ticking
    ensures Held(Fire(s)) && Exec(Fire(s), stmts) == Done(Fire(s), Stopped(TimedOut), [])
  {
  }

  /** Of what a script and the world can do while a statement runs, only setting a limit takes a limit back that ran out. */
  lemma {:induction false} OnlyALimitTakesBack(s: State, acts: seq<Act>)
    requires Held(s) && s.timedOut && forall k :: 0 <= k < |acts| ==> !acts[k].Limit?
    ensures ApplyAll(s, acts).timedOut
    decreases |acts|
  {
    if acts != [] { OnlyALimitTakesBack(Apply(s, acts[0]), acts[1..]); }
  }

  // Where the last limit is set, -1 where none is.
  function LastLimit(acts: seq<Act>): (k: int)
    ensures -1 <= k < |acts|
    ensures k >= 0 ==> acts[k].Limit?
    ensures forall j :: k < j < |acts| ==> !acts[j].Limit?
  {
    if acts == [] then -1
    else if acts[|acts| - 1].Limit? then |acts| - 1
    else LastLimit(acts[..|acts| - 1])
  }

  /** A limit runs out in what happens: the last one set there, or the one that was running where none is. */
  predicate RunsOut(s: State, acts: seq<Act>) {
    var k := LastLimit(acts);
    if k < 0 then s.timedOut || (s.timer == Ticking && Ring in acts)
    else acts[k].limit > 0 && Ring in acts[k + 1..]
  }

  // The timer behind them still ticks.
  predicate Ticks(s: State, acts: seq<Act>) {
    var k := LastLimit(acts);
    Ring !in acts[k + 1..] && if k < 0 then s.timer == Ticking else acts[k].limit > 0
  }

  /** And that is exactly when it counts as run out afterwards. */
  lemma {:induction false} ActsRunOut(s: State, acts: seq<Act>)
    ensures ApplyAll(s, acts).timedOut <==> RunsOut(s, acts)
    ensures ApplyAll(s, acts).timer == Ticking <==> Ticks(s, acts)
    decreases |acts|
  {
    hide Apply, RunsOut, Ticks;
    if acts == [] {
      NoActs(s);
    } else {
      var front, a := acts[..|acts| - 1], acts[|acts| - 1];
      ActsRunOut(s, front);
      ApplyLast(s, front, a);
      assert acts == front + [a];
      var t := ApplyAll(s, front);
      OneMore(t, a);
      LastAct(s, front, a);
    }
  }

  lemma NoActs(s: State)
    ensures RunsOut(s, []) == s.timedOut && Ticks(s, []) == (s.timer == Ticking)
  {
  }

  lemma OneMore(t: State, a: Act)
    ensures Apply(t, a).timedOut <==> !a.Limit? && (t.timedOut || (a.Ring? && t.timer == Ticking))
    ensures Apply(t, a).timer == Ticking <==> if a.Limit? then a.limit > 0 else t.timer == Ticking && !a.Ring?
  {
  }

  lemma LastAct(s: State, front: seq<Act>, a: Act)
    ensures RunsOut(s, front + [a]) <==> !a.Limit? && (RunsOut(s, front) || (a.Ring? && Ticks(s, front)))
    ensures Ticks(s, front + [a]) <==> if a.Limit? then a.limit > 0 else Ticks(s, front) && !a.Ring?
  {
    hide LastLimit;
    LastIs(front, a);
    var acts, k := front + [a], LastLimit(front);
    if a.Limit? {
      assert acts[|acts|..] == [];
    } else {
      InLast(front[k + 1..], a);
      assert acts[k + 1..] == front[k + 1..] + [a];
      if k < 0 { assert acts[k + 1..] == acts && front[k + 1..] == front; }
    }
  }

  lemma LastIs(front: seq<Act>, a: Act)
    ensures LastLimit(front + [a]) == if a.Limit? then |front| else LastLimit(front)
  {
    assert (front + [a])[..|front|] == front;
  }

  lemma InLast(front: seq<Act>, a: Act)
    ensures Ring in front + [a] <==> Ring in front || a == Ring
  {
  }

  lemma {:induction false} ApplyLast(s: State, acts: seq<Act>, a: Act)
    ensures ApplyAll(s, acts + [a]) == Apply(ApplyAll(s, acts), a)
    decreases |acts|
  {
    if acts == [] {
      assert ([] + [a])[1..] == [];
    } else {
      assert (acts + [a])[1..] == acts[1..] + [a];
      ApplyLast(Apply(s, acts[0]), acts[1..], a);
    }
  }

  // ---- whole runs ----

  // What the limit is, and whether it ran out.
  predicate SameClock(s: State, t: State) {
    s.timeLimit == t.timeLimit && s.timer == t.timer && s.timedOut == t.timedOut && s.cancelled == t.cancelled
  }

  /** Nothing but the statements and the loop conditions that ran moved the limit between s and the end of the execution. */
  predicate Threaded(s: State, d: Done) {
    && (d.starts == [] ==> SameClock(s, d.state))
    && (d.starts != [] ==> SameClock(s, d.starts[0].state) && SameClock(After(d.starts[|d.starts| - 1]), d.state))
    && forall k :: 0 <= k < |d.starts| - 1 ==> SameClock(After(d.starts[k]), d.starts[k + 1].state)
  }

  lemma ThenThreads(s: State, first: Done, second: Done)
    requires Threaded(s, first) && Threaded(first.state, second)
    ensures Threaded(s, Then(first, second))
  {
    hide ApplyAll;
    var ts, n := Then(first, second).starts, |first.starts|;
    forall k | 0 <= k < |ts| - 1 ensures SameClock(After(ts[k]), ts[k + 1].state) {
      if k + 1 < n {
        assert ts[k] == first.starts[k] && ts[k + 1] == first.starts[k + 1];
      } else if k >= n {
        assert ts[k] == second.starts[k - n] && ts[k + 1] == second.starts[k - n + 1];
      }
    }
  }

  lemma {:induction false} ExecThreads(s: State, stmts: seq<Stmt>)
    ensures Threaded(s, Exec(s, stmts))
    decreases stmts, 1
  {
    hide ApplyAll;
    if Gate(s) == Fine { ListThreads(s, stmts); }
  }

  lemma {:induction false} ListThreads(s: State, stmts: seq<Stmt>)
    ensures Threaded(s, ExecList(s, stmts))
    decreases stmts, 0
  {
    hide Threaded, Then, ExecStmt;
    if stmts == [] || Gate(s) != Fine {
      NoneThread(s, ExecList(s, stmts));
    } else {
      StmtThreads(s, stmts[0]);
      var first := ExecStmt(s, stmts[0]);
      if first.out == Ran {
        ListThreads(first.state, stmts[1..]);
        ThenThreads(s, first, ExecList(first.state, stmts[1..]));
      }
    }
  }

  lemma NoneThread(s: State, d: Done)
    requires d.starts == [] && d.state == s
    ensures Threaded(s, d)
  {
  }

  lemma {:induction false} StmtThreads(s: State, stmt: Stmt)
    ensures Threaded(s, ExecStmt(s, stmt))
    decreases stmt, 0
  {
    match stmt
    case Do(_, _) =>
    case Try(_, _, _, _) => TryThreads(s, stmt);
    case Loop(tests, body) => LoopThreads(s, tests, body);
    case Request(c, body) =>
      ExecThreads(BeginRequest(s, c), body);
      RequestClock(s, c, Exec(BeginRequest(s, c), body));
  }

  lemma RequestClock(s: State, c: Option<Ctx>, inner: Done)
    requires Threaded(BeginRequest(s, c), inner)
    ensures Threaded(s, Done(EndRequest(inner.state, s), Ran, inner.starts))
  {
    hide ApplyAll;
  }

  lemma {:induction false} TryThreads(s: State, stmt: Stmt)
    requires stmt.Try?
    ensures Threaded(s, ExecStmt(s, stmt))
    decreases stmt, 0, 0
  {
    hide Threaded, Then, Exec;
    var tried := Exec(s, stmt.body);
    ExecThreads(s, stmt.body);
    var handled := Exec(tried.state, stmt.handler);
    ExecThreads(tried.state, stmt.handler);
    ThenThreads(s, tried, handled);
    var caught := if tried.out == Failed && stmt.catches then Then(tried, handled) else tried;
    ExecThreads(caught.state, stmt.finally_);
    ThenThreads(s, caught, Exec(caught.state, stmt.finally_));
    OutOnly(s, Then(caught, Exec(caught.state, stmt.finally_)), caught.out);
  }

  lemma OutOnly(s: State, d: Done, out: Outcome)
    requires Threaded(s, d)
    ensures Threaded(s, d.(out := out))
  {
    hide ApplyAll;
  }

  lemma {:induction false} LoopThreads(s: State, tests: seq<seq<Act>>, body: seq<Stmt>)
    ensures Threaded(s, ExecLoop(s, tests, body))
    decreases body, 2, |tests|
  {
    hide Threaded, Then, Exec, Test;
    if tests == [] {
      NoneThread(s, ExecLoop(s, tests, body));
    } else {
      var test := Test(s, tests[0]);
      TestThreads(s, tests[0]);
      if |tests| > 1 {
        var round := Then(test, Exec(test.state, body));
        ExecThreads(test.state, body);
        ThenThreads(s, test, Exec(test.state, body));
        if round.out == Ran {
          LoopThreads(round.state, tests[1..], body);
          ThenThreads(s, round, ExecLoop(round.state, tests[1..], body));
        }
      }
    }
  }

  lemma TestThreads(s: State, acts: seq<Act>)
    ensures Threaded(s, Test(s, acts))
  {
  }

  /** A loop condition that sets a limit. */
  predicate Rearms(st: Start) {
    !st.stmt && LastLimit(st.acts) >= 0
  }

  /**
   Behind a statement or a condition in which a limit runs out no statement starts, however deep it is
   nested: no list, loop, catch, finally or request around it starts one, unless a loop condition
   evaluated in between sets a limit. Where none does the limit still counts as run out at the end.
   */
  lemma FiredIsLast(s: State, stmts: seq<Stmt>, k: nat)
    requires Held(s) && k < |Exec(s, stmts).starts|
    requires RunsOut(Exec(s, stmts).starts[k].state, Exec(s, stmts).starts[k].acts)
    ensures
      var ts := Exec(s, stmts).starts;
      && (forall j :: k < j < |ts| && ts[j].stmt ==> exists i :: k < i < j && Rearms(ts[i]))
      && ((forall i :: k < i < |ts| ==> !Rearms(ts[i])) ==> Exec(s, stmts).state.timedOut)
  {
    hide Exec, RunsOut, Rearms, Threaded, Opened, After;
    var d := Exec(s, stmts);
    ExecKeeps(s, stmts);
    ExecThreads(s, stmts);
    forall j | k < j < |d.starts| && d.starts[j].stmt ensures exists i :: k < i < j && Rearms(d.starts[i]) {
      if forall i :: k < i < j ==> !Rearms(d.starts[i]) {
        OutUntil(s, d, k, j - 1);
        NotOpened(s, d, j);
      }
    }
    if forall i :: k < i < |d.starts| ==> !Rearms(d.starts[i]) {
      OutUntil(s, d, k, |d.starts| - 1);
      OutAtEnd(s, d);
    }
  }

  // Without a condition that sets a limit what ran out stays so.
  lemma {:induction false} OutUntil(s: State, d: Done, k: nat, j: nat)
    requires Threaded(s, d) && Opened(d.starts) && k <= j < |d.starts|
    requires RunsOut(d.starts[k].state, d.starts[k].acts)
    requires forall i :: k < i <= j ==> !Rearms(d.starts[i])
    ensures After(d.starts[j]).timedOut
    decreases j
  {
    hide RunsOut, Threaded, Opened, Rearms, After;
    if j == k {
      OutAfter(d.starts[k]);
    } else {
      OutUntil(s, d, k, j - 1);
      OutStays(s, d, j);
    }
  }

  lemma OutAfter(st: Start)
    requires RunsOut(st.state, st.acts)
    ensures After(st).timedOut
  {
    hide RunsOut;
    ActsRunOut(st.state, st.acts);
  }

  lemma OutStays(s: State, d: Done, j: nat)
    requires Threaded(s, d) && Opened(d.starts) && 0 < j < |d.starts| && After(d.starts[j - 1]).timedOut && !Rearms(d.starts[j])
    ensures After(d.starts[j]).timedOut
  {
    hide ApplyAll;
    assert SameClock(After(d.starts[j - 1]), d.starts[j - 1 + 1].state);
    OutAfter(d.starts[j]);
  }

  lemma NotOpened(s: State, d: Done, j: nat)
    requires Threaded(s, d) && Opened(d.starts) && 0 < j < |d.starts| && d.starts[j].stmt
    ensures !After(d.starts[j - 1]).timedOut
  {
    hide After;
    assert SameClock(After(d.starts[j - 1]), d.starts[j - 1 + 1].state);
  }

  lemma OutAtEnd(s: State, d: Done)
    requires Threaded(s, d) && d.starts != [] && After(d.starts[|d.starts| - 1]).timedOut
    ensures d.state.timedOut
  {
    hide After;
  }

  /** A limit that runs out while a loop condition is evaluated ends the loop there, whatever its body is, an empty one included. */
  lemma ConditionRunsOut(s: State, tests: seq<seq<Act>>, body: seq<Stmt>)
    requires Held(s) && |tests| > 1 && RunsOut(s, tests[0])
    ensures
      var t := ApplyAll(s, tests[0]);
      ExecStmt(s, Loop(tests, body)) == Done(t, Stopped(TimedOut), [Start(s, tests[0], false)])
  {
    hide RunsOut, Exec, Held, ApplyAll;
    var t := ApplyAll(s, tests[0]);
    ActsRunOut(s, tests[0]);
    ActsKeep(s, tests[0]);
    RanOut(t, body);
    var starts := [Start(s, tests[0], false)];
    assert starts + [] == starts;
    assert Then(Test(s, tests[0]), Exec(t, body)) == Done(t, Stopped(TimedOut), starts);
  }

  lemma OneDo(s: State, acts: seq<Act>)
    requires Gate(s) == Fine
    ensures Exec(s, [Do(acts, false)]) == Done(ApplyAll(s, acts), Ran, [Start(s, acts, true)])
  {
    hide ApplyAll, Gate;
    var stmt, starts := Do(acts, false), [Start(s, acts, true)];
    var t := ExecStmt(s, stmt).state;
    assert [stmt][1..] == [] && starts + [] == starts;
    assert ExecList(t, []) == Done(t, Ran, []);
  }

  lemma LimitThenRing(s: State, limit: int)
    requires limit > 0
    ensures ApplyAll(s, [Limit(limit), Ring]) == Fire(SetTimeLimit(s, limit))
    ensures ApplyAll(s, [Limit(limit)]) == SetTimeLimit(s, limit) && ApplyAll(s, []) == s
    ensures RunsOut(s, [Limit(limit), Ring])
  {
    var acts := [Limit(limit), Ring];
    assert acts[1..] == [Ring] && [Ring][1..] == [] && [Limit(limit)][1..] == [];
    assert LastLimit(acts[..1]) == 0 by { assert acts[..1] == [Limit(limit)]; }
    assert ApplyAll(SetTimeLimit(s, limit), [Ring]) == ApplyAll(Fire(SetTimeLimit(s, limit)), []);
  }

  /**
   The condition is evaluated before the gate is reached again: where it sets a limit it takes back
   one that ran out in the body. The body starts again exactly where the context the timer ended is
   not the one watched, or a disconnect is ignored.
   */
  lemma ConditionTakesBack(s: State, limit: int)
    requires Held(s) && Gate(s) == Fine && limit > 0
    ensures
      var d := ExecStmt(s, Loop([[], [Limit(limit)], []], [Do([Limit(limit), Ring], false)]));
      && |d.starts| >= 3 && d.starts[1].stmt && RunsOut(d.starts[1].state, d.starts[1].acts)
      && (|d.starts| > 3 && d.starts[3].stmt <==> s.ignoreAbort || !(s.watching && s.bound))
  {
    var once := [Limit(limit), Ring];
    var body := [Do(once, false)];
    var t := Fire(SetTimeLimit(s, limit));
    var u := SetTimeLimit(t, limit);
    Rearmed(s, limit);
    hide Gate, Fire, SetTimeLimit, Held, RunsOut, ApplyAll;
    LimitThenRing(s, limit);
    LimitThenRing(t, limit);
    OneDo(s, once);
    TwoRounds(s, t, u, [Limit(limit)], body);
    if Gate(u) == Fine { OneDo(u, once); } else { Shut(u, body); }
  }

  lemma Rearmed(s: State, limit: int)
    requires Held(s) && Gate(s) == Fine && limit > 0
    ensures Gate(SetTimeLimit(Fire(SetTimeLimit(s, limit)), limit)) == Fine <==> s.ignoreAbort || !(s.watching && s.bound)
  {
  }

  // The starts of two rounds, the second of which the gate may shut.
  lemma TwoRounds(s: State, t: State, u: State, test: seq<Act>, body: seq<Stmt>)
    requires ApplyAll(s, []) == s && Exec(s, body).state == t && Exec(s, body).out == Ran
    requires ApplyAll(t, test) == u
    ensures
      var again := Exec(u, body);
      ExecLoop(s, [[], test, []], body).starts ==
        ([Start(s, [], false)] + Exec(s, body).starts) + (([Start(t, test, false)] + again.starts) +
         (if again.out == Ran then [Start(again.state, [], false)] else []))
  {
    hide Exec, ApplyAll;
    var tests, starts := [[], test, []], Exec(s, body).starts;
    assert tests[1..] == [test, []];
    LastRound(t, u, test, body);
    assert ExecLoop(s, tests, body).starts == ([Start(s, [], false)] + starts) + ExecLoop(t, [test, []], body).starts;
  }

  lemma LastRound(t: State, u: State, test: seq<Act>, body: seq<Stmt>)
    requires ApplyAll(t, test) == u
    ensures
      var again := Exec(u, body);
      ExecLoop(t, [test, []], body).starts ==
        ([Start(t, test, false)] + again.starts) + (if again.out == Ran then [Start(again.state, [], false)] else [])
  {
    hide Exec, ApplyAll;
    assert [test, []][1..] == [[]];
    var again := Exec(u, body);
    assert ExecLoop(again.state, [[]], body).starts == [Start(again.state, [], false)];
  }

  // An execution that was stopped ends in a state no statement may start in.
  predicate StoppedThere(d: Done) {
    d.out.Stopped? ==> d.out.hit == Gate(d.state) && d.out.hit != Fine
  }

  /** Where a run stops, no statement may start any more, and the reason says whether a limit ran out. */
  lemma StopSays(s: State, stmts: seq<Stmt>)
    requires Held(s) && Exec(s, stmts).out.Stopped?
    ensures Gate(Exec(s, stmts).state) == Exec(s, stmts).out.hit != Fine
    ensures Exec(s, stmts).out.hit == TimedOut <==> Exec(s, stmts).state.timedOut
  {
    hide Exec;
    ExecStops(s, stmts);
    ExecKeeps(s, stmts);
  }

  lemma {:induction false} ExecStops(s: State, stmts: seq<Stmt>)
    ensures StoppedThere(Exec(s, stmts))
    decreases stmts, 1
  {
    if Gate(s) == Fine { ListStops(s, stmts); }
  }

  lemma {:induction false} ListStops(s: State, stmts: seq<Stmt>)
    ensures StoppedThere(ExecList(s, stmts))
    decreases stmts, 0
  {
    if stmts != [] && Gate(s) == Fine {
      StmtStops(s, stmts[0]);
      ListStops(ExecStmt(s, stmts[0]).state, stmts[1..]);
    }
  }

  lemma {:induction false} StmtStops(s: State, stmt: Stmt)
    ensures StoppedThere(ExecStmt(s, stmt))
    decreases stmt, 0
  {
    match stmt
    case Do(_, _) =>
    case Try(body, catches, handler, fin) =>
      hide Exec, Gate;
      var tried := Exec(s, body);
      var caught := if tried.out == Failed && catches then Then(tried, Exec(tried.state, handler)) else tried;
      ExecStops(s, body);
      ExecStops(tried.state, handler);
      ExecStops(caught.state, fin);
      if caught.out.Stopped? { Shut(caught.state, fin); }
    case Loop(tests, body) => LoopStops(s, tests, body);
    case Request(_, _) =>
  }

  lemma Shut(s: State, stmts: seq<Stmt>)
    requires Gate(s) != Fine
    ensures Exec(s, stmts) == Done(s, Stopped(Gate(s)), [])
  {
  }

  lemma {:induction false} LoopStops(s: State, tests: seq<seq<Act>>, body: seq<Stmt>)
    ensures StoppedThere(ExecLoop(s, tests, body))
    decreases body, 2, |tests|
  {
    hide Exec, Gate;
    if |tests| > 1 {
      var t := Test(s, tests[0]).state;
      ExecStops(t, body);
      LoopStops(Exec(t, body).state, tests[1..], body);
    }
  }

  /**
   Once a limit ran out inside a list, or a stop went through it, nothing appended to the list ever
   runs: it adds no start and no change, and where there was something to run the list is stopped.
   */
  lemma NothingResumes(s: State, stmts: seq<Stmt>, rest: seq<Stmt>)
    requires Held(s) && (Exec(s, stmts).state.timedOut || Exec(s, stmts).out.Stopped?)
    ensures
      var d, more := Exec(s, stmts), Exec(s, stmts + rest);
      && more.starts == d.starts && more.state == d.state
      && (rest != [] && d.out == Ran ==> more.out == Stopped(TimedOut))
      && (d.out != Ran ==> more.out == d.out)
  {
    hide ExecStmt;
    if Gate(s) == Fine {
      ListKeeps(s, stmts);
      ListOn(s, stmts, rest);
      var d := ExecList(s, stmts);
      if d.out == Ran {
        assert d.starts + [] == d.starts;
        RestShut(d.state, rest);
      }
    }
  }

  lemma RestShut(s: State, rest: seq<Stmt>)
    requires Held(s) && s.timedOut
    ensures ExecList(s, rest) == Done(s, if rest == [] then Ran else Stopped(TimedOut), [])
  {
  }

  /** A list and what is appended to it. */
  lemma {:induction false} ListOn(s: State, stmts: seq<Stmt>, rest: seq<Stmt>)
    ensures
      var d := ExecList(s, stmts);
      ExecList(s, stmts + rest) == if d.out == Ran then Then(d, ExecList(d.state, rest)) else d
    decreases |stmts|
  {
    hide ExecStmt, Gate;
    var d := ExecList(s, stmts);
    if stmts == [] {
      assert stmts + rest == rest && [] + ExecList(s, rest).starts == ExecList(s, rest).starts;
    } else {
      assert (stmts + rest)[0] == stmts[0] && (stmts + rest)[1..] == stmts[1..] + rest;
      var first := ExecStmt(s, stmts[0]);
      if Gate(s) == Fine && first.out == Ran {
        ListOn(first.state, stmts[1..], rest);
        var mid := ExecList(first.state, stmts[1..]);
        var last := ExecList(mid.state, rest);
        assert first.starts + (mid.starts + last.starts) == (first.starts + mid.starts) + last.starts;
      }
    }
  }

  /**
   No catch and no finally absorbs a limit or a lost client: behind a body that was stopped, or in
   which a limit ran out though it ended or failed by itself, neither of them runs anything.
   */
  lemma NoCatchAbsorbs(s: State, body: seq<Stmt>, catches: bool, handler: seq<Stmt>, fin: seq<Stmt>)
    requires Held(s) && (Exec(s, body).out.Stopped? || Exec(s, body).state.timedOut)
    ensures
      var tried, d := Exec(s, body), ExecStmt(s, Try(body, catches, handler, fin));
      && d.state == tried.state && d.starts == tried.starts
      && (d.out == tried.out || d.out == Stopped(TimedOut))
      && (fin != [] || (catches && tried.out == Failed) ==> d.out.Stopped?)
  {
    hide Exec;
    var tried := Exec(s, body);
    ExecKeeps(s, body);
    assert tried.starts + [] == tried.starts;
    if !tried.out.Stopped? {
      RanOut(tried.state, handler);
      RanOut(tried.state, fin);
    }
  }

  /**
   A failure comes out of a try unless a catch takes it, and then what the handler ends with does. A
   finally behind them runs after both and changes that only by failing or being stopped itself.
   */
  lemma TryEnds(s: State, body: seq<Stmt>, catches: bool, handler: seq<Stmt>, fin: seq<Stmt>)
    ensures
      var tried, d := Exec(s, body), ExecStmt(s, Try(body, catches, handler, fin));
      var caught := tried.out == Failed && catches;
      var mid := if caught then Exec(tried.state, handler) else tried;
      && (tried.out.Stopped? ==> d == tried)
      && (!tried.out.Stopped? && fin == [] ==> d.out == mid.out && d.state == mid.state)
      && (!tried.out.Stopped? && fin != [] ==>
            var last := Exec(mid.state, fin);
            d.state == last.state && d.out == if last.out == Ran then mid.out else last.out)
  {
    hide Exec;
  }

  /** No limit at all is set by zero or less, and a positive one is the number asked for up to a hundred years. */
  lemma LimitSet(s: State, limit: int)
    ensures
      var t := SetTimeLimit(s, limit);
      && !t.timedOut && (limit <= 0 <==> t.timer == Off) && (limit > 0 <==> t.timer == Ticking)
      && (limit <= 0 ==> t.timeLimit == 0) && (0 < limit <= MAX_LIMIT ==> t.timeLimit == limit)
      && (limit > MAX_LIMIT ==> t.timeLimit == MAX_LIMIT)
  {
  }

  /** Inside a request the client that ended is the request's, whatever the script ignores. */
  lemma RequestGate(s: State, c: Option<Ctx>)
    requires Held(s)
    ensures Gate(BeginRequest(s, c)) == TimedOut <==> s.timedOut
    ensures
      Gate(BeginRequest(s, c)) == Aborted <==>
        !s.timedOut && ((c.Some? && c.value.canEnd && c.value in s.ended) || (s.watching && (s.cancelled || Over(s, s.host))))
    ensures BeginRequest(s, c).inRequest && BeginRequest(s, c).client == c
  {
  }

  /** A list that was stopped is what it was, whatever is appended to it. */
  lemma StopsTheList(s: State, stmts: seq<Stmt>, rest: seq<Stmt>)
    requires ExecList(s, stmts).out.Stopped?
    ensures ExecList(s, stmts + rest) == ExecList(s, stmts)
  {
    ListOn(s, stmts, rest);
  }

  // ---- requests ----

  predicate SameConnection(s: State, t: State) {
    s.client == t.client && s.clientDone == t.clientDone && s.inRequest == t.inRequest && s.host == t.host && s.watching == t.watching &&
    s.bound == t.bound
  }

  lemma {:induction false} ActsStay(s: State, acts: seq<Act>)
    ensures SameConnection(s, ApplyAll(s, acts))
    decreases |acts|
  {
    hide Apply;
    if acts != [] {
      ActStays(s, acts[0]);
      ActsStay(Apply(s, acts[0]), acts[1..]);
    }
  }

  lemma ActStays(s: State, a: Act)
    ensures SameConnection(s, Apply(s, a))
  {
  }

  /** However requests nest and end, the connection behind a statement list is the one in front of it. */
  lemma {:induction false} ExecStays(s: State, stmts: seq<Stmt>)
    ensures SameConnection(s, Exec(s, stmts).state)
    decreases stmts, 1
  {
    if Gate(s) == Fine { ListStays(s, stmts); }
  }

  lemma {:induction false} ListStays(s: State, stmts: seq<Stmt>)
    ensures SameConnection(s, ExecList(s, stmts).state)
    decreases stmts, 0
  {
    if stmts != [] && Gate(s) == Fine {
      StmtStays(s, stmts[0]);
      var first := ExecStmt(s, stmts[0]);
      if first.out == Ran { ListStays(first.state, stmts[1..]); }
    }
  }

  lemma {:induction false} StmtStays(s: State, stmt: Stmt)
    ensures SameConnection(s, ExecStmt(s, stmt).state)
    decreases stmt, 0
  {
    match stmt
    case Do(acts, fails) => ActsStay(s, acts);
    case Try(body, catches, handler, fin) =>
      ExecStays(s, body);
      var tried := Exec(s, body);
      ExecStays(tried.state, handler);
      ExecStays(tried.state, fin);
      ExecStays(Exec(tried.state, handler).state, fin);
    case Loop(tests, body) => LoopStays(s, tests, body);
    case Request(c, body) => ExecStays(BeginRequest(s, c), body);
  }

  lemma {:induction false} LoopStays(s: State, tests: seq<seq<Act>>, body: seq<Stmt>)
    ensures SameConnection(s, ExecLoop(s, tests, body).state)
    decreases body, 2, |tests|
  {
    hide Exec;
    if tests != [] {
      ActsStay(s, tests[0]);
      var t := Test(s, tests[0]).state;
      ExecStays(t, body);
      if Exec(t, body).out == Ran { LoopStays(Exec(t, body).state, tests[1..], body); }
    }
  }

  /** A request gives back the connection and the abort setting, and keeps the limit its handler left. */
  lemma RequestRestores(s: State, c: Option<Ctx>, body: seq<Stmt>)
    ensures
      var inner, t := Exec(BeginRequest(s, c), body).state, ExecStmt(s, Request(c, body)).state;
      && SameConnection(s, t) && t.ignoreAbort == s.ignoreAbort
      && t.timeLimit == inner.timeLimit && t.timer == inner.timer && t.timedOut == inner.timedOut
  {
    ExecStays(BeginRequest(s, c), body);
  }

  /**
   A handler that is stopped or fails ends its request alone: the rest of the script runs as it would
   behind any statement, and starts exactly where no limit ran out and the script's own connection
   stands or is ignored.
   */
  lemma ScriptGoesOn(s: State, c: Option<Ctx>, body: seq<Stmt>, rest: seq<Stmt>)
    requires Held(s) && Gate(s) == Fine
    ensures
      var d, stmt := ExecStmt(s, Request(c, body)), Request(c, body);
      var t := d.state;
      && ExecList(s, [stmt] + rest) == Then(d, ExecList(t, rest))
      && (Gate(t) == Fine <==>
            !t.timedOut && (s.ignoreAbort || (!Over(t, s.clientDone) && !(s.watching && (t.cancelled || Over(t, s.host))))))
  {
    hide Exec;
    var stmt := Request(c, body);
    StmtKeeps(s, stmt);
    RequestRestores(s, c, body);
    assert ([stmt] + rest)[0] == stmt && ([stmt] + rest)[1..] == rest;
  }

  /** The limit behind a request is the one its last statement left, or the script's own where none ran. */
  lemma LimitOutlivesRequest(s: State, c: Option<Ctx>, body: seq<Stmt>)
    ensures
      var d := ExecStmt(s, Request(c, body));
      if d.starts == [] then SameClock(s, d.state) else SameClock(After(d.starts[|d.starts| - 1]), d.state)
  {
    StmtThreads(s, Request(c, body));
  }

  // ---- suspension and reset ----

  /**
   Whatever runs while the deadline is suspended, resuming gives the connection and the verdict of
   the old limit back and keeps everything else as that run left it. A limit that runs out meanwhile
   is forgotten, and one set meanwhile takes no old verdict back: what resumes stops at once exactly
   where the old limit had run out and something is still watched.
   */
  lemma ResumeGivesBack(s: State, stmts: seq<Stmt>)
    requires Held(s)
    ensures
      var t := Exec(Suspend(s), stmts).state;
      var r := Resume(t, s);
      && SameConnection(s, r) && r.timedOut == s.timedOut && Consistent(r)
      && r == t.(timedOut := s.timedOut, watching := s.watching, clientDone := s.clientDone, armed := r.armed)
      && (Held(r) <==> (s.timedOut ==> t.timer == Fired))
      && (Gate(r) == TimedOut <==> s.timedOut && (s.watching || s.clientDone.Some? || t.timer != Off))
  {
    hide Exec;
    ExecStays(Suspend(s), stmts);
  }

  /** Of acts during a suspension: the verdict that is lost is exactly that of a limit that ran out in them. */
  lemma SuspensionLoses(s: State, acts: seq<Act>)
    requires Held(s)
    ensures
      var t := ApplyAll(Suspend(s), acts);
      var r := Resume(t, s);
      && (t.timedOut && !r.timedOut <==> !s.timedOut && RunsOut(Suspend(s), acts))
      && (!t.timedOut && r.timedOut <==> s.timedOut && !RunsOut(Suspend(s), acts))
      && (r == s <==> SameClock(s, t.(timedOut := s.timedOut)) && t.ignoreAbort == s.ignoreAbort && t.ended == s.ended)
  {
    hide RunsOut;
    ActsRunOut(Suspend(s), acts);
    ActsStay(Suspend(s), acts);
  }

  /** A reset runtime is what a new one on the same host is, its own context aside. */
  lemma ResetIsFresh(s: State)
    requires Consistent(s)
    ensures
      var r := ResetLimits(s);
      && Held(r) && r.timeLimit == 0 && r.timer == Off && !r.timedOut && !r.ignoreAbort && !r.inRequest
      && r.client == s.host && r.clientDone == WatchEnd(s.host) && r.ended == s.ended
  {
  }

  /**
   A reset gives a context the timer ended back, unless its limit was taken back in between by a
   new one of zero: then the next program starts on the ended context.
   */
  lemma ResetLeavesEnded(s: State)
    requires s.bound && s.cancelled
    ensures ResetLimits(s).cancelled <==> s.timer == Off && !s.timedOut
  {
  }

  // The statement or loop condition in which the timer ended the script's context.
  predicate EndsContext(st: Start) {
    !st.state.cancelled && After(st).cancelled
  }

  /**
   After any run of a new program, the next one starts on an ended context exactly where a limit ran
   out in some statement or loop condition of it, at any depth, and the limit in force at the end is none.
   */
  lemma NextProgramEnded(s: State, stmts: seq<Stmt>)
    requires Held(s) && s.bound && !s.cancelled
    ensures
      var d := Exec(s, stmts);
      ResetLimits(d.state).cancelled <==>
        d.state.timer == Off && exists k :: 0 <= k < |d.starts| && EndsContext(d.starts[k])
  {
    hide Exec, EndsContext, Threaded, SameClock, ApplyAll;
    var d := Exec(s, stmts);
    ExecThreads(s, stmts);
    ExecKeeps(s, stmts);
    ExecStays(s, stmts);
    EndedSomewhere(s, d);
    if d.state.cancelled { ResetLeavesEnded(d.state); }
  }

  lemma EndedSomewhere(s: State, d: Done)
    requires Threaded(s, d) && !s.cancelled
    ensures d.state.cancelled <==> exists k :: 0 <= k < |d.starts| && EndsContext(d.starts[k])
  {
    hide ApplyAll;
    if d.starts != [] {
      var n := |d.starts| - 1;
      if d.starts[n].state.cancelled { EndedBefore(s, d, n); }
      ActsEnd(d.starts[n].state, d.starts[n].acts);
      if exists k :: 0 <= k < |d.starts| && EndsContext(d.starts[k]) {
        var k :| 0 <= k < |d.starts| && EndsContext(d.starts[k]);
        if k < n { StaysEnded(s, d, k, n); }
      }
    }
  }

  lemma {:induction false} EndedBefore(s: State, d: Done, n: nat)
    requires Threaded(s, d) && !s.cancelled && n < |d.starts| && d.starts[n].state.cancelled
    ensures exists k :: 0 <= k < n && EndsContext(d.starts[k])
    decreases n
  {
    hide ApplyAll;
    assert n > 0 && SameClock(After(d.starts[n - 1]), d.starts[n - 1 + 1].state);
    if d.starts[n - 1].state.cancelled { EndedBefore(s, d, n - 1); } else { assert EndsContext(d.starts[n - 1]); }
  }

  lemma {:induction false} StaysEnded(s: State, d: Done, k: nat, n: nat)
    requires Threaded(s, d) && k < n < |d.starts| && After(d.starts[k]).cancelled
    ensures d.starts[n].state.cancelled
    decreases n - k
  {
    hide ApplyAll;
    assert SameClock(After(d.starts[k]), d.starts[k + 1].state);
    if k + 1 < n {
      ActsEnd(d.starts[k + 1].state, d.starts[k + 1].acts);
      StaysEnded(s, d, k + 1, n);
    }
  }

  lemma {:induction false} ActsEnd(s: State, acts: seq<Act>)
    ensures s.cancelled ==> ApplyAll(s, acts).cancelled
    decreases |acts|
  {
    if acts != [] { ActsEnd(Apply(s, acts[0]), acts[1..]); }
  }

  /** That state is reached: a limit that runs out during a statement which then sets it to zero. */
  lemma EndedContextStays(s: State, limit: int)
    requires Held(s) && s.bound && limit > 0
    ensures ResetLimits(ApplyAll(s, [Limit(limit), Ring, Limit(0)])).cancelled
  {
    var acts := [Limit(limit), Ring, Limit(0)];
    assert acts[1..] == [Ring, Limit(0)] && acts[1..][1..] == [Limit(0)] && acts[1..][1..][1..] == [];
    var fired := Fire(SetTimeLimit(s, limit));
    assert ApplyAll(fired, [Limit(0)]) == ApplyAll(SetTimeLimit(fired, 0), []);
    assert ApplyAll(SetTimeLimit(s, limit), [Ring, Limit(0)]) == ApplyAll(fired, [Limit(0)]);
  }
}
