/**
  The controller on its single-threaded event loop. Commands from the page
  (`ready`, `start`, `stop`) run to completion as soon as they are issued;
  between them, any pending task may be delivered: a highlight completing
  (which runs `CompleteStep`) or a zero-delay timer firing (which runs
  `BeginStep`). Tasks may be delivered in any order, so every interleaving
  of commands with the two halves of a step is covered.
 */
module Session {
  import opened Js
  import opened Pocket
  import opened Roulette
  import Spin

  /** The controller, the tasks still pending, and everything observed so far. */
  datatype Page = Page(c: Controller, tasks: seq<Task>, trace: seq<Event>)

  datatype Action =
    | CallReady(props: Option<Options>)
    | CallStart(props: Option<Options>)
    | CallStop(props: Option<Options>)
    | Deliver(k: nat)    // run the `k`-th pending task

  /** Fold one transition's outcome into the session. */
  function Apply(s: Page, o: Out, rest: seq<Task>): Page {
    Page(o.c, rest + (if o.next.Some? then [o.next.value] else []), s.trace + o.trace)
  }

  /** The continuation a pending task runs. */
  function RunTask(c: Controller, t: Task): Out {
    match t
    case HighlightDone => CompleteStep(c)
    case TimerFired => BeginStep(c)
  }

  /**
    One action. Events are only ever appended; `stop` leaves the pending
    tasks alone, so it never cancels a step in flight; every task that ends
    a loop by invoking the stop hook is consumed without a successor, so
    stop-hook invocations plus pending tasks never exceed the tasks there
    were plus the loops `start` begins.
   */
  function Exec(s: Page, a: Action): (s': Page)
    ensures |s.trace| <= |s'.trace| && s'.trace[..|s.trace|] == s.trace
    ensures a.CallStop? ==> s'.tasks == s.tasks && s'.trace == s.trace
    ensures a.Deliver? && a.k >= |s.tasks| ==> s' == s
    ensures CountStops(s'.trace) + |s'.tasks| <= CountStops(s.trace) + |s.tasks| + (if a.CallStart? then 1 else 0)
  {
    match a
    case CallReady(p) =>
      var o := Ready(s.c, p);
      CountStopsReady(s.c, p);
      CountStopsAppend(s.trace, o.trace);
      Apply(s, o, s.tasks)
    case CallStart(p) =>
      var o := Start(s.c, p);
      assert o.trace == [o.trace[0]] + [o.trace[1]] + [o.trace[2]];
      CountStopsAppend([o.trace[0]] + [o.trace[1]], [o.trace[2]]);
      CountStopsAppend([o.trace[0]], [o.trace[1]]);
      CountStopsAppend(s.trace, o.trace);
      Apply(s, o, s.tasks)
    case CallStop(p) =>
      var o := Stop(s.c, p);
      assert s.trace + o.trace == s.trace;
      Apply(s, o, s.tasks)
    case Deliver(k) =>
      if k < |s.tasks| then
        var o := RunTask(s.c, s.tasks[k]);
        var rest := s.tasks[..k] + s.tasks[k + 1..];
        TaskBudget(s.c, s.tasks[k]);
        CountStopsAppend(s.trace, o.trace);
        Apply(s, o, rest)
      else
        s
  }

  /**
    A task invokes the stop hook only when it leaves no successor: a
    completing highlight either lands or schedules the next step, and a
    step's first half never invokes the stop hook.
   */
  lemma TaskBudget(c: Controller, t: Task)
    ensures CountStops(RunTask(c, t).trace) + (if RunTask(c, t).next.Some? then 1 else 0) <= 1
  {
    var o := RunTask(c, t);
    if t == TimerFired {
      assert o.trace == [o.trace[0]] + [o.trace[1]];
      CountStopsAppend([o.trace[0]], [o.trace[1]]);
    }
  }

  /** `ready` invokes only the ready hook, never the stop hook. */
  lemma CountStopsReady(c: Controller, p: Option<Options>)
    ensures CountStops(Ready(c, p).trace) == 0
  {
    var t := Ready(c, p).trace;
    NoStopsIn(t, 0);
  }

  lemma {:induction false} NoStopsIn(t: seq<Event>, from: nat)
    requires from <= |t|
    requires forall k :: from <= k < |t| ==> !(t[k].Invoked? && t[k].hook == OnStop)
    ensures CountStops(t[from..]) == 0
    decreases |t| - from
  {
    if from < |t| {
      assert t[from..][1..] == t[from + 1..];
      NoStopsIn(t, from + 1);
    } else {
      assert t[from..] == [];
    }
  }

  /** Run a sequence of actions in order. */
  function ExecAll(s: Page, actions: seq<Action>): Page
    decreases |actions|
  {
    if |actions| == 0 then s else ExecAll(Exec(s, actions[0]), actions[1..])
  }

  /** How many `start` commands a sequence of actions issues. */
  function Starts(actions: seq<Action>): nat {
    if |actions| == 0 then 0
    else (if actions[0].CallStart? then 1 else 0) + Starts(actions[1..])
  }

  /**
    The stop hook fires at most once per loop: over any interleaving, the
    stop-hook invocations added plus the tasks left pending are bounded by
    the tasks pending at the outset plus the number of `start` commands.
   */
  lemma {:induction false} StopHookBudget(s: Page, actions: seq<Action>)
    ensures CountStops(ExecAll(s, actions).trace) + |ExecAll(s, actions).tasks|
            <= CountStops(s.trace) + |s.tasks| + Starts(actions)
    decreases |actions|
  {
    if |actions| > 0 {
      StopHookBudget(Exec(s, actions[0]), actions[1..]);
    }
  }

  /** From an idle page, a single `start` yields at most one stop-hook invocation. */
  lemma OneStartOneStop(c: Controller, actions: seq<Action>)
    requires Starts(actions) <= 1
    ensures CountStops(ExecAll(Page(c, [], []), actions).trace) <= 1
  {
    StopHookBudget(Page(c, [], []), actions);
  }

  /**
    A stop issued while a highlight is in flight is seen when that highlight
    completes: the stop hook fires then if the stopped controller meets the
    landing condition, and otherwise the loop goes on.
   */
  lemma StopSeenAtNextBoundary(s: Page, p: Option<Options>)
    requires s.tasks == [HighlightDone]
    ensures var stopped := Stop(s.c, p).c;
            var s' := Exec(Exec(s, CallStop(p)), Deliver(0));
      && s'.c == stopped
      && (Lands(stopped) ==> s'.tasks == [] && s'.trace == s.trace + [Invoked(OnStop, stopped.onStop)])
      && (!Lands(stopped) ==> s'.tasks == [TimerFired] && s'.trace == s.trace)
  {
  }

  /** The options the page passes to both `ready` and `start`. */
  const WiredRun := Empty.(index := Int(0), delay := Int(0), duration := Int(75), loop := Int(1))

  /** The options the page passes to `stop`. */
  const WiredStop := Empty.(stopIndex := Int(4), stepDuration := Int(10), stopThreshold := Int(300))

  /**
    With `ready` and `start` given the same options, `start` fills in
    nothing new: the run fields are exactly the options', the cursor having
    taken its first step.
   */
  lemma ReadyThenStart(c: Controller, p: Options)
    ensures var o := Start(Ready(c, Some(p)).c, Some(p)).c;
      && o.delay == p.delay && o.duration == p.duration && o.loop == p.loop
      && o.index == Advance(p.index, |c.pockets|)
  {
  }

  /**
    The page's start button on six pockets: every pocket is dimmed, the
    ready, start and playing hooks run in that order, pocket 0 is asked to
    highlight over 75 ms once, and the cursor moves to pocket 1.
   */
  lemma WiredStartHighlightsFirstPocket(c: Controller)
    requires |c.pockets| == 6
    ensures var s := ExecAll(Page(c, [], []), [CallReady(Some(WiredRun)), CallStart(Some(WiredRun))]);
      && s.tasks == [HighlightDone]
      && s.c.index == Int(1) && s.c.state == PLAYING
      && |s.trace| == 10
      && s.trace[..6] == seq(6, k requires 0 <= k < 6 => Animated(k, Restore(0)))
      && s.c.pockets == [Highlighted, Dim, Dim, Dim, Dim, Dim]
      && s.trace[6..] == [Invoked(OnReady, c.onReady), Invoked(OnStart, c.onStart),
                          Invoked(OnPlaying, c.onPlaying), Animated(0, Highlight(0, 75, 1))]
  {
    var s0 := Page(c, [], []);
    ExecTwo(s0, CallReady(Some(WiredRun)), CallStart(Some(WiredRun)));
    var r := WiredReady(c);
    var o := WiredStart(r.c);
    var s2 := Apply(Apply(s0, r, []), o, []);
    assert s2.trace == r.trace + o.trace;
    assert s2.trace[..6] == r.trace[..6];
    assert s2.trace[6..] == [r.trace[6]] + o.trace;
  }

  /** Two commands in a row, with no task delivered in between. */
  lemma ExecTwo(s: Page, a: Action, b: Action)
    requires a.CallReady? && b.CallStart?
    ensures var r := Ready(s.c, a.props); var s1 := Apply(s, r, s.tasks);
      ExecAll(s, [a, b]) == Apply(s1, Start(r.c, b.props), s1.tasks)
  {
    var s1 := Exec(s, a);
    assert s1 == Apply(s, Ready(s.c, a.props), s.tasks);
    var s2 := Exec(s1, b);
    assert s2 == Apply(s1, Start(s1.c, b.props), s1.tasks);
    assert ExecAll(s1, [b]) == ExecAll(s2, []) by { assert [b][1..] == []; }
    assert ExecAll(s, [a, b]) == ExecAll(s1, [b]) by { assert [a, b][1..] == [b]; }
  }

  /** The run fields hold the page's options: cursor 0, no delay, 75 ms, one loop. */
  predicate RunsAsWired(c: Controller) {
    c.index == Int(0) && c.delay == Int(0) && c.duration == Int(75) && c.loop == Int(1)
  }

  /** `ready` with the page's options on six pockets. */
  lemma WiredReady(c: Controller) returns (r: Out)
    requires |c.pockets| == 6
    ensures r == Ready(c, Some(WiredRun))
    ensures r.c.pockets == [Dim, Dim, Dim, Dim, Dim, Dim] && |r.trace| == 7
    ensures r.trace[..6] == seq(6, k requires 0 <= k < 6 => Animated(k, Restore(0)))
    ensures r.trace[6] == Invoked(OnReady, c.onReady)
    ensures RunsAsWired(r.c) && r.c.onStart == c.onStart && r.c.onPlaying == c.onPlaying
  {
    r := Ready(c, Some(WiredRun));
    assert forall k :: 0 <= k < 6 ==> r.c.pockets[k] == Dim;
  }

  /** `start` with the page's options right after the page's `ready`. */
  lemma WiredStart(c: Controller) returns (o: Out)
    requires |c.pockets| == 6 && RunsAsWired(c)
    ensures o == Start(c, Some(WiredRun))
    ensures o.trace == [Invoked(OnStart, c.onStart), Invoked(OnPlaying, c.onPlaying),
                        Animated(0, Highlight(0, 75, 1))]
    ensures o.c.pockets == c.pockets[0 := Highlighted] && o.next == Some(HighlightDone)
    ensures o.c.index == Int(1) && o.c.state == PLAYING
  {
    o := Start(c, Some(WiredRun));
    var a := Arm(c, Some(WiredRun));
    assert RunsAsWired(a);
    assert Select(a.index, 6) == Some(0);
  }

  /**
    The hooks the page hands to the constructor are the ones the commands
    invoke: when `ready`, `start` and `stop` are given no hooks of their
    own, `ready` invokes the constructed ready hook, `start` the constructed
    start and playing hooks, and after `stop` the installed stop hook is
    still the constructed one.
   */
  lemma ConstructedHooksInvoked(q: seq<Visual>, p: Options, r: Option<Options>, t: Option<Options>)
    requires r.GetOr(Empty).onReady.None? && r.GetOr(Empty).onStart.None?
    requires t.GetOr(Empty).onStop.None?
    ensures var c0 := New(q, p);
            var o1 := Ready(c0, r);
            var o2 := Start(o1.c, r);
            var c3 := Stop(o2.c, t).c;
      && o1.trace[|q|] == Invoked(OnReady, c0.onReady)
      && o2.trace[..2] == [Invoked(OnStart, c0.onStart), Invoked(OnPlaying, c0.onPlaying)]
      && SameHooks(c3, c0)
      && (p.onStop.Some? ==> c3.onStop == Fn(p.onStop.value))
  {
  }

  /** `stop` is idempotent: repeating the same request changes nothing more. */
  lemma StopIdempotent(c: Controller, p: Option<Options>)
    ensures Stop(Stop(c, p).c, p) == Stop(c, p)
  {
  }

  /**
    `ready` discards prior run state: two controllers with the same number
    of pockets end up with the same pockets, run fields and state.
   */
  lemma ReadyForgetsRun(a: Controller, b: Controller, p: Option<Options>)
    requires |a.pockets| == |b.pockets|
    ensures Ready(a, p).c.pockets == Ready(b, p).c.pockets
    ensures SameRun(Ready(a, p).c, Ready(b, p).c) && Ready(a, p).c.state == Ready(b, p).c.state
    ensures Ready(a, p).trace[..|a.pockets|] == Ready(b, p).trace[..|b.pockets|]
  {
  }

  /**
    The page's stop button, pressed on a first run (stop fields never set)
    while six pockets spin at 75 ms: the stop takes index 4, step 10 and
    threshold 300, and the loop left to itself lands within 29 steps.
   */
  lemma WiredStopButtonLands(c: Controller)
    requires Spin.Healthy(c) && |c.pockets| == 6 && c.duration == Int(75)
    requires Falsy(c.stopIndex) && Falsy(c.stepDuration) && Falsy(c.stopThreshold)
    ensures Stop(c, Some(WiredStop)).c.stopIndex == Int(4)
    ensures Spin.Run(Stop(c, Some(WiredStop)).c, 29).landed
  {
    Spin.WiredStopLands(Stop(c, Some(WiredStop)).c);
  }

  /**
    The stop fields outlive a run: `ready` keeps them, and a later `stop`
    only fills the ones still falsy, so once set they are never replaced.
   */
  lemma StopFieldsSticky(c: Controller, p: Option<Options>, q: Option<Options>)
    requires !Falsy(c.stopIndex) && !Falsy(c.stepDuration) && !Falsy(c.stopThreshold)
    ensures SameStopFields(Stop(Ready(c, p).c, q).c, c)
  {
  }
}
