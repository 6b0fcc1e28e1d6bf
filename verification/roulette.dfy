/**
  The spin controller: a cursor that walks a fixed ring of pockets, one
  highlight per step, decelerating once a stop is requested and halting
  when the cursor and the accumulated duration meet the landing condition.

  Each command is a pure transition on an immutable `Controller` record. It
  returns the new record, the events it produced in order (callbacks
  invoked, tweens requested, an uncaught exception) and the one task it
  left pending on the event loop, if any. The step `_main` is split at its
  only suspension point: `BeginStep` runs up to the highlight request and
  `CompleteStep` is the continuation run when that highlight completes.
 */
module Roulette {
  import opened Js
  import opened Pocket

  /**
    The value of the `state` field. The script numbers the four named states
    0 to 3; `Unassigned` is the field before the first command sets it.
   */
  datatype Phase = Unassigned | READY | START | PLAYING | STOP

  /** A lifecycle hook: the no-op installed by default, or a caller's function. */
  datatype Callback = Noop | Fn(id: nat)

  datatype Hook = OnReady | OnStart | OnPlaying | OnStop

  /** Something observable a transition does, in the order it does it. */
  datatype Event =
    | Invoked(hook: Hook, callback: Callback)
    | Animated(pocket: nat, tween: Tween)
    | Uncaught    // the TypeError of calling `animate` on a missing pocket

  /** Work left on the event loop: a highlight to complete, or a zero-delay timer. */
  datatype Task = HighlightDone | TimerFired

  /**
    An options object passed to the constructor or a command. Each hook
    field is `Some(id)` when it holds a function and `None` otherwise.
   */
  datatype Options = Options(
    index: Num, delay: Num, duration: Num, loop: Num,
    stopIndex: Num, stepDuration: Num, stopThreshold: Num,
    onReady: Option<nat>, onStart: Option<nat>, onPlaying: Option<nat>, onStop: Option<nat>)

  /** The empty object `{}` that replaces a missing options argument. */
  const Empty := Options(Undefined, Undefined, Undefined, Undefined,
                         Undefined, Undefined, Undefined, None, None, None, None)

  datatype Controller = Controller(
    pockets: seq<Visual>,
    stopIndex: Num, stepDuration: Num, stopThreshold: Num,
    index: Num, delay: Num, duration: Num, loop: Num,
    state: Phase,
    onReady: Callback, onStart: Callback, onPlaying: Callback, onStop: Callback)

  /** The outcome of one transition. */
  datatype Out = Out(c: Controller, trace: seq<Event>, next: Option<Task>)

  /** A hook field given as a function replaces the current one; anything else keeps it. */
  function Adopt(given: Option<nat>, current: Callback): (cb: Callback)
    ensures given.Some? ==> cb == Fn(given.value)
    ensures given.None? ==> cb == current
  {
    match given
    case Some(id) => Fn(id)
    case None => current
  }

  /**
    Adopting settles the hook: repeating the same request changes nothing,
    and a hook given as a function wins whatever was installed before.
   */
  lemma AdoptSettles(given: Option<nat>, a: Callback, b: Callback)
    ensures Adopt(given, Adopt(given, a)) == Adopt(given, a)
    ensures given.Some? ==> Adopt(given, a) == Adopt(given, b)
    ensures given.None? && a != b ==> Adopt(given, a) != Adopt(given, b)
  {
  }

  /** The run fields, which `ready` resets and `start` fills in. */
  predicate SameRun(a: Controller, b: Controller) {
    a.index == b.index && a.delay == b.delay && a.duration == b.duration && a.loop == b.loop
  }

  /** The stop fields, which only the constructor and `stop` write. */
  predicate SameStopFields(a: Controller, b: Controller) {
    a.stopIndex == b.stopIndex && a.stepDuration == b.stepDuration && a.stopThreshold == b.stopThreshold
  }

  /** The four hooks. */
  predicate SameHooks(a: Controller, b: Controller) {
    a.onReady == b.onReady && a.onStart == b.onStart && a.onPlaying == b.onPlaying && a.onStop == b.onStop
  }

  /**
    The landing condition, stated directly on the fields: a stop was
    requested, the cursor is the same defined value as the stop index
    (two `undefined`s count as the same, `NaN` never does), and the
    duration is a number above a numeric threshold.
   */
  predicate Lands(c: Controller) {
    && c.state == STOP
    && c.index == c.stopIndex && c.index != NaN
    && c.duration.Int? && c.stopThreshold.Int? && c.duration.i > c.stopThreshold.i
  }

  /**
    The constructor: run and stop fields are copied from the options as
    given, a hook that is not a function becomes the no-op, and the state
    is left unassigned.
   */
  function New(pockets: seq<Visual>, props: Options): (c: Controller)
    ensures c.pockets == pockets && c.state == Unassigned
    ensures c.index == props.index && c.delay == props.delay
    ensures c.duration == props.duration && c.loop == props.loop
    ensures c.stopIndex == props.stopIndex && c.stepDuration == props.stepDuration
    ensures c.stopThreshold == props.stopThreshold
    ensures props.onReady.None? <==> c.onReady == Noop
    ensures props.onStart.None? <==> c.onStart == Noop
    ensures props.onPlaying.None? <==> c.onPlaying == Noop
    ensures props.onStop.None? <==> c.onStop == Noop
    ensures props.onReady.Some? ==> c.onReady == Fn(props.onReady.value)
    ensures props.onStart.Some? ==> c.onStart == Fn(props.onStart.value)
    ensures props.onPlaying.Some? ==> c.onPlaying == Fn(props.onPlaying.value)
    ensures props.onStop.Some? ==> c.onStop == Fn(props.onStop.value)
  {
    Controller(pockets, props.stopIndex, props.stepDuration, props.stopThreshold,
               props.index, props.delay, props.duration, props.loop, Unassigned,
               Adopt(props.onReady, Noop), Adopt(props.onStart, Noop),
               Adopt(props.onPlaying, Noop), Adopt(props.onStop, Noop))
  }

  /**
    `ready(props)`: a hard reset. Every pocket is restored to dim at once,
    the run fields take exactly the given values (missing ones become
    `undefined`), the ready hook is replaced before it is invoked, and the
    stop fields and the other hooks survive.
   */
  function Ready(c: Controller, props: Option<Options>): (o: Out)
    ensures var p := props.GetOr(Empty);
      && o.c.index == p.index && o.c.delay == p.delay
      && o.c.duration == p.duration && o.c.loop == p.loop
    ensures o.c.state == READY
    ensures |o.c.pockets| == |c.pockets|
    ensures forall k :: 0 <= k < |o.c.pockets| ==> o.c.pockets[k] == Dim
    ensures SameStopFields(o.c, c)
    ensures o.c.onStart == c.onStart && o.c.onPlaying == c.onPlaying && o.c.onStop == c.onStop
    ensures o.c.onReady == Adopt(props.GetOr(Empty).onReady, c.onReady)
    ensures |o.trace| == |c.pockets| + 1
    ensures forall k :: 0 <= k < |c.pockets| ==> o.trace[k] == Animated(k, Restore(0))
    ensures o.trace[|c.pockets|] == Invoked(OnReady, o.c.onReady)
    ensures o.next == None
  {
    var n := |c.pockets|;
    var p := props.GetOr(Empty);
    var resets := seq(n, k requires 0 <= k < n => Animated(k, Reset(None)));
    var c' := c.(pockets := seq(n, k => Target(Reset(None))),
                 index := p.index, delay := p.delay, duration := p.duration, loop := p.loop,
                 onReady := Adopt(p.onReady, c.onReady),
                 state := READY);
    Out(c', resets + [Invoked(OnReady, c'.onReady)], None)
  }

  /**
    The cursor after `index = index + 1`, reset to 0 when it exceeds the
    last position. Within the ring this is the successor modulo `n`; from a
    cursor already past the ring it is 0, not the modular successor.
   */
  function Advance(index: Num, n: nat): (r: Num)
    ensures index.Int? ==> r == Int(0) || r == Int(index.i + 1)
    ensures !index.Int? ==> r == NaN
    ensures index.Int? && index.i >= 0 && n >= 1 ==> r.Int? && 0 <= r.i < n
    ensures index.Int? && index.i + 1 <= n - 1 ==> r == Int(index.i + 1)
    ensures index.Int? && index.i + 1 > n - 1 ==> r == Int(0)
    ensures index.Int? && 0 <= index.i < n ==> r == Int((index.i + 1) % n)
  {
    var next := Plus(index, Int(1));
    SuccessorInRing(index, n);
    if Greater(next, Int(n - 1)) then Int(0) else next
  }

  /** Inside the ring, stepping past the last position is wrapping to 0. */
  lemma SuccessorInRing(index: Num, n: int)
    ensures index.Int? && 0 <= index.i < n ==>
      (index.i + 1) % n == if index.i + 1 < n then index.i + 1 else 0
  {
    if index.Int? && 0 <= index.i < n && index.i + 1 == n {
      assert (index.i + 1) % n == n % n == 0;
    }
  }

  /**
    The pocket `pockets[index % n]`, if there is one. JavaScript's `%`
    keeps the sign of the cursor, so a negative cursor selects nothing
    unless it is a multiple of `n`.
   */
  function Select(index: Num, n: nat): (p: Option<nat>)
    ensures p.Some? ==> p.value < n
    ensures p.Some? <==> index.Int? && n > 0 && (index.i >= 0 || index.i % n == 0)
    ensures index.Int? && index.i >= 0 && n > 0 ==> p == Some(index.i % n)
    ensures p.Some? && index.i < 0 ==> p.value == 0
  {
    var r := Rem(index, n);
    if r.Int? && r.i >= 0 then Some(r.i) else None
  }

  /**
    The first half of a step (`_main` up to the highlight request): select
    the pocket under the cursor, advance the cursor, add the step duration
    if a stop was requested, invoke the playing hook, and ask the selected
    pocket to highlight with the current timing. When no pocket is
    selected, the call on the missing pocket throws after the hook has run.
   */
  function BeginStep(c: Controller): (o: Out)
    ensures o.c.state == c.state && o.c.delay == c.delay && o.c.loop == c.loop
    ensures SameStopFields(o.c, c) && SameHooks(o.c, c)
    ensures |o.c.pockets| == |c.pockets|
    ensures o.c.index == Advance(c.index, |c.pockets|)
    ensures c.state == STOP ==> o.c.duration == Plus(c.duration, c.stepDuration)
    ensures c.state != STOP ==> o.c.duration == c.duration
    ensures |o.trace| == 2 && o.trace[0] == Invoked(OnPlaying, c.onPlaying)
    ensures o.next.None? <==>
      |c.pockets| == 0 || !c.index.Int? || (c.index.i < 0 && c.index.i % |c.pockets| != 0)
    ensures o.next.None? ==> o.trace[1] == Uncaught && o.c.pockets == c.pockets
    ensures o.next.Some? ==> o.next == Some(HighlightDone)
    ensures o.next.Some? ==>
      var p := Select(c.index, |c.pockets|).value;
      && o.trace[1] == Animated(p, Highlight(OrZero(c.delay), OrZero(o.c.duration), OrZero(c.loop)))
      && o.c.pockets == c.pockets[p := Highlighted]
    ensures c.index.Int? && c.index.i >= 0 && |c.pockets| >= 1 ==>
      var p := c.index.i % |c.pockets|;
      && o.next.Some?
      && o.trace[1] == Animated(p, Highlight(OrZero(c.delay), OrZero(o.c.duration), OrZero(c.loop)))
      && o.c.pockets == c.pockets[p := Highlighted]
  {
    var n := |c.pockets|;
    var pocket := Select(c.index, n);
    var duration := if c.state == STOP then Plus(c.duration, c.stepDuration) else c.duration;
    var options := TweenOptions(c.delay, duration, c.loop);
    var c' := c.(index := Advance(c.index, n), duration := duration);
    var playing := Invoked(OnPlaying, c.onPlaying);
    match pocket
    case Some(k) =>
      var t := Animate(Some(options));
      Out(c'.(pockets := c.pockets[k := Target(t)]), [playing, Animated(k, t)], Some(HighlightDone))
    case None =>
      Out(c', [playing, Uncaught], None)
  }

  /**
    The second half of a step, run when the highlight completes: on the
    landing condition invoke the stop hook and end the loop, otherwise
    schedule the next step on a zero-delay timer. No field changes.
   */
  function CompleteStep(c: Controller): (o: Out)
    ensures o.c == c
    ensures o.next.None? <==> Lands(c)
    ensures o.next.None? ==> o.trace == [Invoked(OnStop, c.onStop)]
    ensures o.next.Some? ==> o.trace == [] && o.next == Some(TimerFired)
  {
    if c.state == STOP && StrictEquals(c.index, c.stopIndex) && Greater(c.duration, c.stopThreshold) then
      Out(c, [Invoked(OnStop, c.onStop)], None)
    else
      Out(c, [], Some(TimerFired))
  }

  /**
    `start(props)` up to the first step: the state passes through START,
    the current start hook is invoked, every falsy run field takes the
    given value, the start hook is then replaced, and the state becomes
    PLAYING.
   */
  function Arm(c: Controller, props: Option<Options>): (c': Controller)
    ensures c'.state == PLAYING && c'.pockets == c.pockets
    ensures !Falsy(c.index) ==> c'.index == c.index
    ensures Falsy(c.index) ==> c'.index == props.GetOr(Empty).index
    ensures !Falsy(c.delay) ==> c'.delay == c.delay
    ensures Falsy(c.delay) ==> c'.delay == props.GetOr(Empty).delay
    ensures !Falsy(c.duration) ==> c'.duration == c.duration
    ensures Falsy(c.duration) ==> c'.duration == props.GetOr(Empty).duration
    ensures !Falsy(c.loop) ==> c'.loop == c.loop
    ensures Falsy(c.loop) ==> c'.loop == props.GetOr(Empty).loop
    ensures SameStopFields(c', c)
    ensures c'.onReady == c.onReady && c'.onPlaying == c.onPlaying && c'.onStop == c.onStop
    ensures c'.onStart == Adopt(props.GetOr(Empty).onStart, c.onStart)
  {
    var p := props.GetOr(Empty);
    c.(index := FillIn(c.index, p.index), delay := FillIn(c.delay, p.delay),
       duration := FillIn(c.duration, p.duration), loop := FillIn(c.loop, p.loop),
       onStart := Adopt(p.onStart, c.onStart), state := PLAYING)
  }

  /**
    `start(props)`: fill in the unset run fields, end in PLAYING and run
    exactly one step's first half. The hook invoked is the start hook that
    was installed before the call; a new one only takes effect next time.
   */
  function Start(c: Controller, props: Option<Options>): (o: Out)
    ensures o.c.state == PLAYING
    ensures |o.trace| == 3
    ensures o.trace[0] == Invoked(OnStart, c.onStart)
    ensures o.trace[1] == Invoked(OnPlaying, c.onPlaying)
    ensures o.c.onStart == Adopt(props.GetOr(Empty).onStart, c.onStart)
    ensures o.c.index == Advance(FillIn(c.index, props.GetOr(Empty).index), |c.pockets|)
    ensures o.c.delay == FillIn(c.delay, props.GetOr(Empty).delay)
    ensures o.c.duration == FillIn(c.duration, props.GetOr(Empty).duration)
    ensures o.c.loop == FillIn(c.loop, props.GetOr(Empty).loop)
    ensures SameStopFields(o.c, c)
    ensures o.c.onReady == c.onReady && o.c.onPlaying == c.onPlaying && o.c.onStop == c.onStop
    ensures |o.c.pockets| == |c.pockets|
    ensures o.trace[2] == Uncaught || o.trace[2].Animated?
    ensures o.next.None? <==> o.trace[2] == Uncaught
    ensures o.next.None? ==> o.c.pockets == c.pockets
    ensures o.next.Some? ==> o.next == Some(HighlightDone)
    ensures var b := BeginStep(Arm(c, props));
      o.c == b.c && o.trace == [Invoked(OnStart, c.onStart)] + b.trace && o.next == b.next
  {
    var b := BeginStep(Arm(c, props));
    Out(b.c, [Invoked(OnStart, c.onStart)] + b.trace, b.next)
  }

  /**
    `stop(props)`: request a stop. The falsy stop fields take the given
    values, the stop hook may be replaced, and the state becomes STOP.
    Nothing else changes, the step in flight is not cancelled and nothing
    is invoked: the request is seen at the next step boundary.
   */
  function Stop(c: Controller, props: Option<Options>): (o: Out)
    ensures o.c.state == STOP
    ensures !Falsy(c.stopIndex) ==> o.c.stopIndex == c.stopIndex
    ensures Falsy(c.stopIndex) ==> o.c.stopIndex == props.GetOr(Empty).stopIndex
    ensures !Falsy(c.stepDuration) ==> o.c.stepDuration == c.stepDuration
    ensures Falsy(c.stepDuration) ==> o.c.stepDuration == props.GetOr(Empty).stepDuration
    ensures !Falsy(c.stopThreshold) ==> o.c.stopThreshold == c.stopThreshold
    ensures Falsy(c.stopThreshold) ==> o.c.stopThreshold == props.GetOr(Empty).stopThreshold
    ensures SameRun(o.c, c) && o.c.pockets == c.pockets
    ensures o.c.onReady == c.onReady && o.c.onStart == c.onStart && o.c.onPlaying == c.onPlaying
    ensures o.c.onStop == Adopt(props.GetOr(Empty).onStop, c.onStop)
    ensures o.trace == [] && o.next == None
  {
    var p := props.GetOr(Empty);
    var c' := c.(stopIndex := FillIn(c.stopIndex, p.stopIndex),
                 stepDuration := FillIn(c.stepDuration, p.stepDuration),
                 stopThreshold := FillIn(c.stopThreshold, p.stopThreshold),
                 onStop := Adopt(p.onStop, c.onStop),
                 state := STOP);
    Out(c', [], None)
  }

  /** How many times a trace invokes the stop hook. */
  function CountStops(t: seq<Event>): nat {
    if |t| == 0 then 0
    else (if t[0].Invoked? && t[0].hook == OnStop then 1 else 0) + CountStops(t[1..])
  }

  lemma {:induction false} CountStopsAppend(a: seq<Event>, b: seq<Event>)
    ensures CountStops(a + b) == CountStops(a) + CountStops(b)
  {
    if |a| > 0 {
      assert (a + b)[1..] == a[1..] + b;
      CountStopsAppend(a[1..], b);
    } else {
      assert a + b == b;
    }
  }
}
