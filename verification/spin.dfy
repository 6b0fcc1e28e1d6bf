/**
  The stepping loop left to itself: each highlight completes, the timer
  fires and the next step begins, with no command in between. Here the
  deceleration and the landing protocol are proved to end the spin on the
  requested pocket within a bounded number of steps.
 */
module Spin {
  import opened Js
  import opened Roulette

  /** A well-formed cursor: a number inside a non-empty ring. */
  predicate Healthy(c: Controller) {
    |c.pockets| >= 1 && c.index.Int? && 0 <= c.index.i < |c.pockets|
  }

  /**
    A stop is in force with numeric timing: every step adds `stepDuration`
    to `duration`, and the landing test compares numbers.
   */
  predicate Stopping(c: Controller) {
    && c.state == STOP
    && c.duration.Int? && c.stepDuration.Int? && c.stopThreshold.Int?
    && c.stopIndex.Int?
  }

  /**
    The controller after `k` steps. Completing a step changes no field,
    so only the first halves move the record.
   */
  function Steps(c: Controller, k: nat): Controller
    decreases k
  {
    if k == 0 then c else Steps(BeginStep(c).c, k - 1)
  }

  /**
    The result of running the loop: final record, events, whether it
    landed, and how many steps it began.
   */
  datatype Spun = Spun(c: Controller, trace: seq<Event>, landed: bool, steps: nat)

  /**
    Run at most `fuel` whole steps: begin, complete, and either land or go
    round again. The loop ends early when a step throws. The final record
    is the one reached by the steps begun, and a landing happens at the
    first step after which the landing condition holds.
   */
  function Run(c: Controller, fuel: nat): (r: Spun)
    ensures r.steps <= fuel && r.c == Steps(c, r.steps)
    ensures r.landed ==> r.steps >= 1 && Lands(r.c) && r.c.onStop == c.onStop
    ensures forall i :: 1 <= i < r.steps ==> !Lands(Steps(c, i))
    ensures r.landed ==> |r.trace| > 0 && r.trace[|r.trace| - 1] == Invoked(OnStop, c.onStop)
    ensures CountStops(r.trace) == (if r.landed then 1 else 0)
    decreases fuel
  {
    if fuel == 0 then Spun(c, [], false, 0)
    else
      var b := BeginStep(c);
      CountStopsAppend([b.trace[0]], [b.trace[1]]);
      assert b.trace == [b.trace[0]] + [b.trace[1]];
      if b.next.None? then Spun(b.c, b.trace, false, 1)
      else
        var e := CompleteStep(b.c);
        CountStopsAppend(b.trace, e.trace);
        if e.next.None? then Spun(e.c, b.trace + e.trace, true, 1)
        else
          var r := Run(e.c, fuel - 1);
          NoEarlierLanding(c, r.steps);
          CountStopsAppend(b.trace, r.trace);
          Spun(r.c, b.trace + r.trace, r.landed, r.steps + 1)
  }

  /** Stepping `i` times is one step and then `i - 1` more. */
  lemma StepsShift(c: Controller)
    ensures forall i :: 1 <= i ==> Steps(c, i) == Steps(BeginStep(c).c, i - 1)
  {
  }

  /**
    If the first step does not land and none of the next `k - 1` steps
    after it does, then none of the first `k` steps lands.
   */
  lemma NoEarlierLanding(c: Controller, k: nat)
    requires !Lands(BeginStep(c).c)
    requires forall i :: 1 <= i < k ==> !Lands(Steps(BeginStep(c).c, i))
    ensures Steps(c, k + 1) == Steps(BeginStep(c).c, k)
    ensures forall i :: 1 <= i < k + 1 ==> !Lands(Steps(c, i))
  {
    StepsShift(c);
  }

  /** Doing `a` steps and then `b` more is doing `a + b` steps. */
  lemma {:induction false} StepsCompose(c: Controller, a: nat, b: nat)
    ensures Steps(c, a + b) == Steps(Steps(c, a), b)
    decreases a
  {
    if a > 0 {
      StepsCompose(BeginStep(c).c, a - 1, b);
    }
  }

  /**
    Steps keep the cursor inside the ring and leave the ring, the state and
    the stop fields alone.
   */
  lemma {:induction false} StepsKeepRing(c: Controller, k: nat)
    requires Healthy(c)
    ensures Healthy(Steps(c, k))
    ensures |Steps(c, k).pockets| == |c.pockets|
    ensures Steps(c, k).state == c.state && SameStopFields(Steps(c, k), c)
    decreases k
  {
    if k > 0 {
      StepsKeepRing(BeginStep(c).c, k - 1);
    }
  }

  /** Deceleration: under a stop, `k` steps add exactly `k` step durations. */
  lemma {:induction false} StepsDecelerate(c: Controller, k: nat)
    requires Stopping(c)
    ensures Stopping(Steps(c, k))
    ensures Steps(c, k).duration == Int(c.duration.i + k * c.stepDuration.i)
    decreases k
  {
    if k > 0 {
      var c1 := StopStep(c);
      StepsDecelerate(c1, k - 1);
      OneMoreStep(c.duration.i, c.stepDuration.i, k);
    }
  }

  lemma OneMoreStep(d: int, s: int, k: int)
    ensures (d + s) + (k - 1) * s == d + k * s
  {
  }

  /** One step under a stop keeps it in force and adds one step duration. */
  lemma StopStep(c: Controller) returns (c1: Controller)
    requires Stopping(c)
    ensures Stopping(c1) && c1.stepDuration == c.stepDuration
    ensures c1.duration == Int(c.duration.i + c.stepDuration.i)
    ensures forall k: nat :: k > 0 ==> Steps(c, k) == Steps(c1, k - 1)
  {
    c1 := BeginStep(c).c;
  }

  /** Once stopping with a positive step, every step strictly lengthens the next highlight. */
  lemma StrictlyDecelerating(c: Controller, k: nat)
    requires Stopping(c) && c.stepDuration.i > 0
    ensures Steps(c, k).duration.Int? && Steps(c, k + 1).duration.Int?
    ensures Steps(c, k + 1).duration.i > Steps(c, k).duration.i
  {
    StepsDecelerate(c, k);
    StepsDecelerate(c, k + 1);
    assert (k + 1) * c.stepDuration.i == k * c.stepDuration.i + c.stepDuration.i;
  }

  /** Before reaching the end of the ring the cursor moves up by one per step. */
  lemma {:induction false} CursorClimbs(c: Controller, k: nat)
    requires Healthy(c) && c.index.i + k < |c.pockets|
    ensures Steps(c, k).index == Int(c.index.i + k)
    decreases k
  {
    if k > 0 {
      CursorClimbs(BeginStep(c).c, k - 1);
    }
  }

  /** From position `i`, `N - i` steps bring the cursor round to 0. */
  lemma CursorWraps(c: Controller)
    requires Healthy(c)
    ensures Healthy(Steps(c, |c.pockets| - c.index.i))
    ensures |Steps(c, |c.pockets| - c.index.i).pockets| == |c.pockets|
    ensures Steps(c, |c.pockets| - c.index.i).index == Int(0)
  {
    var k := |c.pockets| - 1 - c.index.i;
    CursorClimbs(c, k);
    StepsKeepRing(c, k);
    StepsCompose(c, k, 1);
    var last := Steps(c, k);
    assert Steps(last, 1) == BeginStep(last).c;
    StepsKeepRing(c, k + 1);
  }

  /** From any position the cursor reaches every position within one lap. */
  lemma CursorReaches(c: Controller, target: int) returns (j: nat)
    requires Healthy(c) && 0 <= target < |c.pockets|
    ensures 1 <= j <= |c.pockets|
    ensures Steps(c, j).index == Int(target)
  {
    var n, i := |c.pockets|, c.index.i;
    if i < target {
      j := target - i;
      CursorClimbs(c, j);
    } else {
      CursorWraps(c);
      CursorClimbs(Steps(c, n - i), target);
      StepsCompose(c, n - i, target);
      j := n - i + target;
    }
  }

  /**
    The fewest stopping steps after which `duration` exceeds the threshold:
    `max(0, ceil((threshold - duration + 1) / step))`.
   */
  function CatchUp(duration: int, step: int, threshold: int): (m: nat)
    requires step > 0
    ensures duration + m * step > threshold
    ensures m > 0 ==> duration + (m - 1) * step <= threshold
  {
    var gap := threshold - duration + 1;
    if gap <= 0 then 0
    else
      var m := (gap + step - 1) / step;
      var r := (gap + step - 1) % step;
      assert gap + step - 1 == m * step + r;
      assert (m - 1) * step == m * step - step;
      m
  }

  /** Steps beyond the catch-up count only lengthen the duration further. */
  lemma PastThreshold(d: int, s: int, t: int, m: nat, k: nat)
    requires s > 0 && k >= m && d + m * s > t
    ensures d + k * s > t
  {
    assert k * s == m * s + (k - m) * s;
  }

  /** The step budget within which a spin that is stopping must land. */
  function Bound(c: Controller): nat
    requires Stopping(c) && c.stepDuration.i > 0
  {
    CatchUp(c.duration.i, c.stepDuration.i, c.stopThreshold.i) + |c.pockets|
  }

  /** If the landing condition holds after the `j`-th step, a run with enough fuel lands. */
  lemma {:induction false} RunLandsBy(c: Controller, fuel: nat, j: nat)
    requires Healthy(c) && 1 <= j <= fuel && Lands(Steps(c, j))
    ensures Run(c, fuel).landed
    decreases j
  {
    var b := BeginStep(c);
    if !Lands(b.c) {
      assert j >= 2;
      RunLandsBy(b.c, fuel - 1, j - 1);
    }
  }

  /**
    The loop lands exactly at the first step after which the landing
    condition holds, provided the fuel reaches that step and no earlier
    step threw.
   */
  lemma RunLandsAtFirst(c: Controller, fuel: nat, j: nat)
    requires Healthy(c) && 1 <= j <= fuel && Lands(Steps(c, j))
    requires forall i :: 1 <= i < j ==> !Lands(Steps(c, i))
    ensures Run(c, fuel).landed && Run(c, fuel).steps == j && Run(c, fuel).c == Steps(c, j)
  {
    RunLandsBy(c, fuel, j);
    var r := Run(c, fuel);
    assert Lands(Steps(c, r.steps));
  }

  /**
    The loop does not give up on its own: from a cursor in the ring, while
    no step meets the landing condition, it runs every step the fuel allows
    without landing.
   */
  lemma {:induction false} RunSpinsOn(c: Controller, fuel: nat)
    requires Healthy(c)
    requires forall i :: 1 <= i <= fuel ==> !Lands(Steps(c, i))
    ensures !Run(c, fuel).landed && Run(c, fuel).steps == fuel
    decreases fuel
  {
    if fuel > 0 {
      var c1 := NoLandingYet(c, fuel);
      RunSpinsOn(c1, fuel - 1);
      RunGoesRound(c, fuel);
    }
  }

  /** A step that neither throws nor lands hands the rest of the fuel to the next one. */
  lemma RunGoesRound(c: Controller, fuel: nat)
    requires fuel >= 1 && BeginStep(c).next.Some? && !Lands(BeginStep(c).c)
    ensures var r := Run(BeginStep(c).c, fuel - 1);
      Run(c, fuel).landed == r.landed && Run(c, fuel).steps == r.steps + 1
  {
  }

  /** A first step that does not land, from a cursor in the ring, leaves the rest to run. */
  lemma NoLandingYet(c: Controller, fuel: nat) returns (c1: Controller)
    requires Healthy(c) && fuel >= 1
    requires forall i :: 1 <= i <= fuel ==> !Lands(Steps(c, i))
    ensures c1 == BeginStep(c).c && Healthy(c1) && !Lands(c1)
    ensures BeginStep(c).next.Some?
    ensures forall i :: 1 <= i <= fuel - 1 ==> !Lands(Steps(c1, i))
  {
    c1 := BeginStep(c).c;
    StepsKeepRing(c, 1);
    assert Steps(c, 1) == c1;
    StepsShift(c);
    assert forall i :: 1 <= i <= fuel - 1 ==> Steps(c, i + 1) == Steps(c1, i);
  }

  /**
    Liveness: with the stop in force, a positive step duration and a stop
    index inside the ring, the spin lands within `Bound(c)` steps, that is
    within the steps needed to pass the threshold plus one lap.
   */
  lemma Liveness(c: Controller)
    requires Healthy(c) && Stopping(c) && c.stepDuration.i > 0
    requires 0 <= c.stopIndex.i < |c.pockets|
    ensures Run(c, Bound(c)).landed
  {
    var total := LandingStep(c);
    RunLandsBy(c, Bound(c), total);
  }

  /** A step, within the budget, after which the landing condition holds. */
  lemma LandingStep(c: Controller) returns (total: nat)
    requires Healthy(c) && Stopping(c) && c.stepDuration.i > 0
    requires 0 <= c.stopIndex.i < |c.pockets|
    ensures 1 <= total <= Bound(c)
    ensures Lands(Steps(c, total))
  {
    var d, s, t := c.duration.i, c.stepDuration.i, c.stopThreshold.i;
    var m := CatchUp(d, s, t);
    var warm: nat := if m == 0 then 0 else m - 1;
    StepsKeepRing(c, warm);
    var j := CursorReaches(Steps(c, warm), c.stopIndex.i);
    StepsCompose(c, warm, j);
    total := warm + j;
    var last := Steps(c, total);
    StepsDecelerate(c, total);
    PastThreshold(d, s, t, m, total);
    StepsKeepRing(c, total);
    assert last.index == Int(c.stopIndex.i) == last.stopIndex;
    assert last.duration.i > last.stopThreshold.i;
  }

  /**
    The cursor is read after it has advanced: when a step lands, the pocket
    it highlighted is the one just before the stop index in the ring.
   */
  lemma LandsOneBeforeStopIndex(c: Controller)
    requires Healthy(c)
    requires CompleteStep(BeginStep(c).c).next.None?
    ensures c.stopIndex.Int?
    ensures BeginStep(c).trace[1].Animated?
    ensures BeginStep(c).trace[1].pocket == c.index.i
    ensures c.index.i == if c.stopIndex.i == 0 then |c.pockets| - 1 else c.stopIndex.i - 1
  {
    var b := BeginStep(c);
    assert Lands(b.c);
    AdvancedFrom(c.index.i, |c.pockets|, b.c.index);
    SmallRemainder(c.index.i, |c.pockets|);
    assert b.trace[1].pocket == c.index.i % |c.pockets|;
  }

  lemma SmallRemainder(i: int, n: int)
    requires 0 <= i < n
    ensures i % n == i
  {
  }

  /** The cursor position that advances to a given one is its predecessor in the ring. */
  lemma AdvancedFrom(i: int, n: nat, next: Num)
    requires 0 <= i < n && next == Advance(Int(i), n)
    ensures next.Int? && i == if next.i == 0 then n - 1 else next.i - 1
  {
  }

  /**
    The values the page wires in: six pockets, a run at duration 75, and a
    stop at index 4 with step 10 and threshold 300 lands within 29 steps.
   */
  lemma WiredStopLands(c: Controller)
    requires Healthy(c) && |c.pockets| == 6
    requires c.state == STOP && c.duration == Int(75)
    requires c.stopIndex == Int(4) && c.stepDuration == Int(10) && c.stopThreshold == Int(300)
    ensures Run(c, 29).landed
  {
    assert Bound(c) == 29;
    Liveness(c);
  }
}
