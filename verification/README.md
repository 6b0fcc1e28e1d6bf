# Roulette spin controller in Dafny

A model of the spin controller of a small roulette-wheel page. The wheel is
a ring of pockets that light up one after another. The controller walks a
cursor round the ring and asks one pocket per step to highlight. Once a
stop is requested, every step gets longer. The spin ends when the cursor
reaches the requested pocket after the step duration has passed a threshold.

The model has five modules:

- `Js` (`js.dfy`): the JavaScript number semantics the controller depends on.
  A field is `Undefined`, `NaN` or an integer (`Num`). Falsiness covers
  `undefined`, `NaN` and 0. The module also gives the fill-in merge
  `x || (x = v)`, the default `v || 0`, `+`, `>`, `===` and the truncating `%`.
- `Pocket` (`pocket.dfy`): `animate` and `reset` turn an options object into
  a tween request, with every missing or falsy timing field set to 0. A
  pocket is either `Dim` or `Highlighted`.
- `Roulette` (`roulette.dfy`): the controller record and its transitions.
  These are the constructor, `ready`, `start`, `stop`, and the step `_main`
  split at its one suspension point. `BeginStep` runs up to the highlight
  request. `CompleteStep` is the continuation that runs when the highlight
  completes. Each transition returns the new record, the ordered events it
  produced, and the task it left pending. An event is a hook invoked, a
  tween requested, or an uncaught `TypeError`.
- `Spin` (`spin.dfy`): the loop left to itself. It proves deceleration, that
  the cursor reaches every position, and that the spin lands within a bound.
- `Session` (`session.dfy`): the single-threaded event loop. Commands and
  pending tasks (highlight completions and zero-delay timers) interleave in
  any order. It proves that `stop` cancels nothing and that the stop hook
  fires at most once per `start`.

The model follows the code on these points:

- The cursor does not wrap modulo the ring length. The new cursor is
  `index + 1`, or 0 when that exceeds the last position. From a cursor
  already past the ring this gives 0, not the modular successor.
- The pocket is read as `pockets[index % N]` with JavaScript's truncating
  `%`. It is missing when the ring is empty, when the cursor is not a
  number, or when the cursor is negative and not a multiple of N. In those
  cases `animate` on the missing pocket throws. This happens after the
  cursor and duration are updated and the playing hook has run. So the
  cursor is not always a valid position. A non-negative cursor is inside
  the ring after one step; a negative or non-numeric one may never be.
- The landing test reads the cursor after it has advanced. In an
  uninterrupted loop whose cursor was inside the ring before the landing
  step (every step after the first, from any non-negative cursor), the
  pocket last highlighted when the stop hook fires is the one before
  `stopIndex`. A first step from a cursor past the ring, or a completion
  left over from before a `ready`, can land with some other pocket lit.
- `start` invokes the start hook installed before the call, then replaces
  it. `ready` replaces the ready hook first, then invokes it.
- `ready` never resets the stop fields. `stop` fills them only when falsy.
  So once set, they survive every later run.

## Model

| member | source | states |
|---|---|---|
| Js.FillIn | no-effect/index.js:175-178 | the fill-in merge keeps a truthy current value and otherwise takes the given one; the result is falsy exactly when both are |
| Js.OrZero | no-effect/index.js:86-88 | the default-to-zero of `v` is non-zero exactly when `v` is truthy, and is then `v` itself |
| Js.Plus | no-effect/index.js:218 | `+` yields a number exactly when both operands are numbers (the sum), else `NaN`, never `undefined` |
| Js.Rem | no-effect/index.js:208 | `%` yields a number exactly for a numeric dividend and a positive divisor; it agrees with the Euclidean remainder on non-negative cursors; on negative ones it lies in (-N, 0] and is 0 exactly on multiples of N; it always differs from the dividend by a multiple of N; anything else gives `NaN`, never `undefined` |
| Pocket.Animate | no-effect/index.js:81-98 | `animate` requests a highlight whose delay, duration and loop are each the given value when truthy and 0 otherwise; a missing options object gives all zeros |
| Pocket.Reset | no-effect/index.js:100-113 | `reset` requests a return to dim whose duration is the given one when truthy and 0 otherwise |
| Pocket.AnimateRoundTrip | no-effect/index.js:84-97 | spelling out a highlight request as an options object and animating with it requests the same tween |
| Pocket.AnimateIgnoresFalsyKind | no-effect/index.js:86-88 | options that agree on their truthy fields request the same tween; a request equals the no-options one exactly when every field is falsy |
| Roulette.Adopt | no-effect/index.js:161-163 | a hook given as a function replaces the current one; a missing or non-function hook keeps it |
| Roulette.AdoptSettles | no-effect/index.js:180-182 | adopting the same hook twice changes nothing more; a function hook wins whatever was installed; otherwise distinct current hooks stay distinct |
| Roulette.New | no-effect/index.js:117-138 | the constructor copies run and stop fields as given, leaves the state unassigned, and installs each hook given as a function itself and a no-op exactly for each hook that is not a function |
| Roulette.Ready | no-effect/index.js:147-167 | `ready` sets index, delay, duration and loop to exactly the given values (missing becomes undefined), dims every pocket, sets READY, keeps the stop fields and other hooks, and emits one reset per pocket then the new ready hook |
| Roulette.Advance | no-effect/index.js:209-213 | the advanced cursor is `index + 1` when that is at most the last position `N - 1`, and 0 otherwise, negative cursors included; NaN from a non-number; inside `[0, N)` from any non-negative cursor; the modular successor for a cursor already in the ring |
| Roulette.Select | no-effect/index.js:205-208 | a pocket is selected exactly when the ring is non-empty and the cursor is a number that is non-negative or a multiple of N; for a non-negative cursor it is `index mod N`, and for a negative multiple of N it is pocket 0 |
| Roulette.BeginStep | no-effect/index.js:202-234 | a step invokes the playing hook once, then, whenever a pocket is selected (negative multiples of N included), highlights that pocket with the current delay, the updated duration and the loop (falsy as 0), and marks it highlighted; for a non-negative cursor that pocket is `index mod N`. It advances the cursor by the wrap rule, adds `stepDuration` to `duration` exactly when stopping, and throws exactly when no pocket is selected |
| Roulette.CompleteStep | no-effect/index.js:235-246 | on completion the stop hook fires and nothing is scheduled exactly when the landing condition holds (STOP, cursor === stopIndex, duration > threshold); otherwise one timer is scheduled and nothing is invoked; no field changes |
| Roulette.Arm | no-effect/index.js:169-184 | before stepping, `start` fills each falsy run field from the options, keeps each truthy one, replaces the start hook and sets PLAYING |
| Roulette.Start | no-effect/index.js:169-186 | `start` invokes the old start hook and then performs exactly one step on the armed record: it ends in PLAYING with delay, duration and loop filled in and the filled cursor advanced once; the other hooks, the stop fields and the ring size are kept; the third event is a highlight, or an uncaught throw exactly when no task is left pending, in which case no pocket changes |
| Roulette.Stop | no-effect/index.js:188-200 | `stop` sets STOP and fills only the falsy stop fields; run fields, pockets and other hooks are unchanged; nothing is invoked or scheduled |
| Spin.Run | no-effect/index.js:205-246 | the uninterrupted loop ends on the record reached by the steps it began, none of which but the last met the landing condition; it fires the stop hook at most once, as its last event, and only when that final record meets the landing condition |
| Spin.RunSpinsOn | no-effect/index.js:235-246 | from a cursor in the ring, while no step meets the landing condition the loop keeps stepping: it uses all its fuel and does not land |
| Spin.RunLandsAtFirst | no-effect/index.js:235-246 | from a cursor in the ring, the loop lands at exactly the first step after which the landing condition holds, given the fuel to reach it |
| Spin.StepsKeepRing | no-effect/index.js:205-213 | any number of steps from a cursor in the ring keep it in the ring and leave the ring size, the state and the stop fields unchanged |
| Spin.StepsDecelerate | no-effect/index.js:217-219 | while stopping, `k` steps add exactly `k` step durations to the duration, whatever the cursor |
| Spin.StrictlyDecelerating | no-effect/index.js:217-219 | while stopping with a positive step, each step's duration strictly exceeds the previous one's, whatever the cursor |
| Spin.CursorWraps | no-effect/index.js:209-213 | from position `i` in the ring, `N - i` steps bring the cursor back to 0 and keep it in the ring |
| Spin.CursorReaches | no-effect/index.js:208-213 | from any position in the ring, the cursor reaches any given position within 1 to N steps |
| Spin.CatchUp | no-effect/index.js:236-238 | the catch-up count is the least number of stopping steps after which duration exceeds the threshold |
| Spin.LandingStep | no-effect/index.js:205-238 | while stopping with a positive step and a stop index in the ring, the landing condition holds after some step between 1 and the catch-up count plus N |
| Spin.Liveness | no-effect/index.js:205-246 | under those conditions the loop lands within the catch-up count plus N steps |
| Spin.LandsOneBeforeStopIndex | no-effect/index.js:205-238 | when a step from a cursor inside the ring lands, the pocket it highlighted is the one before `stopIndex` in the ring |
| Spin.WiredStopLands | no-effect/index.js:316-323 | with six pockets, duration 75, stop index 4, step 10 and threshold 300, the spin lands within 29 steps |
| Session.Exec | no-effect/index.js:147-246 | every action only appends events; `stop` leaves pending tasks untouched; stop-hook calls plus pending tasks grow by at most one, and only on `start` |
| Session.TaskBudget | no-effect/index.js:235-246 | a delivered task invokes the stop hook only when it leaves no successor task |
| Session.StopHookBudget | no-effect/index.js:235-246 | over any interleaving, stop-hook calls plus pending tasks never exceed the initial tasks plus the number of `start` commands |
| Session.OneStartOneStop | no-effect/index.js:169-246 | from an idle page, with at most one `start`, the stop hook fires at most once |
| Session.StopSeenAtNextBoundary | no-effect/index.js:188-246 | a stop issued while a highlight is in flight takes effect when that highlight completes: it lands then or schedules the next step |
| Session.ReadyThenStart | no-effect/index.js:301-314 | after `ready` with some options, `start` with the same options fills in nothing new |
| Session.WiredStartHighlightsFirstPocket | no-effect/index.js:301-314 | the start button on six pockets first resets pockets 0 to 5 in order, runs the ready, start and playing hooks in order, and highlights pocket 0 for 75 ms once; pocket 0 ends highlighted and the rest dim, the cursor at 1, one highlight pending |
| Session.WiredStopButtonLands | no-effect/index.js:316-323 | the stop button on a first run at duration 75 sets stop index 4, and the loop then lands within 29 steps |
| Session.ConstructedHooksInvoked | no-effect/index.js:133-137 | the hooks given to the constructor are the ones `ready` and `start` invoke, and the installed stop hook survives, when the commands pass no hooks of their own |
| Session.StopIdempotent | no-effect/index.js:188-200 | repeating the same `stop` changes nothing more |
| Session.ReadyForgetsRun | no-effect/index.js:147-167 | `ready` leaves two controllers with the same ring in the same pockets, run fields and state, with the same resets |
| Session.StopFieldsSticky | no-effect/index.js:147-200 | once set, the stop fields survive a later `ready` and `stop` |

## Left out

- Wheel geometry, colours and SVG construction (no-effect/index.js:8-73): layout and DOM building, with no controller logic.
- The tween library itself: a tween is a request with its timing. Opacities 1 and 0.5 appear only as `Highlighted` and `Dim`.
- Roulette.BeginStep: marks the selected pocket `Highlighted` when it requests the tween. It does not model the tween library playing a looped animation back to its start.
- Timers and promises: the zero-delay timer and the promise continuation are the `TimerFired` and `HighlightDone` tasks of `Session`. Wall-clock time is not modelled.
- DOM queries, button wiring, `disabled` flags and console shims (no-effect/index.js:5-6, 251-324) are not modelled. The page's option values appear as `Session.WiredRun` and `Session.WiredStop`.
- The follow-up animation the page's stop hook plays (no-effect/index.js:282-298): it is the caller's behaviour, not the controller's. Hooks are opaque identities that are recorded when invoked.
- Non-integer numbers, strings and other JavaScript coercions: every timing field is an integer, `undefined` or `NaN`.
- Spin.Run: models only the loop with no command issued between steps. `Session` covers interleavings, but liveness is not proved across a later `ready` or `start`.
- Spin.Liveness: assumes a cursor that starts inside the ring, numeric duration, step and threshold, a positive step, and a stop index inside the ring. Otherwise the script may spin forever, and the model does not prove non-termination. It also rests on exact integer arithmetic, so it does not carry over to durations beyond 2^53 (see `Js.Plus`).
- Js.Plus: timing fields are exact unbounded integers. The script's numbers are JavaScript doubles that round above 2^53, where `duration += stepDuration` can stop growing; `Spin.StepsDecelerate` and `Spin.StrictlyDecelerating` hold of the script only below that.
