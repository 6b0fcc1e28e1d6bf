/**
  One wedge of the wheel. A pocket only turns option objects into requests
  for the external tween primitive; the tween itself is not modelled, only
  what it is asked to do and the visual state it leads to.
 */
module Pocket {
  import opened Js

  /** The two visual states of a pocket: resting (dim) or highlighted. */
  datatype Visual = Dim | Highlighted

  /**
    A request handed to the tween primitive.
    `Highlight` fades the pocket to full opacity with ease-in-out easing,
    queued behind earlier tweens on the element and repeated `loop` times.
    `Restore` fades it back to half opacity, applied at once rather than
    queued behind a running tween.
   */
  datatype Tween =
    | Highlight(delay: int, duration: int, loop: int)
    | Restore(duration: int)

  /** The options object a caller passes; any field may be missing. */
  datatype TweenOptions = TweenOptions(delay: Num, duration: Num, loop: Num)

  /** The empty object `{}` that replaces a missing options argument. */
  const NoOptions := TweenOptions(Undefined, Undefined, Undefined)

  /** `x` is what `v || 0` yields: the value itself when truthy, else 0. */
  predicate Defaulted(v: Num, x: int) {
    if Falsy(v) then x == 0 else v == Int(x)
  }

  /** The visual state a tween leads the pocket to. */
  function Target(t: Tween): Visual {
    if t.Highlight? then Highlighted else Dim
  }

  /**
    `animate(props)`: every timing field defaults to 0 when falsy and is
    otherwise passed through unvalidated (negative values included).
   */
  function Animate(props: Option<TweenOptions>): (t: Tween)
    ensures Target(t) == Highlighted
    ensures props.None? ==> t == Highlight(0, 0, 0)
    ensures var o := props.GetOr(NoOptions);
      Defaulted(o.delay, t.delay) && Defaulted(o.duration, t.duration) && Defaulted(o.loop, t.loop)
  {
    var o := props.GetOr(NoOptions);
    Highlight(OrZero(o.delay), OrZero(o.duration), OrZero(o.loop))
  }

  /**
    `reset(props)`: only the duration is read, defaulting to 0 when falsy;
    delay and loop are ignored.
   */
  function Reset(props: Option<TweenOptions>): (t: Tween)
    ensures Target(t) == Dim
    ensures Defaulted(props.GetOr(NoOptions).duration, t.duration)
  {
    Restore(OrZero(props.GetOr(NoOptions).duration))
  }

  /** The options object that spells out a highlight request's own values. */
  function OptionsOf(t: Tween): TweenOptions
    requires t.Highlight?
  {
    TweenOptions(Int(t.delay), Int(t.duration), Int(t.loop))
  }

  /**
    Defaulting loses nothing and adds nothing: spelling out a highlight
    request as an options object and animating with it asks for the very
    same tween.
   */
  lemma AnimateRoundTrip(t: Tween)
    requires t.Highlight?
    ensures Animate(Some(OptionsOf(t))) == t
  {
  }

  /**
    Only falsiness matters to `animate`: two option objects whose fields
    agree wherever they are truthy request the same tween, so a missing
    field, `NaN` and `0` are interchangeable.
   */
  lemma AnimateIgnoresFalsyKind(a: TweenOptions, b: TweenOptions)
    requires Falsy(a.delay) == Falsy(b.delay) && (Falsy(a.delay) || a.delay == b.delay)
    requires Falsy(a.duration) == Falsy(b.duration) && (Falsy(a.duration) || a.duration == b.duration)
    requires Falsy(a.loop) == Falsy(b.loop) && (Falsy(a.loop) || a.loop == b.loop)
    ensures Animate(Some(a)) == Animate(Some(b))
    ensures Animate(Some(a)) == Animate(None) <==> Falsy(a.delay) && Falsy(a.duration) && Falsy(a.loop)
  {
  }
}
