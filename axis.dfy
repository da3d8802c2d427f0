/**
 * Scroll events: the amount per axis and the axis frame the builder chain
 * produces, with an independent per-axis reference that the frame is
 * proved to follow.
 */
module AxisFrames {
  import opened Types

  /** What one axis of a frame says. */
  datatype AxisPart = Silent | Scroll(amount: real, steps: Option<int>) | Stop

  /** The continuous amount if there is one, else the discrete steps times 3, else 0. */
  function Amount(continuous: Option<real>, discrete: Option<int>): (r: real)
    ensures continuous.Some? ==> r == continuous.value
    ensures continuous.None? && discrete.Some? ==> r == 3.0 * discrete.value as real
    ensures continuous.None? && discrete.None? ==> r == 0.0
  {
    match continuous
    case Some(v) => v
    case None => (match discrete case Some(d) => d as real case None => 0.0) * 3.0
  }

  /** Reference definition: how one axis is decided, independently of the other. */
  function PartFor(continuous: Option<real>, discrete: Option<int>, source: AxisSource): AxisPart
  {
    var amount := Amount(continuous, discrete);
    if amount != 0.0 then Scroll(amount, discrete)
    else if source == Finger then Stop
    else Silent
  }

  /** What axis `a` of frame `f` says. */
  function PartOf(f: AxisFrame, a: Axis): AxisPart
  {
    if a in f.stops then Stop
    else if a in f.values then Scroll(f.values[a], if a in f.discretes then Some(f.discretes[a]) else None)
    else Silent
  }

  // The builder steps of the frame.
  function NewFrame(time: nat, source: AxisSource): AxisFrame
  {
    AxisFrame(time, source, map[], map[], {})
  }

  function WithValue(f: AxisFrame, a: Axis, v: real): AxisFrame
  {
    f.(values := f.values[a := v])
  }

  function WithDiscrete(f: AxisFrame, a: Axis, d: int): AxisFrame
  {
    f.(discretes := f.discretes[a := d])
  }

  function WithStop(f: AxisFrame, a: Axis): AxisFrame
  {
    f.(stops := f.stops + {a})
  }

  /** One axis's step of the chain: value (and discrete), or stop for a finger, or nothing. */
  function AddAxis(f: AxisFrame, a: Axis, amount: real, discrete: Option<int>, source: AxisSource): AxisFrame
  {
    if amount != 0.0 then
      var g := WithValue(f, a, amount);
      match discrete
      case Some(d) => WithDiscrete(g, a, d)
      case None => g
    else if source == Finger then WithStop(f, a)
    else f
  }

  /** The frame built for an axis event: horizontal first, then vertical. */
  function BuildFrame(e: InputEvent): (r: AxisFrame)
    requires e.PointerAxis?
    ensures r.time == e.time && r.source == e.source
    ensures forall a :: a in r.stops ==> a !in r.values && e.source == Finger
    ensures forall a :: a in r.discretes ==> a in r.values
  {
    var hAmount := Amount(e.hAmount, e.hDiscrete);
    var vAmount := Amount(e.vAmount, e.vDiscrete);
    var f := NewFrame(e.time, e.source);
    var f := AddAxis(f, Horizontal, hAmount, e.hDiscrete, e.source);
    AddAxis(f, Vertical, vAmount, e.vDiscrete, e.source)
  }

  /** Adding axis `a` leaves what the frame says about the other axis untouched. */
  lemma AddAxisOther(f: AxisFrame, a: Axis, b: Axis, amount: real, discrete: Option<int>, source: AxisSource)
    requires a != b
    ensures PartOf(AddAxis(f, a, amount, discrete, source), b) == PartOf(f, b)
  {
  }

  /** Adding axis `a` to a frame that says nothing about it makes it say `PartFor`. */
  lemma AddAxisSelf(f: AxisFrame, a: Axis, continuous: Option<real>, discrete: Option<int>, source: AxisSource)
    requires PartOf(f, a) == Silent && a !in f.discretes
    ensures PartOf(AddAxis(f, a, Amount(continuous, discrete), discrete, source), a) == PartFor(continuous, discrete, source)
  {
  }

  /**
   * The frame decides each axis on its own, exactly as the reference does:
   * a nonzero amount gives the value and the discrete steps if present; a
   * zero amount gives a stop for a finger source and nothing otherwise.
   */
  lemma {:induction false} FrameFollowsPerAxis(e: InputEvent)
    requires e.PointerAxis?
    ensures PartOf(BuildFrame(e), Horizontal) == PartFor(e.hAmount, e.hDiscrete, e.source)
    ensures PartOf(BuildFrame(e), Vertical) == PartFor(e.vAmount, e.vDiscrete, e.source)
    ensures BuildFrame(e).time == e.time && BuildFrame(e).source == e.source
  {
    var f0 := NewFrame(e.time, e.source);
    var f1 := AddAxis(f0, Horizontal, Amount(e.hAmount, e.hDiscrete), e.hDiscrete, e.source);
    AddAxisSelf(f0, Horizontal, e.hAmount, e.hDiscrete, e.source);
    AddAxisOther(f0, Horizontal, Vertical, Amount(e.hAmount, e.hDiscrete), e.hDiscrete, e.source);
    AddAxisSelf(f1, Vertical, e.vAmount, e.vDiscrete, e.source);
    AddAxisOther(f1, Vertical, Horizontal, Amount(e.vAmount, e.vDiscrete), e.vDiscrete, e.source);
  }

  /** A zero amount on one axis: a stop on that axis for a finger source, nothing for any other source. */
  lemma ZeroAmountAxis(e: InputEvent)
    requires e.PointerAxis? && Amount(e.hAmount, e.hDiscrete) == 0.0
    ensures e.source == Finger ==> PartOf(BuildFrame(e), Horizontal) == Stop
    ensures e.source != Finger ==> PartOf(BuildFrame(e), Horizontal) == Silent
  {
    FrameFollowsPerAxis(e);
  }
}
