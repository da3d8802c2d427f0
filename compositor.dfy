/**
 * The compositor state object the input dispatcher updates in place. Its
 * methods follow the source's statements one by one and are proved to
 * leave the state the functions of module Dispatch describe.
 */
module Compositor {
  import opened Types
  import opened Keybindings
  import opened Pointer
  import opened AxisFrames
  import opened Workspaces
  import opened Dispatch

  class MagmaState {
    // Read, never changed, by the dispatcher.
    const outputs: map<WorkspaceId, Rect>
    const layout: Layout
    const bindings: seq<Binding>

    var pointer: Point
    var active: WorkspaceId
    var membership: Membership
    var focus: Option<Window>
    var serial: nat
    var stopRequested: bool
    var sent: seq<Notification>

    function EnvOf(): Env
    {
      Env(outputs, layout, bindings)
    }

    function Model(): State
      reads this
    {
      State(pointer, active, membership, focus, serial, stopRequested, sent)
    }

    /** Start-up: one workspace, pointer at (0, 0). */
    constructor (outputs: map<WorkspaceId, Rect>, layout: Layout, bindings: seq<Binding>)
      ensures this.outputs == outputs && this.layout == layout && this.bindings == bindings
      ensures Model() == Initial()
    {
      this.outputs := outputs;
      this.layout := layout;
      this.bindings := bindings;
      pointer := Point(0.0, 0.0);
      active := 0;
      membership := map[];
      focus := None;
      serial := 0;
      stopRequested := false;
      sent := [];
    }

    /** The serial counter's `next_serial`. */
    method NextSerial() returns (n: nat)
      modifies this
      ensures n == old(serial)
      ensures Model() == old(Model()).(serial := old(serial) + 1)
    {
      n := serial;
      serial := serial + 1;
    }

    method SetInputFocus(target: Window)
      modifies this
      ensures Model() == FocusOn(old(Model()), target)
    {
      var n := NextSerial();
      focus := Some(target);
      sent := sent + [KeyboardFocus(target, n)];
    }

    method SetInputFocusAuto()
      modifies this
      ensures Model() == AutoFocus(EnvOf(), old(Model()))
    {
      var under := WindowUnder(layout, membership, active, pointer);
      if under.Some? {
        SetInputFocus(under.value);
      }
    }

    method HandleAction(action: Action) returns (outcome: Outcome)
      modifies this
      ensures Step(Model(), outcome) == ApplyAction(EnvOf(), old(Model()), action)
      decreases Rank(action)
    {
      outcome := Completed;
      match action {
        case Quit =>
          stopRequested := true;
        case Debug =>
          outcome := NotImplemented(action);
        case Close =>
          var under := WindowUnder(layout, membership, active, pointer);
          if under.Some? {
            sent := sent + [CloseRequest(under.value)];
          }
        case Workspace(id) =>
          active := id;
          SetInputFocusAuto();
        case MoveWindow(id) =>
          var window := WindowUnder(layout, membership, active, pointer);
          if window.Some? {
            membership := MoveTo(membership, window.value, id);
          }
        case MoveAndSwitch(id) =>
          var _ := HandleAction(MoveWindow(id));
          outcome := HandleAction(Workspace(id));
        case ToggleWindowFloating =>
          outcome := NotImplemented(action);
        case Spawn(_) =>
        case VTSwitch(_) =>
          outcome := NotImplemented(action);
      }
    }

    /** The dispatcher: one arm per event kind, each proved against its step. */
    method ProcessInputEvent(event: InputEvent) returns (outcome: Outcome)
      modifies this
      ensures Step(Model(), outcome) == ApplyEvent(EnvOf(), old(Model()), event)
    {
      match event {
        case Keyboard(code, ks, time, mods, syms) =>
          outcome := OnKeyboard(code, ks, time, mods, syms);
        case PointerMotion(delta, unaccel, time, utime) =>
          outcome := OnPointerMotion(delta, unaccel, time, utime);
        case PointerMotionAbsolute(transformed, time) =>
          outcome := OnPointerMotionAbsolute(transformed, time);
        case PointerButton(button, bs, time) =>
          outcome := OnPointerButton(button, bs, time);
        case PointerAxis(_, _, _, _, _, _) =>
          outcome := OnPointerAxis(event);
        case Other =>
          outcome := Completed;
      }
    }

    method OnKeyboard(code: nat, ks: KeyState, time: nat, mods: Modifiers, syms: seq<Keysym>) returns (outcome: Outcome)
      modifies this
      ensures Step(Model(), outcome) == KeyStep(EnvOf(), old(Model()), code, ks, time, mods, syms)
    {
      outcome := Completed;
      var n := NextSerial();
      var filtered := FilterKey(ks, mods, syms, bindings);
      match filtered {
        case Intercept(action) =>
          outcome := HandleAction(action);
        case Forward =>
          sent := sent + [Key(focus, code, ks, n, time)];
      }
    }

    method OnPointerMotion(delta: Point, unaccel: Point, time: nat, utime: nat) returns (outcome: Outcome)
      modifies this
      ensures Step(Model(), outcome) == RelativeStep(EnvOf(), old(Model()), delta, unaccel, time, utime)
    {
      var n := NextSerial();
      pointer := pointer.Plus(delta);
      pointer := Clamp(OutputOf(EnvOf(), active), pointer);
      var under := WindowUnder(layout, membership, active, pointer);
      SetInputFocusAuto();
      sent := sent + [Motion(under, pointer, n, time)];
      sent := sent + [RelativeMotion(under, delta, unaccel, utime)];
      outcome := Completed;
    }

    method OnPointerMotionAbsolute(transformed: Point, time: nat) returns (outcome: Outcome)
      modifies this
      ensures Step(Model(), outcome) == AbsoluteStep(EnvOf(), old(Model()), transformed, time)
    {
      var output := OutputOf(EnvOf(), active);
      if output.None? {
        return NoOutput;
      }
      var geo := output.value;
      var pos := transformed.Plus(Point(geo.x as real, geo.y as real));
      var n := NextSerial();
      pointer := Clamp(OutputOf(EnvOf(), active), pos);
      var under := WindowUnder(layout, membership, active, pointer);
      SetInputFocusAuto();
      sent := sent + [Motion(under, pos, n, time)];
      outcome := Completed;
    }

    method OnPointerButton(button: nat, bs: ButtonState, time: nat) returns (outcome: Outcome)
      modifies this
      ensures Step(Model(), outcome) == ButtonStep(EnvOf(), old(Model()), button, bs, time)
    {
      var n := NextSerial();
      SetInputFocusAuto();
      sent := sent + [Button(button, bs, n, time)];
      outcome := Completed;
    }

    /** The axis arm: the frame builder chain, then one axis notification. */
    method OnPointerAxis(event: InputEvent) returns (outcome: Outcome)
      requires event.PointerAxis?
      modifies this
      ensures outcome == Completed
      ensures Model() == old(Model()).(sent := old(sent) + [AxisNotice(BuildFrame(event))])
    {
      var source := event.source;
      var hAmount := Amount(event.hAmount, event.hDiscrete);
      var vAmount := Amount(event.vAmount, event.vDiscrete);
      var frame := NewFrame(event.time, source);
      if hAmount != 0.0 {
        frame := WithValue(frame, Horizontal, hAmount);
        if event.hDiscrete.Some? {
          frame := WithDiscrete(frame, Horizontal, event.hDiscrete.value);
        }
      } else if source == Finger {
        frame := WithStop(frame, Horizontal);
      }
      if vAmount != 0.0 {
        frame := WithValue(frame, Vertical, vAmount);
        if event.vDiscrete.Some? {
          frame := WithDiscrete(frame, Vertical, event.vDiscrete.value);
        }
      } else if source == Finger {
        frame := WithStop(frame, Vertical);
      }
      sent := sent + [AxisNotice(frame)];
      outcome := Completed;
    }
  }
}
