/**
 * Values shared by the input dispatcher of the compositor: points and
 * rectangles of the logical coordinate space, key and button states,
 * modifier sets, the configured actions and bindings, raw input events and
 * the notifications the dispatcher hands to the protocol layer.
 */
module Types {

  datatype Option<+T> = None | Some(value: T)

  /** A point of the logical, output-independent coordinate space (f64 in the source). */
  datatype Point = Point(x: real, y: real)
  {
    function Plus(d: Point): Point { Point(x + d.x, y + d.y) }
  }

  /** An output's geometry: integer origin and size, as a logical rectangle. */
  datatype Rect = Rect(x: int, y: int, w: int, h: int)

  /** Toplevel windows and workspaces are named by numbers. */
  type Window = nat
  type WorkspaceId = nat
  type Keysym = nat

  datatype KeyState = Pressed | Released
  datatype ButtonState = ButtonPressed | ButtonReleased

  /** The keyboard's modifier state; bindings compare it as a whole. */
  datatype Modifiers = Modifiers(ctrl: bool, alt: bool, shift: bool, capsLock: bool, logo: bool, numLock: bool)

  /** What a key binding can ask the compositor to do. */
  datatype Action =
    | Quit
    | Debug
    | Close
    | Workspace(id: WorkspaceId)
    | MoveWindow(id: WorkspaceId)
    | MoveAndSwitch(id: WorkspaceId)
    | ToggleWindowFloating
    | Spawn(command: string)
    | VTSwitch(vt: int)

  /** One entry of the ordered binding table. */
  datatype Binding = Binding(modifiers: Modifiers, key: Keysym, action: Action)

  datatype FilterResult = Intercept(action: Action) | Forward

  datatype AxisSource = Wheel | Finger | Continuous | WheelTilt
  datatype Axis = Horizontal | Vertical

  /** An axis frame as the builder chain leaves it: the value, the discrete step count and the stop flag set per axis. */
  datatype AxisFrame = AxisFrame(time: nat, source: AxisSource, values: map<Axis, real>, discretes: map<Axis, int>, stops: set<Axis>)

  /**
   * A raw event of the backend. The keyboard event carries the modifier
   * state and the raw key symbols the keymap resolves for it; the absolute
   * event carries its position already transformed to the output's size.
   */
  datatype InputEvent =
    | Keyboard(code: nat, state: KeyState, time: nat, modifiers: Modifiers, syms: seq<Keysym>)
    | PointerMotion(delta: Point, deltaUnaccel: Point, time: nat, utime: nat)
    | PointerMotionAbsolute(transformed: Point, time: nat)
    | PointerButton(button: nat, buttonState: ButtonState, time: nat)
    | PointerAxis(source: AxisSource, hAmount: Option<real>, vAmount: Option<real>,
                  hDiscrete: Option<int>, vDiscrete: Option<int>, time: nat)
    | Other

  /** What the dispatcher hands to the protocol layer, in order. */
  datatype Notification =
    | Key(target: Option<Window>, code: nat, state: KeyState, serial: nat, time: nat)
    | Motion(target: Option<Window>, location: Point, serial: nat, time: nat)
    | RelativeMotion(target: Option<Window>, delta: Point, deltaUnaccel: Point, utime: nat)
    | Button(button: nat, buttonState: ButtonState, serial: nat, time: nat)
    | AxisNotice(frame: AxisFrame)
    | KeyboardFocus(window: Window, serial: nat)
    | CloseRequest(window: Window)
  {
    predicate HasSerial() { Key? || Motion? || Button? || KeyboardFocus? }
  }

  /** How handling an event or an action ended. */
  datatype Outcome =
    | Completed
    | NotImplemented(action: Action)  // an action the source leaves as `todo!()`
    | NoOutput                        // absolute motion with no output: the source panics
}
