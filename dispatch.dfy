/**
 * The dispatcher's behaviour as functions of the compositor state: the
 * focus manager, the action executor and the event normalizer, each
 * returning the new state and how it ended. The lemmas state what the
 * compositor promises of them.
 */
module Dispatch {
  import opened Types
  import opened Keybindings
  import opened Pointer
  import opened AxisFrames
  import opened Workspaces

  /** What the dispatcher reads but never changes: outputs, window layout and the binding table. */
  datatype Env = Env(outputs: map<WorkspaceId, Rect>, layout: Layout, bindings: seq<Binding>)

  /** What the dispatcher changes, with the notifications it has handed on so far. */
  datatype State = State(
    pointer: Point,
    active: WorkspaceId,
    membership: Membership,
    focus: Option<Window>,
    serial: nat,           // the value the serial counter hands out next
    stopRequested: bool,   // the event loop's stop signal
    sent: seq<Notification>)

  datatype Step = Step(state: State, outcome: Outcome)

  /** The first output of workspace `ws`, if it has one. */
  function OutputOf(env: Env, ws: WorkspaceId): Option<Rect>
  {
    if ws in env.outputs then Some(env.outputs[ws]) else None
  }

  /** An output whose size is not negative (or no output). */
  predicate ValidOutput(out: Option<Rect>)
  {
    out.Some? ==> out.value.w >= 0 && out.value.h >= 0
  }

  /** The state at start-up: one workspace (id 0) active, pointer at the origin, no focus. */
  function Initial(): (r: State)
    ensures r.focus.None? && r.sent == [] && r.membership == map[]
    ensures forall out: Option<Rect> :: ValidOutput(out) ==> OnOutput(out, r.pointer)
  {
    State(Point(0.0, 0.0), 0, map[], None, 0, false, [])
  }

  /** The window under the pointer on the active workspace. */
  function UnderPointer(env: Env, s: State): Option<Window>
  {
    WindowUnder(env.layout, s.membership, s.active, s.pointer)
  }

  /** `set_input_focus`: take a serial and give `t` the keyboard focus with it. */
  function FocusOn(s: State, t: Window): (r: State)
    ensures r.focus == Some(t) && r.serial == s.serial + 1 && s.sent < r.sent
    ensures r.pointer == s.pointer && r.active == s.active && r.membership == s.membership
  {
    s.(focus := Some(t), serial := s.serial + 1, sent := s.sent + [KeyboardFocus(t, s.serial)])
  }

  /** `set_input_focus_auto`: focus the window under the pointer, if there is one. */
  function AutoFocus(env: Env, s: State): (r: State)
    ensures r.pointer == s.pointer && r.active == s.active && r.membership == s.membership
    ensures r.stopRequested == s.stopRequested && s.sent <= r.sent
    ensures r.focus == s.focus || r.focus == UnderPointer(env, s)
    ensures UnderPointer(env, s).None? ==> r == s
  {
    match UnderPointer(env, s)
    case Some(w) => FocusOn(s, w)
    case None => s
  }

  function Rank(a: Action): nat
  {
    if a.MoveAndSwitch? then 1 else 0
  }

  /** `handle_action`. */
  function ApplyAction(env: Env, s: State, a: Action): (r: Step)
    ensures r.state.pointer == s.pointer && r.state.serial >= s.serial
    ensures r.state.active == if a.Workspace? || a.MoveAndSwitch? then a.id else s.active
    ensures r.outcome.Completed? || r.outcome == NotImplemented(a)
    decreases Rank(a)
  {
    match a
    case Quit => Step(s.(stopRequested := true), Completed)
    case Close =>
      (match UnderPointer(env, s)
       case Some(w) => Step(s.(sent := s.sent + [CloseRequest(w)]), Completed)
       case None => Step(s, Completed))
    case Workspace(id) => Step(AutoFocus(env, s.(active := id)), Completed)
    case MoveWindow(id) =>
      (match UnderPointer(env, s)
       case Some(w) => Step(s.(membership := MoveTo(s.membership, w, id)), Completed)
       case None => Step(s, Completed))
    case MoveAndSwitch(id) =>
      var moved := ApplyAction(env, s, MoveWindow(id));
      ApplyAction(env, moved.state, Workspace(id))
    case Spawn(_) => Step(s, Completed)
    case Debug => Step(s, NotImplemented(a))
    case ToggleWindowFloating => Step(s, NotImplemented(a))
    case VTSwitch(_) => Step(s, NotImplemented(a))
  }

  /** `process_input_event`: each kind of event has its own step, anything else is ignored. */
  function ApplyEvent(env: Env, s: State, e: InputEvent): (r: Step)
    ensures r.outcome == NoOutput <==> e.PointerMotionAbsolute? && OutputOf(env, s.active).None?
    ensures r.outcome == NoOutput ==> r.state == s
    ensures r.outcome.NotImplemented? ==> e.Keyboard? && e.state == Pressed
    ensures !e.Keyboard? ==> r.state.active == s.active && r.state.membership == s.membership
                             && r.state.stopRequested == s.stopRequested
  {
    match e
    case Keyboard(code, ks, time, mods, syms) => KeyStep(env, s, code, ks, time, mods, syms)
    case PointerMotion(delta, unaccel, time, utime) => RelativeStep(env, s, delta, unaccel, time, utime)
    case PointerMotionAbsolute(transformed, time) => AbsoluteStep(env, s, transformed, time)
    case PointerButton(button, bs, time) => ButtonStep(env, s, button, bs, time)
    case PointerAxis(_, _, _, _, _, _) => Step(s.(sent := s.sent + [AxisNotice(BuildFrame(e))]), Completed)
    case Other => Step(s, Completed)
  }

  /** A key: take a serial, then run the intercepted action or forward the key to the focus. */
  function KeyStep(env: Env, s: State, code: nat, ks: KeyState, time: nat, mods: Modifiers, syms: seq<Keysym>): (r: Step)
    ensures r.state.serial > s.serial && r.state.pointer == s.pointer
    ensures r.outcome.NotImplemented? ==> ks == Pressed
  {
    var s1 := s.(serial := s.serial + 1);
    match Decide(ks, mods, syms, env.bindings)
    case Intercept(a) => ApplyAction(env, s1, a)
    case Forward => Step(s1.(sent := s1.sent + [Key(s1.focus, code, ks, s.serial, time)]), Completed)
  }

  /** Relative motion: take a serial, move and clamp, auto-focus, then notify motion and relative motion. */
  function RelativeStep(env: Env, s: State, delta: Point, unaccel: Point, time: nat, utime: nat): (r: Step)
    ensures r.outcome == Completed && r.state.serial > s.serial
    ensures r.state.active == s.active && r.state.membership == s.membership && r.state.stopRequested == s.stopRequested
    ensures r.state.pointer == Clamp(OutputOf(env, s.active), s.pointer.Plus(delta))
    ensures ValidOutput(OutputOf(env, s.active)) ==> OnOutput(OutputOf(env, s.active), r.state.pointer)
  {
    var s1 := s.(serial := s.serial + 1, pointer := Clamp(OutputOf(env, s.active), s.pointer.Plus(delta)));
    var under := UnderPointer(env, s1);
    var s2 := AutoFocus(env, s1);
    Step(s2.(sent := s2.sent + [Motion(under, s1.pointer, s.serial, time),
                                RelativeMotion(under, delta, unaccel, utime)]), Completed)
  }

  /** Absolute motion: needs an output; take a serial, place and clamp, auto-focus, notify the unclamped position. */
  function AbsoluteStep(env: Env, s: State, transformed: Point, time: nat): (r: Step)
    ensures r.outcome == NoOutput <==> OutputOf(env, s.active).None?
    ensures r.outcome == NoOutput ==> r.state == s
    ensures r.outcome != NoOutput ==> r.outcome == Completed && r.state.serial > s.serial
    ensures r.state.active == s.active && r.state.membership == s.membership && r.state.stopRequested == s.stopRequested
    ensures ValidOutput(OutputOf(env, s.active)) ==> OnOutput(OutputOf(env, s.active), r.state.pointer)
  {
    match OutputOf(env, s.active)
    case None => Step(s, NoOutput)
    case Some(geo) =>
      var pos := transformed.Plus(Point(geo.x as real, geo.y as real));
      var s1 := s.(serial := s.serial + 1, pointer := Clamp(OutputOf(env, s.active), pos));
      var under := UnderPointer(env, s1);
      var s2 := AutoFocus(env, s1);
      Step(s2.(sent := s2.sent + [Motion(under, pos, s.serial, time)]), Completed)
  }

  /** A button: take a serial, auto-focus, then deliver the button. */
  function ButtonStep(env: Env, s: State, button: nat, bs: ButtonState, time: nat): (r: Step)
    ensures r.outcome == Completed && r.state.serial > s.serial && r.state.pointer == s.pointer
    ensures r.state.active == s.active && r.state.membership == s.membership && r.state.stopRequested == s.stopRequested
    ensures |r.state.sent| > 0 && r.state.sent[|r.state.sent| - 1] == Button(button, bs, s.serial, time)
  {
    var s2 := AutoFocus(env, s.(serial := s.serial + 1));
    Step(s2.(sent := s2.sent + [Button(button, bs, s.serial, time)]), Completed)
  }

  // ---------------------------------------------------------------------
  // Focus

  /**
   * Auto-focus is sticky: with nothing under the pointer it changes
   * nothing, serial counter included; otherwise it focuses that window
   * with one fresh serial and changes nothing else.
   */
  lemma AutoFocusSticky(env: Env, s: State)
    ensures UnderPointer(env, s).None? ==> AutoFocus(env, s) == s
    ensures UnderPointer(env, s).Some? ==>
              var r := AutoFocus(env, s);
              r.focus == UnderPointer(env, s) && r.serial == s.serial + 1
              && r.sent == s.sent + [KeyboardFocus(UnderPointer(env, s).value, s.serial)]
              && r.(focus := s.focus, serial := s.serial, sent := s.sent) == s
  {
  }

  // ---------------------------------------------------------------------
  // Actions

  /** Quit only raises the stop signal. */
  lemma QuitOnlyStops(env: Env, s: State)
    ensures ApplyAction(env, s, Quit) == Step(s.(stopRequested := true), Completed)
  {
  }

  /** The actions the source leaves unimplemented report so and change nothing; Spawn changes nothing. */
  lemma UnimplementedChangeNothing(env: Env, s: State, a: Action)
    requires a.Debug? || a.ToggleWindowFloating? || a.VTSwitch? || a.Spawn?
    ensures ApplyAction(env, s, a).state == s
    ensures ApplyAction(env, s, a).outcome == if a.Spawn? then Completed else NotImplemented(a)
  {
  }

  /** Close with no window under the pointer is a no-op; with one, it only asks that window to close. */
  lemma CloseOnlyRequests(env: Env, s: State)
    ensures UnderPointer(env, s).None? ==> ApplyAction(env, s, Close) == Step(s, Completed)
    ensures UnderPointer(env, s).Some? ==>
              ApplyAction(env, s, Close) == Step(s.(sent := s.sent + [CloseRequest(UnderPointer(env, s).value)]), Completed)
  {
  }

  /**
   * MoveWindow reassigns the window under the pointer, and only it, to
   * workspace `id`; the view does not switch and nothing else changes.
   */
  lemma MoveWindowKeepsView(env: Env, s: State, id: WorkspaceId)
    ensures var r := ApplyAction(env, s, MoveWindow(id));
            r.outcome == Completed && r.state.(membership := s.membership) == s
            && (UnderPointer(env, s).None? ==> r.state == s)
            && (UnderPointer(env, s).Some? ==>
                  var w := UnderPointer(env, s).value;
                  OnWorkspace(r.state.membership, w, id)
                  && forall v :: v != w ==> ((v in r.state.membership <==> v in s.membership)
                                           && (v in s.membership ==> r.state.membership[v] == s.membership[v])))
  {
  }

  /**
   * MoveAndSwitch(id) is MoveWindow(id) followed by Workspace(id): the
   * window that was under the pointer now belongs to `id`, the other
   * windows keep their workspaces, and `id` is active.
   */
  lemma {:induction false} MoveAndSwitchEndState(env: Env, s: State, id: WorkspaceId)
    ensures ApplyAction(env, s, MoveAndSwitch(id))
         == ApplyAction(env, ApplyAction(env, s, MoveWindow(id)).state, Workspace(id))
    ensures var r := ApplyAction(env, s, MoveAndSwitch(id)).state;
            r.active == id && r.pointer == s.pointer && r.stopRequested == s.stopRequested
            && (UnderPointer(env, s).None? ==> r.membership == s.membership)
            && (UnderPointer(env, s).Some? ==> r.membership == MoveTo(s.membership, UnderPointer(env, s).value, id))
  {
    var moved := ApplyAction(env, s, MoveWindow(id));
    MoveWindowKeepsView(env, s, id);
    AutoFocusSticky(env, moved.state.(active := id));
  }

  // ---------------------------------------------------------------------
  // Serials

  /**
   * From `s` to `r` the log only grew, the counter did not go back, and
   * every serial on a new notification was issued in between, each once.
   */
  ghost predicate Issued(s: State, r: State)
  {
    s.serial <= r.serial && s.sent <= r.sent
    && (forall i :: |s.sent| <= i < |r.sent| && r.sent[i].HasSerial() ==> s.serial <= r.sent[i].serial < r.serial)
    && (forall i, j :: |s.sent| <= i < j < |r.sent| && r.sent[i].HasSerial() && r.sent[j].HasSerial()
                       ==> r.sent[i].serial != r.sent[j].serial)
  }

  lemma IssuedTrans(s: State, m: State, r: State)
    requires Issued(s, m) && Issued(m, r)
    ensures Issued(s, r)
  {
    forall i | |s.sent| <= i < |m.sent|
      ensures r.sent[i] == m.sent[i]
    {
    }
  }

  lemma {:induction false} AutoFocusIssues(env: Env, s: State)
    ensures Issued(s, AutoFocus(env, s))
  {
    AutoFocusSticky(env, s);
  }

  lemma {:induction false} ActionIssues(env: Env, s: State, a: Action)
    ensures Issued(s, ApplyAction(env, s, a).state)
    decreases Rank(a)
  {
    match a
    case MoveAndSwitch(id) =>
      var m := ApplyAction(env, s, MoveWindow(id)).state;
      ActionIssues(env, s, MoveWindow(id));
      ActionIssues(env, m, Workspace(id));
      IssuedTrans(s, m, ApplyAction(env, m, Workspace(id)).state);
    case Workspace(id) =>
      AutoFocusIssues(env, s.(active := id));
    case _ =>
  }

  /** Appending one notification that carries serial `n`, issued after every earlier one. */
  lemma IssueAppend(s: State, m: State, x: Notification)
    requires Issued(s, m) && x.HasSerial() && s.serial <= x.serial < s.serial + 1 <= m.serial
    requires forall i :: |s.sent| <= i < |m.sent| && m.sent[i].HasSerial() ==> s.serial + 1 <= m.sent[i].serial
    ensures Issued(s, m.(sent := m.sent + [x]))
  {
  }

  lemma {:induction false} KeyIssues(env: Env, s: State, code: nat, ks: KeyState, time: nat, mods: Modifiers, syms: seq<Keysym>)
    ensures Issued(s, KeyStep(env, s, code, ks, time, mods, syms).state)
    ensures KeyStep(env, s, code, ks, time, mods, syms).state.serial > s.serial
  {
    var s1 := s.(serial := s.serial + 1);
    match Decide(ks, mods, syms, env.bindings) {
      case Intercept(a) =>
        ActionIssues(env, s1, a);
        IssuedTrans(s, s1, ApplyAction(env, s1, a).state);
      case Forward =>
    }
  }

  lemma {:induction false} RelativeIssues(env: Env, s: State, delta: Point, unaccel: Point, time: nat, utime: nat)
    ensures Issued(s, RelativeStep(env, s, delta, unaccel, time, utime).state)
    ensures RelativeStep(env, s, delta, unaccel, time, utime).state.serial > s.serial
  {
    var s1 := s.(serial := s.serial + 1, pointer := Clamp(OutputOf(env, s.active), s.pointer.Plus(delta)));
    var s2 := AutoFocus(env, s1);
    var x := Motion(UnderPointer(env, s1), s1.pointer, s.serial, time);
    var y := RelativeMotion(UnderPointer(env, s1), delta, unaccel, utime);
    AutoFocusIssues(env, s1);
    IssuedTrans(s, s1, s2);
    IssueAppend(s, s2, x);
    var s3 := s2.(sent := s2.sent + [x]);
    IssueAppendUnstamped(s, s3, y);
    assert s3.sent + [y] == s2.sent + [x, y];
    assert RelativeStep(env, s, delta, unaccel, time, utime).state == s3.(sent := s3.sent + [y]);
  }

  lemma {:induction false} AbsoluteIssues(env: Env, s: State, transformed: Point, time: nat)
    ensures Issued(s, AbsoluteStep(env, s, transformed, time).state)
    ensures OutputOf(env, s.active).Some? ==> AbsoluteStep(env, s, transformed, time).state.serial > s.serial
  {
    if OutputOf(env, s.active).Some? {
      var geo := OutputOf(env, s.active).value;
      var pos := transformed.Plus(Point(geo.x as real, geo.y as real));
      var s1 := s.(serial := s.serial + 1, pointer := Clamp(OutputOf(env, s.active), pos));
      var s2 := AutoFocus(env, s1);
      AutoFocusIssues(env, s1);
      IssuedTrans(s, s1, s2);
      IssueAppend(s, s2, Motion(UnderPointer(env, s1), pos, s.serial, time));
    }
  }

  lemma {:induction false} ButtonIssues(env: Env, s: State, button: nat, bs: ButtonState, time: nat)
    ensures Issued(s, ButtonStep(env, s, button, bs, time).state)
    ensures ButtonStep(env, s, button, bs, time).state.serial > s.serial
  {
    var s1 := s.(serial := s.serial + 1);
    var s2 := AutoFocus(env, s1);
    AutoFocusIssues(env, s1);
    IssuedTrans(s, s1, s2);
    IssueAppend(s, s2, Button(button, bs, s.serial, time));
  }

  /** Appending one notification that carries no serial. */
  lemma IssueAppendUnstamped(s: State, m: State, y: Notification)
    requires Issued(s, m) && !y.HasSerial()
    ensures Issued(s, m.(sent := m.sent + [y]))
  {
  }

  /**
   * Every event only extends the log, and the serials it stamps on the
   * notifications it adds are fresh and pairwise distinct. Keyboard,
   * motion and button events always take a serial, so the counter
   * strictly increases on them.
   */
  lemma {:induction false} EventIssues(env: Env, s: State, e: InputEvent)
    ensures Issued(s, ApplyEvent(env, s, e).state)
    ensures (e.Keyboard? || e.PointerMotion? || e.PointerButton?
             || (e.PointerMotionAbsolute? && OutputOf(env, s.active).Some?))
            ==> ApplyEvent(env, s, e).state.serial > s.serial
  {
    match e
    case Keyboard(code, ks, time, mods, syms) => KeyIssues(env, s, code, ks, time, mods, syms);
    case PointerMotion(delta, unaccel, time, utime) => RelativeIssues(env, s, delta, unaccel, time, utime);
    case PointerMotionAbsolute(transformed, time) => AbsoluteIssues(env, s, transformed, time);
    case PointerButton(button, bs, time) => ButtonIssues(env, s, button, bs, time);
    case PointerAxis(_, _, _, _, _, _) =>
    case Other =>
  }

  /** Every serial in the log was issued by the counter, and no serial appears twice. */
  ghost predicate SerialsConsistent(s: State)
  {
    (forall i :: 0 <= i < |s.sent| && s.sent[i].HasSerial() ==> s.sent[i].serial < s.serial)
    && (forall i, j :: 0 <= i < j < |s.sent| && s.sent[i].HasSerial() && s.sent[j].HasSerial()
                       ==> s.sent[i].serial != s.sent[j].serial)
  }

  /** Processing any event keeps the log's serials consistent with the counter. */
  lemma {:induction false} EventKeepsSerialsConsistent(env: Env, s: State, e: InputEvent)
    requires SerialsConsistent(s)
    ensures SerialsConsistent(ApplyEvent(env, s, e).state)
  {
    var r := ApplyEvent(env, s, e).state;
    EventIssues(env, s, e);
    forall i | 0 <= i < |s.sent|
      ensures r.sent[i] == s.sent[i]
    {
    }
  }

  // ---------------------------------------------------------------------
  // Pointer events

  /**
   * Relative motion: the pointer becomes clamp(old + delta); when a window
   * is under the new location it is focused first; the motion notification
   * carries the clamped location and the relative one the raw delta. The
   * motion's serial is taken before the focus serial, so the focus
   * notification goes out first but carries the larger serial.
   */
  lemma RelativeMotionStep(env: Env, s: State, e: InputEvent)
    requires e.PointerMotion?
    ensures var r := ApplyEvent(env, s, e);
            var loc := Clamp(OutputOf(env, s.active), s.pointer.Plus(e.delta));
            var under := WindowUnder(env.layout, s.membership, s.active, loc);
            var notes := [Motion(under, loc, s.serial, e.time), RelativeMotion(under, e.delta, e.deltaUnaccel, e.utime)];
            r.outcome == Completed && r.state.pointer == loc
            && r.state.active == s.active && r.state.membership == s.membership
            && (under.None? ==> r.state.focus == s.focus && r.state.serial == s.serial + 1
                                && r.state.sent == s.sent + notes)
            && (under.Some? ==> r.state.focus == under && r.state.serial == s.serial + 2
                                && r.state.sent == s.sent + [KeyboardFocus(under.value, s.serial + 1)] + notes)
  {
  }

  /**
   * Absolute motion needs an output: without one nothing changes. With
   * one, the pointer becomes the clamp of the transformed position plus
   * the output's origin; a window under that location is focused first,
   * with the later serial; the one motion notification carries the
   * unclamped position and the serial taken first.
   */
  lemma AbsoluteMotionStep(env: Env, s: State, e: InputEvent)
    requires e.PointerMotionAbsolute?
    ensures OutputOf(env, s.active).None? ==> ApplyEvent(env, s, e) == Step(s, NoOutput)
    ensures OutputOf(env, s.active).Some? ==>
              var geo := OutputOf(env, s.active).value;
              var pos := e.transformed.Plus(Point(geo.x as real, geo.y as real));
              var loc := Clamp(OutputOf(env, s.active), pos);
              var under := WindowUnder(env.layout, s.membership, s.active, loc);
              var m := Motion(under, pos, s.serial, e.time);
              var r := ApplyEvent(env, s, e);
              r.outcome == Completed
              && (under.None? ==> r.state == s.(pointer := loc, serial := s.serial + 1, sent := s.sent + [m]))
              && (under.Some? ==>
                    r.state == s.(pointer := loc, focus := under, serial := s.serial + 2,
                                  sent := s.sent + [KeyboardFocus(under.value, s.serial + 1), m]))
  {
  }

  /** A button auto-focuses before it is delivered; the button carries the serial taken first. */
  lemma ButtonFocusesFirst(env: Env, s: State, e: InputEvent)
    requires e.PointerButton?
    ensures var r := ApplyEvent(env, s, e).state;
            var b := Button(e.button, e.buttonState, s.serial, e.time);
            r.pointer == s.pointer
            && (UnderPointer(env, s).None? ==> r == s.(serial := s.serial + 1, sent := s.sent + [b]))
            && (UnderPointer(env, s).Some? ==>
                  r == s.(focus := UnderPointer(env, s), serial := s.serial + 2,
                          sent := s.sent + [KeyboardFocus(UnderPointer(env, s).value, s.serial + 1), b]))
  {
  }

  /** A scroll event takes no serial and hands on exactly one frame. */
  lemma AxisSendsOneFrame(env: Env, s: State, e: InputEvent)
    requires e.PointerAxis?
    ensures ApplyEvent(env, s, e) == Step(s.(sent := s.sent + [AxisNotice(BuildFrame(e))]), Completed)
  {
  }

  // ---------------------------------------------------------------------
  // Keyboard events

  /** A key release is always forwarded to the focused window, whatever the bindings. */
  lemma {:induction false} ReleaseIsForwarded(env: Env, s: State, e: InputEvent)
    requires e.Keyboard? && e.state == Released
    ensures ApplyEvent(env, s, e)
         == Step(s.(serial := s.serial + 1, sent := s.sent + [Key(s.focus, e.code, Released, s.serial, e.time)]), Completed)
  {
    ReleaseForwards(e.modifiers, e.syms, env.bindings);
  }

  /** A press that matches binding `i` first runs that binding's action, after taking a serial. */
  lemma {:induction false} PressRunsFirstBinding(env: Env, s: State, e: InputEvent, i: int)
    requires e.Keyboard? && e.state == Pressed && FirstMatchAt(env.bindings, e.modifiers, e.syms, i)
    ensures ApplyEvent(env, s, e) == ApplyAction(env, s.(serial := s.serial + 1), env.bindings[i].action)
  {
    FirstMatchWins(e.modifiers, e.syms, env.bindings, i);
  }

  // ---------------------------------------------------------------------
  // The pointer stays on the output

  /** Every output has a non-negative size. */
  ghost predicate ValidEnv(env: Env)
  {
    forall ws :: ws in env.outputs ==> env.outputs[ws].w >= 0 && env.outputs[ws].h >= 0
  }

  /** Every workspace a binding can switch to shows the same first output as the active one. */
  ghost predicate SwitchesKeepOutput(env: Env, s: State)
  {
    forall i :: 0 <= i < |env.bindings| && (env.bindings[i].action.Workspace? || env.bindings[i].action.MoveAndSwitch?)
                ==> OutputOf(env, env.bindings[i].action.id) == OutputOf(env, s.active)
  }

  predicate PointerOnOutput(env: Env, s: State)
  {
    OnOutput(OutputOf(env, s.active), s.pointer)
  }

  /**
   * Whenever the active workspace has an output, the pointer lies in
   * [0, w] x [0, h] of it, and every event keeps it so, provided the
   * workspaces the bindings switch to show that same output.
   */
  lemma {:induction false} EventKeepsPointerOnOutput(env: Env, s: State, e: InputEvent)
    requires ValidEnv(env) && SwitchesKeepOutput(env, s) && PointerOnOutput(env, s)
    ensures PointerOnOutput(env, ApplyEvent(env, s, e).state)
    ensures SwitchesKeepOutput(env, ApplyEvent(env, s, e).state)
  {
    var r := ApplyEvent(env, s, e).state;
    assert ValidOutput(OutputOf(env, s.active));
    match e
    case Keyboard(code, ks, time, mods, syms) =>
      match Decide(ks, mods, syms, env.bindings) {
        case Intercept(a) =>
          InterceptIsFirstMatch(mods, syms, env.bindings, a);
          var i :| FirstMatchAt(env.bindings, mods, syms, i) && env.bindings[i].action == a;
          assert OutputOf(env, r.active) == OutputOf(env, s.active);
        case Forward =>
      }
    case _ =>
  }

  // ---------------------------------------------------------------------
  // Scenarios

  /** With an 800 x 600 output, (50, 50) moved by (-100, -10) ends at (0, 40). */
  lemma RelativeMotionScenario(env: Env, s: State, unaccel: Point, time: nat, utime: nat)
    requires OutputOf(env, s.active) == Some(Rect(0, 0, 800, 600)) && s.pointer == Point(50.0, 50.0)
    ensures ApplyEvent(env, s, PointerMotion(Point(-100.0, -10.0), unaccel, time, utime)).state.pointer == Point(0.0, 40.0)
  {
  }

  /**
   * The pointer is clamped after every motion, not once after the sum of
   * the deltas: from (0, 0), moving by (-10, 0) and then (5, 0) ends at
   * (5, 0), while the clamp of the summed delta is (0, 0).
   */
  lemma ClampPerStepNotOfSum(env: Env, s: State)
    requires OutputOf(env, s.active) == Some(Rect(0, 0, 800, 600)) && s.pointer == Point(0.0, 0.0)
    ensures var e1 := PointerMotion(Point(-10.0, 0.0), Point(-10.0, 0.0), 0, 0);
            var e2 := PointerMotion(Point(5.0, 0.0), Point(5.0, 0.0), 1, 1000);
            ApplyEvent(env, ApplyEvent(env, s, e1).state, e2).state.pointer == Point(5.0, 0.0)
            && Clamp(OutputOf(env, s.active), Point(-5.0, 0.0)) == Point(0.0, 0.0)
  {
    var e1 := PointerMotion(Point(-10.0, 0.0), Point(-10.0, 0.0), 0, 0);
    var s1 := RelativeStep(env, s, e1.delta, e1.deltaUnaccel, 0, 0).state;
    assert ApplyEvent(env, s, e1).state == s1;
    assert s1.pointer == Point(0.0, 0.0);
  }
}
