# MagmaWM input dispatcher, modelled in Dafny

This project models the input dispatcher of the MagmaWM Wayland compositor
(`src/handlers/input.rs`). The dispatcher turns raw backend events into
notifications for the focused client. It drives five pieces:

- the keybinding filter, which decides for every key event whether a
  compositor action intercepts it;
- the pointer location, which is clamped to the first output of the
  current workspace;
- keyboard focus, which follows the window under the pointer;
- the serial counter;
- the action executor (`handle_action`), which changes workspace state.

Modules:

- `Types` (types.dfy): points, rectangles, modifiers, actions, bindings,
  raw events, axis frames, the notifications handed to the protocol layer,
  and the outcome of a step.
- `Keybindings` (keybindings.dfy): `Decide` is the filter as a recursive
  first-match function. `FilterKey` is the filter closure as written, a
  loop with an early return, proved equal to `Decide`. Lemmas cover
  release-forwards and first-match-wins in both directions.
- `Pointer` (pointer.dfy): `clamp_coords`.
- `AxisFrames` (axis.dfy): the scroll amount and the builder chain that
  makes the axis frame. The chain is proved equal, axis by axis, to an
  independent per-axis reference, `PartFor`.
- `Workspaces` (workspaces.dfy): the workspace collaborator, kept abstract.
  A layout function lists the windows whose geometry holds a point, topmost
  first. The window under the pointer is the first of them that belongs to
  the active workspace. Moving a window changes only its membership.
- `Dispatch` (dispatch.dfy): the whole dispatcher as functions of a state
  value. It has one step function per event kind (`ApplyEvent`), one for
  actions (`ApplyAction`) and one for auto-focus (`AutoFocus`). Lemmas give
  the promised properties: sticky focus, composite actions, fresh and
  distinct serials, and the pointer staying on the output as long as the
  workspaces the bindings switch to show the active workspace's output.
- `Compositor` (compositor.dfy): the state object `MagmaState`. Its fields
  are updated in place by `ProcessInputEvent`, `HandleAction`,
  `SetInputFocus` and `SetInputFocusAuto`. Each method is proved to leave
  exactly the state that the `Dispatch` function describes.
  `ProcessInputEvent` hands each arm of its match to its own method
  (`OnKeyboard`, `OnPointerMotion`, and so on), which keeps each proof small.

The start-up state follows `src/state.rs`: one workspace (id 0), the
pointer at (0, 0), no focus, an empty log.

Three behaviours of the code are worth stating on their own:

- The pointer is clamped after every relative move, not once after the
  deltas are summed. `Dispatch.ClampPerStepNotOfSum` shows two moves where
  the two readings differ.
- On relative motion, absolute motion and button events, the motion or
  button serial is taken first. Auto-focus then takes a later serial, and
  its focus notification goes out before the motion or button notification.
  So serials are not issued in the order their notifications are sent.
  `Dispatch.RelativeMotionStep`, `Dispatch.AbsoluteMotionStep` and
  `Dispatch.ButtonFocusesFirst` state this order.
- The clamp uses only the first output's size, not its origin
  (`Pointer.ClampIgnoresOrigin`).

## Model

| member | source | states |
|---|---|---|
| `Keybindings.Decide` | src/handlers/input.rs:33-43 | the filter's first-match scan; an intercept only happens on a press and carries the action of a binding in the table that matches |
| `Keybindings.ReleaseForwards` | src/handlers/input.rs:34-42 | a key release is forwarded whatever the binding table holds |
| `Keybindings.FirstMatchWins` | src/handlers/input.rs:34-42 | a press is intercepted with the action of the first binding whose modifiers equal the active ones exactly and whose key is among the raw symbols |
| `Keybindings.ForwardIffNoMatch` | src/handlers/input.rs:34-42 | a press is forwarded if and only if no binding of the table matches (so an empty table forwards everything) |
| `Keybindings.InterceptIsFirstMatch` | src/handlers/input.rs:34-42 | every intercepted press carries the action of a first matching binding |
| `Keybindings.FilterKey` | src/handlers/input.rs:33-43 | the filter loop with early return gives the first-match decision, and intercepts only presses |
| `Pointer.ClampAxis` | src/handlers/input.rs:183-184 | one coordinate clamped by max(0) then min(size): within [0, size] for a non-negative size, unchanged inside, 0 below, size above |
| `Pointer.Clamp` | src/handlers/input.rs:170-186 | identity without an output; otherwise the result lies in [0, w] x [0, h] and points already inside are unchanged |
| `Pointer.ClampIdempotent` | src/handlers/input.rs:170-186 | clamping twice equals clamping once |
| `Pointer.ClampPerCoordinate` | src/handlers/input.rs:183-184 | each coordinate is clamped independently of the other |
| `Pointer.ClampIgnoresOrigin` | src/handlers/input.rs:176-184 | the clamp uses the output's size only, so a point inside an output at origin (800, 0) is moved |
| `AxisFrames.Amount` | src/handlers/input.rs:132-141 | the amount is the continuous amount, else discrete steps times 3, else 0 |
| `AxisFrames.AddAxisOther` | src/handlers/input.rs:147-162 | one axis's step of the builder chain leaves what the frame says about the other axis unchanged |
| `AxisFrames.AddAxisSelf` | src/handlers/input.rs:147-154 | one axis's step on a frame silent about that axis makes it say what the per-axis reference says |
| `AxisFrames.BuildFrame` | src/handlers/input.rs:145-162 | the frame keeps the event's time and source; a stop only appears for a finger source and never beside a value; discrete steps only appear beside a value |
| `AxisFrames.FrameFollowsPerAxis` | src/handlers/input.rs:142-162 | the builder chain's frame says, per axis, exactly what the per-axis reference says: the value and the discrete steps when the amount is nonzero, a stop for a finger source, otherwise nothing |
| `AxisFrames.ZeroAmountAxis` | src/handlers/input.rs:147-154 | a zero horizontal amount gives a stop for a finger source and nothing for any other source |
| `Workspaces.FirstOn` | src/state.rs:131-137 | the window under a point is the first candidate on the workspace; none exactly when no candidate belongs to it |
| `Workspaces.WindowUnder` | src/handlers/input.rs:206-209 | a window found under the pointer belongs to the queried workspace and its geometry holds the point |
| `Workspaces.MoveTo` | src/handlers/input.rs:225-227 | the moved window belongs to the target workspace; every other window keeps its membership |
| `Workspaces.MovedWindowLeaves` | src/handlers/input.rs:218-227 | a window moved to another workspace is no longer the window under the pointer on the one it left |
| `Dispatch.Initial` | src/state.rs:65-86 | start-up has no focus, an empty log and no memberships, and its pointer (0, 0) lies on any output of non-negative size |
| `Dispatch.FocusOn` | src/handlers/input.rs:188-192 | focusing takes one fresh serial, sets the focus to the target, adds to the log, and leaves pointer, active workspace and memberships alone |
| `Dispatch.AutoFocus` | src/handlers/input.rs:194-199 | auto-focus keeps pointer, workspace, memberships and stop signal, only extends the log, and focuses either nothing new or the window under the pointer; with nothing under the pointer it changes nothing |
| `Dispatch.ApplyAction` | src/handlers/input.rs:201-245 | no action moves the pointer or lowers the serial; Workspace and MoveAndSwitch make their id active and every other action keeps the active workspace; every action completes or reports NotImplemented for itself |
| `Dispatch.ApplyEvent` | src/handlers/input.rs:21-168 | NoOutput happens exactly for absolute motion without an output, and then nothing changes; NotImplemented only comes from a key press; pointer, button, scroll and other events keep the active workspace, memberships and stop signal |
| `Dispatch.KeyStep` | src/handlers/input.rs:23-46 | a key event takes a serial, never moves the pointer, and only a press can reach an unimplemented action |
| `Dispatch.RelativeStep` | src/handlers/input.rs:48-82 | relative motion completes, takes a serial, keeps workspace, memberships and stop signal, sets the pointer to the clamp of old location plus delta, which lies on an output of non-negative size |
| `Dispatch.AbsoluteStep` | src/handlers/input.rs:83-109 | absolute motion fails with NoOutput exactly when the workspace has no output, changing nothing; otherwise it completes with a fresh serial and leaves the pointer on the output |
| `Dispatch.ButtonStep` | src/handlers/input.rs:110-130 | a button completes, takes a serial, keeps pointer, workspace, memberships and stop signal, and the last notification is the button with the serial taken first |
| `Dispatch.AutoFocusSticky` | src/handlers/input.rs:188-199 | with nothing under the pointer auto-focus changes nothing, serial included; otherwise it focuses that window with one fresh serial and changes nothing else |
| `Dispatch.QuitOnlyStops` | src/handlers/input.rs:203 | Quit only raises the stop signal |
| `Dispatch.UnimplementedChangeNothing` | src/handlers/input.rs:201-245 | Debug, ToggleWindowFloating and VTSwitch report NotImplemented and change nothing; Spawn changes no state |
| `Dispatch.CloseOnlyRequests` | src/handlers/input.rs:205-213 | Close with no window under the pointer is a no-op; with one, it only asks that window to close |
| `Dispatch.MoveWindowKeepsView` | src/handlers/input.rs:218-228 | MoveWindow reassigns only the window under the pointer; active workspace, pointer, focus and serial are unchanged; nothing changes without a window |
| `Dispatch.MoveAndSwitchEndState` | src/handlers/input.rs:229-232 | MoveAndSwitch is MoveWindow then Workspace; afterwards the window that was under the pointer belongs to id and id is active |
| `Dispatch.IssuedTrans` | src/handlers/input.rs:229-231 | fresh, distinct serials over two consecutive steps compose into one step |
| `Dispatch.AutoFocusIssues` | src/handlers/input.rs:188-199 | auto-focus only extends the log and stamps a fresh serial |
| `Dispatch.ActionIssues` | src/handlers/input.rs:201-245 | actions only extend the log, and the serials they stamp are fresh and distinct |
| `Dispatch.KeyIssues` | src/handlers/input.rs:23-46 | a keyboard event takes a serial and stamps only fresh, distinct serials |
| `Dispatch.RelativeIssues` | src/handlers/input.rs:48-82 | relative motion takes a serial and stamps only fresh, distinct serials |
| `Dispatch.AbsoluteIssues` | src/handlers/input.rs:83-109 | absolute motion with an output takes a serial and stamps only fresh, distinct serials |
| `Dispatch.ButtonIssues` | src/handlers/input.rs:110-130 | a button takes a serial and stamps only fresh, distinct serials |
| `Dispatch.EventIssues` | src/handlers/input.rs:21-168 | every event only extends the log with fresh, distinct serials; keyboard, motion and button events strictly increase the counter |
| `Dispatch.EventKeepsSerialsConsistent` | src/handlers/input.rs:21-168 | if every logged serial was issued and none repeats, the same holds after any event |
| `Dispatch.RelativeMotionStep` | src/handlers/input.rs:48-82 | relative motion sets the pointer to clamp(old + delta); the motion notification carries the clamped location and the relative one the raw delta; a window under the new location is focused first, with a later serial |
| `Dispatch.AbsoluteMotionStep` | src/handlers/input.rs:83-109 | without an output nothing changes (NoOutput); otherwise the whole new state: the pointer becomes clamp(transformed + origin), one serial is taken for the motion and, when a window lies under the new location, a later one for focusing it, whose notification goes first; the motion notification carries the unclamped position |
| `Dispatch.ButtonFocusesFirst` | src/handlers/input.rs:110-130 | a button auto-focuses before it is delivered, and the button carries the serial taken first |
| `Dispatch.AxisSendsOneFrame` | src/handlers/input.rs:131-165 | a scroll event takes no serial and hands on exactly one frame |
| `Dispatch.ReleaseIsForwarded` | src/handlers/input.rs:23-46 | a key release takes a serial and is delivered to the focused window, whatever the bindings |
| `Dispatch.PressRunsFirstBinding` | src/handlers/input.rs:23-46 | a press whose first match is binding i runs that binding's action after taking a serial |
| `Dispatch.EventKeepsPointerOnOutput` | src/handlers/input.rs:48-109 | when the active workspace has an output, the pointer stays in [0, w] x [0, h] of it across every event, provided every workspace a binding can switch to shows the same first output as the active one; that proviso also holds afterwards |
| `Dispatch.RelativeMotionScenario` | src/handlers/input.rs:50-55 | with an 800 x 600 output, (50, 50) moved by (-100, -10) ends at (0, 40) |
| `Dispatch.ClampPerStepNotOfSum` | src/handlers/input.rs:50-55 | clamping happens after every move: (0, 0) moved by (-10, 0) then (5, 0) ends at (5, 0), not at the clamp of the sum, (0, 0) |
| `Compositor.MagmaState.constructor` | src/state.rs:65-86 | start-up: one workspace, pointer at (0, 0), no focus |
| `Compositor.MagmaState.NextSerial` | src/handlers/input.rs:24 | returns the counter's value and advances it by one, changing nothing else |
| `Compositor.MagmaState.SetInputFocus` | src/handlers/input.rs:188-192 | takes a serial and focuses the target with it |
| `Compositor.MagmaState.SetInputFocusAuto` | src/handlers/input.rs:194-199 | leaves the state that `Dispatch.AutoFocus` gives |
| `Compositor.MagmaState.HandleAction` | src/handlers/input.rs:201-245 | updates the fields in place to the state and outcome `Dispatch.ApplyAction` gives; MoveAndSwitch runs the method twice |
| `Compositor.MagmaState.ProcessInputEvent` | src/handlers/input.rs:21-168 | updates the fields in place to the state and outcome `Dispatch.ApplyEvent` gives |
| `Compositor.MagmaState.OnKeyboard` | src/handlers/input.rs:23-46 | the keyboard arm leaves the state and outcome `Dispatch.KeyStep` gives |
| `Compositor.MagmaState.OnPointerMotion` | src/handlers/input.rs:48-82 | the relative-motion arm leaves the state and outcome `Dispatch.RelativeStep` gives |
| `Compositor.MagmaState.OnPointerMotionAbsolute` | src/handlers/input.rs:83-109 | the absolute-motion arm leaves the state and outcome `Dispatch.AbsoluteStep` gives |
| `Compositor.MagmaState.OnPointerButton` | src/handlers/input.rs:110-130 | the button arm leaves the state and outcome `Dispatch.ButtonStep` gives |
| `Compositor.MagmaState.OnPointerAxis` | src/handlers/input.rs:131-165 | the scroll arm's builder chain appends exactly the frame `AxisFrames.BuildFrame` gives and changes nothing else |

## Left out

- Delivery through the protocol library is not modelled: the seat's keyboard and pointer (`motion`, `relative_motion`, `button`, `axis`, `set_focus`, `input`). The model records every call as an entry of the `sent` log.
- The library's key-release suppression for intercepted presses is not modelled. Key symbol resolution by the keymap is not modelled either: events carry their modifier state and raw symbols.
- The workspace type (`utils/workspace.rs`) is not part of this model:
  - its hit-testing and layout are an abstract layout function;
  - activation and moving are a plain id and a membership map;
  - any workspace id can be activated, because what the type does with an id it does not hold is not visible;
  - `surface_under` is taken to be the window under the pointer.
- Outputs, layout and bindings are read-only inputs of the dispatcher. Output hot-plugging and configuration loading are outside it.
- `position_transformed` is not modelled: absolute events carry the transformed position.
- f64 behaviour is not modelled, because coordinates and amounts are exact reals: NaN and infinity in `max`/`min`, and rounding. Discrete steps are integers, so the truncating `as i32` cast is not modelled.
- The serial counter's atomicity, its 32-bit wrap-around and its library-owned initial value are not modelled. The model starts it at 0 and relies only on its order.
- Spawn is not modelled: it starts `/bin/sh -c` and logs a failure, which changes no compositor state, so the model treats it as a no-op.
- Panics are outcomes, not process termination:
  - the `todo!()` actions (Debug, ToggleWindowFloating, VTSwitch) return `NotImplemented`;
  - a missing output on absolute motion returns `NoOutput`.
- Event kinds other than the five handled ones are no-ops.
- Dispatch.EventKeepsPointerOnOutput: assumes every workspace a binding can switch to shows the active workspace's first output. A switch does not move the pointer, so a switch to a smaller output or to none can leave it off the new output; the code does not prevent that.
