/** The mouse-input state machine of the Renderer (glengine/src/Renderer.cpp):
    the held-button state, the first-drag flag and the last cursor position,
    and the calls it makes on the orbital camera.

    GLFW's button and action codes become enumerations; the camera's
    arithmetic is not modelled, only the calls made on it, recorded in a
    ghost log. Cursor coordinates are real numbers (the source narrows the
    doubles GLFW reports to float). */
module MouseInput {
  import opened Geometry

  /** Renderer::MousePressedButton. */
  datatype MousePressedButton = NoButton | Left | Right | Middle

  /** The button code of a GLFW button event: the three buttons the handler
      names, and any other code. */
  datatype Button = ButtonLeft | ButtonRight | ButtonMiddle | OtherButton(code: int)

  /** The action code of a GLFW button event. */
  datatype Action = Release | Press | Repeat

  /** A call on the orbital camera, with its float argument(s). */
  datatype CameraCall =
    | Orbit(xoffset: real, yoffset: real)
    | Track(offset: real)
    | Pedestal(offset: real)
    | Dolly(offset: real)
    | Zoom(offset: real)

  /** The four fields the handlers read and write. */
  datatype MouseState = MouseState(button: MousePressedButton, firstMouse: bool, lastX: real, lastY: real)

  /** The fields as the renderer is constructed. */
  const Initial := MouseState(NoButton, true, 0.0, 0.0)

  /** An input event as GLFW delivers it to the callbacks. */
  datatype MouseEvent =
    | ButtonEvent(button: Button, action: Action)
    | MoveEvent(xpos: real, ypos: real)
    | ScrollEvent(xoffset: real, yoffset: real)

  /** The held-button state a button name stands for; any other code names
      none. */
  function Pressed(b: Button): Option<MousePressedButton>
  {
    match b
    case ButtonLeft => Some(Left)
    case ButtonRight => Some(Right)
    case ButtonMiddle => Some(Middle)
    case OtherButton(_) => None
  }

  /** onMouseButton: a release clears the state whatever the button; a press
      or repeat of a named button selects it; a press of any other button
      falls through the switch and changes nothing. */
  function ButtonState(state: MousePressedButton, b: Button, a: Action): (r: MousePressedButton)
    ensures a == Release ==> r == NoButton
    ensures a != Release && Pressed(b).Some? ==> r == Pressed(b).value && r != NoButton
    ensures a != Release && Pressed(b).None? ==> r == state
  {
    if a == Release then NoButton
    else match b
      case ButtonLeft => Left
      case ButtonRight => Right
      case ButtonMiddle => Middle
      case OtherButton(_) => state
  }

  /** The camera calls of one drag step with the given offsets. */
  function Dispatch(state: MousePressedButton, dx: real, dy: real): seq<CameraCall>
  {
    match state
    case NoButton => []
    case Left => [Orbit(dx, dy)]
    case Right => [Track(dx), Pedestal(dy)]
    case Middle => [Dolly(dy)]
  }

  /** onMouseMove: without a held button the position is only recorded. With
      one, the first move ever re-bases the last position on the event, the
      offsets are x - lastX and lastY - y (y inverted), and the state's
      camera calls are made. */
  function Move(s: MouseState, x: real, y: real): (r: (MouseState, seq<CameraCall>))
    ensures r.0.lastX == x && r.0.lastY == y
    ensures r.0.button == s.button
    ensures r.0.firstMouse == (s.firstMouse && s.button == NoButton)
    ensures s.button == NoButton <==> r.1 == []
    ensures |r.1| == (if s.button == Right then 2 else if s.button == NoButton then 0 else 1)
  {
    if s.button == NoButton then (s.(lastX := x, lastY := y), [])
    else
      var lx := if s.firstMouse then x else s.lastX;
      var ly := if s.firstMouse then y else s.lastY;
      (MouseState(s.button, false, x, y), Dispatch(s.button, x - lx, ly - y))
  }

  /** One event: the new fields and the camera calls it makes. */
  function Handle(s: MouseState, e: MouseEvent): (MouseState, seq<CameraCall>)
  {
    match e
    case ButtonEvent(b, a) => (s.(button := ButtonState(s.button, b, a)), [])
    case MoveEvent(x, y) => Move(s, x, y)
    case ScrollEvent(_, dy) => (s, [Zoom(dy)])
  }

  /** A sequence of events: the final fields and every camera call, in
      order. */
  function Replay(s: MouseState, es: seq<MouseEvent>): (MouseState, seq<CameraCall>)
  {
    if es == [] then (s, [])
    else
      var r := Replay(s, es[..|es| - 1]);
      var h := Handle(r.0, es[|es| - 1]);
      (h.0, r.1 + h.1)
  }

  // ---------------------------------------------------------------------
  // The renderer's fields and handlers

  /** The camera, reduced to the log of calls made on it. */
  class OrbitalCamera {
    ghost var calls: seq<CameraCall>

    constructor()
      ensures calls == []
    {
      calls := [];
    }

    method Orbit(xoffset: real, yoffset: real)
      modifies this
      ensures calls == old(calls) + [CameraCall.Orbit(xoffset, yoffset)]
    {
      calls := calls + [CameraCall.Orbit(xoffset, yoffset)];
    }

    method Track(offset: real)
      modifies this
      ensures calls == old(calls) + [CameraCall.Track(offset)]
    {
      calls := calls + [CameraCall.Track(offset)];
    }

    method Pedestal(offset: real)
      modifies this
      ensures calls == old(calls) + [CameraCall.Pedestal(offset)]
    {
      calls := calls + [CameraCall.Pedestal(offset)];
    }

    method Dolly(offset: real)
      modifies this
      ensures calls == old(calls) + [CameraCall.Dolly(offset)]
    {
      calls := calls + [CameraCall.Dolly(offset)];
    }

    method Zoom(offset: real)
      modifies this
      ensures calls == old(calls) + [CameraCall.Zoom(offset)]
    {
      calls := calls + [CameraCall.Zoom(offset)];
    }
  }

  /** The mouse-handling part of Renderer. */
  class Renderer {
    var mouseButtonState: MousePressedButton
    var firstMouse: bool
    var lastX: real
    var lastY: real
    const camera: OrbitalCamera

    function State(): MouseState
      reads this
    {
      MouseState(mouseButtonState, firstMouse, lastX, lastY)
    }

    constructor()
      ensures State() == Initial
      ensures fresh(camera) && camera.calls == []
    {
      mouseButtonState := NoButton;
      firstMouse := true;
      lastX, lastY := 0.0, 0.0;
      camera := new OrbitalCamera();
    }

    /** The modifier bits are not read. */
    method OnMouseButton(button: Button, action: Action, mods: int)
      modifies this
      ensures State() == Handle(old(State()), ButtonEvent(button, action)).0
      ensures camera.calls == old(camera.calls)
    {
      if action == Release {
        mouseButtonState := NoButton;
      } else {
        match button {
          case ButtonLeft => mouseButtonState := Left;
          case ButtonRight => mouseButtonState := Right;
          case ButtonMiddle => mouseButtonState := Middle;
          case OtherButton(_) =>
        }
      }
    }

    method OnMouseMove(xpos: real, ypos: real)
      modifies this, camera
      ensures State() == Handle(old(State()), MoveEvent(xpos, ypos)).0
      ensures camera.calls == old(camera.calls) + Handle(old(State()), MoveEvent(xpos, ypos)).1
    {
      if mouseButtonState == NoButton {
        lastX := xpos;
        lastY := ypos;
      } else {
        if firstMouse {
          lastX := xpos;
          lastY := ypos;
          firstMouse := false;
        }
        var xoffset := xpos - lastX;
        var yoffset := lastY - ypos;
        lastX := xpos;
        lastY := ypos;
        if mouseButtonState == Left {
          camera.Orbit(xoffset, yoffset);
        } else if mouseButtonState == Right {
          camera.Track(xoffset);
          camera.Pedestal(yoffset);
        } else if mouseButtonState == Middle {
          camera.Dolly(yoffset);
        }
      }
    }

    /** The horizontal scroll offset is not read. */
    method OnMouseScroll(xoffset: real, yoffset: real)
      modifies camera
      ensures State() == old(State())
      ensures camera.calls == old(camera.calls) + [CameraCall.Zoom(yoffset)]
    {
      camera.Zoom(yoffset);
    }
  }

  // ---------------------------------------------------------------------
  // Properties of the state machine

  /** A button event that changes the state: a release, or a press or repeat
      of a named button. */
  predicate Effective(e: MouseEvent)
  {
    e.ButtonEvent? && (e.action == Release || Pressed(e.button).Some?)
  }

  /** The state an effective button event leaves, whatever came before. */
  function EffectOf(e: MouseEvent): MousePressedButton
    requires Effective(e)
  {
    if e.action == Release then NoButton else Pressed(e.button).value
  }

  /** Event i changes the pressed-button state and no later event does. */
  predicate LastEffective(es: seq<MouseEvent>, i: nat)
  {
    i < |es| && Effective(es[i]) && forall j | i < j < |es| :: !Effective(es[j])
  }

  /** The held-button state is decided by the last effective button event
      alone; moves, scrolls and presses of other buttons never change it. */
  lemma {:induction false} StateIsLastEffectiveButton(s: MouseState, es: seq<MouseEvent>)
    ensures (forall i | 0 <= i < |es| :: !Effective(es[i])) ==> Replay(s, es).0.button == s.button
    ensures forall i: nat | LastEffective(es, i) :: Replay(s, es).0.button == EffectOf(es[i])
  {
    if es != [] {
      var n := |es| - 1;
      var p := es[..n];
      StateIsLastEffectiveButton(s, p);
      var r := Replay(s, p).0;
      assert Replay(s, es).0 == Handle(r, es[n]).0;
      if Effective(es[n]) {
        assert Replay(s, es).0.button == EffectOf(es[n]);
        forall i: nat | LastEffective(es, i)
          ensures i == n
        {
        }
      } else {
        assert Replay(s, es).0.button == r.button;
        forall i: nat | LastEffective(es, i)
          ensures LastEffective(p, i)
        {
          assert i != n;
          assert p[i] == es[i];
          forall j | i < j < |p|
            ensures !Effective(p[j])
          {
            assert p[j] == es[j];
          }
        }
        if forall i | 0 <= i < |es| :: !Effective(es[i]) {
          forall i | 0 <= i < |p|
            ensures !Effective(p[i])
          {
            assert p[i] == es[i];
          }
        }
      }
    }
  }

  /** firstMouse stays set exactly until the first move made while a button
      is held, and is never set again. */
  lemma {:induction false} FirstMouseNeverReturns(s: MouseState, es: seq<MouseEvent>)
    ensures Replay(s, es).0.firstMouse <==>
      s.firstMouse && forall i | 0 <= i < |es| && es[i].MoveEvent? :: Replay(s, es[..i]).0.button == NoButton
  {
    if es != [] {
      var n := |es| - 1;
      var p := es[..n];
      FirstMouseNeverReturns(s, p);
      forall i | 0 <= i < n
        ensures es[..i] == p[..i] && es[i] == p[i]
      {
      }
      assert es[..n] == p;
    }
  }

  /** The first move of a drag re-bases the last position on the cursor, so
      its offsets are zero and the camera does not jump. */
  lemma FirstDragIsStill(s: MouseState, x: real, y: real)
    requires s.firstMouse && s.button != NoButton
    ensures Move(s, x, y).1 == Dispatch(s.button, 0.0, 0.0)
  {
  }

  /** The horizontal offset a call carries (orbit and track). */
  function DX(c: CameraCall): real
  {
    match c
    case Orbit(dx, _) => dx
    case Track(dx) => dx
    case _ => 0.0
  }

  /** The vertical offset a call carries (orbit, pedestal and dolly). */
  function DY(c: CameraCall): real
  {
    match c
    case Orbit(_, dy) => dy
    case Pedestal(dy) => dy
    case Dolly(dy) => dy
    case _ => 0.0
  }

  function SumX(cs: seq<CameraCall>): real
  {
    if cs == [] then 0.0 else SumX(cs[..|cs| - 1]) + DX(cs[|cs| - 1])
  }

  function SumY(cs: seq<CameraCall>): real
  {
    if cs == [] then 0.0 else SumY(cs[..|cs| - 1]) + DY(cs[|cs| - 1])
  }

  lemma {:induction false} SumsAppend(a: seq<CameraCall>, b: seq<CameraCall>)
    ensures SumX(a + b) == SumX(a) + SumX(b)
    ensures SumY(a + b) == SumY(a) + SumY(b)
  {
    if b == [] {
      assert a + b == a;
    } else {
      var b' := b[..|b| - 1];
      SumsAppend(a, b');
      assert (a + b)[..|a + b| - 1] == a + b';
    }
  }

  lemma SumsSingle(c: CameraCall)
    ensures SumX([c]) == DX(c) && SumY([c]) == DY(c)
  {
    assert [c][..0] == [];
  }

  /** One drag step hands the camera its vertical offset, and its
      horizontal offset unless the middle button dollies. */
  lemma DispatchSums(state: MousePressedButton, dx: real, dy: real)
    requires state != NoButton
    ensures SumY(Dispatch(state, dx, dy)) == dy
    ensures SumX(Dispatch(state, dx, dy)) == if state == Middle then 0.0 else dx
  {
    match state
    case Left => SumsSingle(Orbit(dx, dy));
    case Middle => SumsSingle(Dolly(dy));
    case Right =>
      SumsSingle(Track(dx));
      SumsSingle(Pedestal(dy));
      SumsAppend([Track(dx)], [Pedestal(dy)]);
      assert [Track(dx)] + [Pedestal(dy)] == Dispatch(state, dx, dy);
  }

  /** One move of a drag: the offsets run from the drag's base to the
      cursor, and the cursor becomes the new base. */
  lemma DragStep(m: MouseState, x: real, y: real)
    requires m.button != NoButton
    ensures var h := Move(m, x, y);
      var x0 := if m.firstMouse then x else m.lastX;
      var y0 := if m.firstMouse then y else m.lastY;
      && h.0 == MouseState(m.button, false, x, y)
      && SumY(h.1) == y0 - y
      && SumX(h.1) == (if m.button == Middle then 0.0 else x - x0)
  {
    var x0 := if m.firstMouse then x else m.lastX;
    var y0 := if m.firstMouse then y else m.lastY;
    DispatchSums(m.button, x - x0, y0 - y);
  }

  /** A cursor position. */
  datatype Point = Point(x: real, y: real)

  /** Move events through the given positions. */
  function Moves(ps: seq<Point>): (es: seq<MouseEvent>)
    ensures |es| == |ps|
    ensures forall i | 0 <= i < |ps| :: es[i] == MoveEvent(ps[i].x, ps[i].y)
  {
    seq(|ps|, i requires 0 <= i < |ps| => MoveEvent(ps[i].x, ps[i].y))
  }

  /** A drag telescopes: over any run of moves with a button held, the
      offsets handed to the camera add up to the cursor's total
      displacement from where the drag is based (the first position of a
      first drag, otherwise the last recorded position), vertically inverted,
      and the fields end on the last position. */
  lemma {:induction false} DragTelescopes(s: MouseState, ps: seq<Point>)
    requires s.button != NoButton && |ps| > 0
    ensures var r := Replay(s, Moves(ps));
      var last := ps[|ps| - 1];
      var x0 := if s.firstMouse then ps[0].x else s.lastX;
      var y0 := if s.firstMouse then ps[0].y else s.lastY;
      && r.0 == MouseState(s.button, false, last.x, last.y)
      && SumY(r.1) == y0 - last.y
      && (s.button != Middle ==> SumX(r.1) == last.x - x0)
      && (s.button == Middle ==> SumX(r.1) == 0.0)
  {
    var n := |ps| - 1;
    var es := Moves(ps);
    assert es[..n] == Moves(ps[..n]);
    if n == 0 {
      assert es[..n] == [];
      DragStep(s, ps[0].x, ps[0].y);
      SumsAppend([], Move(s, ps[0].x, ps[0].y).1);
    } else {
      DragTelescopes(s, ps[..n]);
      var r := Replay(s, es[..n]);
      assert r.0 == MouseState(s.button, false, ps[n - 1].x, ps[n - 1].y);
      var m := Move(r.0, ps[n].x, ps[n].y);
      assert Replay(s, es) == (m.0, r.1 + m.1);
      DragStep(r.0, ps[n].x, ps[n].y);
      SumsAppend(r.1, m.1);
    }
  }

  /** Moves with no button held never reach the camera. */
  lemma {:induction false} IdleMovesIssueNoCalls(s: MouseState, ps: seq<Point>)
    requires s.button == NoButton
    ensures Replay(s, Moves(ps)).1 == []
    ensures Replay(s, Moves(ps)).0 == (if ps == [] then s else s.(lastX := ps[|ps| - 1].x, lastY := ps[|ps| - 1].y))
  {
    if ps != [] {
      var n := |ps| - 1;
      assert Moves(ps)[..n] == Moves(ps[..n]);
      IdleMovesIssueNoCalls(s, ps[..n]);
    }
  }

  /** Scrolling zooms by the vertical offset and changes nothing else. */
  lemma ScrollOnlyZooms(s: MouseState, es: seq<MouseEvent>, dx: real, dy: real)
    ensures Replay(s, es + [ScrollEvent(dx, dy)]) == (Replay(s, es).0, Replay(s, es).1 + [Zoom(dy)])
  {
    assert (es + [ScrollEvent(dx, dy)])[..|es|] == es;
  }
}
