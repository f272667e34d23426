/** The window/event controller of src/main.rs:8-11 and 24-105: the `App`
    state, window creation on `resumed`, and the dispatch of window events to
    exit, redraw requests and frame drawing. */
module Controller {
  import opened Panics
  import opened Geometry
  import opened Presenter

  /** The attributes the overlay window is created with. */
  datatype Attributes = Attributes(
    transparent: bool,
    decorations: bool,
    borderlessFullscreen: bool,
    title: string,
    alwaysOnTop: bool,
    taskbarIcon: bool)

  /** The fixed attributes of src/main.rs:26-32. */
  const OverlayAttributes := Attributes(true, false, true, "dot", true, true)

  /** The overlay window; `cursorHittest` is false when clicks pass through. */
  datatype Window = Window(attributes: Attributes, cursorHittest: bool)

  /** What the platform answers while `resumed` runs: whether the embedded
      icon decodes, whether the window is created, and whether disabling the
      cursor hit-test succeeds. */
  datatype Platform = Platform(iconDecoded: bool, windowCreated: bool, hittestDisabled: bool)

  /** The window built by `resumed` (src/main.rs:25-34). The icon and the
      window are unwrapped, in that order; a failure to disable the hit-test
      is ignored and only leaves the window clickable. */
  function CreateWindow(p: Platform): (r: Result<Window>)
    ensures r.Ok? <==> p.iconDecoded && p.windowCreated
    ensures !p.iconDecoded ==> r == Err(IconDecodeFailed)
    ensures p.iconDecoded && !p.windowCreated ==> r == Err(WindowCreationFailed)
    ensures r.Ok? ==> r.value.attributes == OverlayAttributes
    ensures r.Ok? ==> (r.value.cursorHittest <==> !p.hittestDisabled)
  {
    if !p.iconDecoded then Err(IconDecodeFailed)
    else if !p.windowCreated then Err(WindowCreationFailed)
    else Ok(Window(OverlayAttributes, !p.hittestDisabled))
  }

  /** The window events the overlay tells apart; `Other` stands for every
      other event winit delivers (resize, move, cursor, keyboard, ...). */
  datatype WindowEvent = CloseRequested | Focused(gained: bool) | RedrawRequested | Other

  /** What a redraw reads from outside: the window's inner size and the RGBA8
      bytes the rasteriser draws for a pixmap of that size. */
  datatype Env = Env(width: u32, height: u32, pixmap: seq<bv8>) {
    /** The pixmap holds four bytes per pixel of the window. */
    predicate Valid() {
      |pixmap| == 4 * (width as int * height as int)
    }
  }

  /** What handling an event does beyond the `App` state. */
  datatype Effect =
    | NoEffect
    | Exit                                          // event_loop.exit()
    | RequestRedraw                                 // window.request_redraw()
    | Present(marker: Marker, buffer: seq<bv32>)    // buffer.present()
    | Panic(fault: Fault)                           // a failed unwrap aborts

  /** The `RedrawRequested` arm (src/main.rs:51-102): a frame is presented
      only with a window and a non-zero size, and then its buffer is the
      pixmap converted word by word. */
  function Redraw(window: Option<Window>, env: Env): (e: Effect)
    requires env.Valid()
    ensures e.Present? <==> window.Some? && env.width != 0 && env.height != 0
    ensures window.None? ==> e == Panic(NoWindow)
    ensures window.Some? && env.width == 0 ==> e == Panic(ZeroWidth)
    ensures window.Some? && env.width != 0 && env.height == 0 ==> e == Panic(ZeroHeight)
    ensures e.Present? ==> e.marker == MarkerFor(env.width, env.height)
    ensures e.Present? ==> e.marker.centre == Centre(env.width, env.height)
    ensures e.Present? ==> |e.buffer| == env.width as int * env.height as int
    ensures e.Present? ==> forall i :: 0 <= i < |e.buffer| ==>
      e.buffer[i] == Pack(env.pixmap[4 * i], env.pixmap[4 * i + 1], env.pixmap[4 * i + 2])
  {
    match window
    case None => Panic(NoWindow)
    case Some(_) =>
      match SurfaceLength(env.width, env.height)
      case Err(f) => Panic(f)
      case Ok(_) => Present(MarkerFor(env.width, env.height), Converted(env.pixmap))
  }

  /** `window_event` (src/main.rs:44-104): closing exits, focus asks for a
      redraw, a redraw request draws a frame, anything else is ignored. Focus
      and redraw unwrap the window, so without one they abort. */
  function Dispatch(window: Option<Window>, event: WindowEvent, env: Env): (e: Effect)
    requires env.Valid()
    ensures e == Exit <==> event == CloseRequested
    ensures e == RequestRedraw <==> event.Focused? && window.Some?
    ensures e.Present? ==> event == RedrawRequested
    ensures e == NoEffect <==> event == Other
    ensures e.Panic? <==>
      (window.None? && (event.Focused? || event == RedrawRequested)) ||
      (window.Some? && event == RedrawRequested && (env.width == 0 || env.height == 0))
    ensures event == RedrawRequested ==> e == Redraw(window, env)
  {
    match event
    case CloseRequested => Exit
    case Focused(_) => if window.Some? then RequestRedraw else Panic(NoWindow)
    case RedrawRequested => Redraw(window, env)
    case Other => NoEffect
  }

  /** The application state. Only `Resumed` assigns the window. */
  class App {
    var window: Option<Window>

    /** `App::default()`: no window yet. */
    constructor ()
      ensures window == None
    {
      window := None;
    }

    /** `resumed` (src/main.rs:25-36): create the window and keep it. */
    method Resumed(p: Platform) returns (e: Effect)
      modifies this
      ensures CreateWindow(p).Ok? ==> window == Some(CreateWindow(p).value) && e == NoEffect
      ensures CreateWindow(p).Err? ==> window == old(window) && e == Panic(CreateWindow(p).fault)
    {
      match CreateWindow(p)
      case Err(f) =>
        e := Panic(f);
      case Ok(w) =>
        window := Some(w);
        e := NoEffect;
    }

    /** `window_event` (src/main.rs:38-105). It changes nothing of the `App`:
        a redraw writes only the fresh presentation buffer. */
    method WindowEvent(event: WindowEvent, env: Env) returns (e: Effect)
      requires env.Valid()
      ensures e == Dispatch(window, event, env)
    {
      match event {
        case CloseRequested =>
          e := Exit;
        case Focused(_) =>
          if window.None? {
            e := Panic(NoWindow);
          } else {
            e := RequestRedraw;
          }
        case RedrawRequested =>
          if window.None? {
            e := Panic(NoWindow);
          } else {
            match SurfaceLength(env.width, env.height) {
              case Err(f) =>
                e := Panic(f);
              case Ok(count) =>
                var buffer := new bv32[count];
                ConvertInto(env.pixmap, env.width as int, env.height as int, buffer);
                e := Present(MarkerFor(env.width, env.height), buffer[..]);
            }
          }
        case Other =>
          e := NoEffect;
      }
    }
  }

  /** One callback of the event loop. */
  datatype Input = Resume(platform: Platform) | Deliver(event: WindowEvent, env: Env)

  /** Every redraw environment in the trace is consistent. */
  predicate WellFormed(inputs: seq<Input>)
  {
    forall i :: 0 <= i < |inputs| ==> inputs[i].Deliver? ==> inputs[i].env.Valid()
  }

  /** One callback as a transition of the window state. */
  function Step(window: Option<Window>, input: Input): (r: (Option<Window>, Effect))
    requires input.Deliver? ==> input.env.Valid()
    ensures input.Deliver? ==> r == (window, Dispatch(window, input.event, input.env))
    ensures input.Resume? && CreateWindow(input.platform).Ok? ==>
      r == (Some(CreateWindow(input.platform).value), NoEffect)
    ensures input.Resume? && CreateWindow(input.platform).Err? ==>
      r == (window, Panic(CreateWindow(input.platform).fault))
  {
    match input
    case Resume(p) =>
      (match CreateWindow(p)
       case Ok(w) => (Some(w), NoEffect)
       case Err(f) => (window, Panic(f)))
    case Deliver(event, env) => (window, Dispatch(window, event, env))
  }

  /** The callbacks of a trace in order, stopping after the first panic since
      it aborts the process; the final window and the effects produced. */
  function Run(window: Option<Window>, inputs: seq<Input>): (r: (Option<Window>, seq<Effect>))
    requires WellFormed(inputs)
    ensures inputs == [] ==> r == (window, [])
    ensures |r.1| <= |inputs|
    ensures forall k :: 0 <= k < |r.1| - 1 ==> !r.1[k].Panic?
    ensures |r.1| < |inputs| ==> r.1 != [] && r.1[|r.1| - 1].Panic?
    decreases |inputs|
  {
    if inputs == [] then (window, [])
    else
      var (w, e) := Step(window, inputs[0]);
      if e.Panic? then (w, [e])
      else
        var (w', es) := Run(w, inputs[1..]);
        (w', [e] + es)
  }

  /** A well-formed trace has well-formed slices. */
  lemma WellFormedSlice(inputs: seq<Input>, lo: nat, hi: nat)
    requires WellFormed(inputs) && lo <= hi <= |inputs|
    ensures WellFormed(inputs[lo..hi])
  {
  }

  /** Effect `k` of a run is what callback `k` does to the window left by
      callbacks `0..k`, and the window it leaves is the one callback `k + 1`
      sees: the callbacks are handled one at a time, in order, each on the
      window its predecessors left. */
  lemma {:induction false} RunInOrder(window: Option<Window>, inputs: seq<Input>, k: nat)
    requires WellFormed(inputs) && k < |Run(window, inputs).1|
    ensures k < |inputs| && WellFormed(inputs[..k])
    ensures Run(window, inputs).1[k] == Step(Run(window, inputs[..k]).0, inputs[k]).1
    ensures WellFormed(inputs[..k + 1])
    ensures Run(window, inputs[..k + 1]).0 == Step(Run(window, inputs[..k]).0, inputs[k]).0
    decreases |inputs|
  {
    WellFormedSlice(inputs, 0, k);
    WellFormedSlice(inputs, 0, k + 1);
    WellFormedSlice(inputs, 1, |inputs|);
    var (w, e) := Step(window, inputs[0]);
    if k > 0 {
      assert !e.Panic?;
      var tail := inputs[1..];
      RunInOrder(w, tail, k - 1);
      assert inputs[..k][0] == inputs[0];
      assert inputs[..k][1..] == tail[..k - 1];
      assert inputs[..k + 1][0] == inputs[0];
      assert inputs[..k + 1][1..] == tail[..k];
      assert tail[k - 1] == inputs[k];
    }
  }

  /** No input of the trace creates a window. */
  predicate NoWindowCreated(inputs: seq<Input>)
  {
    forall i :: 0 <= i < |inputs| ==> inputs[i].Resume? ==> CreateWindow(inputs[i].platform).Err?
  }

  /** Until a `resumed` has created the window, the window stays `None` and no
      frame is presented. */
  lemma {:induction false} NothingPresentedWithoutWindow(inputs: seq<Input>)
    requires WellFormed(inputs)
    requires NoWindowCreated(inputs)
    ensures Run(None, inputs).0 == None
    ensures forall k :: 0 <= k < |Run(None, inputs).1| ==> !Run(None, inputs).1[k].Present?
  {
    if inputs != [] {
      var (w, e) := Step(None, inputs[0]);
      assert w == None;
      if !e.Panic? {
        assert WellFormed(inputs[1..]) && NoWindowCreated(inputs[1..]) by {
          forall i | 0 <= i < |inputs[1..]|
            ensures inputs[1..][i] == inputs[i + 1]
          {
          }
        }
        NothingPresentedWithoutWindow(inputs[1..]);
      }
    }
  }

  /** Once a window exists nothing removes it. */
  lemma {:induction false} WindowPersists(w: Window, inputs: seq<Input>)
    requires WellFormed(inputs)
    ensures Run(Some(w), inputs).0.Some?
    decreases |inputs|
  {
    if inputs != [] {
      var (w', e) := Step(Some(w), inputs[0]);
      assert w'.Some?;
      if !e.Panic? {
        assert WellFormed(inputs[1..]) by {
          forall i | 0 <= i < |inputs[1..]|
            ensures inputs[1..][i] == inputs[i + 1]
          {
          }
        }
        WindowPersists(w'.value, inputs[1..]);
      }
    }
  }
}
