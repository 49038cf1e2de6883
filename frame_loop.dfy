/**
  The frame loop driver: the closure `run` hands to the event loop. It keeps
  the `surface_configured` gate, forwards resizes, renders on redraw requests
  once the gate is open, dispatches on the render outcome and asks the event
  loop to exit on a close request, a pressed Escape key or an out-of-memory
  surface.
 */
module FrameLoop {
  import opened Platform
  import opened Negotiation
  import opened Context

  /** What the loop does after a render, decided by the render's outcome alone. */
  datatype Action =
    | Continue                 // the frame was presented
    | ReconfigureAtStoredSize  // the surface was lost or outdated: resize to the stored size
    | ExitLoop                 // out of memory: ask the event loop to exit
    | SkipFrame                // timeout: log a warning and carry on

  function ActionFor(r: RenderResult): (a: Action)
    ensures a == Continue <==> r == Ok
    ensures a == ReconfigureAtStoredSize <==> r == Err(Lost) || r == Err(Outdated)
    ensures a == ExitLoop <==> r == Err(OutOfMemory)
    ensures a == SkipFrame <==> r == Err(Timeout)
  {
    match r
    case Ok => Continue
    case Err(e) =>
      match e
      case Lost => ReconfigureAtStoredSize
      case Outdated => ReconfigureAtStoredSize
      case OutOfMemory => ExitLoop
      case Timeout => SkipFrame
  }

  /** A key event that ends the loop: Escape, pressed; modifiers and repeats do not matter. */
  predicate IsExitKey(k: KeyEvent) {
    k.state == Pressed && k.physicalKey == Code(Escape)
  }

  /**
    The observable state of the loop: the context, the gate, how often exit
    and a redraw were requested, and how often `update` and `render` ran.
   */
  datatype LoopView = LoopView(
    state: StateView,
    configured: bool,
    exitRequests: nat,
    redrawRequests: nat,
    updates: nat,
    renders: nat)

  ghost predicate Exited(v: LoopView) {
    v.exitRequests > 0
  }

  /** The loop right after `State::new`, with the gate closed. */
  ghost function InitialLoop(caps: SurfaceCapabilities, windowSize: PhysicalSize): LoopView
    requires |caps.formats| > 0 && |caps.presentModes| > 0 && |caps.alphaModes| > 0
  {
    LoopView(InitialView(caps, windowSize), false, 0, 0, 0, 0)
  }

  /**
    What the loop keeps true: the context is consistent, `update` and
    `render` run in pairs and only on redraw requests, at most one frame is
    presented per render, and while the gate is closed nothing was rendered
    and the surface was never configured.
   */
  ghost predicate Inv(v: LoopView) {
    Consistent(v.state) &&
    v.updates == v.renders && v.renders <= v.redrawRequests &&
    |v.state.frames| <= v.renders &&
    (!v.configured ==> v.renders == 0 && v.state.configures == [])
  }

  ghost function RequestExit(v: LoopView): LoopView {
    v.(exitRequests := v.exitRequests + 1)
  }

  ghost function Perform(v: LoopView, a: Action): LoopView {
    match a
    case Continue => v
    case ReconfigureAtStoredSize => v.(state := ResizeSpec(v.state, v.state.size))
    case ExitLoop => RequestExit(v)
    case SkipFrame => v
  }

  /**
    One window event addressed to the bootstrap's window, after the input
    hook has declined it; `acquired` is what the surface answers if a frame
    is rendered.
   */
  ghost function OnWindowEvent(v: LoopView, e: WindowEvent, acquired: RenderResult): LoopView {
    match e
    case Resized(s) => v.(configured := true, state := ResizeSpec(v.state, s))
    case RedrawRequested =>
      var asked := v.(redrawRequests := v.redrawRequests + 1);
      if !asked.configured then asked
      else
        var rendered := asked.(updates := asked.updates + 1, renders := asked.renders + 1,
                               state := RenderSpec(asked.state, acquired));
        Perform(rendered, ActionFor(acquired))
    case CloseRequested => RequestExit(v)
    case KeyboardInput(k) => if IsExitKey(k) then RequestExit(v) else v
    case OtherWindowEvent(_) => v
  }

  /** One event: only window events for the bootstrap's own window have an effect. */
  ghost function Step(v: LoopView, id: WindowId, event: Event, acquired: RenderResult): LoopView {
    match event
    case WindowEventFor(wid, e) => if wid == id then OnWindowEvent(v, e, acquired) else v
    case Resumed => v
    case OtherEvent(_) => v
  }

  /**
    A run of the event loop over the deliveries it would make: each event
    with the answer the surface gives if that event renders. Once exit has
    been requested the event loop delivers nothing more.
   */
  ghost function RunSpec(v: LoopView, id: WindowId, ds: seq<(Event, RenderResult)>): LoopView
    decreases |ds|
  {
    if |ds| == 0 || Exited(v) then v
    else RunSpec(Step(v, id, ds[0].0, ds[0].1), id, ds[1..])
  }

  lemma StepPreservesInv(v: LoopView, id: WindowId, event: Event, acquired: RenderResult)
    requires Inv(v)
    ensures Inv(Step(v, id, event, acquired))
  {
  }

  lemma {:induction false} RunPreservesInv(v: LoopView, id: WindowId, ds: seq<(Event, RenderResult)>)
    requires Inv(v)
    ensures Inv(RunSpec(v, id, ds))
    decreases |ds|
  {
    if |ds| > 0 && !Exited(v) {
      StepPreservesInv(v, id, ds[0].0, ds[0].1);
      RunPreservesInv(Step(v, id, ds[0].0, ds[0].1), id, ds[1..]);
    }
  }

  /** Running two stretches of deliveries is running their concatenation. */
  lemma {:induction false} RunSpecAppend(v: LoopView, id: WindowId, ds: seq<(Event, RenderResult)>,
                                          es: seq<(Event, RenderResult)>)
    ensures RunSpec(v, id, ds + es) == RunSpec(RunSpec(v, id, ds), id, es)
    decreases |ds|
  {
    if |ds| == 0 {
      assert ds + es == es;
    } else if !Exited(v) {
      assert (ds + es)[1..] == ds[1..] + es;
      RunSpecAppend(Step(v, id, ds[0].0, ds[0].1), id, ds[1..], es);
    }
  }

  /** Once exit has been requested, further deliveries change nothing. */
  lemma ExitedRunIsInert(v: LoopView, id: WindowId, ds: seq<(Event, RenderResult)>)
    requires Exited(v)
    ensures RunSpec(v, id, ds) == v
  {
  }

  /** Nothing closes the gate again, and no count ever goes down. */
  lemma {:induction false} RunIsMonotone(v: LoopView, id: WindowId, ds: seq<(Event, RenderResult)>)
    ensures v.configured ==> RunSpec(v, id, ds).configured
    ensures RunSpec(v, id, ds).exitRequests >= v.exitRequests
    ensures RunSpec(v, id, ds).redrawRequests >= v.redrawRequests
    ensures RunSpec(v, id, ds).renders >= v.renders
    ensures |RunSpec(v, id, ds).state.frames| >= |v.state.frames|
    decreases |ds|
  {
    if |ds| > 0 && !Exited(v) {
      RunIsMonotone(Step(v, id, ds[0].0, ds[0].1), id, ds[1..]);
    }
  }

  /**
    The configuration stays the negotiated one (format, modes, latency 2,
    render-attachment usage) at whatever size is stored.
   */
  ghost predicate KeepsNegotiated(caps: SurfaceCapabilities, v: LoopView)
    requires |caps.formats| > 0 && |caps.presentModes| > 0 && |caps.alphaModes| > 0
  {
    v.state.config == InitialConfig(caps, v.state.size)
  }

  lemma StepKeepsNegotiated(caps: SurfaceCapabilities, v: LoopView, id: WindowId, event: Event,
                            acquired: RenderResult)
    requires |caps.formats| > 0 && |caps.presentModes| > 0 && |caps.alphaModes| > 0
    requires KeepsNegotiated(caps, v)
    ensures KeepsNegotiated(caps, Step(v, id, event, acquired))
  {
  }

  lemma {:induction false} RunKeepsNegotiated(caps: SurfaceCapabilities, v: LoopView, id: WindowId,
                                              ds: seq<(Event, RenderResult)>)
    requires |caps.formats| > 0 && |caps.presentModes| > 0 && |caps.alphaModes| > 0
    requires KeepsNegotiated(caps, v)
    ensures KeepsNegotiated(caps, RunSpec(v, id, ds))
    ensures RunSpec(v, id, ds).state.config.desiredMaximumFrameLatency == 2
    ensures RunSpec(v, id, ds).state.config.format == SelectFormat(caps.formats)
    decreases |ds|
  {
    if |ds| > 0 && !Exited(v) {
      StepKeepsNegotiated(caps, v, id, ds[0].0, ds[0].1);
      RunKeepsNegotiated(caps, Step(v, id, ds[0].0, ds[0].1), id, ds[1..]);
    }
  }

  /** A resize opens the gate and is forwarded to `resize` as it is. */
  lemma ResizedOpensGate(v: LoopView, id: WindowId, s: PhysicalSize, acquired: RenderResult)
    ensures Step(v, id, WindowEventFor(id, Resized(s)), acquired) ==
      v.(configured := true, state := ResizeSpec(v.state, s))
  {
  }

  /** A redraw request always asks for the next redraw; with the gate closed it does nothing else. */
  lemma RedrawBeforeConfiguredOnlyRequestsRedraw(v: LoopView, id: WindowId, acquired: RenderResult)
    requires !v.configured
    ensures Step(v, id, WindowEventFor(id, RedrawRequested), acquired) ==
      v.(redrawRequests := v.redrawRequests + 1)
  {
  }

  /**
    With the gate open, a redraw request asks for the next redraw, updates
    and renders once, and then acts on the outcome.
   */
  lemma RedrawWhenConfigured(v: LoopView, id: WindowId, acquired: RenderResult)
    requires Inv(v) && v.configured
    ensures var w := Step(v, id, WindowEventFor(id, RedrawRequested), acquired);
      w.redrawRequests == v.redrawRequests + 1 &&
      w.updates == v.updates + 1 && w.renders == v.renders + 1 && w.configured &&
      (acquired == Ok ==>
         w.state.frames == v.state.frames + [Frame(ClearColor)] &&
         w.state.size == v.state.size && w.state.config == v.state.config &&
         w.state.configures == v.state.configures && w.exitRequests == v.exitRequests) &&
      (acquired == Err(Lost) || acquired == Err(Outdated) ==>
         w.state.frames == v.state.frames &&
         w.state.size == v.state.size && w.state.config == v.state.config &&
         w.state.configures == v.state.configures + (if Positive(v.state.size) then [v.state.config] else []) &&
         w.exitRequests == v.exitRequests) &&
      (acquired == Err(OutOfMemory) ==>
         w.state == v.state && w.exitRequests == v.exitRequests + 1) &&
      (acquired == Err(Timeout) ==>
         w.state == v.state && w.exitRequests == v.exitRequests)
  {
    ResizeToStoredSize(v.state);
  }

  /** An out-of-memory render requests exit once, and nothing is delivered afterwards. */
  lemma OutOfMemoryEndsRun(v: LoopView, id: WindowId, ds: seq<(Event, RenderResult)>)
    requires Inv(v) && v.configured && !Exited(v)
    requires |ds| > 0 && ds[0] == (WindowEventFor(id, RedrawRequested), Err(OutOfMemory))
    ensures RunSpec(v, id, ds) == Step(v, id, ds[0].0, ds[0].1)
    ensures RunSpec(v, id, ds).exitRequests == 1
    ensures RunSpec(v, id, ds).renders == v.renders + 1
  {
    var w := Step(v, id, ds[0].0, ds[0].1);
    assert Exited(w);
    ExitedRunIsInert(w, id, ds[1..]);
  }

  /** A pressed Escape key ends the loop exactly as a close request does. */
  lemma EscapeActsAsClose(v: LoopView, id: WindowId, k: KeyEvent, acquired: RenderResult)
    requires IsExitKey(k)
    ensures Step(v, id, WindowEventFor(id, KeyboardInput(k)), acquired) ==
      Step(v, id, WindowEventFor(id, CloseRequested), acquired)
    ensures Exited(Step(v, id, WindowEventFor(id, CloseRequested), acquired))
  {
  }

  /** Events for other windows, `Resumed` and all other kinds leave the loop as it is. */
  lemma ForeignEventsIgnored(v: LoopView, id: WindowId, event: Event, acquired: RenderResult)
    requires !event.WindowEventFor? || event.windowId != id
    ensures Step(v, id, event, acquired) == v
  {
  }

  /**
    Resize to 800x600, redraw, close, redraw: the gate opens, one frame
    cleared to `ClearColor` is presented, and the last redraw is never
    delivered.
   */
  lemma ScenarioResizeRedrawClose(caps: SurfaceCapabilities, windowSize: PhysicalSize, id: WindowId)
    requires |caps.formats| > 0 && |caps.presentModes| > 0 && |caps.alphaModes| > 0
    ensures var w := RunSpec(InitialLoop(caps, windowSize), id,
                             [(WindowEventFor(id, Resized(PhysicalSize(800, 600))), Ok),
                              (WindowEventFor(id, RedrawRequested), Ok),
                              (WindowEventFor(id, CloseRequested), Ok),
                              (WindowEventFor(id, RedrawRequested), Ok)]);
      w.configured && w.state.config.width == 800 && w.state.config.height == 600 &&
      w.renders == 1 && w.redrawRequests == 1 && w.state.frames == [Frame(ClearColor)] &&
      w.exitRequests == 1
  {
    var ds := [(WindowEventFor(id, Resized(PhysicalSize(800, 600))), Ok),
               (WindowEventFor(id, RedrawRequested), Ok),
               (WindowEventFor(id, CloseRequested), Ok),
               (WindowEventFor(id, RedrawRequested), Ok)];
    var v0 := InitialLoop(caps, windowSize);
    var v1 := Step(v0, id, ds[0].0, Ok);
    var v2 := Step(v1, id, ds[1].0, Ok);
    var v3 := Step(v2, id, ds[2].0, Ok);
    assert RunSpec(v0, id, ds) == RunSpec(v1, id, ds[1..]);
    assert RunSpec(v1, id, ds[1..]) == RunSpec(v2, id, ds[2..]);
    assert RunSpec(v2, id, ds[2..]) == RunSpec(v3, id, ds[3..]);
    assert Exited(v3);
  }

  /** A redraw request before any resize renders nothing but still asks for the next redraw. */
  lemma ScenarioRedrawBeforeResize(caps: SurfaceCapabilities, windowSize: PhysicalSize, id: WindowId,
                                   acquired: RenderResult)
    requires |caps.formats| > 0 && |caps.presentModes| > 0 && |caps.alphaModes| > 0
    ensures var w := RunSpec(InitialLoop(caps, windowSize), id,
                             [(WindowEventFor(id, RedrawRequested), acquired)]);
      !w.configured && w.renders == 0 && w.updates == 0 && w.redrawRequests == 1 &&
      w.state == InitialView(caps, windowSize)
  {
  }

  /**
    The gate opens on any resize, including one `resize` ignores: a zero-size
    first resize followed by a redraw renders although the surface has never
    been configured.
   */
  lemma GateOpensOnIgnoredResize(caps: SurfaceCapabilities, windowSize: PhysicalSize, id: WindowId)
    requires |caps.formats| > 0 && |caps.presentModes| > 0 && |caps.alphaModes| > 0
    ensures var w := RunSpec(InitialLoop(caps, windowSize), id,
                             [(WindowEventFor(id, Resized(PhysicalSize(0, 0))), Ok),
                              (WindowEventFor(id, RedrawRequested), Ok)]);
      w.renders == 1 && w.state.configures == []
  {
    var ds := [(WindowEventFor(id, Resized(PhysicalSize(0, 0))), Ok),
               (WindowEventFor(id, RedrawRequested), Ok)];
    var v0 := InitialLoop(caps, windowSize);
    var v1 := Step(v0, id, ds[0].0, Ok);
    var v2 := Step(v1, id, ds[1].0, Ok);
    assert RunSpec(v0, id, ds) == RunSpec(v1, id, ds[1..]);
    assert RunSpec(v1, id, ds[1..]) == RunSpec(v2, id, ds[2..]);
  }

  /**
    The gate as evidently meant: it opens only when `resize` accepted the
    size, so that it records that the surface has been configured.
   */
  ghost function CorrectedStep(v: LoopView, id: WindowId, event: Event, acquired: RenderResult): LoopView {
    if event.WindowEventFor? && event.windowId == id && event.event.Resized? then
      v.(configured := v.configured || Positive(event.event.newSize),
         state := ResizeSpec(v.state, event.event.newSize))
    else
      Step(v, id, event, acquired)
  }

  ghost predicate GateTracksSurface(v: LoopView) {
    v.configured <==> v.state.configures != []
  }

  /**
    With the corrected gate, the gate is open exactly when the surface holds
    a configuration, so every render happens on a configured surface.
   */
  lemma CorrectedStepRendersOnConfiguredSurface(v: LoopView, id: WindowId, event: Event,
                                                acquired: RenderResult)
    requires Inv(v) && GateTracksSurface(v)
    ensures Inv(CorrectedStep(v, id, event, acquired))
    ensures GateTracksSurface(CorrectedStep(v, id, event, acquired))
    ensures CorrectedStep(v, id, event, acquired).renders > v.renders ==> v.state.configures != []
  {
  }

  class EventLoop {
    const windowId: WindowId
    const state: State
    var configured: bool
    var exitRequests: nat
    var redrawRequests: nat
    var updates: nat
    var renders: nat

    ghost function View(): LoopView
      reads this, state
    {
      LoopView(state.View(), configured, exitRequests, redrawRequests, updates, renders)
    }

    ghost predicate Valid()
      reads this, state
    {
      Inv(View())
    }

    /** `State::new` for the window `windowId`, then the gate starts closed. */
    constructor (windowId: WindowId, caps: SurfaceCapabilities, windowSize: PhysicalSize)
      requires |caps.formats| > 0 && |caps.presentModes| > 0 && |caps.alphaModes| > 0
      ensures Valid() && fresh(state)
      ensures this.windowId == windowId
      ensures View() == InitialLoop(caps, windowSize)
    {
      this.windowId := windowId;
      state := new State(caps, windowSize);
      configured := false;
      exitRequests := 0;
      redrawRequests := 0;
      updates := 0;
      renders := 0;
    }

    /** The closure given to the event loop, for one event. */
    method HandleEvent(event: Event, acquired: RenderResult)
      requires Valid()
      modifies this, state
      ensures Valid()
      ensures View() == Step(old(View()), windowId, event, acquired)
    {
      match event
      case WindowEventFor(id, e) =>
        if id == windowId {
          var handled := state.Input(e);
          if !handled {
            match e
            case Resized(s) =>
              configured := true;
              state.Resize(s);
            case RedrawRequested =>
              redrawRequests := redrawRequests + 1;
              if !configured {
                return;
              }
              state.Update();
              updates := updates + 1;
              var r := state.Render(acquired);
              renders := renders + 1;
              match ActionFor(r) {
                case Continue =>
                case ReconfigureAtStoredSize =>
                  state.Resize(state.size);
                case ExitLoop =>
                  exitRequests := exitRequests + 1;
                case SkipFrame =>
              }
            case CloseRequested =>
              exitRequests := exitRequests + 1;
            case KeyboardInput(k) =>
              if IsExitKey(k) {
                exitRequests := exitRequests + 1;
              }
            case OtherWindowEvent(_) =>
          }
        }
      case Resumed =>
      case OtherEvent(_) =>
    }

    /**
      The event loop: it hands each delivery to `HandleEvent` until exit is
      requested. `processed` is how many deliveries were handled.
     */
    method Run(ds: seq<(Event, RenderResult)>) returns (processed: nat)
      requires Valid()
      modifies this, state
      ensures Valid()
      ensures processed <= |ds|
      ensures View() == RunSpec(old(View()), windowId, ds[..processed])
      ensures View() == RunSpec(old(View()), windowId, ds)
      ensures processed < |ds| ==> Exited(View())
    {
      processed := 0;
      while processed < |ds| && exitRequests == 0
        invariant processed <= |ds|
        invariant Valid()
        invariant View() == RunSpec(old(View()), windowId, ds[..processed])
        decreases |ds| - processed
      {
        ghost var before := View();
        HandleEvent(ds[processed].0, ds[processed].1);
        RunSpecAppend(old(View()), windowId, ds[..processed], [ds[processed]]);
        assert ds[..processed + 1] == ds[..processed] + [ds[processed]];
        assert RunSpec(before, windowId, [ds[processed]]) == View();
        processed := processed + 1;
      }
      RunSpecAppend(old(View()), windowId, ds[..processed], ds[processed..]);
      assert ds == ds[..processed] + ds[processed..];
    }
  }
}
