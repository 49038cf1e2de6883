/**
  The graphics context (`State`): the window size it last accepted, the
  surface configuration built from it, and the operations `resize`, `input`,
  `update` and `render`.
 */
module Context {
  import opened Platform
  import opened Negotiation

  /** The colour every frame is cleared to. */
  const ClearColor := Color(0.1, 0.2, 0.3, 1.0)

  /**
    The abstract state of the context: the last accepted size, the current
    configuration, every configuration handed to `surface.configure` in call
    order (empty while the surface has never been configured) and the frames
    presented so far.
   */
  datatype StateView = StateView(
    size: PhysicalSize,
    config: SurfaceConfiguration,
    configures: seq<SurfaceConfiguration>,
    frames: seq<Frame>)

  /** The configuration the surface holds now, if it was ever configured. */
  function Applied(v: StateView): (a: Option<SurfaceConfiguration>)
    ensures a.None? <==> v.configures == []
    ensures a.Some? ==> a.value in v.configures
  {
    if v.configures == [] then None else Some(v.configures[|v.configures| - 1])
  }

  /**
    The context's invariant: the configuration's dimensions are the stored
    size, the surface was never given a configuration with a zero dimension,
    and the one it holds now is the current one.
   */
  ghost predicate Consistent(v: StateView) {
    v.config.width == v.size.width && v.config.height == v.size.height &&
    (forall c :: c in v.configures ==> c.width > 0 && c.height > 0) &&
    (Applied(v).Some? ==> Applied(v).value == v.config && Positive(v.size))
  }

  /** The state right after `State::new`: the surface never configured, nothing presented. */
  ghost function InitialView(caps: SurfaceCapabilities, windowSize: PhysicalSize): (v: StateView)
    requires |caps.formats| > 0 && |caps.presentModes| > 0 && |caps.alphaModes| > 0
    ensures Consistent(v)
    ensures Supported(caps, v.config)
    ensures v.configures == [] && v.frames == []
  {
    StateView(windowSize, InitialConfig(caps, windowSize), [], [])
  }

  /**
    `resize`: a size with both dimensions positive becomes the stored size
    and the configuration's size (every other field of the configuration is
    kept), and the surface is configured once with the new configuration;
    any other size changes nothing.
   */
  ghost function ResizeSpec(v: StateView, newSize: PhysicalSize): (w: StateView)
    ensures Consistent(v) ==> Consistent(w)
    ensures Positive(newSize) ==>
      w.size == newSize &&
      w.config == v.config.(width := newSize.width, height := newSize.height) &&
      w.configures == v.configures + [w.config] && Applied(w) == Some(w.config)
    ensures !Positive(newSize) ==> w == v
    ensures w.frames == v.frames
  {
    if Positive(newSize) then
      var c := v.config.(width := newSize.width, height := newSize.height);
      v.(size := newSize, config := c, configures := v.configures + [c])
    else
      v
  }

  /**
    Resizing twice to one size leaves the size and configuration of resizing
    once; the surface is configured a second time with the same configuration.
   */
  lemma ResizeRepeated(v: StateView, s: PhysicalSize)
    ensures ResizeSpec(ResizeSpec(v, s), s).size == ResizeSpec(v, s).size
    ensures ResizeSpec(ResizeSpec(v, s), s).config == ResizeSpec(v, s).config
    ensures ResizeSpec(ResizeSpec(v, s), s).configures ==
      if Positive(s) then ResizeSpec(v, s).configures + [ResizeSpec(v, s).config] else v.configures
  {
  }

  /**
    Of two accepted resizes, the later one alone decides size and
    configuration; the surface was configured for both, in order.
   */
  lemma ResizeLastWins(v: StateView, s: PhysicalSize, t: PhysicalSize)
    requires Positive(t)
    ensures ResizeSpec(ResizeSpec(v, s), t).size == ResizeSpec(v, t).size
    ensures ResizeSpec(ResizeSpec(v, s), t).config == ResizeSpec(v, t).config
    ensures ResizeSpec(ResizeSpec(v, s), t).configures ==
      ResizeSpec(v, s).configures + [ResizeSpec(v, t).config]
  {
  }

  /**
    Resizing to the stored size (what a lost or outdated surface triggers)
    keeps size and configuration, and configures the surface again with the
    current configuration exactly when the stored size is positive.
   */
  lemma ResizeToStoredSize(v: StateView)
    requires Consistent(v)
    ensures ResizeSpec(v, v.size).size == v.size
    ensures ResizeSpec(v, v.size).config == v.config
    ensures ResizeSpec(v, v.size).configures ==
      v.configures + (if Positive(v.size) then [v.config] else [])
  {
  }

  /**
    `render`: the result is the outcome of acquiring the frame; only a
    successful acquisition records, submits and presents a frame cleared to
    `ClearColor`.
   */
  ghost function RenderSpec(v: StateView, acquired: RenderResult): (w: StateView)
    ensures acquired.Ok? ==> w.frames == v.frames + [Frame(ClearColor)]
    ensures acquired.Err? ==> w.frames == v.frames
    ensures w.size == v.size && w.config == v.config && w.configures == v.configures
  {
    if acquired.Ok? then v.(frames := v.frames + [Frame(ClearColor)]) else v
  }

  class State {
    var size: PhysicalSize
    var config: SurfaceConfiguration
    var configures: seq<SurfaceConfiguration>
    var frames: seq<Frame>

    ghost function View(): StateView
      reads this
    {
      StateView(size, config, configures, frames)
    }

    ghost predicate Valid()
      reads this
    {
      Consistent(View())
    }

    /**
      `State::new` once the GPU objects exist: the capability lists and the
      window's inner size are what the platform reported.
     */
    constructor (caps: SurfaceCapabilities, windowSize: PhysicalSize)
      requires |caps.formats| > 0 && |caps.presentModes| > 0 && |caps.alphaModes| > 0
      ensures Valid()
      ensures View() == InitialView(caps, windowSize)
    {
      size := windowSize;
      config := InitialConfig(caps, windowSize);
      configures := [];
      frames := [];
    }

    method Resize(newSize: PhysicalSize)
      requires Valid()
      modifies this
      ensures Valid()
      ensures View() == ResizeSpec(old(View()), newSize)
    {
      if newSize.width > 0 && newSize.height > 0 {
        size := newSize;
        config := config.(width := newSize.width);
        config := config.(height := newSize.height);
        configures := configures + [config];
      }
    }

    /** The input hook: it claims no event. */
    method Input(event: WindowEvent) returns (handled: bool)
      ensures !handled
    {
      handled := false;
    }

    /** The per-frame update hook: it does nothing. */
    method Update()
      requires Valid()
      ensures Valid() && View() == old(View())
    {
    }

    /** `acquired` is what the surface answers when asked for its next texture. */
    method Render(acquired: RenderResult) returns (r: RenderResult)
      requires Valid()
      modifies this
      ensures Valid()
      ensures r == acquired
      ensures View() == RenderSpec(old(View()), acquired)
    {
      if acquired.Err? {
        return acquired;
      }
      frames := frames + [Frame(ClearColor)];
      r := Ok;
    }
  }
}
