/**
  Value types the graphics bootstrap exchanges with the windowing library
  (winit) and the GPU library (wgpu). Only the parts the bootstrap reads or
  builds are kept; handles to the instance, adapter, device, queue and surface
  are not values of the model.
 */
module Platform {

  /** Rust's `u32`, the component type of `PhysicalSize<u32>`. */
  newtype u32 = x: int | 0 <= x < 0x1_0000_0000

  datatype Option<T> = None | Some(value: T)

  /** The window's size in physical pixels. */
  datatype PhysicalSize = PhysicalSize(width: u32, height: u32)

  /** A size the surface can be configured with: no zero dimension. */
  predicate Positive(s: PhysicalSize) {
    s.width > 0 && s.height > 0
  }

  /**
    A presentable texture format as the surface reports it. The library
    decides per format whether it is gamma-corrected (sRGB); the model keeps
    that answer with the format and otherwise treats formats as opaque codes.
   */
  datatype TextureFormat = TextureFormat(code: nat, srgb: bool) {
    predicate IsSrgb() {
      srgb
    }
  }

  datatype PresentMode = AutoVsync | AutoNoVsync | Fifo | FifoRelaxed | Immediate | Mailbox

  datatype CompositeAlphaMode = Auto | Opaque | PreMultiplied | PostMultiplied | Inherit

  /** The only usage the bootstrap asks of the surface's textures. */
  datatype TextureUsages = RenderAttachment

  /** What the surface supports for one (adapter, surface) pair, in the order reported. */
  datatype SurfaceCapabilities = SurfaceCapabilities(
    formats: seq<TextureFormat>,
    presentModes: seq<PresentMode>,
    alphaModes: seq<CompositeAlphaMode>)

  datatype SurfaceConfiguration = SurfaceConfiguration(
    usage: TextureUsages,
    format: TextureFormat,
    width: u32,
    height: u32,
    presentMode: PresentMode,
    desiredMaximumFrameLatency: nat,
    alphaMode: CompositeAlphaMode,
    viewFormats: seq<TextureFormat>)

  /** The ways acquiring the next frame from the surface can fail. */
  datatype SurfaceError = Timeout | Outdated | Lost | OutOfMemory

  /** `Result<(), SurfaceError>`: the outcome of acquiring (and so of rendering) a frame. */
  datatype RenderResult = Ok | Err(error: SurfaceError)

  /** An RGBA colour; the library uses `f64` components, the model exact decimals. */
  datatype Color = Color(r: real, g: real, b: real, a: real)

  /** A presented frame: one render pass whose only effect is to clear to `clear`. */
  datatype Frame = Frame(clear: Color)

  datatype WindowId = WindowId(raw: nat)

  datatype ElementState = Pressed | Released

  /** Key codes; only Escape matters to the bootstrap, the others are told apart by a code. */
  datatype KeyCode = Escape | OtherKey(code: nat)

  datatype PhysicalKey = Code(keyCode: KeyCode) | Unidentified(native: nat)

  datatype KeyEvent = KeyEvent(physicalKey: PhysicalKey, state: ElementState, repeat: bool)

  /** Window events; those the bootstrap does not match on are folded into `OtherWindowEvent`. */
  datatype WindowEvent =
    | Resized(newSize: PhysicalSize)
    | RedrawRequested
    | CloseRequested
    | KeyboardInput(keyEvent: KeyEvent)
    | OtherWindowEvent(kind: nat)

  /** Events the event loop delivers; other kinds are folded into `OtherEvent`. */
  datatype Event =
    | Resumed
    | WindowEventFor(windowId: WindowId, event: WindowEvent)
    | OtherEvent(kind: nat)
}
