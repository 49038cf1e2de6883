# gfx-toybox: surface bookkeeping and frame loop

A Dafny model of the core of gfx-toybox, a small wgpu/winit bootstrap. The bootstrap opens a
window and negotiates a presentation surface. It then runs a frame loop that clears the
window to one fixed colour on every redraw. The model covers the logic in `src/lib.rs` that
remains once the GPU and windowing calls are treated as opaque:

- **Surface negotiation** (`Negotiation`, pure). The surface format is the first sRGB format
  the surface reports, or the first reported format when none is sRGB. The first
  configuration takes the window's inner size, the first present mode, the first alpha mode
  and a frame latency of 2.
- **The graphics context** (`Context.State`, a class). `State` holds the last accepted
  size, the current configuration, the list of configurations passed to
  `surface.configure` in call order, and the frames presented so far. `Resize` ignores sizes with a zero dimension. `Input` declines
  every event. `Update` does nothing. `Render` presents one frame cleared to
  (0.1, 0.2, 0.3, 1.0), or returns the surface error unchanged. Each method is proved
  against a specification function on the abstract `StateView`.
- **The frame loop** (`FrameLoop.EventLoop`, a class). It keeps the `surface_configured`
  gate. Resizes are forwarded. Once the gate is open, a redraw request runs update and
  render. `ActionFor` picks what to do with each render outcome. The loop asks to exit on a
  close request, a pressed Escape key, or an out-of-memory surface. `HandleEvent` is proved
  against the step function `Step`. `Run` is proved against `RunSpec`. `RunSpec` assumes that
  winit hands the closure no further events once `control_flow.exit()` has been called. The
  closure itself has no such guard.

External interactions become parameters. The window's inner size and the surface
capabilities are constructor arguments. The outcome of acquiring the next surface texture is
an argument of `Render` and `HandleEvent`. Calls to `request_redraw`, `update`, `render` and
`control_flow.exit()` are counted in fields of the loop.

Two facts about the code shape the model:

- `State::new` never calls `surface.configure` (`src/lib.rs:24-87`). The surface is first
  configured by the first `resize` that has a positive size. The model starts with an empty
  list of configure calls.
- Escape exits whatever the modifier keys and whether or not the press is a repeat, because
  the pattern at `src/lib.rs:211-218` ignores both.

## Model

| member | source | states |
|---|---|---|
| `Negotiation.FirstSrgb` | src/lib.rs:63-65 | the index `find` stops at: an sRGB format with no sRGB format before it, or none when no format is sRGB |
| `Negotiation.SelectFormat` | src/lib.rs:61-66 | the chosen format is a reported one; it is sRGB exactly when some reported format is, and then it is the first sRGB one; otherwise it is `formats[0]`; the list must be non-empty |
| `Negotiation.SelectFormatIsFirstSrgb` | src/lib.rs:63-66 | whatever the position k of the first sRGB format, the selection is `formats[k]` |
| `Negotiation.FirstSrgbHeadsSrgbFormats` | src/lib.rs:63-65 | the search finds nothing exactly when the filtered list of sRGB formats is empty, and otherwise it finds that list's head |
| `Negotiation.SelectFormatViaFilter` | src/lib.rs:63-66 | selection equals "head of the sRGB formats, else head of all formats" |
| `Negotiation.InitialConfig` | src/lib.rs:68-77 | the first configuration is supported by the capabilities, is sRGB when any format is, and has the window's size, the first present and alpha modes, latency 2, render-attachment usage and no view formats |
| `Context.InitialView` | src/lib.rs:79-86 | a fresh context is consistent, has a supported configuration, has never configured the surface and has presented nothing |
| `Context.ResizeSpec` | src/lib.rs:93-100 | a positive size becomes the stored size; the new configuration is the old one with only width and height replaced; the surface is configured once with it; a size with a zero dimension changes nothing; consistency is preserved; frames are kept |
| `Context.ResizeRepeated` | src/lib.rs:93-100 | resizing twice to one size leaves the size and configuration of resizing once, and an accepted size configures the surface a second time with the same configuration |
| `Context.ResizeLastWins` | src/lib.rs:93-100 | after an accepted resize, size and configuration are those of that resize alone; the surface was configured for both resizes, in order |
| `Context.ResizeToStoredSize` | src/lib.rs:198-200 | resizing to the stored size keeps size and configuration, and configures the surface again with the current configuration exactly when that size is positive |
| `Context.RenderSpec` | src/lib.rs:108-145 | a successful acquisition presents exactly one frame cleared to (0.1, 0.2, 0.3, 1.0); an error presents nothing; size, configuration and configure calls are untouched |
| `Context.State.constructor` | src/lib.rs:24-87 | the new state is the initial view built from the capabilities and the window's inner size |
| `Context.State.Resize` | src/lib.rs:93-100 | the new state is `ResizeSpec` of the old one, and the invariant is kept |
| `Context.State.Input` | src/lib.rs:102-104 | the hook never claims an event |
| `Context.State.Update` | src/lib.rs:106 | the hook changes nothing |
| `Context.State.Render` | src/lib.rs:108-145 | returns the acquisition outcome, and the new state is `RenderSpec` of the old one |
| `FrameLoop.ActionFor` | src/lib.rs:196-208 | Ok continues, Lost or Outdated reconfigures at the stored size, OutOfMemory exits, Timeout skips the frame; each direction of each case holds, and no other outcome exists |
| `FrameLoop.StepPreservesInv` | src/lib.rs:175-224 | one event keeps the loop invariant: consistent context, with no configure call ever at a zero dimension; updates equal renders and do not exceed redraw requests; at most one frame per render; with the gate closed, no render and no configure call |
| `FrameLoop.RunPreservesInv` | src/lib.rs:175-225 | every run of the loop keeps that invariant |
| `FrameLoop.RunSpecAppend` | src/lib.rs:175-225 | running two stretches of events one after the other is the same as running them joined |
| `FrameLoop.ExitedRunIsInert` | src/lib.rs:201-219 | under the assumption that winit delivers nothing after exit, no later event changes anything once exit has been requested |
| `FrameLoop.RunIsMonotone` | src/lib.rs:173-221 | the gate is never closed again, and the counts of exits, redraw requests, renders and frames never decrease |
| `FrameLoop.StepKeepsNegotiated` | src/lib.rs:68-77 | one event keeps the configuration equal to the negotiated configuration at the stored size |
| `FrameLoop.RunKeepsNegotiated` | src/lib.rs:93-100 | every run keeps the configuration equal to the negotiated one at the stored size, so its format stays the selected one and its frame latency stays 2 |
| `FrameLoop.ResizedOpensGate` | src/lib.rs:184-187 | a resize event opens the gate and forwards its size to `resize` unchanged |
| `FrameLoop.RedrawBeforeConfiguredOnlyRequestsRedraw` | src/lib.rs:188-193 | with the gate closed, a redraw request only requests the next redraw: no update and no render |
| `FrameLoop.RedrawWhenConfigured` | src/lib.rs:188-208 | with the gate open, a redraw request asks for a redraw and runs one update and one render, then: on Ok one frame is presented and nothing is configured; on Lost/Outdated size and configuration stay, and the surface is configured again with the current configuration exactly when the stored size is positive; on OutOfMemory exit is requested once; on Timeout nothing else changes |
| `FrameLoop.OutOfMemoryEndsRun` | src/lib.rs:201-204 | an out-of-memory render requests exit exactly once; that no later event is handled, and so no later render happens, rests on the assumption that winit delivers nothing after exit |
| `FrameLoop.EscapeActsAsClose` | src/lib.rs:210-219 | a pressed Escape has the same effect as a close request, and both request exit |
| `FrameLoop.ForeignEventsIgnored` | src/lib.rs:175-182 | `Resumed`, events for other windows and events of other kinds leave the loop unchanged |
| `FrameLoop.ScenarioResizeRedrawClose` | src/lib.rs:184-219 | resize to 800x600, redraw, close, redraw: the gate opens, the configuration is 800x600, exactly one frame cleared to the fixed colour is presented and exit is requested once; that the last redraw is never handled rests on the assumption that winit delivers nothing after exit |
| `FrameLoop.ScenarioRedrawBeforeResize` | src/lib.rs:188-193 | a redraw before any resize requests a redraw but renders nothing and leaves the context as constructed |
| `FrameLoop.GateOpensOnIgnoredResize` | src/lib.rs:184-196 | a zero-size first resize followed by a redraw renders once on a surface that has never been configured (no configure call) |
| `FrameLoop.CorrectedStepRendersOnConfiguredSurface` | src/lib.rs:184-196 | when the gate opens only on an accepted size, the loop invariant holds, the gate is open exactly when the surface holds a configuration, and every render happens on a configured surface |
| `FrameLoop.EventLoop.constructor` | src/lib.rs:172-173 | the loop starts from the initial context with the gate closed and all counts zero |
| `FrameLoop.EventLoop.HandleEvent` | src/lib.rs:175-224 | handling one event, with the input hook consulted first, is `Step`, and the loop invariant is kept |
| `FrameLoop.EventLoop.Run` | src/lib.rs:175-225 | events are handled in order until exit is requested; the final state is `RunSpec` of all the events and also of the handled prefix; an unhandled remainder means exit was requested |

## Left out

- GPU instance, adapter, device and queue acquisition (`src/lib.rs:27-59`): these are asynchronous calls into wgpu that either succeed or panic. The model starts from their success, with the reported capability lists and window size as constructor arguments.
- `surface.get_capabilities` is a foreign call. Its result is a constructor argument. Whether a format is sRGB is wgpu's per-format table, so each format carries that answer as a flag.
- The command encoder, texture view, render pass and queue submission in `render` (`src/lib.rs:109-142`) are opaque GPU calls. A successful render is modelled as one presented `Frame` carrying its clear colour.
- Context.RenderSpec: the clear colour is an exact decimal, whereas the source uses `f64` values that only approximate 0.1, 0.2 and 0.3.
- Context.State.Resize: the effect of `surface.configure` on the driver is not modelled. Only the configurations passed to it are recorded, in call order.
- The lifetime of the borrowed window and the drop order of surface and window (`src/lib.rs:17-20`) concern Rust ownership, not logic.
- Platform glue is not modelled: the wasm canvas setup (`src/lib.rs:153-170`), window and event-loop creation (`src/lib.rs:150-151`), and the log calls.
- `print_adapters` (`src/lib.rs:228-247`) only enumerates and logs adapters.
- `src/main.rs` is entry-point glue: logger set-up and calls to `print_adapters` and `run`.
- The `window()` accessor (`src/lib.rs:89-91`) is replaced by the window id stored in the loop.
- FrameLoop.EventLoop.Run: the event loop is winit's, not the bootstrap's. It is assumed to hand events to the closure until exit is requested and none afterwards. winit still delivers `Event::LoopExiting` after exit, which the closure ignores. The platform's own event ordering is not modelled.
- Integer widths: every size is a `u32` as in the source, and the source does no arithmetic on sizes. The model's counters are unbounded and exist only in the model.

## Findings

| source | as written | input that shows it | evidently intended | confidence | as-written member | corrected member |
|---|---|---|---|---|---|---|
| src/lib.rs:184-196 | `Resized` sets `surface_configured` before calling `resize`, and `resize` ignores a size with a zero dimension | first event `Resized(0, 0)`, then `RedrawRequested`: `render` runs although `surface.configure` was never called | open the gate only when `resize` accepted the size, so that the gate means the surface is configured | medium; not executed | `FrameLoop.GateOpensOnIgnoredResize` | `FrameLoop.CorrectedStepRendersOnConfiguredSurface` |

`FrameLoop.EventLoop` itself keeps the behaviour as written, because it is the model of the source.
`FrameLoop.CorrectedStep` is the corrected step. It differs only in how `Resized` opens the gate.
