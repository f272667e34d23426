# dot — a verified model of the crosshair overlay

The overlay is a single transparent, borderless, always-on-top, click-through
window that shows a small circle in the middle of the screen. This project
models the logic the program owns itself, all of it in `src/main.rs`:

- **Presenter** (`presenter.dfy`): the loop that turns the rasteriser's RGBA8
  pixmap into the presentation buffer's packed `0x00RRGGBB` words, in place in
  an `array<bv32>`, against the specification function `Converted`.
- **Geometry** (`geometry.dfy`): the size guard of a redraw
  (`NonZeroU32::new(..).unwrap()` on width, then height), the length of the
  resized surface, the marker circle's centre halved in `u32`, and the marker's
  fixed radius and paints.
- **Controller** (`controller.dfy`): the `App` state (`window: Option<Window>`,
  `None` by default), `resumed`, and `window_event`'s dispatch of
  `CloseRequested`, `Focused` and `RedrawRequested`. Every unwrap the model
  reaches (the icon, window creation, the window itself and the two
  `NonZeroU32` guards) ends in a `Panic` effect when it fails. A trace function `Run` replays callbacks in
  order, stopping at the first panic.
- **Panics** (`panics.dfy`): the faults and the `Option`/`Result` types.

The pixmap bytes, the window's inner size and the platform's answers during
`resumed` are inputs of the model (`Env`, `Platform`); the rasteriser, the
window system and the presentation surface are not modelled.

`Focused(_)` requests a redraw whether focus was gained or lost. A resize
event is not handled by the program; it falls into the ignored `Other` case.

## Model

| member | source | states |
|---|---|---|
| `Presenter.Pack` | src/main.rs:96-98 | the packed word is below 2^24 (top byte zero) and holds red in bits 16-23, green in bits 8-15 and blue in bits 0-7 |
| `Presenter.Unpack` | src/main.rs:96-98 | splitting a word with a zero top byte into its three channels and packing them again gives the word back |
| `Presenter.Converted` | src/main.rs:95-99 | the buffer has one word per four pixmap bytes, and word `i` packs bytes `4i` (red), `4i+1` (green) and `4i+2` (blue) |
| `Presenter.ConvertedIgnoresOnlyAlpha` | src/main.rs:96-98 | two pixmaps give the same buffer if and only if they agree on every byte that is not an alpha byte (`k % 4 != 3`) |
| `Presenter.SameColourConverted` | src/main.rs:96-98 | pixmaps that differ only in alpha bytes give identical buffers |
| `Presenter.ConvertedSameColour` | src/main.rs:96-98 | identical buffers come only from pixmaps with identical red, green and blue bytes |
| `Presenter.ColourChangeShows` | src/main.rs:96-98 | changing any red, green or blue byte `k` of a pixmap changes word `k / 4` of its buffer |
| `Presenter.ConvertInto` | src/main.rs:94-99 | with a pixmap of `4*w*h` bytes and a buffer of `w*h` words every read and write is in bounds, and afterwards the whole buffer equals `Converted(pixmap)` whatever it held before, every word below 2^24 |
| `Geometry.NonZero` | src/main.rs:64-65 | `NonZeroU32::new` yields a value exactly for non-zero input, and that value is the input |
| `Geometry.SurfaceLength` | src/main.rs:62-67 | the two `NonZeroU32` guards before the resize pass exactly when width and height are non-zero, a zero width fails first, then a zero height; on success the surface holds `width*height` words |
| `Geometry.Centre` | src/main.rs:71-75 | the centre is the floor of half the width and half the height, and lies inside a non-empty window |
| `Geometry.CentreExamples` | src/main.rs:71-75 | 1920×1080 gives (960, 540) and 5×3 gives (2, 1) |
| `Geometry.MarkerFor` | src/main.rs:71-92 | the marker is centred at `Centre(width, height)` with radius 2, a white fill of alpha 128 `(255, 255, 255, 128)`, a black stroke of alpha 128 `(0, 0, 0, 128)` and stroke width 1 |
| `Controller.CreateWindow` | src/main.rs:25-34 | a window exists exactly when the icon decodes and the window is created (icon failure reported first); it carries the overlay attributes and is click-through exactly when disabling the hit-test succeeded |
| `Controller.Redraw` | src/main.rs:51-102 | a frame is presented exactly when there is a window and both dimensions are non-zero; otherwise the missing window, then a zero width, then a zero height aborts; a presented frame has `width*height` words, word `i` packing pixmap bytes `4i..4i+2`, and its marker is `MarkerFor(width, height)`, centred at `Centre(width, height)` |
| `Controller.Dispatch` | src/main.rs:44-104 | exit happens exactly on `CloseRequested`; a redraw request exactly on `Focused` with a window; a frame only on `RedrawRequested`; nothing exactly on every other event; an abort exactly when focus or redraw finds no window or a redraw finds a zero dimension; a redraw request has exactly the effect `Redraw` specifies |
| `Controller.App.constructor` | src/main.rs:8-11 | a new `App` has no window |
| `Controller.App.Resumed` | src/main.rs:25-36 | on success the window becomes `Some` of the created window and nothing else happens; on a failed unwrap the window is unchanged and the process aborts with that fault |
| `Controller.App.WindowEvent` | src/main.rs:38-105 | the effect of the in-place handler (with the conversion loop writing a fresh buffer) is the one `Dispatch` specifies; the method cannot change the `App` |
| `Controller.Step` | src/main.rs:25-104 | a window event leaves the window unchanged and has the effect `Dispatch` gives; a successful `resumed` stores the created window with no other effect; a failed one leaves the window unchanged and aborts with its fault |
| `Controller.Run` | src/main.rs:24-105 | an empty trace leaves the window as it was and has no effects; there are at most as many effects as callbacks; a panic can only be the last effect, and the trace ends early only at a panic, since a failed unwrap aborts the process |
| `Controller.RunInOrder` | src/main.rs:24-105 | callbacks are handled one at a time and in order, and the window is threaded through them: effect `k` of a run is what callback `k` does to the window left by callbacks `0..k`, and the window after callbacks `0..k+1` is the one callback `k` leaves, so a window created by `resumed` is the one later focus and redraw handlers unwrap |
| `Controller.NothingPresentedWithoutWindow` | src/main.rs:8-52 | in any trace with no successful `resumed`, starting from the default `App`, the window stays `None` and no frame is ever presented |
| `Controller.WindowPersists` | src/main.rs:25-104 | once a window exists, no sequence of callbacks removes it |

## Left out

- Icon decoding (`load_icon`) is a call into an image library; the model keeps only whether it succeeds.
- Window creation, its attributes' effect on screen and the cursor hit-test call are window-system calls; the model records the attributes requested and whether each call succeeds.
- Circle rasterisation (`Pixmap::fill`, `PathBuilder::from_circle`, `fill_path`, `stroke_path`) is an anti-aliased floating-point renderer; the pixmap bytes are an input of any content and of length `4*width*height`. The unwraps of `Pixmap::new` and `from_circle` are taken to succeed for non-zero sizes.
- The presentation context and surface (`Context::new`, `Surface::new`, `resize`, `buffer_mut`, `present`) are graphics I/O; their failures other than the zero-size guard are not modelled, and only the buffer's length after the resize is.
- `Pixmap::new` can also fail for sizes the rasteriser considers too large; that limit is inside the rasteriser library and is not modelled.
- The conversion of the centre coordinates to `f32` is not modelled; the model keeps the `u32` halves.
- `Presenter.ConvertInto` and `Geometry.SurfaceLength` compute `width * height` as an unbounded integer. The loop bound at src/main.rs:95 is a `u32` product, which overflows for 2^32 pixels or more (65536×65536 gives 0). A release build then loops over the wrapped count, zero times in that example, and the buffer keeps its old contents; a debug build panics. Neither outcome is modelled.
- The event loop (`main`, `ControlFlow::Wait`, `run_app`) is OS event delivery; `Controller.Run` only replays a given sequence of callbacks, and does not stop the trace at `Exit` since ending the loop is the event loop's business.
