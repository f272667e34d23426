/** The frame arithmetic of a redraw (src/main.rs:57-76): the guard on the
    window's size, the length of the resized surface and the centre of the
    marker circle. */
module Geometry {
  import opened Panics

  /** Rust's `u32`, the type of the window's inner width and height. */
  newtype u32 = x: int | 0 <= x < 0x1_0000_0000

  /** `NonZeroU32::new`: no value for zero. */
  function NonZero(n: u32): (r: Option<u32>)
    ensures r.Some? <==> n != 0
    ensures r.Some? ==> r.value == n
  {
    if n == 0 then None else Some(n)
  }

  /** The surface resize of src/main.rs:62-67. The width is unwrapped first,
      then the height; on success the surface holds one word per pixel. */
  function SurfaceLength(width: u32, height: u32): (r: Result<nat>)
    ensures r.Ok? <==> width != 0 && height != 0
    ensures width == 0 ==> r == Err(ZeroWidth)
    ensures width != 0 && height == 0 ==> r == Err(ZeroHeight)
    ensures r.Ok? ==> r.value == width as int * height as int
    ensures r.Ok? ==> width as int <= r.value && height as int <= r.value
  {
    match NonZero(width)
    case None => Err(ZeroWidth)
    case Some(w) =>
      match NonZero(height)
      case None => Err(ZeroHeight)
      case Some(h) => Ok(w as int * h as int)
  }

  /** The circle centre of src/main.rs:72-73, halved in `u32` (rounding down)
      before the conversion to floating point. */
  function Centre(width: u32, height: u32): (c: (u32, u32))
    ensures 2 * c.0 as int <= width as int <= 2 * c.0 as int + 1
    ensures 2 * c.1 as int <= height as int <= 2 * c.1 as int + 1
    ensures width != 0 ==> c.0 < width
    ensures height != 0 ==> c.1 < height
  {
    (width / 2, height / 2)
  }

  /** The centres of a 1920×1080 screen and of a 5×3 window. */
  lemma CentreExamples()
    ensures Centre(1920, 1080) == (960, 540)
    ensures Centre(5, 3) == (2, 1)
  {
  }

  /** A colour as the paint receives it: red, green, blue, alpha. */
  datatype Rgba = Rgba(r: bv8, g: bv8, b: bv8, a: bv8)

  /** What the rasteriser is asked to draw: a circle of the given centre and
      radius, filled with one paint and outlined with another. */
  datatype Marker = Marker(centre: (u32, u32), radius: nat, fill: Rgba, stroke: Rgba, strokeWidth: nat)

  /** The marker of src/main.rs:71-92 for a window of the given size. */
  function MarkerFor(width: u32, height: u32): (m: Marker)
    ensures m.centre == Centre(width, height)
    ensures m.radius == 2 && m.strokeWidth == 1
    ensures m.fill == Rgba(255, 255, 255, 128)
    ensures m.stroke == Rgba(0, 0, 0, 128)
  {
    Marker(Centre(width, height), 2, Rgba(255, 255, 255, 128), Rgba(0, 0, 0, 128), 1)
  }
}
