/** Textures (include/texture.h, texture.h): a solid colour, a 3D checker
    that picks one of two child textures by the parity of the truncated
    scaled coordinates, and an image lookup. Both copies have the same
    SolidColour and CheckerTexture; ImageTexture is in the newer copy only.
    NoiseTexture is not part of this model. */
module Textures {
  import V = Vectors
  import G = Global
  import I = Intervals
  import Im = Images

  /** Texture and its subclasses; the shared pointers to the checker's
      children become the children themselves, the Image the state its
      const methods read. */
  datatype Texture =
    | Solid(albedo: V.Vector3)
    | Checker(scaleInv: real, even: Texture, odd: Texture)
    | Picture(image: Im.ImageState)

  /** Every image reachable from the texture is in a state Load can leave. */
  predicate TextureOk(t: Texture) {
    match t
    case Solid(_) => true
    case Checker(_, e, o) => TextureOk(e) && TextureOk(o)
    case Picture(img) => Im.StateOk(img)
  }

  /** CheckerTexture(scale, even, odd): scale_inv = 1.0 / scale. A zero
      scale would make scale_inv infinite and the int conversions in Value
      undefined. */
  function MakeChecker(scale: real, even: Texture, odd: Texture): (t: Texture)
    requires scale != 0.0
    ensures t.Checker? && t.scaleInv * scale == 1.0 && t.even == even && t.odd == odd
  {
    Checker(1.0 / scale, even, odd)
  }

  /** CheckerTexture(scale, even_colour, odd_colour): two solid children. */
  function MakeColourChecker(scale: real, even: V.Vector3, odd: V.Vector3): (t: Texture)
    requires scale != 0.0
    ensures t.Checker? && t.scaleInv * scale == 1.0 && t.even == Solid(even) && t.odd == Solid(odd)
  {
    MakeChecker(scale, Solid(even), Solid(odd))
  }

  /** x_int + y_int + z_int: the truncated scaled coordinates summed. */
  function CellSum(scaleInv: real, p: V.Vector3): int {
    G.Trunc(p.x * scaleInv) + G.Trunc(p.y * scaleInv) + G.Trunc(p.z * scaleInv)
  }

  /** (x_int + y_int + z_int) % 2 == 0 with the C++ remainder. */
  predicate IsEven(scaleInv: real, p: V.Vector3) {
    G.CRem(CellSum(scaleInv, p), 2) == 0
  }

  /** Value(u, v, p). */
  function Value(t: Texture, u: real, v: real, p: V.Vector3): V.Vector3
    requires TextureOk(t)
    decreases t
  {
    match t
    case Solid(a) => a
    case Checker(s, e, o) => if IsEven(s, p) then Value(e, u, v, p) else Value(o, u, v, p)
    case Picture(img) => ImageValue(img, u, v)
  }

  /** The pixel ImageTexture::Value reads: u clamped to [0, 1], v flipped
      to 1 - clamp(v), both scaled to the last index and truncated. */
  function Lookup(img: Im.ImageState, u: real, v: real): (ij: (int, int))
    requires Im.StateOk(img) && Im.Height(img) > 0
    ensures 0 <= ij.0 < Im.Width(img) && 0 <= ij.1 < Im.Height(img)
  {
    var cu := I.ClampReal(0.0, 1.0, u);
    var cv := 1.0 - I.ClampReal(0.0, 1.0, v);
    I.ClampRealProperties(0.0, 1.0, u, u);
    I.ClampRealProperties(0.0, 1.0, v, v);
    (ScaledIndex(cu, Im.Width(img)), ScaledIndex(cv, Im.Height(img)))
  }

  /** ImageTexture::Value: cyan without data, else the pixel's bytes / 255. */
  function ImageValue(img: Im.ImageState, u: real, v: real): V.Vector3
    requires Im.StateOk(img)
  {
    if Im.Height(img) <= 0 then V.Vector3(0.0, 1.0, 1.0)
    else
      var ij := Lookup(img, u, v);
      var c := Im.Pixel(img, ij.0, ij.1);
      V.Vector3(c[0] as real * (1.0 / 255.0), c[1] as real * (1.0 / 255.0), c[2] as real * (1.0 / 255.0))
  }

  /** static_cast<int>(f * (n - 1)): a fraction in [0, 1] of the last
      index truncates to an index, 0 for f = 0 and n - 1 for f = 1. */
  function ScaledIndex(f: real, n: int): (r: int)
    requires 0.0 <= f <= 1.0 && n >= 1
    ensures 0 <= r < n
    ensures f == 0.0 ==> r == 0
    ensures f == 1.0 ==> r == n - 1
  {
    var m := (n - 1) as real;
    NonnegProduct(1.0 - f, m);
    NonnegProduct(f, m);
    assert (1.0 - f) * m == m - f * m;
    G.TruncBounds(f * m);
    G.Trunc(f * m)
  }

  lemma NonnegProduct(a: real, b: real)
    requires a >= 0.0 && b >= 0.0
    ensures a * b >= 0.0
  {
  }

  // ------------------------------------------------------------ properties

  /** SolidColour::Value ignores u, v and p. */
  lemma SolidIgnoresInputs(a: V.Vector3, u1: real, v1: real, p1: V.Vector3, u2: real, v2: real, p2: V.Vector3)
    ensures Value(Solid(a), u1, v1, p1) == Value(Solid(a), u2, v2, p2) == a
  {
  }

  /** The checker returns its even child's value exactly when the sum of the
      truncated scaled coordinates is even, negative sums included, and
      otherwise its odd child's, unchanged. */
  lemma CheckerParity(s: real, e: Texture, o: Texture, u: real, v: real, p: V.Vector3)
    requires TextureOk(e) && TextureOk(o)
    ensures Value(Checker(s, e, o), u, v, p) == if CellSum(s, p) % 2 == 0 then Value(e, u, v, p) else Value(o, u, v, p)
  {
    G.CRemParity(CellSum(s, p));
  }

  /** With data, each component of an image texture is the byte of the
      looked-up pixel divided by 255, so it lies in [0, 1]. */
  lemma ImageValueIsPixel(img: Im.ImageState, u: real, v: real)
    requires Im.StateOk(img) && Im.Height(img) > 0
    ensures var ij := Lookup(img, u, v);
      var c := Im.Pixel(img, ij.0, ij.1);
      var r := ImageValue(img, u, v);
      r.x * 255.0 == c[0] as real && r.y * 255.0 == c[1] as real && r.z * 255.0 == c[2] as real
    ensures InUnitCube(ImageValue(img, u, v))
  {
    var ij := Lookup(img, u, v);
    var c := Im.Pixel(img, ij.0, ij.1);
    ByteOver255(c[0]);
    ByteOver255(c[1]);
    ByteOver255(c[2]);
  }

  predicate InUnitCube(c: V.Vector3) {
    0.0 <= c.x <= 1.0 && 0.0 <= c.y <= 1.0 && 0.0 <= c.z <= 1.0
  }

  lemma ByteOver255(b: Im.Byte)
    ensures b as real * (1.0 / 255.0) * 255.0 == b as real
    ensures 0.0 <= b as real * (1.0 / 255.0) <= 1.0
  {
  }

  /** Without data the image texture is cyan. */
  lemma ImageWithoutData(img: Im.ImageState, u: real, v: real)
    requires Im.StateOk(img) && !img.floats
    ensures ImageValue(img, u, v) == V.Vector3(0.0, 1.0, 1.0)
  {
  }

  /** The texture coordinates map to the image's corners: u = 0 reads the
      first column and u = 1 the last; v = 1 reads the first row and v = 0
      the last, since rows are stored top down. */
  lemma LookupCorners(img: Im.ImageState, u: real, v: real)
    requires Im.StateOk(img) && Im.Height(img) > 0
    ensures u <= 0.0 ==> Lookup(img, u, v).0 == 0
    ensures u >= 1.0 ==> Lookup(img, u, v).0 == Im.Width(img) - 1
    ensures v >= 1.0 ==> Lookup(img, u, v).1 == 0
    ensures v <= 0.0 ==> Lookup(img, u, v).1 == Im.Height(img) - 1
  {
    I.ClampRealProperties(0.0, 1.0, u, u);
    I.ClampRealProperties(0.0, 1.0, v, v);
  }

  /** Every colour a texture built from solid colours in the unit cube and
      from images returns lies in the unit cube. */
  lemma {:induction false} ValueInUnitCube(t: Texture, u: real, v: real, p: V.Vector3)
    requires TextureOk(t) && SolidsInUnitCube(t)
    ensures InUnitCube(Value(t, u, v, p))
    decreases t
  {
    match t
    case Solid(_) =>
    case Checker(_, e, o) =>
      ValueInUnitCube(e, u, v, p);
      ValueInUnitCube(o, u, v, p);
    case Picture(img) =>
      if Im.Height(img) > 0 {
        ImageValueIsPixel(img, u, v);
      }
  }

  predicate SolidsInUnitCube(t: Texture) {
    match t
    case Solid(a) => InUnitCube(a)
    case Checker(_, e, o) => SolidsInUnitCube(e) && SolidsInUnitCube(o)
    case Picture(_) => true
  }
}
