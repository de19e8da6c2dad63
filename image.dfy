/** Image (source/image.h): decoded floating-point pixels converted to an
    8-bit buffer of width * height * 3 bytes, and the clamped lookup of one
    pixel in that buffer. The stb_image decoder is an input: a call either
    fails or hands over the floats with the width and height. */
module Images {
  import G = Global
  import I = Intervals
  import opened Wrappers

  type Byte = b: int | 0 <= b < 256

  /** bytes_per_pixel; the decoder is asked for three channels. */
  const BytesPerPixel: int := 3

  /** The largest byte count stb_image hands out: it refuses images whose
      buffer size does not fit in an int. */
  const MaxBytes: int := 0x7fff_ffff

  // ------------------------------------------------------------ FloattoByte

  /** FloattoByte: 0 at or below 0, 255 at or above 1, in between the
      truncation of 256 * value. */
  function FloatToByte(value: real): Byte {
    if value <= 0.0 then 0
    else if value >= 1.0 then 255
    else
      G.TruncBounds(256.0 * value);
      G.Trunc(256.0 * value)
  }

  /** Inside (0, 1) the byte is the index of the 1/256-wide bucket holding
      the value. */
  lemma FloatToByteBucket(value: real)
    requires 0.0 < value < 1.0
    ensures FloatToByte(value) as real <= 256.0 * value < FloatToByte(value) as real + 1.0
  {
    G.TruncBounds(256.0 * value);
  }

  /** A larger value never converts to a smaller byte. */
  lemma FloatToByteMonotone(a: real, b: real)
    requires a <= b
    ensures FloatToByte(a) <= FloatToByte(b)
  {
    if 0.0 < a && b < 1.0 {
      G.TruncMonotone(256.0 * a, 256.0 * b);
    } else if 0.0 < a < 1.0 {
      FloatToByteBucket(a);
    } else if 0.0 < b < 1.0 {
      G.TruncBounds(256.0 * b);
    }
  }

  /** The buffer Load fills: one byte per decoded float, in order. */
  function ToBytes(data: seq<real>): (bytes: seq<Byte>)
    ensures |bytes| == |data|
    ensures forall k :: 0 <= k < |data| ==> bytes[k] == FloatToByte(data[k])
  {
    seq(|data|, k requires 0 <= k < |data| => FloatToByte(data[k]))
  }

  // ------------------------------------------------------------ the buffer

  /** width * height * bytes_per_pixel. */
  function BufferSize(width: int, height: int): int {
    width * height * BytesPerPixel
  }

  /** What a successful stbi_loadf call returns: the floats and the size. */
  datatype Decoded = Decoded(pixels: seq<real>, width: int, height: int)

  predicate DecodedOk(d: Decoded) {
    d.width >= 1 && d.height >= 1 && BufferSize(d.width, d.height) <= MaxBytes
    && |d.pixels| == BufferSize(d.width, d.height)
  }

  /** The members of an Image as its const methods see them: whether f_data
      is set, the b_data buffer (None for nullptr), image_width,
      image_height and bytes_per_scanline. */
  datatype ImageState = ImageState(floats: bool, bytes: Option<seq<Byte>>, width: int, height: int, scanline: int)

  /** What Load establishes: f_data is only ever set together with b_data,
      and b_data holds width * height pixels of bytes_per_scanline bytes a
      row. A failed Load after a successful one clears f_data but keeps the
      buffer and the sizes. */
  predicate StateOk(s: ImageState) {
    (s.floats ==> s.bytes.Some?)
    && (s.bytes.Some? ==>
          s.width >= 1 && s.height >= 1 && s.scanline == s.width * BytesPerPixel
          && |s.bytes.value| == BufferSize(s.width, s.height))
  }

  /** Width(): 0 when f_data is null. */
  function Width(s: ImageState): int {
    if s.floats then s.width else 0
  }

  /** Height(): 0 when f_data is null. */
  function Height(s: ImageState): int {
    if s.floats then s.height else 0
  }

  /** The image reports a size only while its floats are loaded. */
  lemma SizeNeedsData(s: ImageState)
    requires StateOk(s)
    ensures !s.floats ==> Width(s) == 0 && Height(s) == 0
    ensures s.floats ==> Width(s) >= 1 && Height(s) >= 1
  {
  }

  // ------------------------------------------------------------ PixelData

  /** Interval(0, n - 1).Clamp(x), converted back to an int. */
  function ClampIndex(x: int, n: int): (r: int)
    ensures n >= 1 ==> 0 <= r < n
    ensures n >= 1 && 0 <= x < n ==> r == x
    ensures n >= 1 && x < 0 ==> r == 0
    ensures n >= 1 && x >= n ==> r == n - 1
  {
    if n >= 1 then
      I.ClampRealProperties(0.0, (n - 1) as real, x as real, x as real);
      G.Trunc(I.ClampReal(0.0, (n - 1) as real, x as real))
    else
      G.Trunc(I.ClampReal(0.0, (n - 1) as real, x as real))
  }

  /** The pointer PixelData returns: the static magenta triple, or an
      offset into b_data. */
  datatype PixelRef = Magenta | At(offset: int)

  /** PixelData(x, y): magenta without a buffer; otherwise x and y are
      clamped to the image and the offset is scanline * y + 3 * x. */
  function PixelData(s: ImageState, x: int, y: int): (r: PixelRef)
    requires StateOk(s)
    ensures r.Magenta? <==> s.bytes.None?
    ensures r.At? ==> 0 <= r.offset && r.offset + BytesPerPixel <= |s.bytes.value|
  {
    if s.bytes.None? then Magenta
    else
      var cx := ClampIndex(x, s.width);
      var cy := ClampIndex(y, s.height);
      OffsetInBuffer(s.width, s.height, s.scanline, cx, cy);
      At(s.scanline * cy + BytesPerPixel * cx)
  }

  /** The three bytes the returned pointer addresses. */
  function Pixel(s: ImageState, x: int, y: int): (c: seq<Byte>)
    requires StateOk(s)
    ensures |c| == 3
  {
    match PixelData(s, x, y)
    case Magenta => [255, 0, 255]
    case At(o) => s.bytes.value[o..o + BytesPerPixel]
  }

  /** A clamped pixel's three bytes lie inside the buffer. */
  lemma OffsetInBuffer(width: int, height: int, scanline: int, x: int, y: int)
    requires 0 <= x < width && 0 <= y < height && scanline == width * BytesPerPixel
    ensures 0 <= scanline * y + BytesPerPixel * x
    ensures scanline * y + BytesPerPixel * x + BytesPerPixel <= BufferSize(width, height)
  {
    assert scanline * y >= 0;
    assert scanline * (height - 1 - y) >= 0;
    assert BufferSize(width, height) == scanline * height;
  }

  /** Inside the image, pixel (x, y) starts at 3 (y * width + x), and two
      different pixels never share a byte. */
  lemma PixelsApart(s: ImageState, x1: int, y1: int, x2: int, y2: int)
    requires StateOk(s) && s.bytes.Some?
    requires 0 <= x1 < s.width && 0 <= y1 < s.height && 0 <= x2 < s.width && 0 <= y2 < s.height
    requires (x1, y1) != (x2, y2)
    ensures PixelData(s, x1, y1) == At(BytesPerPixel * (y1 * s.width + x1))
    ensures PixelData(s, x1, y1).offset + BytesPerPixel <= PixelData(s, x2, y2).offset
         || PixelData(s, x2, y2).offset + BytesPerPixel <= PixelData(s, x1, y1).offset
  {
    var o1 := PixelAt(s, x1, y1);
    var o2 := PixelAt(s, x2, y2);
    RowMajor(s.width, s.scanline, x1, y1);
    if y1 < y2 {
      RowsApart(s.width, s.scanline, x1, y1, x2, y2);
    } else if y2 < y1 {
      RowsApart(s.width, s.scanline, x2, y2, x1, y1);
    }
  }

  /** Inside the image the clamps are the identity. */
  lemma PixelAt(s: ImageState, x: int, y: int) returns (offset: int)
    requires StateOk(s) && s.bytes.Some?
    requires 0 <= x < s.width && 0 <= y < s.height
    ensures offset == s.scanline * y + BytesPerPixel * x
    ensures PixelData(s, x, y) == At(offset)
  {
    offset := s.scanline * y + BytesPerPixel * x;
  }

  /** scanline * y + 3 x is 3 (y * width + x). */
  lemma RowMajor(width: int, scanline: int, x: int, y: int)
    requires scanline == width * BytesPerPixel
    ensures scanline * y + BytesPerPixel * x == BytesPerPixel * (y * width + x)
  {
  }

  /** A pixel of an earlier row ends before any pixel of a later row. */
  lemma RowsApart(width: int, scanline: int, x1: int, y1: int, x2: int, y2: int)
    requires 0 <= x1 < width && 0 <= x2 && scanline == width * BytesPerPixel && y1 < y2
    ensures scanline * y1 + BytesPerPixel * x1 + BytesPerPixel <= scanline * y2 + BytesPerPixel * x2
  {
    assert scanline * (y2 - y1 - 1) >= 0;
    assert scanline * y2 - scanline * y1 == scanline * (y2 - y1 - 1) + scanline;
  }

  /** The conversion loop of Load, over `total` (a uint32) bytes. */
  method Convert(pixels: seq<real>, total: int) returns (b: array<Byte>)
    requires total == |pixels|
    ensures fresh(b) && b[..] == ToBytes(pixels)
  {
    b := new Byte[total];
    for i := 0 to total
      invariant forall k :: 0 <= k < i ==> b[k] == FloatToByte(pixels[k])
    {
      b[i] := FloatToByte(pixels[i]);
    }
  }

  // ------------------------------------------------------------ the class

  class Image {
    var fData: Option<seq<real>>
    var bData: array?<Byte>
    var width: int
    var height: int
    var scanline: int

    function State(): ImageState
      reads this, bData
    {
      ImageState(fData.Some?, if bData == null then None else Some(bData[..]), width, height, scanline)
    }

    ghost predicate Valid()
      reads this, bData
    {
      StateOk(State())
    }

    /** Image(): no data, every size 0. */
    constructor ()
      ensures Valid() && State() == ImageState(false, None, 0, 0, 0)
    {
      fData := None;
      bData := null;
      width, height, scanline := 0, 0, 0;
    }

    /** Load: `decoded` is the result of stbi_loadf (None for nullptr). A
        failure clears f_data and leaves the rest; a success stores the
        floats and the size and converts every float to its byte in a fresh
        buffer. */
    method Load(decoded: Option<Decoded>) returns (ok: bool)
      requires Valid()
      requires decoded.Some? ==> DecodedOk(decoded.value)
      modifies this
      ensures Valid()
      ensures ok <==> decoded.Some?
      ensures !ok ==> fData == None && bData == old(bData)
                      && width == old(width) && height == old(height) && scanline == old(scanline)
      ensures ok ==> fData == Some(decoded.value.pixels)
                     && width == decoded.value.width && height == decoded.value.height
                     && scanline == width * BytesPerPixel
                     && bData != null && fresh(bData) && bData[..] == ToBytes(decoded.value.pixels)
    {
      if decoded.None? {
        fData := None;
        assert State().bytes == old(State().bytes);
        return false;
      }
      var d := decoded.value;
      fData := Some(d.pixels);
      width, height := d.width, d.height;
      scanline := width * BytesPerPixel;
      var total := BufferSize(width, height) % 0x1_0000_0000;
      assert total == |d.pixels|;
      bData := Convert(d.pixels, total);
      ok := true;
    }
  }
}
