/**
 * save_bmp of OptSensor.py: every uploaded byte holds two 4-bit pixels,
 * which are widened to 8 bits and written as an 8-bit grayscale BMP
 * (top-down, 256 x 288, 256-entry palette).  Only the bytes of the file
 * are modelled; writing it is the caller's business.
 */
module OptBmp {
  import opened Wrappers
  import opened Bytes

  const WIDTH := 256
  const HEIGHT := 288
  const FILE_HEADER_SIZE := 14
  const DIB_HEADER_SIZE := 40
  const PALETTE_SIZE := 1024
  /** Where the pixels start: `54 + 1024`. */
  const PIXEL_OFFSET := 1078

  /** The two pixels of one byte: `byte & 0xF0` and `(byte & 0x0F) << 4`. */
  function Widen(b: int): seq<int>
  {
    [(b / 16) * 16, (b % 16) * 16]
  }

  /** The decoded image the loop builds from the first bytes of `s`. */
  function Nibbles(s: seq<int>): seq<int>
    decreases |s|
  {
    if s == [] then [] else Nibbles(s[..|s| - 1]) + Widen(s[|s| - 1])
  }

  /** Twice as many pixels as bytes; byte i gives pixels 2i (high nibble) and 2i+1 (low nibble), both scaled by 16. */
  lemma {:induction false} NibblesSpec(s: seq<int>)
    ensures |Nibbles(s)| == 2 * |s|
    ensures forall i | 0 <= i < |s| ::
      Nibbles(s)[2 * i] == (s[i] / 16) * 16 && Nibbles(s)[2 * i + 1] == (s[i] % 16) * 16
    decreases |s|
  {
    if s != [] {
      var t := s[..|s| - 1];
      NibblesSpec(t);
      forall i | 0 <= i < |s|
        ensures Nibbles(s)[2 * i] == (s[i] / 16) * 16 && Nibbles(s)[2 * i + 1] == (s[i] % 16) * 16
      {
        if i < |t| {
          assert s[i] == t[i];
        }
      }
    }
  }

  /** Every widened pixel is a byte with its low four bits clear. */
  lemma NibblesAreBytes(s: seq<int>)
    requires IsBytes(s)
    ensures IsBytes(Nibbles(s))
    ensures forall j | 0 <= j < |Nibbles(s)| :: Nibbles(s)[j] % 16 == 0
  {
    NibblesSpec(s);
    forall j | 0 <= j < |Nibbles(s)|
      ensures IsByte(Nibbles(s)[j]) && Nibbles(s)[j] % 16 == 0
    {
      var i := j / 2;
      assert j == 2 * i || j == 2 * i + 1;
    }
  }

  /** The decoding loop of save_bmp. */
  method ExpandNibbles(image: seq<int>) returns (decoded: seq<int>)
    ensures decoded == Nibbles(image)
  {
    decoded := [];
    var i := 0;
    while i < |image|
      invariant 0 <= i <= |image|
      invariant decoded == Nibbles(image[..i])
    {
      assert image[..i + 1][..i] == image[..i];
      decoded := decoded + Widen(image[i]);
      i := i + 1;
    }
    assert image[..i] == image;
  }

  /** `b'BM' + pack('<I', file_size) + 4 zero bytes + pack('<I', 54 + 1024)`. */
  function FileHeader(fileSize: int): (h: seq<int>)
    requires 0 <= fileSize < 0x1_0000_0000
    ensures |h| == FILE_HEADER_SIZE
  {
    [0x42, 0x4D] + U32LE(fileSize) + [0, 0, 0, 0] + U32LE(PIXEL_OFFSET)
  }

  /** The BITMAPINFOHEADER: size 40, width, negative height, 1 plane, 8 bpp, no compression, 256 colours. */
  function DibHeader(imageSize: int): (h: seq<int>)
    requires 0 <= imageSize < 0x1_0000_0000
    ensures |h| == DIB_HEADER_SIZE
  {
    U32LE(40) + I32LE(WIDTH) + I32LE(-HEIGHT) + U16LE(1) + U16LE(8) + U32LE(0)
    + U32LE(imageSize) + I32LE(0) + I32LE(0) + U32LE(256) + U32LE(0)
  }

  /** `pack('BBBB', i, i, i, 0)` for i in 0..255, joined. */
  function Palette(): (p: seq<int>)
    ensures |p| == PALETTE_SIZE
  {
    seq(PALETTE_SIZE, j => if j % 4 == 3 then 0 else j / 4)
  }

  /**
   * The whole file, or None where `struct.pack('<I', ...)` would raise
   * because the size does not fit in 32 bits (save_bmp then reports
   * failure).
   */
  function BmpFile(image: seq<int>): Option<seq<int>>
  {
    var decoded := Nibbles(image);
    var fileSize := PIXEL_OFFSET + |decoded|;
    if fileSize >= 0x1_0000_0000 then None
    else Some(FileHeader(fileSize) + DibHeader(|decoded|) + Palette() + decoded)
  }

  /** Palette entry i is gray level i with a zero reserved byte. */
  lemma PaletteEntries()
    ensures forall i | 0 <= i < 256 :: Palette()[4 * i .. 4 * i + 4] == [i, i, i, 0]
  {
    forall i | 0 <= i < 256
      ensures Palette()[4 * i .. 4 * i + 4] == [i, i, i, 0]
    {
      var p := Palette();
      assert p[4 * i] == i && p[4 * i + 1] == i && p[4 * i + 2] == i && p[4 * i + 3] == 0;
    }
  }

  /**
   * The file layout: the size field equals the file's length, the pixels
   * start at the offset the header names, and the header fields read
   * back as 256 wide, 288 tall stored top-down, 8 bits per pixel, 256
   * colours; the pixels are the widened image.
   */
  lemma BmpLayout(image: seq<int>)
    requires PIXEL_OFFSET + 2 * |image| < 0x1_0000_0000
    ensures BmpFile(image).Some?
    ensures var f := BmpFile(image).value;
      && |f| == PIXEL_OFFSET + 2 * |image|
      && f[0] == 0x42 && f[1] == 0x4D
      && DecodeU32LE(f[2..6]) == |f|
      && DecodeU32LE(f[10..14]) == PIXEL_OFFSET
      && DecodeU32LE(f[14..18]) == DIB_HEADER_SIZE
      && DecodeI32LE(f[18..22]) == WIDTH
      && DecodeI32LE(f[22..26]) == -HEIGHT
      && LE16(f[26], f[27]) == 1
      && LE16(f[28], f[29]) == 8
      && DecodeU32LE(f[34..38]) == 2 * |image|
      && DecodeU32LE(f[46..50]) == 256
      && f[FILE_HEADER_SIZE + DIB_HEADER_SIZE .. PIXEL_OFFSET] == Palette()
      && f[PIXEL_OFFSET..] == Nibbles(image)
  {
    NibblesSpec(image);
    var decoded := Nibbles(image);
    var n := |decoded|;
    var fh := FileHeader(PIXEL_OFFSET + n);
    var dib := DibHeader(n);
    var f := fh + dib + Palette() + decoded;
    assert BmpFile(image) == Some(f);
    FileHeaderFields(PIXEL_OFFSET + n);
    DibHeaderFields(n);
    Pieces(fh, dib, Palette(), decoded);
  }

  /** Where each part of the concatenated file lands. */
  lemma Pieces(fh: seq<int>, dib: seq<int>, pal: seq<int>, d: seq<int>)
    requires |fh| == FILE_HEADER_SIZE && |dib| == DIB_HEADER_SIZE && |pal| == PALETTE_SIZE
    ensures var f := fh + dib + pal + d;
      && |f| == PIXEL_OFFSET + |d|
      && f[0] == fh[0] && f[1] == fh[1]
      && f[2..6] == fh[2..6] && f[10..14] == fh[10..14]
      && f[14..18] == dib[0..4] && f[18..22] == dib[4..8] && f[22..26] == dib[8..12]
      && f[26] == dib[12] && f[27] == dib[13] && f[28] == dib[14] && f[29] == dib[15]
      && f[34..38] == dib[20..24] && f[46..50] == dib[32..36]
      && f[FILE_HEADER_SIZE + DIB_HEADER_SIZE .. PIXEL_OFFSET] == pal
      && f[PIXEL_OFFSET..] == d
  {
    var f := fh + dib + pal + d;
    assert f[..FILE_HEADER_SIZE] == fh;
    assert f[FILE_HEADER_SIZE .. FILE_HEADER_SIZE + DIB_HEADER_SIZE] == dib;
  }

  lemma FileHeaderFields(fileSize: int)
    requires 0 <= fileSize < 0x1_0000_0000
    ensures var h := FileHeader(fileSize);
      && h[0] == 0x42 && h[1] == 0x4D
      && DecodeU32LE(h[2..6]) == fileSize
      && DecodeU32LE(h[10..14]) == PIXEL_OFFSET
  {
    var h := FileHeader(fileSize);
    assert h[2..6] == U32LE(fileSize);
    assert h[10..14] == U32LE(PIXEL_OFFSET);
    U32RoundTrip(fileSize);
    U32RoundTrip(PIXEL_OFFSET);
  }

  lemma DibHeaderFields(imageSize: int)
    requires 0 <= imageSize < 0x1_0000_0000
    ensures var h := DibHeader(imageSize);
      && DecodeU32LE(h[0..4]) == DIB_HEADER_SIZE
      && DecodeI32LE(h[4..8]) == WIDTH
      && DecodeI32LE(h[8..12]) == -HEIGHT
      && LE16(h[12], h[13]) == 1
      && LE16(h[14], h[15]) == 8
      && DecodeU32LE(h[20..24]) == imageSize
      && DecodeU32LE(h[32..36]) == 256
  {
    PackedFields(40, WIDTH, -HEIGHT, 1, 8, 0, imageSize, 0, 0, 256, 0);
  }

  /** Where each field of a BITMAPINFOHEADER lands, for any field values. */
  lemma PackedFields(size: int, width: int, height: int, planes: int, bpp: int, compression: int,
                     imageSize: int, xres: int, yres: int, colours: int, important: int)
    requires 0 <= size < 0x1_0000_0000 && 0 <= compression < 0x1_0000_0000
    requires 0 <= imageSize < 0x1_0000_0000 && 0 <= colours < 0x1_0000_0000
    requires 0 <= important < 0x1_0000_0000
    requires -0x8000_0000 <= width < 0x8000_0000 && -0x8000_0000 <= height < 0x8000_0000
    requires -0x8000_0000 <= xres < 0x8000_0000 && -0x8000_0000 <= yres < 0x8000_0000
    requires 0 <= planes < 65536 && 0 <= bpp < 65536
    ensures var h := U32LE(size) + I32LE(width) + I32LE(height) + U16LE(planes) + U16LE(bpp)
        + U32LE(compression) + U32LE(imageSize) + I32LE(xres) + I32LE(yres) + U32LE(colours)
        + U32LE(important);
      && DecodeU32LE(h[0..4]) == size
      && DecodeI32LE(h[4..8]) == width
      && DecodeI32LE(h[8..12]) == height
      && LE16(h[12], h[13]) == planes
      && LE16(h[14], h[15]) == bpp
      && DecodeU32LE(h[20..24]) == imageSize
      && DecodeU32LE(h[32..36]) == colours
  {
    var p := U32LE(size) + I32LE(width) + I32LE(height) + U16LE(planes) + U16LE(bpp) + U32LE(compression);
    var q := I32LE(xres) + I32LE(yres) + U32LE(colours) + U32LE(important);
    var h := p + U32LE(imageSize) + I32LE(xres) + I32LE(yres) + U32LE(colours) + U32LE(important);
    assert h == p + U32LE(imageSize) + q;
    Middle(p, U32LE(imageSize), q);
    assert h[0..4] == p[0..4] && h[4..8] == p[4..8] && h[8..12] == p[8..12];
    assert h[12] == p[12] && h[13] == p[13] && h[14] == p[14] && h[15] == p[15];
    assert h[32..36] == q[8..12];
    U32RoundTrip(imageSize);
    LeadingFields(size, width, height, planes, bpp, compression);
    TrailingFields(xres, yres, colours, important);
  }

  lemma LeadingFields(size: int, width: int, height: int, planes: int, bpp: int, compression: int)
    requires 0 <= size < 0x1_0000_0000 && 0 <= compression < 0x1_0000_0000
    requires -0x8000_0000 <= width < 0x8000_0000 && -0x8000_0000 <= height < 0x8000_0000
    requires 0 <= planes < 65536 && 0 <= bpp < 65536
    ensures var p := U32LE(size) + I32LE(width) + I32LE(height) + U16LE(planes) + U16LE(bpp) + U32LE(compression);
      && DecodeU32LE(p[0..4]) == size
      && DecodeI32LE(p[4..8]) == width
      && DecodeI32LE(p[8..12]) == height
      && LE16(p[12], p[13]) == planes
      && LE16(p[14], p[15]) == bpp
  {
    var p := U32LE(size) + I32LE(width) + I32LE(height) + U16LE(planes) + U16LE(bpp) + U32LE(compression);
    assert p[0..4] == U32LE(size) && p[4..8] == I32LE(width) && p[8..12] == I32LE(height);
    assert p[12] == U16LE(planes)[0] && p[13] == U16LE(planes)[1];
    assert p[14] == U16LE(bpp)[0] && p[15] == U16LE(bpp)[1];
    U32RoundTrip(size);
    I32RoundTrip(width);
    I32RoundTrip(height);
  }

  lemma TrailingFields(xres: int, yres: int, colours: int, important: int)
    requires 0 <= colours < 0x1_0000_0000 && 0 <= important < 0x1_0000_0000
    requires -0x8000_0000 <= xres < 0x8000_0000 && -0x8000_0000 <= yres < 0x8000_0000
    ensures var q := I32LE(xres) + I32LE(yres) + U32LE(colours) + U32LE(important);
      DecodeU32LE(q[8..12]) == colours
  {
    var q := I32LE(xres) + I32LE(yres) + U32LE(colours) + U32LE(important);
    assert q[8..12] == U32LE(colours);
    U32RoundTrip(colours);
  }
}
