/**
 * Image extraction for the capacitive sensor (CapSensor.py:570-617):
 * `Data_Txt` picks the pixel bytes out of the raw upload with a fixed
 * stride and writes them as "0x%x," tokens, `read_data_txt` scans the
 * text back with the pattern `0x[0-9a-fA-F]+`, and `data_to_image` lays
 * the values out row-major with zero fill.
 */
module CapImage {
  import opened Wrappers
  import opened Bytes

  const WIDTH := 242
  const HEIGHT := 266
  /** The number of bytes one image upload delivers. */
  const UPLOAD_SIZE := 66218
  /** Data_Txt reads raw indices below this bound. */
  const RAW_EXTENT := 66208
  const FIRST_PIXEL := 38
  const BLOCKS := 129
  const BLOCK_ROWS := 8
  const ROW_VALUES := 62
  /** Bytes skipped after each block of 8 rows. */
  const BLOCK_GAP := 14
  const TAIL_ROWS := 6
  const LAST_VALUES := 8
  /** 129 blocks of 496 values, then 6 rows of 62 and 8 more. */
  const PIXEL_COUNT := 64364
  /** The raw offset of the first value after the last block. */
  const TAIL_START := FIRST_PIXEL + BLOCKS * (BLOCK_ROWS * ROW_VALUES + BLOCK_GAP)

  // ---------------------------------------------------------------- text

  predicate IsHexDigit(c: char)
  {
    ('0' <= c <= '9') || ('a' <= c <= 'f') || ('A' <= c <= 'F')
  }

  predicate AllHex(s: string)
  {
    forall i | 0 <= i < |s| :: IsHexDigit(s[i])
  }

  function DigitValue(c: char): int
    requires IsHexDigit(c)
  {
    if '0' <= c <= '9' then c as int - '0' as int
    else if 'a' <= c <= 'f' then c as int - 'a' as int + 10
    else c as int - 'A' as int + 10
  }

  /** The lower-case digit `%x` prints. */
  function HexDigit(d: int): (c: char)
    requires 0 <= d < 16
    ensures IsHexDigit(c) && DigitValue(c) == d
  {
    if d < 10 then ('0' as int + d) as char else ('a' as int + d - 10) as char
  }

  /** `"%x" % v`: lower-case hexadecimal without leading zeros. */
  function Hex(v: nat): string
    decreases v
  {
    if v < 16 then [HexDigit(v)] else Hex(v / 16) + [HexDigit(v % 16)]
  }

  /** `int(s, 16)` of a run of hex digits. */
  function HexValue(s: string): int
    requires AllHex(s)
  {
    if s == [] then 0 else HexValue(s[..|s| - 1]) * 16 + DigitValue(s[|s| - 1])
  }

  /** `"0x%x," % v`, the token Data_Txt writes per value. */
  function Token(v: nat): string
  {
    "0x" + Hex(v) + ","
  }

  function Tokens(vs: seq<nat>): string
  {
    if vs == [] then "" else Token(vs[0]) + Tokens(vs[1..])
  }

  /** The length of the run of hex digits at the start of `s`. */
  function HexRun(s: string): (n: nat)
    ensures n <= |s| && AllHex(s[..n])
  {
    if s == [] || !IsHexDigit(s[0]) then 0
    else
      var n := 1 + HexRun(s[1..]);
      assert s[..n] == [s[0]] + s[1..][..n - 1];
      n
  }

  /**
   * `re.findall(r'0x[0-9a-fA-F]+', s)` followed by `int(m, 16)` on each
   * match: the leftmost "0x" followed by at least one hex digit starts a
   * match, which takes the longest run of hex digits; otherwise the
   * search moves one character on.
   */
  function Scan(s: string): seq<int>
    decreases |s|
  {
    if |s| < 3 then []
    else if s[0] == '0' && s[1] == 'x' && IsHexDigit(s[2]) then
      var n := HexRun(s[2..]);
      assert s[2..][..n] == s[2..2 + n];
      [HexValue(s[2..2 + n])] + Scan(s[2 + n..])
    else Scan(s[1..])
  }

  /** The values read back from a file given as its lines. */
  function ScanAll(lines: seq<string>): seq<int>
  {
    if lines == [] then [] else ScanAll(lines[..|lines| - 1]) + Scan(lines[|lines| - 1])
  }

  /** A non-empty run of whole uploads covers every raw index Data_Txt reads. */
  lemma WholeUploads(n: int)
    requires n > 0 && n % UPLOAD_SIZE == 0
    ensures n >= RAW_EXTENT
  {
  }

  /** One more line adds exactly its own values. */
  lemma ScanAllSnoc(lines: seq<string>, line: string)
    ensures ScanAll(lines + [line]) == ScanAll(lines) + Scan(line)
  {
    assert (lines + [line])[..|lines|] == lines;
  }

  lemma {:induction false} HexRoundTrip(v: nat)
    ensures |Hex(v)| >= 1 && AllHex(Hex(v)) && HexValue(Hex(v)) == v
    decreases v
  {
    if v >= 16 {
      HexRoundTrip(v / 16);
      var h := Hex(v);
      assert h[..|h| - 1] == Hex(v / 16);
    }
  }

  lemma {:induction false} HexRunStops(h: string, rest: string)
    requires AllHex(h) && (rest == [] || !IsHexDigit(rest[0]))
    ensures HexRun(h + rest) == |h|
    decreases |h|
  {
    if h == [] {
      assert h + rest == rest;
    } else {
      assert (h + rest)[1..] == h[1..] + rest;
      HexRunStops(h[1..], rest);
    }
  }

  /** Reading back one written token yields its value and resumes after the comma. */
  lemma ScanToken(v: nat, rest: string)
    ensures Scan(Token(v) + rest) == [v] + Scan(rest)
  {
    var h := Hex(v);
    HexRoundTrip(v);
    assert Token(v) + rest == "0x" + h + ("," + rest);
    ScanHexRun(h, "," + rest);
    ScanSkipsComma(rest);
  }

  /** A `0x` prefix and a run of hex digits ended by a non-digit read back as one value. */
  lemma ScanHexRun(h: string, t: string)
    requires |h| >= 1 && AllHex(h) && (t == [] || !IsHexDigit(t[0]))
    ensures Scan("0x" + h + t) == [HexValue(h)] + Scan(t)
  {
    var s := "0x" + h + t;
    assert s[2..] == h + t;
    HexRunStops(h, t);
    assert s[2..][..|h|] == h && s[2..][|h|..] == t;
    ScanHexStep(s);
  }

  /** Scan on a string that starts with a `0x` token. */
  lemma ScanHexStep(s: string)
    requires |s| >= 3 && s[0] == '0' && s[1] == 'x' && IsHexDigit(s[2])
    ensures var n := HexRun(s[2..]);
      Scan(s) == [HexValue(s[2..][..n])] + Scan(s[2..][n..])
  {
    var n := HexRun(s[2..]);
    assert s[2..][..n] == s[2..2 + n] && s[2..][n..] == s[2 + n..];
  }

  /** A leading comma is skipped. */
  lemma ScanSkipsComma(rest: string)
    ensures Scan("," + rest) == Scan(rest)
  {
    var t := "," + rest;
    if |t| >= 3 {
      assert t[1..] == rest;
    } else {
      assert |rest| < 3;
    }
  }

  /** Format then parse is the identity on any value sequence. */
  lemma {:induction false} ScanTokens(vs: seq<nat>, tail: string)
    ensures Scan(Tokens(vs) + tail) == vs + Scan(tail)
  {
    if vs != [] {
      assert Tokens(vs) + tail == Token(vs[0]) + (Tokens(vs[1..]) + tail);
      ScanToken(vs[0], Tokens(vs[1..]) + tail);
      ScanTokens(vs[1..], tail);
      calc {
        Scan(Tokens(vs) + tail);
        [vs[0] as int] + Scan(Tokens(vs[1..]) + tail);
        [vs[0] as int] + (vs[1..] + Scan(tail));
        { assert vs == [vs[0]] + vs[1..]; }
        vs + Scan(tail);
      }
    } else {
      assert Tokens(vs) + tail == tail;
    }
  }

  lemma {:induction false} TokensAppend(vs: seq<nat>, v: nat)
    ensures Tokens(vs + [v]) == Tokens(vs) + Token(v)
  {
    if vs == [] {
      assert Tokens([v]) == Token(v) + Tokens([]);
    } else {
      assert (vs + [v])[1..] == vs[1..] + [v];
      TokensAppend(vs[1..], v);
    }
  }

  /** A row as Data_Txt writes it (tokens, then a newline) reads back as its values. */
  lemma RowRoundTrip(vs: seq<nat>, newline: bool)
    ensures Scan(Tokens(vs) + (if newline then "\n" else "")) == vs
  {
    ScanTokens(vs, if newline then "\n" else "");
  }

  // ------------------------------------------------------- value layout

  function BlockSize(): nat { BLOCK_ROWS * ROW_VALUES }

  /** The raw offset of block `j`. */
  function BlockStart(j: nat): nat { FIRST_PIXEL + j * (BLOCK_ROWS * ROW_VALUES + BLOCK_GAP) }

  /** The values of the first `j` blocks, in order. */
  function BlockValues(rx: seq<int>, j: nat): (vs: seq<int>)
    requires j <= BLOCKS && |rx| >= RAW_EXTENT
    ensures |vs| == j * BlockSize()
  {
    if j == 0 then [] else BlockValues(rx, j - 1) + rx[BlockStart(j - 1) .. BlockStart(j - 1) + BlockSize()]
  }

  /** Every value Data_Txt writes, in order. */
  function DataTxtValues(rx: seq<int>): seq<int>
    requires |rx| >= RAW_EXTENT
  {
    BlockValues(rx, BLOCKS) + rx[TAIL_START .. RAW_EXTENT]
  }

  /** The raw index of the `n`-th value Data_Txt writes. */
  function RawIndex(n: nat): nat
  {
    if n < BLOCKS * BlockSize() then BlockStart(n / BlockSize()) + n % BlockSize()
    else TAIL_START + (n - BLOCKS * BlockSize())
  }

  lemma {:induction false} BlockValuesAt(rx: seq<int>, j: nat, n: nat)
    requires j <= BLOCKS && |rx| >= RAW_EXTENT && n < j * BlockSize()
    ensures BlockValues(rx, j)[n] == rx[BlockStart(n / BlockSize()) + n % BlockSize()]
  {
    var b := BlockSize();
    if n < (j - 1) * b {
      BlockValuesAt(rx, j - 1, n);
    } else {
      var r := n - (j - 1) * b;
      assert n == (j - 1) * b + r && 0 <= r < b;
      assert n / b == j - 1 && n % b == r;
    }
  }

  /**
   * Data_Txt writes exactly 64364 values, the n-th being the raw byte at
   * RawIndex(n), and every index it reads lies below 66208, inside one
   * 66218-byte upload.
   */
  lemma DataTxtLayout(rx: seq<int>)
    requires |rx| >= RAW_EXTENT
    ensures |DataTxtValues(rx)| == PIXEL_COUNT
    ensures forall n | 0 <= n < PIXEL_COUNT :: RawIndex(n) < RAW_EXTENT <= UPLOAD_SIZE
    ensures forall n | 0 <= n < PIXEL_COUNT :: DataTxtValues(rx)[n] == rx[RawIndex(n)]
  {
    var b := BlockSize();
    forall n | 0 <= n < PIXEL_COUNT
      ensures RawIndex(n) < RAW_EXTENT && DataTxtValues(rx)[n] == rx[RawIndex(n)]
    {
      if n < BLOCKS * b {
        BlockValuesAt(rx, BLOCKS, n);
        assert n / b < BLOCKS;
        assert BlockStart(n / b) <= BlockStart(BLOCKS - 1) by {
          assert (n / b) * (b + BLOCK_GAP) <= (BLOCKS - 1) * (b + BLOCK_GAP);
        }
      }
    }
  }

  // ------------------------------------------------------------ methods

  /**
   * Data_Txt: the lines of the text file, or None where the source
   * raises IndexError because the upload is shorter than 66208 bytes.
   */
  method DataTxt(rx: seq<int>) returns (r: Option<seq<string>>)
    requires IsBytes(rx)
    ensures r.None? <==> |rx| < RAW_EXTENT
    ensures r.Some? ==> |r.value| == BLOCKS * BLOCK_ROWS + TAIL_ROWS + 1
    ensures r.Some? ==> ScanAll(r.value) == DataTxtValues(rx)
  {
    if |rx| < RAW_EXTENT {
      return None;
    }
    var lines := WriteBlocks(rx);
    lines := WriteRows(rx, lines, TAIL_START, TAIL_ROWS);
    var line, row := WriteRow(rx, TAIL_START + TAIL_ROWS * ROW_VALUES, LAST_VALUES);
    LastLine(rx, lines, line, row);
    return Some(lines + [line]);
  }

  /** The 129 blocks of eight rows, each block followed by a gap of 14 skipped bytes. */
  method WriteBlocks(rx: seq<int>) returns (lines: seq<string>)
    requires IsBytes(rx) && |rx| >= RAW_EXTENT
    ensures |lines| == BLOCKS * BLOCK_ROWS
    ensures ScanAll(lines) == BlockValues(rx, BLOCKS)
  {
    lines := [];
    var i := FIRST_PIXEL;
    var j := 0;
    while j < BLOCKS
      invariant 0 <= j <= BLOCKS && i == BlockStart(j)
      invariant |lines| == j * BLOCK_ROWS
      invariant ScanAll(lines) == BlockValues(rx, j)
    {
      lines := WriteRows(rx, lines, i, BLOCK_ROWS);
      assert BlockStart(j + 1) == BlockStart(j) + BlockSize() + BLOCK_GAP;
      i := i + BlockSize() + BLOCK_GAP;
      j := j + 1;
    }
  }

  /** The last line, without a newline, completes the values Data_Txt writes. */
  lemma LastLine(rx: seq<int>, lines: seq<string>, line: string, row: seq<nat>)
    requires |rx| >= RAW_EXTENT
    requires ScanAll(lines) == BlockValues(rx, BLOCKS) + rx[TAIL_START .. TAIL_START + TAIL_ROWS * ROW_VALUES]
    requires row == rx[TAIL_START + TAIL_ROWS * ROW_VALUES .. RAW_EXTENT] && line == Tokens(row)
    ensures ScanAll(lines + [line]) == DataTxtValues(rx)
  {
    RowRoundTrip(row, false);
    assert line + "" == line;
    ScanAllSnoc(lines, line);
    var mid := TAIL_START + TAIL_ROWS * ROW_VALUES;
    assert rx[TAIL_START .. RAW_EXTENT] == rx[TAIL_START .. mid] + rx[mid .. RAW_EXTENT];
  }

  /** `count` consecutive rows of 62 tokens, each closed by a newline, from index `i` on. */
  method WriteRows(rx: seq<int>, lines: seq<string>, i: nat, count: nat) returns (out: seq<string>)
    requires IsBytes(rx) && i + count * ROW_VALUES <= |rx|
    ensures |out| == |lines| + count
    ensures ScanAll(out) == ScanAll(lines) + rx[i .. i + count * ROW_VALUES]
  {
    out := lines;
    var o := 0;
    var k := i;
    while o < count
      invariant 0 <= o <= count && k == i + o * ROW_VALUES
      invariant |out| == |lines| + o
      invariant ScanAll(out) == ScanAll(lines) + rx[i .. k]
    {
      assert k + ROW_VALUES <= i + count * ROW_VALUES by {
        assert (o + 1) * ROW_VALUES <= count * ROW_VALUES;
      }
      assert rx[i .. k + ROW_VALUES] == rx[i .. k] + rx[k .. k + ROW_VALUES];
      var line, row := WriteRow(rx, k, ROW_VALUES);
      RowRoundTrip(row, true);
      ScanAllSnoc(out, line + "\n");
      out := out + [line + "\n"];
      k := k + ROW_VALUES;
      o := o + 1;
    }
  }

  /** One `for p in range(count)` run of Data_Txt: `count` tokens from index `i` on. */
  method WriteRow(rx: seq<int>, i: nat, count: nat) returns (line: string, ghost row: seq<nat>)
    requires IsBytes(rx) && i + count <= |rx|
    ensures row == rx[i .. i + count] && line == Tokens(row)
  {
    line := "";
    row := [];
    var p := 0;
    while p < count
      invariant 0 <= p <= count
      invariant row == rx[i .. i + p] && line == Tokens(row)
    {
      TokensAppend(row, rx[i + p]);
      line := line + Token(rx[i + p]);
      row := row + [rx[i + p]];
      p := p + 1;
    }
  }

  /** read_data_txt: every hex token of every line, in order. */
  method ReadDataTxt(lines: seq<string>) returns (pixels: seq<int>)
    ensures pixels == ScanAll(lines)
  {
    pixels := [];
    var k := 0;
    while k < |lines|
      invariant 0 <= k <= |lines|
      invariant pixels == ScanAll(lines[..k])
    {
      assert lines[..k + 1][..k] == lines[..k];
      pixels := pixels + Scan(lines[k]);
      k := k + 1;
    }
    assert lines[..|lines|] == lines;
  }

  /** The value data_to_image gives pixel (x, y): the next unread value, or 0 past the end. */
  function Pixel(data: seq<int>, width: nat, x: nat, y: nat): int
  {
    if y * width + x < |data| then data[y * width + x] else 0
  }

  /** data_to_image: fill a width-by-height raster row by row from `data`. */
  method DataToImage(data: seq<int>, width: nat, height: nat) returns (img: array2<int>)
    ensures fresh(img) && img.Length0 == width && img.Length1 == height
    ensures forall x, y | 0 <= x < width && 0 <= y < height :: img[x, y] == Pixel(data, width, x, y)
  {
    img := new int[width, height];
    var index := 0;
    var y := 0;
    while y < height
      invariant 0 <= y <= height
      invariant index == if y * width < |data| then y * width else |data|
      invariant forall xx, yy | 0 <= xx < width && 0 <= yy < y :: img[xx, yy] == Pixel(data, width, xx, yy)
    {
      var x := 0;
      while x < width
        invariant 0 <= x <= width
        invariant index == if y * width + x < |data| then y * width + x else |data|
        invariant forall xx, yy | 0 <= xx < width && 0 <= yy < y :: img[xx, yy] == Pixel(data, width, xx, yy)
        invariant forall xx | 0 <= xx < x :: img[xx, y] == Pixel(data, width, xx, y)
      {
        if index < |data| {
          img[x, y] := data[index];
          index := index + 1;
        } else {
          img[x, y] := 0;
        }
        x := x + 1;
      }
      assert (y + 1) * width == y * width + width;
      y := y + 1;
    }
  }

  /**
   * With the 64364 values Data_Txt writes, the 242-by-266 raster holds
   * value n at (n mod 242, n div 242) and zero in the last 8 pixels.
   */
  lemma RasterLayout(data: seq<int>)
    requires |data| == PIXEL_COUNT
    ensures forall n | 0 <= n < PIXEL_COUNT :: Pixel(data, WIDTH, n % WIDTH, n / WIDTH) == data[n]
    ensures forall x, y | WIDTH - LAST_VALUES <= x < WIDTH && y == HEIGHT - 1 :: Pixel(data, WIDTH, x, y) == 0
    ensures WIDTH * HEIGHT == PIXEL_COUNT + LAST_VALUES
  {
    forall n | 0 <= n < PIXEL_COUNT ensures Pixel(data, WIDTH, n % WIDTH, n / WIDTH) == data[n] {
      assert (n / WIDTH) * WIDTH + n % WIDTH == n;
    }
  }
}
