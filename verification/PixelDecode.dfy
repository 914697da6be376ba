/** From a compositor's strided buffer to a tightly packed picture, and the bytes its digest is computed from. */
module PixelDecode {
  import opened Arithmetic
  import opened Protocol

  type Byte = x: int | 0 <= x < 256

  /** Formats as wl_shm numbers them. */
  const ARGB8888 := 0
  const XRGB8888 := 1
  const DRM_ARGB8888 := 0x3432_5241
  const DRM_XRGB8888 := 0x3432_5258

  function FormatFromDRM(code: int): Option<int> {
    if code == DRM_ARGB8888 then Some(ARGB8888) else if code == DRM_XRGB8888 then Some(XRGB8888) else None
  }

  function DRMCode(format: int): int {
    if format == ARGB8888 then DRM_ARGB8888 else if format == XRGB8888 then DRM_XRGB8888 else 0
  }

  /** The formats that can be announced are exactly those that can be decoded, each under one code. */
  lemma FormatCodesCorrespond(format: int, code: int)
    ensures FormatFromDRM(code) == Some(format) <==> Known(format) && DRMCode(format) == code
    ensures FormatFromDRM(code) == Some(format) <==>
      (code == 0x3432_5241 && format == 0) || (code == 0x3432_5258 && format == 1)
  {
  }

  predicate Known(format: int) {
    format == ARGB8888 || format == XRGB8888
  }

  /** What a buffer must be to be decoded. */
  predicate Decodable(format: int, stride: int, width: int, height: int, length: int) {
    Known(format) && width > 0 && height > 0 && stride >= width * 4 && length >= stride * (height - 1) + width * 4
  }

  datatype Pixel = Pixel(red: Byte, green: Byte, blue: Byte, alpha: Byte)

  /** Where the pixel at column x of row y starts. */
  function Offset(stride: nat, x: nat, y: nat): nat {
    y * stride + 4 * x
  }

  lemma OffsetInBounds(stride: nat, width: nat, height: nat, x: nat, y: nat, length: nat)
    requires x < width && y < height && stride >= width * 4 && length >= stride * (height - 1) + width * 4
    ensures Offset(stride, x, y) + 4 <= length
  {
    MulMonotone(y, height - 1, stride);
  }

  /**
   The picture a buffer shows at one place: the words are stored blue first, and without an alpha channel it is
   opaque.
   */
  function Shown(format: int, stride: nat, width: nat, height: nat, pixels: seq<Byte>, x: nat, y: nat): Pixel
    requires Decodable(format, stride, width, height, |pixels|) && x < width && y < height
  {
    OffsetInBounds(stride, width, height, x, y, |pixels|);
    var at := Offset(stride, x, y);
    Pixel(pixels[at + 2], pixels[at + 1], pixels[at], if format == XRGB8888 then 0xff else pixels[at + 3])
  }

  function Packed(p: Pixel): seq<Byte> {
    [p.red, p.green, p.blue, p.alpha]
  }

  /** The first pixels of one row, packed. */
  function Row(format: int, stride: nat, width: nat, height: nat, pixels: seq<Byte>, y: nat, count: nat): (r: seq<Byte>)
    requires Decodable(format, stride, width, height, |pixels|) && y < height && count <= width
    ensures |r| == 4 * count
  {
    if count == 0 then []
    else
      Row(format, stride, width, height, pixels, y, count - 1)
      + Packed(Shown(format, stride, width, height, pixels, count - 1, y))
  }

  /** The first rows of the picture, packed without padding. */
  function Rows(format: int, stride: nat, width: nat, height: nat, pixels: seq<Byte>, count: nat): (r: seq<Byte>)
    requires Decodable(format, stride, width, height, |pixels|) && count <= height
    ensures |r| == Multiple(4 * width, count)
  {
    if count == 0 then []
    else
      Rows(format, stride, width, height, pixels, count - 1)
      + Row(format, stride, width, height, pixels, count - 1, width)
  }

  /** An RGBA image: rows of packed pixels, each starting a stride after the one before. */
  class Image {
    const width: nat
    const height: nat
    const stride: nat
    const pix: array<Byte>

    constructor (width: nat, height: nat)
      ensures this.width == width && this.height == height && this.stride == 4 * width
      ensures fresh(pix) && pix.Length == Multiple(4 * width, height)
    {
      this.width, this.height, this.stride := width, height, 4 * width;
      MultipleIsProduct(4 * width, height);
      this.pix := new Byte[Multiple(4 * width, height)](_ => 0);
    }
  }

  // ---------------------------------------------------------------- the size check, in machine integers

  const HALF := 0x8000_0000_0000_0000

  /** The 64 low bits of a product or sum, read as a signed word. */
  function Wrap(x: int): (r: int)
    ensures -HALF <= r < HALF
    ensures -HALF <= x < HALF ==> r == x
    ensures HALF <= x < 2 * HALF ==> r == x - 2 * HALF
  {
    (x + HALF) % (2 * HALF) - HALF
  }

  predicate Word(x: int) {
    -HALF <= x < HALF
  }

  /** What the checks of Decode let pass, as a 64-bit machine computes them. */
  predicate Admitted(format: int, stride: int, width: int, height: int, length: int) {
    && Known(format) && width > 0 && height > 0
    && stride >= Wrap(width * 4) && length >= Wrap(Wrap(stride * (height - 1)) + Wrap(width * 4))
  }

  /** A row, or the whole buffer, needs more bytes than a machine word counts. */
  predicate Overflows(stride: int, width: int, height: int) {
    width * 4 >= HALF || stride * (height - 1) + width * 4 >= HALF
  }

  /** The checks let pass exactly the decodable buffers and some whose size overflows. */
  lemma AdmittedIsDecodable(format: int, stride: int, width: int, height: int, length: int)
    requires Word(stride) && Word(width) && Word(height) && 0 <= length < HALF
    ensures Decodable(format, stride, width, height, length) <==>
      Admitted(format, stride, width, height, length) && !Overflows(stride, width, height)
  {
    if height > 0 && stride >= 0 {
      MulMonotone(0, height - 1, stride);
    }
  }

  /** The sizes wl_shm carries are 31-bit: no such buffer overflows. */
  lemma ProtocolSizesFit(stride: int, width: int, height: int)
    requires 0 <= stride < 0x8000_0000 && 0 < width < 0x8000_0000 && 0 < height < 0x8000_0000
    ensures !Overflows(stride, width, height)
  {
    MulMonotone(height - 1, 0x8000_0000, stride);
  }

  /** Four bytes pass for a picture of five rows whose starts lie 2^62 bytes apart. */
  lemma OverflowIsAdmitted()
    ensures Admitted(XRGB8888, HALF / 2, 1, 5, 4) && Overflows(HALF / 2, 1, 5)
    ensures !Decodable(XRGB8888, HALF / 2, 1, 5, 4)
  {
    assert HALF / 2 * 4 == 2 * HALF;
  }

  /** A picture is no larger than a buffer it can be decoded from. */
  lemma PictureFits(format: int, stride: int, width: int, height: int, length: int)
    requires Decodable(format, stride, width, height, length)
    ensures 4 * width * height <= length
  {
    var row := 4 * width;
    MulMonotone(row, stride, height - 1);
    assert row * height == row * (height - 1) + row;
  }

  lemma RowIsSmaller(width: nat, height: nat)
    requires height > 0
    ensures 4 * width <= 4 * width * height
  {
    MulMonotone(1, height, 4 * width);
  }

  /** Row y lies in the buffer. */
  predicate RowWithin(stride: nat, width: nat, length: nat, y: nat) {
    Multiple(stride, y) + 4 * width <= length
  }

  /** As long as the row before lies in the buffer, the machine finds out whether the next one does. */
  lemma RowSource(stride: nat, width: nat, length: nat, y: nat)
    requires 4 * width <= stride < HALF && length < HALF
    requires y > 0 ==> RowWithin(stride, width, length, y - 1)
    ensures Wrap(y * stride) == y * stride || Wrap(y * stride) < 0
    ensures 0 <= Wrap(y * stride) && Wrap(y * stride) + 4 * width <= length <==> RowWithin(stride, width, length, y)
  {
    MultipleIsProduct(stride, y);
    MultipleMonotone(stride, 0, y);
  }

  /** A buffer whose last row lies in it is decodable, and then every row does. */
  lemma RowsWithin(format: int, stride: nat, width: nat, height: nat, length: nat, y: nat)
    requires Known(format) && 0 < 4 * width <= stride && y < height
    ensures Decodable(format, stride, width, height, length) <==> RowWithin(stride, width, length, height - 1)
    ensures RowWithin(stride, width, length, height - 1) ==> RowWithin(stride, width, length, y)
  {
    MultipleIsProduct(stride, height - 1);
    MultipleMonotone(stride, y, height - 1);
  }

  datatype Result = Decoded(img: Image) | Refused | Panicked

  /**
   Decode, on machine integers. It succeeds exactly on decodable buffers and packs the picture without its padding;
   where the checks let an overflowing size pass it panics, in the allocation or at the first byte outside the
   buffer.
   */
  method Decode(format: int, stride: int, width: int, height: int, pixels: array<Byte>) returns (r: Result)
    requires Word(stride) && Word(width) && Word(height) && pixels.Length < HALF
    ensures r.Decoded? <==>
      && (format == 0 || format == 1) && width > 0 && height > 0
      && stride >= width * 4 && pixels.Length >= stride * (height - 1) + width * 4
    ensures r.Panicked? <==> Admitted(format, stride, width, height, pixels.Length) && Overflows(stride, width, height)
    ensures r.Decoded? ==>
      && fresh(r.img.pix) && r.img.width == width && r.img.height == height && r.img.stride == 4 * width
      && r.img.pix[..] == Rows(format, stride, width, height, pixels[..], height)
  {
    AdmittedIsDecodable(format, stride, width, height, pixels.Length);
    if format != ARGB8888 && format != XRGB8888 {
      return Refused;
    }
    if width <= 0 || height <= 0 {
      return Refused;
    }
    var rowBytes := Wrap(width * 4);
    if stride < rowBytes {
      return Refused;
    }
    if pixels.Length < Wrap(Wrap(stride * (height - 1)) + rowBytes) {
      return Refused;
    }
    if Decodable(format, stride, width, height, pixels.Length) {
      PictureFits(format, stride, width, height, pixels.Length);
    }
    if 4 * width * height >= HALF {
      return Panicked;
    }
    RowIsSmaller(width, height);
    r := DecodeRows(format, stride, width, height, pixels);
  }

  /** The loop over the rows, into a new image. */
  method DecodeRows(format: int, stride: nat, width: nat, height: nat, pixels: array<Byte>) returns (r: Result)
    requires Known(format) && width > 0 && height > 0 && 4 * width <= stride < HALF && pixels.Length < HALF
    ensures r.Decoded? <==> Decodable(format, stride, width, height, pixels.Length)
    ensures !r.Refused?
    ensures r.Decoded? ==>
      && fresh(r.img.pix) && r.img.width == width && r.img.height == height && r.img.stride == 4 * width
      && r.img.pix[..] == Rows(format, stride, width, height, pixels[..], height)
  {
    var img := new Image(width, height);
    for y := 0 to height
      invariant 0 <= Multiple(4 * width, y) <= img.pix.Length
      invariant y > 0 ==> RowWithin(stride, width, pixels.Length, y - 1)
      invariant Decodable(format, stride, width, height, pixels.Length) ==>
        img.pix[..Multiple(4 * width, y)] == Rows(format, stride, width, height, pixels[..], y)
    {
      RowStart(width, img.stride, height, y, img.pix.Length);
      RowSource(stride, width, pixels.Length, y);
      RowsWithin(format, stride, width, height, pixels.Length, y);
      var inside := DecodeRow(format, stride, width, height, pixels, img, y, Wrap(y * stride), y * img.stride);
      if !inside {
        return Panicked;
      }
    }
    RowsWithin(format, stride, width, height, pixels.Length, 0);
    assert img.pix[..] == img.pix[..Multiple(4 * width, height)];
    return Decoded(img);
  }

  /** One row, with the running source and target offsets; an offset outside the buffer ends the program. */
  method DecodeRow(
      format: int, stride: nat, width: nat, height: nat, pixels: array<Byte>, img: Image, y: nat, rowSrc: int,
      rowDst: nat)
    returns (inside: bool)
    requires y < height && width > 0 && (rowSrc == y * stride || rowSrc < 0)
    requires rowDst + 4 * width <= img.pix.Length && img.pix != pixels
    modifies img.pix
    ensures inside <==> 0 <= rowSrc && rowSrc + 4 * width <= pixels.Length
    ensures inside && Decodable(format, stride, width, height, pixels.Length) ==>
      img.pix[..rowDst + 4 * width] == old(img.pix[..rowDst]) + Row(format, stride, width, height, pixels[..], y, width)
  {
    var src, dst := rowSrc, rowDst;
    for x := 0 to width
      invariant src == rowSrc + 4 * x && dst == rowDst + 4 * x
      invariant x > 0 ==> 0 <= rowSrc && src <= pixels.Length
      invariant Decodable(format, stride, width, height, pixels.Length) ==>
        img.pix[..dst] == old(img.pix[..rowDst]) + Row(format, stride, width, height, pixels[..], y, x)
    {
      if src < 0 || src + 3 >= pixels.Length {
        return false;
      }
      var blue, green, red, alpha := pixels[src], pixels[src + 1], pixels[src + 2], pixels[src + 3];
      if format == XRGB8888 {
        alpha := 0xff;
      }
      SetPixel(img.pix, dst, red, green, blue, alpha);
      src := src + 4;
      dst := dst + 4;
    }
    return true;
  }

  method SetPixel(pix: array<Byte>, dst: nat, red: Byte, green: Byte, blue: Byte, alpha: Byte)
    requires dst + 4 <= pix.Length
    modifies pix
    ensures pix[..dst + 4] == old(pix[..dst]) + Packed(Pixel(red, green, blue, alpha))
  {
    pix[dst] := red;
    pix[dst + 1] := green;
    pix[dst + 2] := blue;
    pix[dst + 3] := alpha;
  }

  // ---------------------------------------------------------------- what a decoded picture is

  lemma {:induction false} RowPixel(
      format: int, stride: nat, width: nat, height: nat, pixels: seq<Byte>, y: nat, count: nat, x: nat)
    requires Decodable(format, stride, width, height, |pixels|) && y < height && x < count <= width
    ensures Row(format, stride, width, height, pixels, y, count)[4 * x..4 * x + 4] ==
      Packed(Shown(format, stride, width, height, pixels, x, y))
  {
    if x < count - 1 {
      RowPixel(format, stride, width, height, pixels, y, count - 1, x);
    }
  }

  lemma MultiplesOrdered(step: nat, y: nat, count: nat)
    requires y < count
    ensures 0 <= Multiple(step, y) <= Multiple(step, y + 1) <= Multiple(step, count)
  {
    MultipleMonotone(step, 0, y);
    MultipleMonotone(step, y + 1, count);
  }

  lemma SliceOfSum(a: seq<Byte>, b: seq<Byte>, i: nat, j: nat)
    requires i <= j <= |a + b|
    ensures j <= |a| ==> (a + b)[i..j] == a[i..j]
    ensures i == |a| && j == |a + b| ==> (a + b)[i..j] == b
  {
  }

  /** Row y of the picture starts after y rows of packed pixels. */
  lemma {:induction false} RowOfRows(
      format: int, stride: nat, width: nat, height: nat, pixels: seq<Byte>, count: nat, y: nat)
    requires Decodable(format, stride, width, height, |pixels|) && y < count <= height
    ensures 0 <= Multiple(4 * width, y) <= Multiple(4 * width, y + 1) <= Multiple(4 * width, count)
    ensures Rows(format, stride, width, height, pixels, count)[Multiple(4 * width, y)..Multiple(4 * width, y + 1)] ==
      Row(format, stride, width, height, pixels, y, width)
  {
    MultiplesOrdered(4 * width, y, count);
    var before, last :=
      Rows(format, stride, width, height, pixels, count - 1),
      Row(format, stride, width, height, pixels, count - 1, width);
    SliceOfSum(before, last, Multiple(4 * width, y), Multiple(4 * width, y + 1));
    if y < count - 1 {
      RowOfRows(format, stride, width, height, pixels, count - 1, y);
    }
  }

  lemma PixelOfRow(rows: seq<Byte>, row: seq<Byte>, start: nat, x: nat, p: Pixel)
    requires start + |row| <= |rows| && rows[start..start + |row|] == row && 4 * x + 4 <= |row|
    requires row[4 * x..4 * x + 4] == Packed(p)
    ensures rows[start + 4 * x] == p.red && rows[start + 4 * x + 1] == p.green
    ensures rows[start + 4 * x + 2] == p.blue && rows[start + 4 * x + 3] == p.alpha
  {
    forall k | 0 <= k < 4 ensures rows[start + 4 * x + k] == Packed(p)[k] {
      assert row[4 * x..4 * x + 4][k] == row[4 * x + k] == rows[start..start + |row|][4 * x + k];
    }
    assert Packed(p)[0] == p.red && Packed(p)[1] == p.green && Packed(p)[2] == p.blue && Packed(p)[3] == p.alpha;
    assert rows[start + 4 * x + 0] == p.red;
  }

  lemma PixelAt(format: int, stride: nat, width: nat, height: nat, pixels: seq<Byte>, x: nat, y: nat)
    requires Decodable(format, stride, width, height, |pixels|) && x < width && y < height
    ensures var start := Multiple(4 * width, y);
      && 0 <= start && start + 4 * width <= |Rows(format, stride, width, height, pixels, height)|
      && var (rows, p) :=
           (Rows(format, stride, width, height, pixels, height), Shown(format, stride, width, height, pixels, x, y));
         && rows[start + 4 * x] == p.red && rows[start + 4 * x + 1] == p.green
         && rows[start + 4 * x + 2] == p.blue && rows[start + 4 * x + 3] == p.alpha
  {
    RowOfRows(format, stride, width, height, pixels, height, y);
    RowPixel(format, stride, width, height, pixels, y, width, x);
    var row := Row(format, stride, width, height, pixels, y, width);
    var rows := Rows(format, stride, width, height, pixels, height);
    PixelOfRow(rows, row, Multiple(4 * width, y), x, Shown(format, stride, width, height, pixels, x, y));
  }

  /** Byte by byte: each decoded pixel is the word at its place in the buffer, blue first there and red first here. */
  lemma PixelInFull(format: int, stride: nat, width: nat, height: nat, pixels: seq<Byte>, x: nat, y: nat)
    requires Decodable(format, stride, width, height, |pixels|) && x < width && y < height
    ensures var (at, to) := (y * stride + 4 * x, y * (4 * width) + 4 * x);
      var rows := Rows(format, stride, width, height, pixels, height);
      && 0 <= at && at + 4 <= |pixels| && 0 <= to && to + 4 <= |rows|
      && rows[to] == pixels[at + 2] && rows[to + 1] == pixels[at + 1] && rows[to + 2] == pixels[at]
      && rows[to + 3] == if format == 1 then 255 else pixels[at + 3]
  {
    OffsetInBounds(stride, width, height, x, y, |pixels|);
    MultipleIsProduct(4 * width, y);
    PixelAt(format, stride, width, height, pixels, x, y);
  }

  /** Two buffers show the same picture, whatever their formats, strides and padding. */
  ghost predicate SamePicture(
      width: nat, height: nat, formatA: int, strideA: nat, a: seq<Byte>, formatB: int, strideB: nat, b: seq<Byte>)
    requires Decodable(formatA, strideA, width, height, |a|) && Decodable(formatB, strideB, width, height, |b|)
  {
    forall x: nat, y: nat :: x < width && y < height ==>
      Shown(formatA, strideA, width, height, a, x, y) == Shown(formatB, strideB, width, height, b, x, y)
  }

  lemma {:induction false} SameRow(
      width: nat, height: nat, formatA: int, strideA: nat, a: seq<Byte>, formatB: int, strideB: nat, b: seq<Byte>,
      y: nat, count: nat)
    requires Decodable(formatA, strideA, width, height, |a|) && Decodable(formatB, strideB, width, height, |b|)
    requires SamePicture(width, height, formatA, strideA, a, formatB, strideB, b) && y < height && count <= width
    ensures Row(formatA, strideA, width, height, a, y, count) == Row(formatB, strideB, width, height, b, y, count)
  {
    if count > 0 {
      SameRow(width, height, formatA, strideA, a, formatB, strideB, b, y, count - 1);
    }
  }

  lemma {:induction false} SameRows(
      width: nat, height: nat, formatA: int, strideA: nat, a: seq<Byte>, formatB: int, strideB: nat, b: seq<Byte>,
      count: nat)
    requires Decodable(formatA, strideA, width, height, |a|) && Decodable(formatB, strideB, width, height, |b|)
    requires SamePicture(width, height, formatA, strideA, a, formatB, strideB, b) && count <= height
    ensures Rows(formatA, strideA, width, height, a, count) == Rows(formatB, strideB, width, height, b, count)
  {
    if count > 0 {
      SameRows(width, height, formatA, strideA, a, formatB, strideB, b, count - 1);
      SameRow(width, height, formatA, strideA, a, formatB, strideB, b, count - 1, width);
    }
  }

  /** Stride independence: two buffers decode to the same image exactly when they show the same picture. */
  lemma DecodingIsStrideIndependent(
      width: nat, height: nat, formatA: int, strideA: nat, a: seq<Byte>, formatB: int, strideB: nat, b: seq<Byte>)
    requires Decodable(formatA, strideA, width, height, |a|) && Decodable(formatB, strideB, width, height, |b|)
    ensures Rows(formatA, strideA, width, height, a, height) == Rows(formatB, strideB, width, height, b, height) <==>
      SamePicture(width, height, formatA, strideA, a, formatB, strideB, b)
  {
    if SamePicture(width, height, formatA, strideA, a, formatB, strideB, b) {
      SameRows(width, height, formatA, strideA, a, formatB, strideB, b, height);
    }
    if Rows(formatA, strideA, width, height, a, height) == Rows(formatB, strideB, width, height, b, height) {
      forall x: nat, y: nat | x < width && y < height
        ensures Shown(formatA, strideA, width, height, a, x, y) == Shown(formatB, strideB, width, height, b, x, y)
      {
        RowOfRows(formatA, strideA, width, height, a, height, y);
        RowOfRows(formatB, strideB, width, height, b, height, y);
        RowPixel(formatA, strideA, width, height, a, y, width, x);
        RowPixel(formatB, strideB, width, height, b, y, width, x);
        PackedInjective(Shown(formatA, strideA, width, height, a, x, y),
          Shown(formatB, strideB, width, height, b, x, y));
      }
    }
  }

  lemma PackedInjective(p: Pixel, q: Pixel)
    ensures Packed(p) == Packed(q) ==> p == q
  {
    assert Packed(p)[0] == p.red && Packed(p)[1] == p.green && Packed(p)[2] == p.blue && Packed(p)[3] == p.alpha;
    assert Packed(q)[0] == q.red && Packed(q)[1] == q.green && Packed(q)[2] == q.blue && Packed(q)[3] == q.alpha;
  }

  // ---------------------------------------------------------------- the digest

  const WORD := 0x1_0000_0000

  /** putUint32: the low 32 bits, most significant byte first. */
  function Be32(value: nat): seq<Byte> {
    [value / 0x100_0000 % 256, value / 0x1_0000 % 256, value / 0x100 % 256, value % 256]
  }

  function FromBe32(bytes: seq<Byte>): nat
    requires |bytes| == 4
  {
    var b: seq<int> := bytes;
    b[0] * 0x100_0000 + b[1] * 0x1_0000 + b[2] * 0x100 + b[3]
  }

  lemma Be32RoundTrip(value: nat)
    requires value < WORD
    ensures FromBe32(Be32(value)) == value
  {
    var upper := value / 0x100;
    var half := upper / 0x100;
    assert value == 0x100 * upper + value % 0x100;
    assert upper == 0x100 * half + upper % 0x100;
    assert half == 0x100 * (half / 0x100) + half % 0x100;
    assert value / 0x1_0000 == half && value / 0x100_0000 == half / 0x100;
  }

  /** The first rows of an image without what lies between them. */
  function ImageRows(width: nat, stride: nat, pix: seq<Byte>, count: nat): seq<Byte>
    requires stride >= 4 * width && |pix| >= Multiple(stride, count)
  {
    if count == 0 then []
    else
      var start := Multiple(stride, count - 1);
      RowFits(width, stride, pix, count - 1);
      ImageRows(width, stride, pix, count - 1) + pix[start..start + 4 * width]
  }

  lemma RowFits(width: nat, stride: nat, pix: seq<Byte>, y: nat)
    requires stride >= 4 * width && |pix| >= Multiple(stride, y + 1)
    ensures 0 <= Multiple(stride, y) <= Multiple(stride, y) + 4 * width <= |pix|
  {
    MultipleMonotone(stride, 0, y);
  }

  lemma RowStart(width: nat, stride: nat, height: nat, y: nat, length: nat)
    requires y < height && stride >= 4 * width && length >= Multiple(stride, height)
    ensures 0 <= y * stride == Multiple(stride, y) && y * stride + 4 * width <= Multiple(stride, y + 1) <= length
  {
    MultipleIsProduct(stride, y);
    MultipleMonotone(stride, y + 1, height);
    MultipleMonotone(stride, 0, y);
  }

  lemma FeedRow(width: nat, stride: nat, pix: seq<Byte>, y: nat)
    requires stride >= 4 * width && |pix| >= Multiple(stride, y + 1) && y * stride == Multiple(stride, y) >= 0
    ensures ImageRows(width, stride, pix, y + 1) == ImageRows(width, stride, pix, y)
      + pix[y * stride..y * stride + 4 * width]
  {
  }

  /** What the hash is fed. */
  function Fed(width: nat, height: nat, rows: seq<Byte>): seq<Byte> {
    Be32(width) + Be32(height) + rows
  }

  /** The hash is fed two 32-bit numbers, most significant byte first, and then the rows. */
  lemma FedInFull(width: nat, height: nat, rows: seq<Byte>)
    ensures var fed := Fed(width, height, rows);
      && |fed| == 8 + |rows| && fed[8..] == rows
      && fed[0] == width / 0x100_0000 % 256 && fed[3] == width % 256
      && fed[4] == height / 0x100_0000 % 256 && fed[7] == height % 256
  {
  }

  /** Digest, up to the hash: the dimensions, then row after row. */
  method Feed(img: Image) returns (fed: seq<Byte>)
    requires img.stride >= 4 * img.width && img.pix.Length >= Multiple(img.stride, img.height)
    ensures fed == Fed(img.width, img.height, ImageRows(img.width, img.stride, img.pix[..], img.height))
  {
    fed := Be32(img.width) + Be32(img.height);
    for y := 0 to img.height
      invariant img.pix.Length >= Multiple(img.stride, y)
      invariant fed == Fed(img.width, img.height, ImageRows(img.width, img.stride, img.pix[..], y))
    {
      RowStart(img.width, img.stride, img.height, y, img.pix.Length);
      var start := y * img.stride;
      fed := fed + img.pix[start..start + 4 * img.width];
      FeedRow(img.width, img.stride, img.pix[..], y);
    }
  }

  lemma {:induction false} TightRows(width: nat, pix: seq<Byte>, count: nat)
    requires |pix| >= Multiple(4 * width, count)
    ensures Multiple(4 * width, count) >= 0
      && ImageRows(width, 4 * width, pix, count) == pix[..Multiple(4 * width, count)]
  {
    MultipleMonotone(4 * width, 0, count);
    if count > 0 {
      TightRows(width, pix, count - 1);
    }
  }

  /** What the hash is fed for a decoded buffer. */
  function FedFor(format: int, stride: nat, width: nat, height: nat, pixels: seq<Byte>): seq<Byte>
    requires Decodable(format, stride, width, height, |pixels|)
  {
    Fed(width, height, Rows(format, stride, width, height, pixels, height))
  }

  /** Decoding and then digesting feeds the hash the picture itself. */
  method DecodeAndFeed(format: int, stride: int, width: int, height: int, pixels: array<Byte>)
    returns (fed: Option<seq<Byte>>)
    requires Word(stride) && Word(width) && Word(height) && pixels.Length < HALF
    ensures fed.Some? <==> Decodable(format, stride, width, height, pixels.Length)
    ensures fed.Some? ==> fed.value == FedFor(format, stride, width, height, pixels[..])
  {
    var decoded := Decode(format, stride, width, height, pixels);
    if !decoded.Decoded? {
      return None;
    }
    TightRows(width, decoded.img.pix[..], height);
    var bytes := Feed(decoded.img);
    return Some(bytes);
  }

  /**
   The hash is fed the same exactly for buffers of the same size that show the same picture, as long as sizes fit 32
   bits.
   */
  lemma SameFeedMeansSamePicture(
      formatA: int, strideA: nat, widthA: nat, heightA: nat, a: seq<Byte>,
      formatB: int, strideB: nat, widthB: nat, heightB: nat, b: seq<Byte>)
    requires Decodable(formatA, strideA, widthA, heightA, |a|) && Decodable(formatB, strideB, widthB, heightB, |b|)
    requires widthA < WORD && heightA < WORD && widthB < WORD && heightB < WORD
    ensures FedFor(formatA, strideA, widthA, heightA, a) == FedFor(formatB, strideB, widthB, heightB, b) <==>
      && widthA == widthB && heightA == heightB
      && SamePicture(widthA, heightA, formatA, strideA, a, formatB, strideB, b)
  {
    var rowsA, rowsB :=
      Rows(formatA, strideA, widthA, heightA, a, heightA), Rows(formatB, strideB, widthB, heightB, b, heightB);
    FedInjective(widthA, heightA, rowsA, widthB, heightB, rowsB);
    if widthA == widthB && heightA == heightB {
      DecodingIsStrideIndependent(widthA, heightA, formatA, strideA, a, formatB, strideB, b);
    }
  }

  lemma FedInjective(widthA: nat, heightA: nat, rowsA: seq<Byte>, widthB: nat, heightB: nat, rowsB: seq<Byte>)
    requires widthA < WORD && heightA < WORD && widthB < WORD && heightB < WORD
    ensures Fed(widthA, heightA, rowsA) == Fed(widthB, heightB, rowsB) <==>
      widthA == widthB && heightA == heightB && rowsA == rowsB
  {
    var fedA, fedB := Fed(widthA, heightA, rowsA), Fed(widthB, heightB, rowsB);
    if fedA == fedB {
      assert fedA[..4] == Be32(widthA) && fedA[4..8] == Be32(heightA) && fedA[8..] == rowsA;
      assert fedB[..4] == Be32(widthB) && fedB[4..8] == Be32(heightB) && fedB[8..] == rowsB;
      Be32RoundTrip(widthA);
      Be32RoundTrip(widthB);
      Be32RoundTrip(heightA);
      Be32RoundTrip(heightB);
    }
  }
}
