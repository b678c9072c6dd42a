/** Frame conversion of src/mcp_server.rs: strided BGRA to packed RGBA, then an optional crop
    to a signed region.  The captured frame is an input; `usize` has 64 bits. */
module ScreenCapture {
  import opened Common

  const USIZE := 0x1_0000_0000_0000_0000

  type I32 = x: int | -0x8000_0000 <= x < 0x8000_0000

  datatype Image = Image(rgba: seq<Byte>, width: nat, height: nat)

  datatype CropRegion = CropRegion(x: I32, y: I32, width: I32, height: I32)

  // ---------------------------------------------------------------- concatenated parts

  /** part(0) + part(1) + ... + part(n - 1) */
  function Parts(part: nat -> seq<Byte>, n: nat): seq<Byte> {
    if n == 0 then [] else Parts(part, n - 1) + part(n - 1)
  }

  lemma {:induction false} PartsLength(part: nat -> seq<Byte>, n: nat, len: nat)
    requires forall k: nat :: k < n ==> |part(k)| == len
    ensures |Parts(part, n)| == n * len
  {
    if n > 0 {
      PartsLength(part, n - 1, len);
      assert n * len == (n - 1) * len + len;
    }
  }

  /** Byte `j` of part `i`, when the parts before it are equally long. */
  lemma {:induction false} PartAt(part: nat -> seq<Byte>, n: nat, len: nat, i: nat, j: nat)
    requires forall k: nat :: k < i ==> |part(k)| == len
    requires i < n && j < |part(i)|
    ensures i * len + j < |Parts(part, n)| && Parts(part, n)[i * len + j] == part(i)[j]
    decreases n
  {
    if i < n - 1 { PartAt(part, n - 1, len, i, j); } else { PartsLength(part, i, len); }
  }

  lemma {:induction false} EmptyTail(part: nat -> seq<Byte>, i: nat, n: nat)
    requires i <= n && forall k: nat :: i <= k < n ==> part(k) == []
    ensures Parts(part, n) == Parts(part, i)
    decreases n
  {
    if i < n { EmptyTail(part, i, n - 1); }
  }

  lemma FlatOffset(row: nat, width: nat, col: nat)
    ensures (row * width + col) * 4 == row * (4 * width) + 4 * col
  {
  }

  // ---------------------------------------------------------------- conversion

  function Pixel(bgra: seq<Byte>, i: nat): seq<Byte> {
    if i + 3 < |bgra| then [bgra[i + 2], bgra[i + 1], bgra[i], bgra[i + 3]] else []
  }

  /** The pixels of the source row that starts at byte `start`. */
  function PixelsFrom(bgra: seq<Byte>, start: nat): nat -> seq<Byte> {
    (col: nat) => Pixel(bgra, start + 4 * col)
  }

  function RowsOf(bgra: seq<Byte>, stride: nat, width: nat): nat -> seq<Byte> {
    (row: nat) => Parts(PixelsFrom(bgra, stride * row), width)
  }

  /** The inner loop: pixels that the frame does not hold are left out. */
  method PushRow(bgra: seq<Byte>, start: nat, width: nat, rgba0: seq<Byte>) returns (rgba: seq<Byte>)
    ensures rgba == rgba0 + Parts(PixelsFrom(bgra, start), width)
  {
    ghost var pixels := PixelsFrom(bgra, start);
    rgba := rgba0;
    for col := 0 to width
      invariant rgba == rgba0 + Parts(pixels, col)
    {
      ghost var before := rgba;
      var i := start + 4 * col;
      if i + 3 < |bgra| {
        rgba := rgba + [bgra[i + 2]];
        rgba := rgba + [bgra[i + 1]];
        rgba := rgba + [bgra[i]];
        rgba := rgba + [bgra[i + 3]];
      }
      assert rgba == before + pixels(col);
      assert before + pixels(col) == rgba0 + (Parts(pixels, col) + pixels(col));
    }
  }

  method ToRgba(bgra: seq<Byte>, stride: nat, width: nat, height: nat) returns (rgba: seq<Byte>)
    ensures rgba == Parts(RowsOf(bgra, stride, width), height)
  {
    rgba := [];
    for row := 0 to height
      invariant rgba == Parts(RowsOf(bgra, stride, width), row)
    {
      rgba := PushRow(bgra, stride * row, width, rgba);
    }
  }

  ghost predicate HoldsPixel(bgra: seq<Byte>, stride: nat, col: nat, row: nat) {
    stride * row + 4 * col + 3 < |bgra|
  }

  ghost predicate Complete(bgra: seq<Byte>, stride: nat, width: nat, height: nat) {
    forall col: nat, row: nat :: col < width && row < height ==> HoldsPixel(bgra, stride, col, row)
  }

  /** The four bytes at `at` are those at `from`, red and blue swapped. */
  ghost predicate SamePixel(packed: seq<Byte>, at: nat, bgra: seq<Byte>, from: nat) {
    && at + 3 < |packed| && from + 3 < |bgra|
    && packed[at] == bgra[from + 2] && packed[at + 1] == bgra[from + 1]
    && packed[at + 2] == bgra[from] && packed[at + 3] == bgra[from + 3]
  }

  /** Pixel (col, row) of a packed image of that width is pixel (x + col, y + row) of the source. */
  ghost predicate ShowsPixel(packed: seq<Byte>, width: nat, col: nat, row: nat, bgra: seq<Byte>, stride: nat, x: nat,
                             y: nat) {
    SamePixel(packed, row * (4 * width) + 4 * col, bgra, stride * (y + row) + 4 * (x + col))
  }

  /** `packed` is the width x height part of the source at (x, y), and nothing else. */
  ghost predicate Shows(packed: seq<Byte>, width: nat, height: nat, bgra: seq<Byte>, stride: nat, x: nat, y: nat) {
    && |packed| == height * (4 * width)
    && forall col: nat, row: nat :: col < width && row < height ==>
         ShowsPixel(packed, width, col, row, bgra, stride, x, y)
  }

  /** Where a held pixel lands in the row that starts at byte `start`. */
  lemma {:induction false} PixelInRow(bgra: seq<Byte>, start: nat, width: nat, col: nat)
    requires col < width && start + 4 * col + 3 < |bgra|
    ensures SamePixel(Parts(PixelsFrom(bgra, start), width), 4 * col, bgra, start + 4 * col)
  {
    var pixels := PixelsFrom(bgra, start);
    PartAt(pixels, width, 4, col, 0);
    PartAt(pixels, width, 4, col, 1);
    PartAt(pixels, width, 4, col, 2);
    PartAt(pixels, width, 4, col, 3);
  }

  /** Where a pixel of row `row` lands in the image, when the rows before it are equally long. */
  lemma {:induction false} PixelInPart(rows: nat -> seq<Byte>, height: nat, len: nat, row: nat, at: nat,
                                       bgra: seq<Byte>, from: nat)
    requires forall r: nat :: r < row ==> |rows(r)| == len
    requires row < height && SamePixel(rows(row), at, bgra, from)
    ensures SamePixel(Parts(rows, height), row * len + at, bgra, from)
  {
    PartAt(rows, height, len, row, at);
    PartAt(rows, height, len, row, at + 1);
    PartAt(rows, height, len, row, at + 2);
    PartAt(rows, height, len, row, at + 3);
  }

  /** A held pixel lands at its place, if all rows before it are complete. */
  lemma {:induction false} PixelInImage(bgra: seq<Byte>, stride: nat, width: nat, height: nat, col: nat, row: nat)
    requires forall r: nat :: r < row ==> |RowsOf(bgra, stride, width)(r)| == 4 * width
    requires col < width && row < height && HoldsPixel(bgra, stride, col, row)
    ensures ShowsPixel(Parts(RowsOf(bgra, stride, width), height), width, col, row, bgra, stride, 0, 0)
  {
    PixelInRow(bgra, stride * row, width, col);
    PixelInPart(RowsOf(bgra, stride, width), height, 4 * width, row, 4 * col, bgra, stride * row + 4 * col);
  }

  ghost predicate FullRows(rows: nat -> seq<Byte>, width: nat, height: nat) {
    forall row: nat :: row < height ==> |rows(row)| == 4 * width
  }

  lemma {:induction false} FullRowsLength(rows: nat -> seq<Byte>, width: nat, height: nat)
    requires FullRows(rows, width, height)
    ensures |Parts(rows, height)| == height * (4 * width)
  {
    PartsLength(rows, height, 4 * width);
  }

  /** A complete frame is converted pixel for pixel, whatever its stride. */
  lemma {:induction false} ConversionShows(bgra: seq<Byte>, stride: nat, width: nat, height: nat)
    requires Complete(bgra, stride, width, height)
    ensures Shows(Parts(RowsOf(bgra, stride, width), height), width, height, bgra, stride, 0, 0)
  {
    var rows := RowsOf(bgra, stride, width);
    forall row: nat | row < height
      ensures |rows(row)| == 4 * width
    {
      RowLength(bgra, stride, width, height, row);
    }
    FullRowsLength(rows, width, height);
    forall col: nat, row: nat | col < width && row < height
      ensures ShowsPixel(Parts(rows, height), width, col, row, bgra, stride, 0, 0)
    {
      assert HoldsPixel(bgra, stride, col, row);
      PixelInImage(bgra, stride, width, height, col, row);
    }
  }

  lemma RowLength(bgra: seq<Byte>, stride: nat, width: nat, height: nat, row: nat)
    requires Complete(bgra, stride, width, height) && row < height
    ensures forall col: nat :: col < width ==> |PixelsFrom(bgra, stride * row)(col)| == 4
    ensures |RowsOf(bgra, stride, width)(row)| == 4 * width
  {
    forall col: nat | col < width
      ensures |PixelsFrom(bgra, stride * row)(col)| == 4
    {
      assert HoldsPixel(bgra, stride, col, row);
    }
    PartsLength(PixelsFrom(bgra, stride * row), width, 4);
  }

  lemma {:induction false} PartsAtMost(part: nat -> seq<Byte>, n: nat, len: nat)
    requires forall k: nat :: k < n ==> |part(k)| <= len
    ensures |Parts(part, n)| <= n * len
    ensures |Parts(part, n)| == n * len ==> forall k: nat :: k < n ==> |part(k)| == len
  {
    if n > 0 {
      PartsAtMost(part, n - 1, len);
      assert n * len == (n - 1) * len + len;
    }
  }

  lemma RowAtMost(bgra: seq<Byte>, stride: nat, width: nat, row: nat)
    ensures |RowsOf(bgra, stride, width)(row)| <= 4 * width
    ensures |RowsOf(bgra, stride, width)(row)| == 4 * width ==>
            forall col: nat :: col < width ==> HoldsPixel(bgra, stride, col, row)
  {
    var pixels := PixelsFrom(bgra, stride * row);
    PartsAtMost(pixels, width, 4);
    if |RowsOf(bgra, stride, width)(row)| == 4 * width {
      forall col: nat | col < width
        ensures HoldsPixel(bgra, stride, col, row)
      {
        assert |pixels(col)| == 4;
      }
    }
  }

  lemma {:induction false} RowsAtMost(bgra: seq<Byte>, stride: nat, width: nat, height: nat, size: nat)
    requires size == height * (4 * width)
    ensures |Parts(RowsOf(bgra, stride, width), height)| <= size
    ensures |Parts(RowsOf(bgra, stride, width), height)| == size ==> Complete(bgra, stride, width, height)
  {
    var rows := RowsOf(bgra, stride, width);
    forall row: nat | row < height
      ensures |rows(row)| <= 4 * width
    {
      RowAtMost(bgra, stride, width, row);
    }
    PartsAtMost(rows, height, 4 * width);
    if |Parts(rows, height)| == size {
      forall col: nat, row: nat | col < width && row < height
        ensures HoldsPixel(bgra, stride, col, row)
      {
        assert |rows(row)| == 4 * width;
        RowAtMost(bgra, stride, width, row);
      }
    }
  }

  /** The conversion shows the whole display exactly if the frame holds all its pixels; of any
      other frame the result is too short. */
  lemma {:induction false} ShowsExactly(bgra: seq<Byte>, stride: nat, width: nat, height: nat, size: nat)
    requires size == height * (4 * width)
    ensures Shows(Parts(RowsOf(bgra, stride, width), height), width, height, bgra, stride, 0, 0) <==>
            Complete(bgra, stride, width, height)
    ensures !Complete(bgra, stride, width, height) ==> |Parts(RowsOf(bgra, stride, width), height)| < size
  {
    RowsAtMost(bgra, stride, width, height, size);
    if Complete(bgra, stride, width, height) { ConversionShows(bgra, stride, width, height); }
  }

  // ---------------------------------------------------------------- cropping

  /** `as usize`: a negative value wraps to a huge one. */
  function AsUsize(x: I32): nat { if x < 0 then x + USIZE else x }

  function Min(a: nat, b: nat): nat { if a < b then a else b }

  function SaturatingSub(a: nat, b: nat): nat { if a < b then 0 else a - b }

  function Origin(x: I32): nat { if x < 0 then 0 else x }

  /** The width (or height) kept of a region that asks for `extent` from `at` in an image of `size`. */
  function Kept(at: I32, extent: I32, size: nat): nat {
    Min(AsUsize(extent), SaturatingSub(size, Origin(at)))
  }

  /** What the arithmetic means: the region is clamped inside the image, and a negative extent
      asks for everything up to the far edge. */
  lemma KeptMeaning(at: I32, extent: I32, size: nat)
    requires size < USIZE / 2
    ensures Origin(at) == if at < 0 then 0 else at
    ensures Origin(at) < size && (extent < 0 || Origin(at) + extent > size) ==>
              Kept(at, extent, size) == size - Origin(at)
    ensures Kept(at, extent, size) > 0 ==> Origin(at) + Kept(at, extent, size) <= size
    ensures Kept(at, extent, size) == 0 <==> extent == 0 || Origin(at) >= size
    ensures extent < 0 && Origin(at) < size ==> Origin(at) + Kept(at, extent, size) == size
    ensures 0 < extent && Origin(at) + extent <= size ==> Kept(at, extent, size) == extent
  {
  }

  function SliceAt(b: seq<Byte>, start: nat, len: nat): seq<Byte> {
    if start + len <= |b| then b[start..start + len] else []
  }

  function CropRows(full: Image, x: nat, width: nat, y: nat): nat -> seq<Byte> {
    (row: nat) => SliceAt(full.rgba, ((y + row) * full.width + x) * 4, width * 4)
  }

  method CopyRows(full: Image, x: nat, width: nat, y: nat, height: nat) returns (cropped: seq<Byte>)
    ensures cropped == Parts(CropRows(full, x, width, y), height)
  {
    ghost var rows := CropRows(full, x, width, y);
    cropped := [];
    ghost var n := 0; // rows copied
    for row := y to y + height
      invariant n == row - y && cropped == Parts(rows, n)
    {
      var start := (row * full.width + x) * 4;
      var end := start + width * 4;
      assert rows(n) == SliceAt(full.rgba, start, width * 4) by { assert y + n == row; }
      if end <= |full.rgba| {
        cropped := cropped + full.rgba[start..end];
      }
      n := n + 1;
    }
  }

  method Crop(full: Image, region: CropRegion) returns (r: Result<Image, string>)
    requires full.width < USIZE / 2 && full.height < USIZE / 2
    ensures var x, y := Origin(region.x), Origin(region.y);
            var w, h := Kept(region.x, region.width, full.width), Kept(region.y, region.height, full.height);
            && (r.Err? <==> w == 0 || h == 0)
            && (r.Ok? ==> r.value == Image(Parts(CropRows(full, x, w, y), h), w, h))
  {
    var x, y := Origin(region.x), Origin(region.y);
    var w := Min(AsUsize(region.width), SaturatingSub(full.width, x));
    var h := Min(AsUsize(region.height), SaturatingSub(full.height, y));
    if w == 0 || h == 0 {
      return Err("Crop region out of bounds");
    }
    var cropped := CopyRows(full, x, w, y, h);
    return Ok(Image(cropped, w, h));
  }

  /** The image shows the source in all of a region. */
  ghost predicate ShowsRegion(full: Image, bgra: seq<Byte>, stride: nat, x: nat, y: nat, width: nat, height: nat) {
    forall col: nat, row: nat :: x <= col < x + width && y <= row < y + height ==>
      ShowsPixel(full.rgba, full.width, col, row, bgra, stride, 0, 0)
  }

  lemma MulMono(a: nat, b: nat, w: nat)
    requires a <= b
    ensures a * w <= b * w
  {
  }

  /** Each row of a crop is a slice of the image. */
  lemma CropRow(full: Image, x: nat, width: nat, y: nat, row: nat, base: nat)
    requires base == (y + row) * (4 * full.width) && base + 4 * x + 4 * width <= |full.rgba|
    ensures CropRows(full, x, width, y)(row) == full.rgba[base + 4 * x..base + 4 * x + 4 * width]
  {
    FlatOffset(y + row, full.width, x);
    assert CropRows(full, x, width, y)(row) == SliceAt(full.rgba, base + 4 * x, 4 * width);
  }

  /** A region that is shown lies inside the image. */
  lemma RowInside(full: Image, bgra: seq<Byte>, stride: nat, x: nat, y: nat, width: nat, height: nat, row: nat,
                  base: nat)
    requires ShowsRegion(full, bgra, stride, x, y, width, height)
    requires width > 0 && row < height && base == (y + row) * (4 * full.width)
    ensures base + 4 * x + 4 * width <= |full.rgba|
  {
    assert ShowsPixel(full.rgba, full.width, x + width - 1, y + row, bgra, stride, 0, 0);
  }

  lemma SliceAtMost(b: seq<Byte>, start: nat, len: nat)
    ensures |SliceAt(b, start, len)| <= len
  {
  }

  lemma CropRowLength(full: Image, bgra: seq<Byte>, stride: nat, x: nat, y: nat, width: nat, height: nat, row: nat)
    requires ShowsRegion(full, bgra, stride, x, y, width, height) && row < height
    ensures |CropRows(full, x, width, y)(row)| == 4 * width
  {
    if width > 0 {
      var base := (y + row) * (4 * full.width);
      RowInside(full, bgra, stride, x, y, width, height, row, base);
      CropRow(full, x, width, y, row, base);
    } else {
      SliceAtMost(full.rgba, ((y + row) * full.width + x) * 4, width * 4);
    }
  }

  lemma CropRowsFull(full: Image, bgra: seq<Byte>, stride: nat, x: nat, y: nat, width: nat, height: nat)
    requires ShowsRegion(full, bgra, stride, x, y, width, height)
    ensures FullRows(CropRows(full, x, width, y), width, height)
  {
    forall row: nat | row < height
      ensures |CropRows(full, x, width, y)(row)| == 4 * width
    {
      CropRowLength(full, bgra, stride, x, y, width, height, row);
    }
  }

  /** A pixel of a row of the crop is a pixel of the image. */
  lemma CroppedPixel(full: Image, x: nat, width: nat, y: nat, row: nat, col: nat, base: nat, bgra: seq<Byte>, from: nat)
    requires base == (y + row) * (4 * full.width) && base + 4 * x + 4 * width <= |full.rgba|
    requires col < width && SamePixel(full.rgba, base + 4 * (x + col), bgra, from)
    ensures SamePixel(CropRows(full, x, width, y)(row), 4 * col, bgra, from)
  {
    CropRow(full, x, width, y, row, base);
  }

  lemma {:induction false} CropPixel(full: Image, bgra: seq<Byte>, stride: nat, x: nat, y: nat, width: nat,
                                     height: nat, col: nat, row: nat)
    requires ShowsRegion(full, bgra, stride, x, y, width, height)
    requires FullRows(CropRows(full, x, width, y), width, height)
    requires col < width && row < height
    ensures ShowsPixel(Parts(CropRows(full, x, width, y), height), width, col, row, bgra, stride, x, y)
  {
    var base, from := (y + row) * (4 * full.width), stride * (y + row) + 4 * (x + col);
    RowInside(full, bgra, stride, x, y, width, height, row, base);
    assert ShowsPixel(full.rgba, full.width, x + col, y + row, bgra, stride, 0, 0);
    CroppedPixel(full, x, width, y, row, col, base, bgra, from);
    PixelInPart(CropRows(full, x, width, y), height, 4 * width, row, 4 * col, bgra, from);
  }

  /** Cropping an image that shows a region of the source shows that region and nothing else. */
  lemma {:induction false} CropShows(full: Image, bgra: seq<Byte>, stride: nat, x: nat, y: nat, width: nat, height: nat)
    requires ShowsRegion(full, bgra, stride, x, y, width, height)
    ensures Shows(Parts(CropRows(full, x, width, y), height), width, height, bgra, stride, x, y)
  {
    CropRowsFull(full, bgra, stride, x, y, width, height);
    FullRowsLength(CropRows(full, x, width, y), width, height);
    forall col: nat, row: nat | col < width && row < height
      ensures ShowsPixel(Parts(CropRows(full, x, width, y), height), width, col, row, bgra, stride, x, y)
    {
      CropPixel(full, bgra, stride, x, y, width, height, col, row);
    }
  }

  /** An image of the whole display shows every region inside it. */
  lemma WholeShowsRegion(full: Image, bgra: seq<Byte>, stride: nat, x: nat, y: nat, width: nat, height: nat)
    requires Shows(full.rgba, full.width, full.height, bgra, stride, 0, 0)
    requires x + width <= full.width && y + height <= full.height
    ensures ShowsRegion(full, bgra, stride, x, y, width, height)
  {
    forall col: nat, row: nat | x <= col < x + width && y <= row < y + height
      ensures ShowsPixel(full.rgba, full.width, col, row, bgra, stride, 0, 0)
    {
      assert ShowsPixel(full.rgba, full.width, col, row, bgra, stride, 0, 0);
    }
  }

  // ---------------------------------------------------------------- short frames

  /** Rows of the source do not overlap, so a pixel is held if a later one is. */
  lemma EarlierHeld(bgra: seq<Byte>, stride: nat, width: nat, col: nat, row: nat, col2: nat, row2: nat)
    requires 4 * width <= stride && col < width && (row < row2 || (row == row2 && col <= col2))
    requires HoldsPixel(bgra, stride, col2, row2)
    ensures HoldsPixel(bgra, stride, col, row)
  {
    if row < row2 {
      MulMono(row + 1, row2, stride);
      assert stride * (row + 1) == stride * row + stride;
      assert (row + 1) * stride == stride * (row + 1) && row2 * stride == stride * row2;
    }
  }

  /** A held pixel lands at its place: all before it are held, too. */
  lemma {:induction false} HeldPixel(bgra: seq<Byte>, stride: nat, width: nat, height: nat, col: nat, row: nat)
    requires 4 * width <= stride && col < width && row < height && HoldsPixel(bgra, stride, col, row)
    ensures ShowsPixel(Parts(RowsOf(bgra, stride, width), height), width, col, row, bgra, stride, 0, 0)
  {
    forall r: nat | r < row
      ensures |RowsOf(bgra, stride, width)(r)| == 4 * width
    {
      FullRow(bgra, stride, width, r, col, row);
    }
    PixelInImage(bgra, stride, width, height, col, row);
  }

  lemma FullRow(bgra: seq<Byte>, stride: nat, width: nat, row: nat, col2: nat, row2: nat)
    requires 4 * width <= stride && row < row2 && HoldsPixel(bgra, stride, col2, row2)
    ensures |RowsOf(bgra, stride, width)(row)| == 4 * width
  {
    forall c: nat | c < width
      ensures |PixelsFrom(bgra, stride * row)(c)| == 4
    {
      EarlierHeld(bgra, stride, width, c, row, col2, row2);
    }
    PartsLength(PixelsFrom(bgra, stride * row), width, 4);
  }

  /** If the last pixel of a region is held, the image shows the region. */
  lemma HeldShowsRegion(full: Image, bgra: seq<Byte>, stride: nat, x: nat, y: nat, width: nat, height: nat)
    requires full.rgba == Parts(RowsOf(bgra, stride, full.width), full.height) && 4 * full.width <= stride
    requires width > 0 && height > 0 && x + width <= full.width && y + height <= full.height
    requires HoldsPixel(bgra, stride, x + width - 1, y + height - 1)
    ensures ShowsRegion(full, bgra, stride, x, y, width, height)
  {
    forall col: nat, row: nat | x <= col < x + width && y <= row < y + height
      ensures ShowsPixel(full.rgba, full.width, col, row, bgra, stride, 0, 0)
    {
      EarlierHeld(bgra, stride, full.width, col, row, x + width - 1, y + height - 1);
      HeldPixel(bgra, stride, full.width, full.height, col, row);
    }
  }

  /** If a pixel is not held, its row and the image end before it. */
  lemma RowEndsBefore(bgra: seq<Byte>, stride: nat, width: nat, col: nat, row: nat)
    requires 4 * width <= stride && col < width && !HoldsPixel(bgra, stride, col, row)
    ensures |RowsOf(bgra, stride, width)(row)| <= 4 * col
  {
    EmptyFrom(bgra, stride, width, col, row, col, row);
    PixelsAtMost(bgra, stride * row, col);
  }

  lemma {:induction false} PixelsAtMost(bgra: seq<Byte>, start: nat, n: nat)
    ensures |Parts(PixelsFrom(bgra, start), n)| <= 4 * n
  {
    PartsAtMost(PixelsFrom(bgra, start), n, 4);
  }

  lemma {:induction false} EndsBefore(bgra: seq<Byte>, stride: nat, width: nat, height: nat, col: nat, row: nat,
                                      base: nat)
    requires 4 * width <= stride && col < width && row < height && base == row * (4 * width)
    requires !HoldsPixel(bgra, stride, col, row)
    ensures |Parts(RowsOf(bgra, stride, width), height)| <= base + 4 * col
  {
    var rows := RowsOf(bgra, stride, width);
    forall r: nat | row < r < height
      ensures rows(r) == []
    {
      EmptyFrom(bgra, stride, width, 0, r, col, row);
    }
    EmptyTail(rows, row + 1, height);
    RowsAtMost(bgra, stride, width, row, base);
    RowEndsBefore(bgra, stride, width, col, row);
    assert Parts(rows, row + 1) == Parts(rows, row) + rows(row);
  }

  /** A row has no pixels from a column on, if an earlier pixel is not held. */
  lemma {:induction false} EmptyFrom(bgra: seq<Byte>, stride: nat, width: nat, from: nat, row: nat, col0: nat,
                                     row0: nat)
    requires 4 * width <= stride && col0 < width && from <= width && (row0 < row || (row0 == row && col0 <= from))
    requires !HoldsPixel(bgra, stride, col0, row0)
    ensures RowsOf(bgra, stride, width)(row) == Parts(PixelsFrom(bgra, stride * row), from)
  {
    forall c: nat | from <= c < width
      ensures PixelsFrom(bgra, stride * row)(c) == []
    {
      if HoldsPixel(bgra, stride, c, row) { EarlierHeld(bgra, stride, width, col0, row0, c, row); }
    }
    EmptyTail(PixelsFrom(bgra, stride * row), from, width);
  }

  /** A crop that reaches past the end of the image is too short. */
  lemma CropTooShort(full: Image, x: nat, y: nat, width: nat, last: nat, base: nat)
    requires width > 0 && base == (y + last) * (4 * full.width) && |full.rgba| < base + 4 * x + 4 * width
    ensures |Parts(CropRows(full, x, width, y), last + 1)| < (last + 1) * (4 * width)
  {
    var rows := CropRows(full, x, width, y);
    FlatOffset(y + last, full.width, x);
    assert rows(last) == SliceAt(full.rgba, base + 4 * x, 4 * width);
    forall r: nat | r < last
      ensures |rows(r)| <= 4 * width
    {
      SliceAtMost(full.rgba, ((y + r) * full.width + x) * 4, width * 4);
    }
    PartsAtMost(rows, last, 4 * width);
    assert (last + 1) * (4 * width) == last * (4 * width) + 4 * width;
  }

  lemma CropNotHeld(full: Image, bgra: seq<Byte>, stride: nat, x: nat, y: nat, width: nat, last: nat)
    requires full.rgba == Parts(RowsOf(bgra, stride, full.width), full.height) && 4 * full.width <= stride
    requires width > 0 && x + width <= full.width && y + last < full.height
    requires !HoldsPixel(bgra, stride, x + width - 1, y + last)
    ensures |Parts(CropRows(full, x, width, y), last + 1)| < (last + 1) * (4 * width)
  {
    var base := (y + last) * (4 * full.width);
    EndsBefore(bgra, stride, full.width, full.height, x + width - 1, y + last, base);
    CropTooShort(full, x, y, width, last, base);
  }

  /** A crop of any frame, complete or not, has its full size exactly if the frame holds the last
      pixel of the region, and then it shows the region. */
  lemma {:induction false} CropExactly(full: Image, bgra: seq<Byte>, stride: nat, x: nat, y: nat, width: nat,
                                       height: nat)
    requires full.rgba == Parts(RowsOf(bgra, stride, full.width), full.height) && 4 * full.width <= stride
    requires width > 0 && height > 0 && x + width <= full.width && y + height <= full.height
    ensures |Parts(CropRows(full, x, width, y), height)| == height * (4 * width) <==>
            HoldsPixel(bgra, stride, x + width - 1, y + height - 1)
    ensures HoldsPixel(bgra, stride, x + width - 1, y + height - 1) ==>
            Shows(Parts(CropRows(full, x, width, y), height), width, height, bgra, stride, x, y)
  {
    if HoldsPixel(bgra, stride, x + width - 1, y + height - 1) {
      HeldShowsRegion(full, bgra, stride, x, y, width, height);
      CropShows(full, bgra, stride, x, y, width, height);
    } else {
      CropNotHeld(full, bgra, stride, x, y, width, height - 1);
    }
  }

  /** The same for the whole display. */
  lemma {:induction false} WholeExactly(bgra: seq<Byte>, stride: nat, width: nat, height: nat, size: nat)
    requires width > 0 && height > 0 && 4 * width <= stride && size == height * (4 * width)
    ensures Complete(bgra, stride, width, height) <==> HoldsPixel(bgra, stride, width - 1, height - 1)
    ensures |Parts(RowsOf(bgra, stride, width), height)| == size <==> Complete(bgra, stride, width, height)
  {
    if HoldsPixel(bgra, stride, width - 1, height - 1) {
      forall col: nat, row: nat | col < width && row < height
        ensures HoldsPixel(bgra, stride, col, row)
      {
        EarlierHeld(bgra, stride, width, col, row, width - 1, height - 1);
      }
    }
    ShowsExactly(bgra, stride, width, height, size);
  }

  // ---------------------------------------------------------------- the capture

  /** A region keeps `kept` of `size` from `origin` on: negative coordinates count as 0, and an extent that
      is negative or reaches too far is cut at the far edge. */
  ghost predicate Clamped(at: int, extent: int, size: nat, origin: int, kept: int) {
    && origin == (if at < 0 then 0 else at)
    && kept == if extent < 0 || origin + extent > size then size - origin else extent
  }

  /** Conversion followed by the crop: an error exactly when nothing is left, and otherwise the
      region clamped inside the display.  If the rows of the source do not overlap, the result has
      its full size exactly if the frame holds the last pixel of that region, and then, as for
      every complete frame, it is the region of the display, byte for byte. */
  method CaptureRgba(bgra: seq<Byte>, stride: nat, width: nat, height: nat, region: Option<CropRegion>)
    returns (r: Result<Image, string>, ghost x: nat, ghost y: nat)
    requires width < USIZE / 2 && height < USIZE / 2
    ensures r.Err? <==>
              && region.Some?
              && (|| region.value.width == 0 || region.value.height == 0
                  || region.value.x >= width || region.value.y >= height
                  || width == 0 || height == 0)
    ensures r.Ok? && region.None? ==> x == 0 && y == 0 && r.value.width == width && r.value.height == height
    ensures r.Ok? && region.Some? ==>
              && Clamped(region.value.x, region.value.width, width, x, r.value.width)
              && Clamped(region.value.y, region.value.height, height, y, r.value.height)
    ensures r.Ok? ==> x + r.value.width <= width && y + r.value.height <= height
    ensures r.Ok? && Complete(bgra, stride, width, height) ==> ShowsAt(r.value, bgra, stride, x, y)
    ensures r.Ok? && 4 * width <= stride && r.value.width > 0 && r.value.height > 0 ==>
              ExactIfHeld(r.value, bgra, stride, x, y)
  {
    x, y := 0, 0;
    var rgba := ToRgba(bgra, stride, width, height);
    var full := Image(rgba, width, height);
    match region {
      case None =>
        WholeMeaning(full, bgra, stride);
        r := Ok(full);
      case Some(crop) =>
        r := Crop(full, crop);
        x, y := Origin(crop.x), Origin(crop.y);
        KeptMeaning(crop.x, crop.width, width);
        KeptMeaning(crop.y, crop.height, height);
        if r.Ok? {
          CropMeaning(full, bgra, stride, x, y, r.value);
        }
    }
  }

  ghost predicate ShowsAt(image: Image, bgra: seq<Byte>, stride: nat, x: nat, y: nat) {
    Shows(image.rgba, image.width, image.height, bgra, stride, x, y)
  }

  ghost predicate ExactIfHeld(image: Image, bgra: seq<Byte>, stride: nat, x: nat, y: nat)
    requires image.width > 0 && image.height > 0
  {
    var held := HoldsPixel(bgra, stride, x + image.width - 1, y + image.height - 1);
    && (|image.rgba| == image.height * (4 * image.width) <==> held)
    && (held ==> ShowsAt(image, bgra, stride, x, y))
  }

  lemma WholeMeaning(full: Image, bgra: seq<Byte>, stride: nat)
    requires full.rgba == Parts(RowsOf(bgra, stride, full.width), full.height)
    ensures Complete(bgra, stride, full.width, full.height) ==> ShowsAt(full, bgra, stride, 0, 0)
    ensures 4 * full.width <= stride && full.width > 0 && full.height > 0 ==> ExactIfHeld(full, bgra, stride, 0, 0)
  {
    if Complete(bgra, stride, full.width, full.height) { ConversionShows(bgra, stride, full.width, full.height); }
    if 4 * full.width <= stride && full.width > 0 && full.height > 0 {
      WholeExactly(bgra, stride, full.width, full.height, full.height * (4 * full.width));
    }
  }

  lemma CropMeaning(full: Image, bgra: seq<Byte>, stride: nat, x: nat, y: nat, image: Image)
    requires full.rgba == Parts(RowsOf(bgra, stride, full.width), full.height)
    requires image.rgba == Parts(CropRows(full, x, image.width, y), image.height)
    requires x + image.width <= full.width && y + image.height <= full.height && image.width > 0 && image.height > 0
    ensures Complete(bgra, stride, full.width, full.height) ==> ShowsAt(image, bgra, stride, x, y)
    ensures 4 * full.width <= stride ==> ExactIfHeld(image, bgra, stride, x, y)
  {
    if Complete(bgra, stride, full.width, full.height) {
      ConversionShows(bgra, stride, full.width, full.height);
      WholeShowsRegion(full, bgra, stride, x, y, image.width, image.height);
      CropShows(full, bgra, stride, x, y, image.width, image.height);
    }
    if 4 * full.width <= stride { CropExactly(full, bgra, stride, x, y, image.width, image.height); }
  }
}
