/** Screen comparison of src/mcp_server.rs: a flat scan over all pixels and a scan cell by
    cell over a 3x3 grid, which must agree.  Percentages are exact rationals.  `u32`
    arithmetic wraps, as it does in the release profile. */
module ScreenDiff {
  import opened Common

  // ---------------------------------------------------------------- one pixel

  function AbsDiff(a: Byte, b: Byte): nat {
    if a < b then b - a else a - b
  }

  /** Red, green or blue of the pixels at byte `i` differ by more than the threshold. */
  predicate Differs(buf1: seq<Byte>, buf2: seq<Byte>, i: nat, threshold: Byte)
    requires i + 2 < |buf1| && i + 2 < |buf2|
  {
    || AbsDiff(buf1[i], buf2[i]) > threshold
    || AbsDiff(buf1[i + 1], buf2[i + 1]) > threshold
    || AbsDiff(buf1[i + 2], buf2[i + 2]) > threshold
  }

  // ---------------------------------------------------------------- counting pixels

  /** How many pixel numbers in [lo, hi) satisfy `f`. */
  function Count(f: nat -> bool, lo: nat, hi: nat): nat
    decreases hi - lo
  {
    if lo >= hi then 0 else Count(f, lo, hi - 1) + if f(hi - 1) then 1 else 0
  }

  lemma {:induction false} CountSplit(f: nat -> bool, lo: nat, mid: nat, hi: nat)
    requires lo <= mid <= hi
    ensures Count(f, lo, mid) + Count(f, mid, hi) == Count(f, lo, hi)
    decreases hi
  {
    if mid < hi { CountSplit(f, lo, mid, hi - 1); }
  }

  lemma {:induction false} CountSame(f: nat -> bool, g: nat -> bool, lo: nat, hi: nat)
    requires forall p :: lo <= p < hi ==> f(p) == g(p)
    ensures Count(f, lo, hi) == Count(g, lo, hi)
    decreases hi
  {
    if lo < hi { CountSame(f, g, lo, hi - 1); }
  }

  lemma {:induction false} CountBounds(f: nat -> bool, lo: nat, hi: nat)
    requires lo <= hi
    ensures Count(f, lo, hi) <= hi - lo
    ensures (forall p :: lo <= p < hi ==> f(p)) ==> Count(f, lo, hi) == hi - lo
    ensures Count(f, lo, hi) == 0 <==> forall p :: lo <= p < hi ==> !f(p)
    decreases hi
  {
    if lo < hi { CountBounds(f, lo, hi - 1); }
  }

  lemma {:induction false} CountMonotone(f: nat -> bool, g: nat -> bool, lo: nat, hi: nat)
    requires forall p :: lo <= p < hi && f(p) ==> g(p)
    ensures Count(f, lo, hi) <= Count(g, lo, hi)
    decreases hi
  {
    if lo < hi { CountMonotone(f, g, lo, hi - 1); }
  }

  // ---------------------------------------------------------------- the flat scan

  /** Pixel number `p` differs, as the flat scan sees it. */
  function FlatPixels(buf1: seq<Byte>, buf2: seq<Byte>, threshold: Byte): nat -> bool {
    (p: nat) => 4 * p + 2 < |buf1| && 4 * p + 2 < |buf2| && Differs(buf1, buf2, 4 * p, threshold)
  }

  function Percent(part: nat, whole: nat): real
    requires whole > 0
  {
    part as real / whole as real * 100.0
  }

  /** Number of groups the scan visits: it steps by four from zero. */
  function Groups(len: nat): nat { (len + 3) / 4 }

  /** The source indexes out of range when the last group has one or two bytes, and divides
      by zero when there are only three bytes; every other input is handled. */
  method PixelDiffPercentage(buf1: seq<Byte>, buf2: seq<Byte>, threshold: Byte) returns (percent: real)
    requires |buf1| == |buf2| ==> |buf1| % 4 == 0 || (|buf1| % 4 == 3 && |buf1| > 3)
    ensures percent ==
      if |buf1| != |buf2| || buf1 == [] then 100.0
      else Percent(Count(FlatPixels(buf1, buf2, threshold), 0, Groups(|buf1|)), |buf1| / 4)
  {
    if |buf1| != |buf2| || buf1 == [] {
      return 100.0;
    }
    var pixelCount := |buf1| / 4;
    var changed := 0;
    var i := 0;
    ghost var p := 0; // the pixel number
    while i < |buf1|
      invariant i == 4 * p && p <= Groups(|buf1|)
      invariant changed == Count(FlatPixels(buf1, buf2, threshold), 0, p)
    {
      if Differs(buf1, buf2, i, threshold) {
        changed := changed + 1;
      }
      i := i + 4;
      p := p + 1;
    }
    return Percent(changed, pixelCount);
  }

  // ---------------------------------------------------------------- the grid scan

  /** A cell boundary: cell `g` of three starts at g * (size / 3); the last one runs to the end. */
  function CellLo(g: nat, size: nat): nat { g * (size / 3) }

  function CellHi(g: nat, size: nat): nat { if g == 2 then size else CellLo(g, size) + size / 3 }

  /** Byte offset the grid scan computes in wrapping `u32` arithmetic. */
  function GridOffset(p: nat): nat { 4 * p % U32 }

  lemma ModShift(k: nat, x: nat)
    ensures (k * U32 + x) % U32 == x % U32
  {
  }

  lemma WrappedSum(a: nat, b: nat)
    ensures (a % U32 + b) % U32 == (a + b) % U32
  {
    ModShift(a / U32, a % U32 + b);
  }

  lemma WrappedQuadruple(a: nat)
    ensures a % U32 * 4 % U32 == GridOffset(a)
  {
    ModShift(4 * (a / U32), 4 * (a % U32));
  }

  lemma WrappedOffset(start: nat, col: nat)
    ensures (start % U32 + col) % U32 * 4 % U32 == GridOffset(start + col)
  {
    WrappedSum(start, col);
    WrappedQuadruple(start + col);
  }

  /** Both buffers hold pixel number `p`, as the grid scan sees it. */
  predicate CoveredAt(buf1: seq<Byte>, buf2: seq<Byte>, p: nat) {
    GridOffset(p) + 3 < |buf1| && GridOffset(p) + 3 < |buf2|
  }

  predicate ChangedAt(buf1: seq<Byte>, buf2: seq<Byte>, p: nat) {
    CoveredAt(buf1, buf2, p) && Differs(buf1, buf2, GridOffset(p), 10)
  }

  function Covered(buf1: seq<Byte>, buf2: seq<Byte>): nat -> bool {
    (p: nat) => CoveredAt(buf1, buf2, p)
  }

  function GridPixels(buf1: seq<Byte>, buf2: seq<Byte>): nat -> bool {
    (p: nat) => ChangedAt(buf1, buf2, p)
  }

  /** How many pixels satisfy `f` in columns [x0, x1) of the row that starts at pixel `start`. */
  function RowCount(f: nat -> bool, start: nat, x0: nat, x1: nat): nat {
    Count(f, start + x0, start + x1)
  }

  /** How many pixels of the rectangle [x0, x1) x [y0, y1) satisfy `f`. */
  function RectCount(f: nat -> bool, width: nat, x0: nat, x1: nat, y0: nat, y1: nat): nat
    decreases y1 - y0
  {
    if y0 >= y1 then 0
    else RectCount(f, width, x0, x1, y0, y1 - 1) + RowCount(f, (y1 - 1) * width, x0, x1)
  }

  /** Cells are numbered row by row, as the labels are. */
  function CellCount(f: nat -> bool, width: nat, height: nat, cell: nat): nat {
    RectCount(f, width, CellLo(cell % 3, width), CellHi(cell % 3, width),
              CellLo(cell / 3, height), CellHi(cell / 3, height))
  }

  function CellsUpTo(f: nat -> bool, width: nat, height: nat, k: nat): nat {
    if k == 0 then 0 else CellsUpTo(f, width, height, k - 1) + CellCount(f, width, height, k - 1)
  }

  datatype Area =
    | TopLeft | TopCenter | TopRight
    | MiddleLeft | Center | MiddleRight
    | BottomLeft | BottomCenter | BottomRight

  datatype Intensity = Low | Medium | High

  datatype Region = Region(area: Area, changedPercentage: real, intensity: Intensity)

  const LABELS: seq<Area> :=
    [TopLeft, TopCenter, TopRight, MiddleLeft, Center, MiddleRight, BottomLeft, BottomCenter, BottomRight]

  /** One decimal, halves rounded away from zero (all percentages are non-negative). */
  function Rounded(percent: real): real {
    (percent * 10.0 + 0.5).Floor as real / 10.0
  }

  function Describe(cell: nat, percent: real): Region
    requires cell < 9
  {
    Region(LABELS[cell], Rounded(percent), if percent > 30.0 then High else if percent > 5.0 then Medium else Low)
  }

  /** What the grid scan reports for one cell; the counters are `u32`. */
  function CellReport(buf1: seq<Byte>, buf2: seq<Byte>, width: nat, height: nat, cell: nat): seq<Region>
    requires cell < 9
  {
    var changed := CellCount(GridPixels(buf1, buf2), width, height, cell) % U32;
    var total := CellCount(Covered(buf1, buf2), width, height, cell) % U32;
    if total > 0 && Percent(changed, total) > 0.5 then [Describe(cell, Percent(changed, total))] else []
  }

  /** The reports of cells 0..k-1, in order. */
  function Gather(report: nat -> seq<Region>, k: nat): seq<Region> {
    if k == 0 then [] else Gather(report, k - 1) + report(k - 1)
  }

  function Reports(buf1: seq<Byte>, buf2: seq<Byte>, width: nat, height: nat): nat -> seq<Region> {
    (cell: nat) => if cell < 9 then CellReport(buf1, buf2, width, height, cell) else []
  }

  /** What the whole grid scan reports. */
  function Report(buf1: seq<Byte>, buf2: seq<Byte>, width: nat, height: nat): seq<Region> {
    Gather(Reports(buf1, buf2, width, height), 9)
  }

  function Bump(counter: nat, hit: bool): nat { if hit then (counter + 1) % U32 else counter }

  /** A `u32` counter bumped at every pixel number in [lo, hi) that satisfies `f`. */
  function Bumped(counter: nat, f: nat -> bool, lo: nat, hi: nat): nat
    decreases hi
  {
    if lo >= hi then counter else Bump(Bumped(counter, f, lo, hi - 1), f(hi - 1))
  }

  lemma {:induction false} BumpedIsCount(counter: nat, f: nat -> bool, lo: nat, hi: nat)
    requires counter < U32
    ensures Bumped(counter, f, lo, hi) == (counter + Count(f, lo, hi)) % U32
    decreases hi
  {
    if lo < hi {
      BumpedIsCount(counter, f, lo, hi - 1);
      WrappedSum(counter + Count(f, lo, hi - 1), 1);
    }
  }

  /** One pixel of the innermost loop: both `u32` counters. */
  method ScanPixel(buf1: seq<Byte>, buf2: seq<Byte>, start: nat, col: nat, changed0: nat, total0: nat)
    returns (changed: nat, total: nat)
    ensures changed == Bump(changed0, ChangedAt(buf1, buf2, start + col))
    ensures total == Bump(total0, CoveredAt(buf1, buf2, start + col))
  {
    var i := (start % U32 + col) % U32 * 4 % U32;
    WrappedOffset(start, col);
    assert i == GridOffset(start + col);
    changed, total := changed0, total0;
    if i + 3 < |buf1| && i + 3 < |buf2| {
      total := (total + 1) % U32;
      if Differs(buf1, buf2, i, 10) {
        changed := (changed + 1) % U32;
      }
    }
  }

  /** The innermost loop: one row of a cell, starting from the counters reached so far. */
  method ScanRow(buf1: seq<Byte>, buf2: seq<Byte>, start: nat, x0: nat, x1: nat, changed0: nat, total0: nat)
    returns (changed: nat, total: nat)
    requires x0 <= x1
    ensures changed == Bumped(changed0, GridPixels(buf1, buf2), start + x0, start + x1)
    ensures total == Bumped(total0, Covered(buf1, buf2), start + x0, start + x1)
  {
    changed, total := changed0, total0;
    for col := x0 to x1
      invariant changed == Bumped(changed0, GridPixels(buf1, buf2), start + x0, start + col)
      invariant total == Bumped(total0, Covered(buf1, buf2), start + x0, start + col)
    {
      changed, total := ScanPixel(buf1, buf2, start, col, changed, total);
    }
  }

  /** A `u32` counter of a rectangle after one more row. */
  lemma RowBumped(f: nat -> bool, width: nat, x0: nat, x1: nat, y0: nat, row: nat, start: nat)
    requires y0 <= row && start == row * width
    ensures Bumped(RectCount(f, width, x0, x1, y0, row) % U32, f, start + x0, start + x1)
         == RectCount(f, width, x0, x1, y0, row + 1) % U32
  {
    var count := RectCount(f, width, x0, x1, y0, row);
    assert RectCount(f, width, x0, x1, y0, row + 1) == count + RowCount(f, start, x0, x1);
    BumpedIsCount(count % U32, f, start + x0, start + x1);
    WrappedSum(count, RowCount(f, start, x0, x1));
  }

  /** The inner two loops: both counters of one rectangle. */
  method ScanCell(buf1: seq<Byte>, buf2: seq<Byte>, width: nat, x0: nat, x1: nat, y0: nat, y1: nat)
    returns (changed: nat, total: nat)
    requires x0 <= x1 && y0 <= y1
    ensures changed == RectCount(GridPixels(buf1, buf2), width, x0, x1, y0, y1) % U32
    ensures total == RectCount(Covered(buf1, buf2), width, x0, x1, y0, y1) % U32
  {
    ghost var diff, cov := GridPixels(buf1, buf2), Covered(buf1, buf2);
    changed, total := 0, 0;
    for row := y0 to y1
      invariant changed == RectCount(diff, width, x0, x1, y0, row) % U32
      invariant total == RectCount(cov, width, x0, x1, y0, row) % U32
    {
      var start := row * width;
      RowBumped(diff, width, x0, x1, y0, row, start);
      RowBumped(cov, width, x0, x1, y0, row, start);
      changed, total := ScanRow(buf1, buf2, start, x0, x1, changed, total);
    }
  }

  lemma CellBounds(g: nat, size: nat)
    requires g < 3
    ensures CellLo(g, size) <= CellHi(g, size) <= size
    ensures g < 2 ==> CellHi(g, size) == CellLo(g + 1, size)
  {
  }

  /** The body of the two outer loops: count one cell and decide whether to report it. */
  method ReportCell(buf1: seq<Byte>, buf2: seq<Byte>, width: nat, height: nat, gx: nat, gy: nat)
    returns (regions: seq<Region>)
    requires gx < 3 && gy < 3
    ensures regions == CellReport(buf1, buf2, width, height, gy * 3 + gx)
  {
    var cell := gy * 3 + gx;
    assert cell % 3 == gx && cell / 3 == gy;
    CellBounds(gx, width);
    CellBounds(gy, height);
    var changed, total := ScanCell(buf1, buf2, width, CellLo(gx, width), CellHi(gx, width),
                                   CellLo(gy, height), CellHi(gy, height));
    regions := [];
    if total > 0 {
      var percent := Percent(changed, total);
      if percent > 0.5 {
        regions := [Describe(cell, percent)];
      }
    }
  }

  method GridDiff(buf1: seq<Byte>, buf2: seq<Byte>, width: nat, height: nat) returns (regions: seq<Region>)
    requires width < U32 && height < U32
    ensures regions == Report(buf1, buf2, width, height)
  {
    ghost var report := Reports(buf1, buf2, width, height);
    regions := [];
    for gy := 0 to 3
      invariant regions == Gather(report, gy * 3)
    {
      for gx := 0 to 3
        invariant regions == Gather(report, gy * 3 + gx)
      {
        var reported := ReportCell(buf1, buf2, width, height, gx, gy);
        assert reported == report(gy * 3 + gx);
        regions := regions + reported;
      }
    }
  }

  // ---------------------------------------------------------------- the grid is a partition

  /** The cell along one axis that holds a coordinate. */
  function CellOf(x: nat, size: nat): nat {
    if x < size / 3 then 0 else if x < 2 * (size / 3) then 1 else 2
  }

  /** Every pixel lies in exactly one cell of its axis. */
  lemma CellUnique(x: nat, size: nat, g: nat)
    requires x < size && g < 3
    ensures CellLo(g, size) <= x < CellHi(g, size) <==> g == CellOf(x, size)
  {
    if g == 0 { assert CellLo(g, size) == 0; }
    else if g == 1 { assert CellLo(g, size) == size / 3; }
    else { assert CellLo(g, size) == 2 * (size / 3); }
  }

  lemma {:induction false} RowSplit(f: nat -> bool, width: nat, a: nat, b: nat, start: nat)
    requires a <= b <= width
    ensures RowCount(f, start, 0, a) + RowCount(f, start, a, b) + RowCount(f, start, b, width)
         == Count(f, start, start + width)
  {
    CountSplit(f, start, start + a, start + b);
    CountSplit(f, start, start + b, start + width);
  }

  lemma NextRow(y: nat, width: nat)
    requires y > 0
    ensures (y - 1) * width + width == y * width
  {
  }

  lemma {:induction false} BandSplit(f: nat -> bool, width: nat, a: nat, b: nat, y0: nat, y1: nat, lo: nat, hi: nat)
    requires a <= b <= width && y0 <= y1 && lo == y0 * width && hi == y1 * width
    ensures lo <= hi
    ensures RectCount(f, width, 0, a, y0, y1) + RectCount(f, width, a, b, y0, y1)
         + RectCount(f, width, b, width, y0, y1)
         == Count(f, lo, hi)
    decreases y1
  {
    if y0 < y1 {
      var start := (y1 - 1) * width;
      NextRow(y1, width);
      BandSplit(f, width, a, b, y0, y1 - 1, lo, start);
      RowSplit(f, width, a, b, start);
      CountSplit(f, lo, start, hi);
    }
  }

  lemma {:induction false} BandCells(f: nat -> bool, width: nat, height: nat, gy: nat, y0: nat, y1: nat, lo: nat,
                                     hi: nat)
    requires gy < 3 && y0 == CellLo(gy, height) && y1 == CellHi(gy, height)
    requires lo == y0 * width && hi == y1 * width
    ensures CellsUpTo(f, width, height, 3 * gy + 3) == CellsUpTo(f, width, height, 3 * gy) + Count(f, lo, hi)
  {
    CellBounds(gy, height);
    BandSplit(f, width, width / 3, 2 * (width / 3), y0, y1, lo, hi);
    BandParts(f, width, height, gy, 3 * gy, width / 3, 2 * (width / 3), y0, y1);
  }

  lemma BandParts(f: nat -> bool, width: nat, height: nat, gy: nat, k: nat, a: nat, b: nat, y0: nat, y1: nat)
    requires gy < 3 && k == 3 * gy && y0 == CellLo(gy, height) && y1 == CellHi(gy, height)
    requires a == width / 3 && b == 2 * (width / 3)
    ensures CellsUpTo(f, width, height, k + 3) == CellsUpTo(f, width, height, k)
      + RectCount(f, width, 0, a, y0, y1) + RectCount(f, width, a, b, y0, y1) + RectCount(f, width, b, width, y0, y1)
  {
    CellRect(f, width, height, k, 0, gy);
    CellRect(f, width, height, k + 1, 1, gy);
    CellRect(f, width, height, k + 2, 2, gy);
    CellEdges(width);
    ThreeMore(f, width, height, k);
  }

  lemma {:induction false} CellRect(f: nat -> bool, width: nat, height: nat, cell: nat, gx: nat, gy: nat)
    requires gx < 3 && cell == 3 * gy + gx
    ensures CellCount(f, width, height, cell) ==
            RectCount(f, width, CellLo(gx, width), CellHi(gx, width), CellLo(gy, height), CellHi(gy, height))
  {
    assert cell % 3 == gx && cell / 3 == gy;
  }

  lemma ThreeMore(f: nat -> bool, width: nat, height: nat, k: nat)
    ensures CellsUpTo(f, width, height, k + 3) == CellsUpTo(f, width, height, k)
      + CellCount(f, width, height, k) + CellCount(f, width, height, k + 1) + CellCount(f, width, height, k + 2)
  {
    assert CellsUpTo(f, width, height, k + 2) == CellsUpTo(f, width, height, k)
      + CellCount(f, width, height, k) + CellCount(f, width, height, k + 1);
  }

  lemma CellEdges(size: nat)
    ensures CellLo(0, size) == 0 && CellHi(0, size) == size / 3
    ensures CellLo(1, size) == size / 3 && CellHi(1, size) == 2 * (size / 3)
    ensures CellLo(2, size) == 2 * (size / 3) && CellHi(2, size) == size
  {
  }

  lemma {:induction false} Bands(f: nat -> bool, width: nat, height: nat, a: nat, b: nat, p: nat, q: nat, n: nat)
    requires a == height / 3 && b == 2 * (height / 3)
    requires p == a * width && q == b * width && n == height * width
    ensures CellsUpTo(f, width, height, 9) == Count(f, 0, p) + Count(f, p, q) + Count(f, q, n)
  {
    CellEdges(height);
    BandCells(f, width, height, 0, 0, a, 0, p);
    BandCells(f, width, height, 1, a, b, p, q);
    BandCells(f, width, height, 2, b, height, q, n);
  }

  lemma BandBounds(width: nat, height: nat, a: nat, b: nat, p: nat, q: nat, n: nat)
    requires a <= b <= height && p == a * width && q == b * width && n == height * width
    ensures p <= q <= n && n == width * height
  {
    MulMono(a, b, width);
    MulMono(b, height, width);
  }

  /** Four nested loops visit what one loop visits: the nine cells count every pixel once. */
  lemma {:induction false} GridPartition(f: nat -> bool, width: nat, height: nat)
    ensures CellsUpTo(f, width, height, 9) == Count(f, 0, width * height)
  {
    var a, b := height / 3, 2 * (height / 3);
    var p, q, n := a * width, b * width, height * width;
    BandBounds(width, height, a, b, p, q, n);
    Bands(f, width, height, a, b, p, q, n);
    ThreeParts(f, p, q, n);
  }

  lemma {:induction false} ThreeParts(f: nat -> bool, p: nat, q: nat, n: nat)
    requires p <= q <= n
    ensures Count(f, 0, p) + Count(f, p, q) + Count(f, q, n) == Count(f, 0, n)
  {
    CountSplit(f, 0, p, q);
    CountSplit(f, 0, q, n);
  }

  lemma MulMono(a: nat, b: nat, w: nat)
    requires a <= b
    ensures a * w <= b * w
  {
  }

  // ---------------------------------------------------------------- both scans agree

  /** Two captures of equal length.  A capture holds whole pixels, at most one for each position:
      fewer if the captured frame was short. */
  ghost predicate Frames(buf1: seq<Byte>, buf2: seq<Byte>, width: nat, height: nat) {
    |buf1| == |buf2| <= 4 * (width * height) && |buf1| % 4 == 0
  }

  lemma {:induction false} SameInRange(buf1: seq<Byte>, buf2: seq<Byte>, width: nat, height: nat)
    requires Frames(buf1, buf2, width, height) && 4 * (width * height) <= U32
    ensures Count(GridPixels(buf1, buf2), 0, width * height) == Count(FlatPixels(buf1, buf2, 10), 0, |buf1| / 4)
    ensures Count(Covered(buf1, buf2), 0, width * height) == |buf1| / 4
  {
    SameUpTo(buf1, buf2, |buf1| / 4, width * height);
  }

  lemma {:induction false} SameUpTo(buf1: seq<Byte>, buf2: seq<Byte>, held: nat, n: nat)
    requires |buf1| == |buf2| == 4 * held && held <= n && 4 * n <= U32
    ensures Count(GridPixels(buf1, buf2), 0, n) == Count(FlatPixels(buf1, buf2, 10), 0, held)
    ensures Count(Covered(buf1, buf2), 0, n) == held
  {
    forall p: nat | p < n
      ensures Covered(buf1, buf2)(p) <==> p < held
      ensures p < held ==> GridPixels(buf1, buf2)(p) == FlatPixels(buf1, buf2, 10)(p)
      ensures GridPixels(buf1, buf2)(p) ==> p < held
    {
      assert GridOffset(p) == 4 * p;
    }
    CountSame(GridPixels(buf1, buf2), FlatPixels(buf1, buf2, 10), 0, held);
    CountSplit(GridPixels(buf1, buf2), 0, held, n);
    CountBounds(GridPixels(buf1, buf2), held, n);
    CountSplit(Covered(buf1, buf2), 0, held, n);
    CountBounds(Covered(buf1, buf2), 0, held);
    CountBounds(Covered(buf1, buf2), held, n);
  }

  ghost predicate ScansAgree(width: nat, height: nat) {
    forall buf1, buf2 | Frames(buf1, buf2, width, height) ::
      CellsUpTo(GridPixels(buf1, buf2), width, height, 9) == Count(FlatPixels(buf1, buf2, 10), 0, |buf1| / 4)
  }

  /** For every image size, below 3 pixels included, the grid's changed counts sum to the flat
      scan's count on all buffers exactly when the byte offsets fit the grid's `u32`. */
  lemma ScansAgreeExactly(width: nat, height: nat)
    ensures ScansAgree(width, height) <==> 4 * (width * height) <= U32
  {
    if 4 * (width * height) <= U32 {
      forall buf1, buf2 | Frames(buf1, buf2, width, height)
        ensures CellsUpTo(GridPixels(buf1, buf2), width, height, 9) == Count(FlatPixels(buf1, buf2, 10), 0, |buf1| / 4)
      {
        SameInRange(buf1, buf2, width, height);
        GridPartition(GridPixels(buf1, buf2), width, height);
      }
    } else {
      WrapHidesAPixel(width, height, width * height);
    }
  }

  lemma OffsetAligned(p: nat)
    ensures GridOffset(p) == 4 * (p % (U32 / 4)) <= U32 - 4
  {
    ModShift(p / (U32 / 4), 4 * (p % (U32 / 4)));
  }

  lemma SameBytesSame(buf1: seq<Byte>, buf2: seq<Byte>, i: nat)
    requires i + 2 < |buf1| && i + 2 < |buf2|
    requires buf1[i] == buf2[i] && buf1[i + 1] == buf2[i + 1] && buf1[i + 2] == buf2[i + 2]
    ensures !Differs(buf1, buf2, i, 10)
  {
  }

  /** Two images that differ only in the first pixel whose offset wraps. */
  lemma HiddenPixel(n: nat) returns (buf1: seq<Byte>, buf2: seq<Byte>)
    requires 4 * n > U32
    ensures |buf1| == |buf2| == 4 * n && |buf1| / 4 == n
    ensures Count(FlatPixels(buf1, buf2, 10), 0, n) > 0 == Count(GridPixels(buf1, buf2), 0, n)
  {
    buf1 := seq(4 * n, _ => 0);
    buf2 := seq(4 * n, k => if k == U32 then 255 else 0);
    assert FlatPixels(buf1, buf2, 10)(U32 / 4);
    CountBounds(FlatPixels(buf1, buf2, 10), 0, n);
    forall p: nat | p < n
      ensures !GridPixels(buf1, buf2)(p)
    {
      OffsetAligned(p);
      SameBytesSame(buf1, buf2, GridOffset(p));
    }
    CountBounds(GridPixels(buf1, buf2), 0, n);
  }

  lemma WrapHidesAPixel(width: nat, height: nat, n: nat)
    requires n == width * height && 4 * n > U32
    ensures !ScansAgree(width, height)
  {
    var buf1, buf2 := HiddenPixel(n);
    assert Frames(buf1, buf2, width, height);
    GridPartition(GridPixels(buf1, buf2), width, height);
    assert CellsUpTo(GridPixels(buf1, buf2), width, height, 9) != Count(FlatPixels(buf1, buf2, 10), 0, |buf1| / 4);
  }

  // ---------------------------------------------------------------- what the report means

  function CellChanged(buf1: seq<Byte>, buf2: seq<Byte>, width: nat, height: nat, cell: nat): nat {
    CellCount(GridPixels(buf1, buf2), width, height, cell)
  }

  function CellTotal(buf1: seq<Byte>, buf2: seq<Byte>, width: nat, height: nat, cell: nat): nat {
    CellCount(Covered(buf1, buf2), width, height, cell)
  }

  lemma {:induction false} CellsBound(f: nat -> bool, width: nat, height: nat, cell: nat, k: nat)
    requires cell < k
    ensures CellCount(f, width, height, cell) <= CellsUpTo(f, width, height, k)
    decreases k
  {
    if cell < k - 1 { CellsBound(f, width, height, cell, k - 1); }
  }

  lemma CellFits(f: nat -> bool, width: nat, height: nat, cell: nat)
    requires cell < 9
    ensures CellCount(f, width, height, cell) <= width * height
  {
    GridPartition(f, width, height);
    CountBounds(f, 0, width * height);
    CellsBound(f, width, height, cell, 9);
  }

  lemma SmallMod(c: nat, n: nat)
    requires c <= n && 4 * n <= U32
    ensures c % U32 == c
  {
  }

  /** Without wrap-around the counters are the true cell counts. */
  lemma CountersExact(buf1: seq<Byte>, buf2: seq<Byte>, width: nat, height: nat, cell: nat)
    requires cell < 9 && 4 * (width * height) <= U32
    ensures CellChanged(buf1, buf2, width, height, cell) % U32 == CellChanged(buf1, buf2, width, height, cell)
    ensures CellTotal(buf1, buf2, width, height, cell) % U32 == CellTotal(buf1, buf2, width, height, cell)
  {
    CellFits(GridPixels(buf1, buf2), width, height, cell);
    CellFits(Covered(buf1, buf2), width, height, cell);
    SmallMod(CellChanged(buf1, buf2, width, height, cell), width * height);
    SmallMod(CellTotal(buf1, buf2, width, height, cell), width * height);
  }

  lemma {:induction false} GatherMember(report: nat -> seq<Region>, k: nat, r: Region)
    ensures r in Gather(report, k) <==> exists cell: nat :: cell < k && r in report(cell)
  {
    if k > 0 { GatherMember(report, k - 1, r); }
  }

  lemma ReportsItsArea(buf1: seq<Byte>, buf2: seq<Byte>, width: nat, height: nat, cell: nat, r: Region)
    requires cell < 9 && r in CellReport(buf1, buf2, width, height, cell)
    ensures r.area == LABELS[cell]
  {
  }

  /** What is reported for an area is what is reported for its cell. */
  lemma ReportedForCell(buf1: seq<Byte>, buf2: seq<Byte>, width: nat, height: nat, cell: nat, r: Region)
    requires cell < 9
    ensures r in Report(buf1, buf2, width, height) && r.area == LABELS[cell] <==>
            r in CellReport(buf1, buf2, width, height, cell)
  {
    var report := Reports(buf1, buf2, width, height);
    GatherMember(report, 9, r);
    if r in CellReport(buf1, buf2, width, height, cell) {
      ReportsItsArea(buf1, buf2, width, height, cell, r);
      assert r in report(cell);
    }
    if r in Report(buf1, buf2, width, height) && r.area == LABELS[cell] {
      var other: nat :| other < 9 && r in report(other);
      ReportsItsArea(buf1, buf2, width, height, other, r);
      DistinctLabels(other, cell);
    }
  }

  /** An area is reported exactly when more than 0.5% of the pixels of its cell changed, and
      then with its own percentage and intensity. */
  lemma ReportedExactly(buf1: seq<Byte>, buf2: seq<Byte>, width: nat, height: nat, cell: nat, r: Region)
    requires cell < 9 && 4 * (width * height) <= U32
    ensures var c, t := CellChanged(buf1, buf2, width, height, cell), CellTotal(buf1, buf2, width, height, cell);
      r in Report(buf1, buf2, width, height) && r.area == LABELS[cell] <==>
      200 * c > t > 0 && r == Describe(cell, Percent(c, t))
  {
    ReportedForCell(buf1, buf2, width, height, cell, r);
    CountersExact(buf1, buf2, width, height, cell);
    var c, t := CellChanged(buf1, buf2, width, height, cell), CellTotal(buf1, buf2, width, height, cell);
    if t > 0 { HalfPercent(c, t); }
  }

  lemma DistinctLabels(i: nat, j: nat)
    requires i < 9 && j < 9 && LABELS[i] == LABELS[j]
    ensures i == j
  {
  }

  lemma RealScale(a: real, b: real, w: real)
    requires w > 0.0
    ensures a > b <==> a * w > b * w
  {
    if a > b { assert (a - b) * w > 0.0; } else { assert (b - a) * w >= 0.0; }
  }

  lemma HalfOfReal(part: real, whole: real)
    requires whole > 0.0
    ensures part / whole * 100.0 > 0.5 <==> 200.0 * part > whole
  {
    var ratio := part / whole;
    assert ratio * whole == part;
    RealScale(200.0 * ratio, 1.0, whole);
    assert 200.0 * ratio * whole == 200.0 * (ratio * whole);
  }

  lemma HalfPercent(part: nat, whole: nat)
    requires whole > 0
    ensures Percent(part, whole) > 0.5 <==> 200 * part > whole
  {
    HalfOfReal(part as real, whole as real);
    assert 200.0 * (part as real) == (200 * part) as real;
  }

  // ---------------------------------------------------------------- in numbers

  ghost function Members(f: nat -> bool, lo: nat, hi: nat): set<nat> {
    set p: nat | lo <= p < hi && f(p)
  }

  lemma MembersMore(f: nat -> bool, lo: nat, hi: nat)
    requires lo < hi
    ensures Members(f, lo, hi) == Members(f, lo, hi - 1) + if f(hi - 1) then {hi - 1} else {}
  {
  }

  /** Counting pixels is taking the size of a set of pixel numbers. */
  lemma {:induction false} CountIsSize(f: nat -> bool, lo: nat, hi: nat)
    ensures Count(f, lo, hi) == |Members(f, lo, hi)|
    decreases hi
  {
    if lo < hi {
      CountIsSize(f, lo, hi - 1);
      MembersMore(f, lo, hi);
    } else {
      assert Members(f, lo, hi) == {};
    }
  }

  /** The bytes at `i + k` differ by more than `t`, up or down. */
  ghost predicate FarApart(buf1: seq<Byte>, buf2: seq<Byte>, i: nat, t: int, k: nat)
    requires i + k < |buf1| && i + k < |buf2|
  {
    buf1[i + k] - buf2[i + k] > t || buf1[i + k] - buf2[i + k] < -t
  }

  /** Red, green or blue, in either direction; alpha does not matter. */
  lemma FlatMeaning(buf1: seq<Byte>, buf2: seq<Byte>, t: Byte, p: nat)
    ensures FlatPixels(buf1, buf2, t)(p) <==>
      && 4 * p + 2 < |buf1| && 4 * p + 2 < |buf2|
      && exists k: nat :: k < 3 && FarApart(buf1, buf2, 4 * p, t, k)
  {
    if 4 * p + 2 < |buf1| && 4 * p + 2 < |buf2| { ThreeChannels(buf1, buf2, 4 * p, t); }
  }

  lemma ThreeChannels(buf1: seq<Byte>, buf2: seq<Byte>, i: nat, t: Byte)
    requires i + 2 < |buf1| && i + 2 < |buf2|
    ensures Differs(buf1, buf2, i, t) <==> exists k: nat :: k < 3 && FarApart(buf1, buf2, i, t, k)
  {
    assert FarApart(buf1, buf2, i, t, 0) <==> AbsDiff(buf1[i], buf2[i]) > t;
    assert FarApart(buf1, buf2, i, t, 1) <==> AbsDiff(buf1[i + 1], buf2[i + 1]) > t;
    assert FarApart(buf1, buf2, i, t, 2) <==> AbsDiff(buf1[i + 2], buf2[i + 2]) > t;
  }

  /** The same for the grid, at a difference of ten and the wrapped offset. */
  lemma GridMeaning(buf1: seq<Byte>, buf2: seq<Byte>, p: nat)
    ensures var at := 4 * p % 0x1_0000_0000;
      && (Covered(buf1, buf2)(p) <==> at + 3 < |buf1| && at + 3 < |buf2|)
      && (GridPixels(buf1, buf2)(p) <==>
            && at + 3 < |buf1| && at + 3 < |buf2|
            && exists k: nat :: k < 3 && FarApart(buf1, buf2, at, 10, k))
  {
    var at := GridOffset(p);
    if at + 3 < |buf1| && at + 3 < |buf2| { ThreeChannels(buf1, buf2, at, 10); }
  }

  /** The area of a column and row of the grid, and its intensity. */
  lemma DescribeMeaning(gx: nat, gy: nat, percent: real)
    requires gx < 3 && gy < 3
    ensures var r := Describe(gy * 3 + gx, percent);
      && (gy == 0 ==> r.area == [TopLeft, TopCenter, TopRight][gx])
      && (gy == 1 ==> r.area == [MiddleLeft, Center, MiddleRight][gx])
      && (gy == 2 ==> r.area == [BottomLeft, BottomCenter, BottomRight][gx])
      && (r.intensity == High <==> percent > 30.0)
      && (r.intensity == Medium <==> 5.0 < percent <= 30.0)
      && r.changedPercentage == Rounded(percent)
  {
  }

  /** A percentage is rounded to a multiple of a tenth, less than half a tenth down or at most half a
      tenth up. */
  lemma RoundedMeaning(percent: real)
    ensures var tenths := Rounded(percent) * 10.0; tenths == tenths.Floor as real
    ensures percent - 0.05 < Rounded(percent) <= percent + 0.05
  {
    var n := (percent * 10.0 + 0.5).Floor;
    assert Rounded(percent) == n as real / 10.0;
  }

  lemma PercentMeaning(part: nat, whole: nat)
    requires whole > 0
    ensures Percent(part, whole) * whole as real == 100.0 * part as real
  {
    var ratio := part as real / whole as real;
    assert ratio * whole as real == part as real;
    assert ratio * 100.0 * whole as real == 100.0 * (ratio * whole as real);
  }

  // ---------------------------------------------------------------- pigeonhole

  /** Cell `i` falls short of the ratio part/whole, or strictly so. */
  ghost predicate AtMost(f: nat -> bool, g: nat -> bool, width: nat, height: nat, part: nat, whole: nat, i: nat) {
    CellCount(f, width, height, i) * whole <= part * CellCount(g, width, height, i)
  }

  ghost predicate Below(f: nat -> bool, g: nat -> bool, width: nat, height: nat, part: nat, whole: nat, i: nat) {
    CellCount(f, width, height, i) * whole < part * CellCount(g, width, height, i)
  }

  lemma Distribute(a: nat, c: nat, b: nat, t: nat, part: nat, whole: nat)
    ensures (a + c) * whole == a * whole + c * whole && part * (b + t) == part * b + part * t
  {
  }

  /** If no cell beats the ratio part/whole and one falls short, the cells together fall short. */
  lemma {:induction false} CellsFallShort(f: nat -> bool, g: nat -> bool, width: nat, height: nat, part: nat,
                                          whole: nat, k: nat)
    requires forall i: nat :: i < k ==> AtMost(f, g, width, height, part, whole, i)
    ensures CellsUpTo(f, width, height, k) * whole <= part * CellsUpTo(g, width, height, k)
    ensures (exists i: nat :: i < k && Below(f, g, width, height, part, whole, i))
        ==> CellsUpTo(f, width, height, k) * whole < part * CellsUpTo(g, width, height, k)
    decreases k
  {
    if k > 0 {
      CellsFallShort(f, g, width, height, part, whole, k - 1);
      assert AtMost(f, g, width, height, part, whole, k - 1);
      Distribute(CellsUpTo(f, width, height, k - 1), CellCount(f, width, height, k - 1),
                 CellsUpTo(g, width, height, k - 1), CellCount(g, width, height, k - 1), part, whole);
    }
  }

  lemma {:induction false} NonemptyCell(g: nat -> bool, width: nat, height: nat, k: nat) returns (cell: nat)
    requires CellsUpTo(g, width, height, k) > 0
    ensures cell < k && CellCount(g, width, height, cell) > 0
    decreases k
  {
    if CellCount(g, width, height, k - 1) > 0 {
      cell := k - 1;
    } else {
      cell := NonemptyCell(g, width, height, k - 1);
    }
  }

  lemma {:induction false} RectMonotone(f: nat -> bool, g: nat -> bool, width: nat, x0: nat, x1: nat, y0: nat, y1: nat)
    requires forall p :: f(p) ==> g(p)
    ensures RectCount(f, width, x0, x1, y0, y1) <= RectCount(g, width, x0, x1, y0, y1)
    decreases y1
  {
    if y0 < y1 {
      RectMonotone(f, g, width, x0, x1, y0, y1 - 1);
      CountMonotone(f, g, (y1 - 1) * width + x0, (y1 - 1) * width + x1);
    }
  }

  lemma CellMonotone(f: nat -> bool, g: nat -> bool, width: nat, height: nat, i: nat)
    requires forall p :: f(p) ==> g(p)
    ensures CellCount(f, width, height, i) <= CellCount(g, width, height, i)
  {
    RectMonotone(f, g, width, CellLo(i % 3, width), CellHi(i % 3, width), CellLo(i / 3, height), CellHi(i / 3, height));
  }

  /** A weighted mean has a part at or above it: some nonempty cell is not below part/whole. */
  lemma MeanHasPart(f: nat -> bool, g: nat -> bool, width: nat, height: nat, part: nat, whole: nat)
    returns (cell: nat)
    requires forall p :: f(p) ==> g(p)
    requires part == CellsUpTo(f, width, height, 9) && whole == CellsUpTo(g, width, height, 9) > 0
    ensures cell < 9 && CellCount(g, width, height, cell) > 0 && !Below(f, g, width, height, part, whole, cell)
  {
    NotAllBelow(f, g, width, height, part, whole);
    cell :| cell < 9 && CellCount(g, width, height, cell) > 0 && !Below(f, g, width, height, part, whole, cell);
  }

  lemma NothingAtMost(f: nat -> bool, g: nat -> bool, width: nat, height: nat, part: nat, whole: nat, i: nat)
    requires CellCount(f, width, height, i) == 0
    ensures AtMost(f, g, width, height, part, whole, i)
  {
  }

  lemma {:induction false} NotAllBelow(f: nat -> bool, g: nat -> bool, width: nat, height: nat, part: nat, whole: nat)
    requires forall p :: f(p) ==> g(p)
    requires part == CellsUpTo(f, width, height, 9) && whole == CellsUpTo(g, width, height, 9) > 0
    ensures exists i: nat :: i < 9 && CellCount(g, width, height, i) > 0 && !Below(f, g, width, height, part, whole, i)
  {
    if forall i: nat :: i < 9 && CellCount(g, width, height, i) > 0 ==> Below(f, g, width, height, part, whole, i) {
      forall i: nat | i < 9
        ensures AtMost(f, g, width, height, part, whole, i)
      {
        if CellCount(g, width, height, i) == 0 {
          CellMonotone(f, g, width, height, i);
          NothingAtMost(f, g, width, height, part, whole, i);
        } else {
          assert Below(f, g, width, height, part, whole, i);
        }
      }
      var cell := NonemptyCell(g, width, height, 9);
      assert Below(f, g, width, height, part, whole, cell);
      CellsFallShort(f, g, width, height, part, whole, 9);
      assert false;
    }
  }

  /** Cell `cell` changed at least as much, proportionally, as the whole screen. */
  ghost predicate AtLeastOverall(buf1: seq<Byte>, buf2: seq<Byte>, width: nat, height: nat, cell: nat) {
    CellChanged(buf1, buf2, width, height, cell) * (|buf1| / 4)
      >= Count(FlatPixels(buf1, buf2, 10), 0, |buf1| / 4) * CellTotal(buf1, buf2, width, height, cell)
  }

  lemma BusiestCell(buf1: seq<Byte>, buf2: seq<Byte>, width: nat, height: nat) returns (cell: nat)
    requires Frames(buf1, buf2, width, height) && buf1 != [] && 4 * (width * height) <= U32
    ensures cell < 9 && CellTotal(buf1, buf2, width, height, cell) > 0
    ensures AtLeastOverall(buf1, buf2, width, height, cell)
  {
    var f, g := GridPixels(buf1, buf2), Covered(buf1, buf2);
    SameInRange(buf1, buf2, width, height);
    GridPartition(f, width, height);
    GridPartition(g, width, height);
    cell := MeanHasPart(f, g, width, height, Count(FlatPixels(buf1, buf2, 10), 0, |buf1| / 4), |buf1| / 4);
  }

  // ---------------------------------------------------------------- the tool

  datatype Frame = Frame(rgba: seq<Byte>, width: nat, height: nat)

  datatype Baseline = Baseline(frame: Frame, created: int)

  datatype Answer =
    | BaselineCaptured(id: string, width: nat, height: nat)
    | Compared(changedPercentage: real, changed: bool, regions: seq<Region>)

  predicate PackedFrame(f: Frame) {
    |f.rgba| % 4 == 0 && f.width < U32 && f.height < U32
  }

  function FlatPercent(base: Frame, current: Frame): real
    requires |base.rgba| % 4 == 0
  {
    if |base.rgba| != |current.rgba| || base.rgba == [] then 100.0
    else Percent(Count(FlatPixels(base.rgba, current.rgba, 10), 0, |base.rgba| / 4), |base.rgba| / 4)
  }

  /** The comparison answer for a baseline and a current frame of the same dimensions. */
  function Comparison(base: Frame, current: Frame): Answer
    requires PackedFrame(base)
  {
    Compared(Rounded(FlatPercent(base, current)), FlatPercent(base, current) > 0.5,
             Report(base.rgba, current.rgba, base.width, base.height))
  }

  method Compare(base: Frame, current: Frame) returns (a: Answer)
    requires PackedFrame(base) && PackedFrame(current)
    requires base.width == current.width && base.height == current.height
    ensures a == Comparison(base, current)
  {
    assert Groups(|base.rgba|) == |base.rgba| / 4;
    var percent := PixelDiffPercentage(base.rgba, current.rgba, 10);
    var regions := GridDiff(base.rgba, current.rgba, base.width, base.height);
    a := Compared(Rounded(percent), percent > 0.5, regions);
  }

  /** `changed` of `n` pixels are reported: as a change if they are more than one in two hundred, and
      as a percentage to a tenth. */
  ghost predicate Reported(a: Answer, changed: nat, n: nat)
    requires n > 0
  {
    && a.Compared? && (a.changed <==> 200 * changed > n)
    && var exact := 100.0 * changed as real / n as real;
    exact - 0.05 < a.changedPercentage <= exact + 0.05
  }

  /** What the answer says: captures that cannot be compared are 100% changed, and of others the
      pixels that differ are reported. */
  lemma ComparisonMeaning(base: Frame, current: Frame)
    requires PackedFrame(base)
    ensures var a := Comparison(base, current);
      if |base.rgba| != |current.rgba| || base.rgba == [] then a.changed && a.changedPercentage == 100.0
      else
        var n, f := |base.rgba| / 4, FlatPixels(base.rgba, current.rgba, 10);
        Reported(a, |Members(f, 0, n)|, n)
  {
    if |base.rgba| != |current.rgba| || base.rgba == [] {
      RoundedHundred();
    } else {
      var n, f := |base.rgba| / 4, FlatPixels(base.rgba, current.rgba, 10);
      CountIsSize(f, 0, n);
      ShareReported(Count(f, 0, n), n, Report(base.rgba, current.rgba, base.width, base.height));
    }
  }

  lemma ShareReported(changed: nat, n: nat, regions: seq<Region>)
    requires n > 0
    ensures var percent := Percent(changed, n); Reported(Compared(Rounded(percent), percent > 0.5, regions), changed, n)
  {
    HalfPercent(changed, n);
    RoundedMeaning(Percent(changed, n));
    PercentIsQuotient(changed, n);
  }

  lemma PercentIsQuotient(part: nat, whole: nat)
    requires whole > 0
    ensures Percent(part, whole) == 100.0 * part as real / whole as real
  {
    PercentMeaning(part, whole);
  }

  lemma RoundedHundred()
    ensures Rounded(100.0) == 100.0
  {
    assert (1000.5).Floor == 1000;
  }

  type References = refs: map<string, Baseline> | forall id :: id in refs ==> PackedFrame(refs[id].frame)

  /** The references still younger than sixty seconds. */
  function Cleaned(refs: References, now: int): References {
    map id | id in refs && now - refs[id].created < 60_000 :: refs[id]
  }

  /** `DIFF_REFS` and the tool that uses it. */
  class DiffTool {
    var refs: References

    constructor ()
      ensures refs == map[]
    {
      refs := map[];
    }

    /** `freshId` is the clock reading in hexadecimal; `capture` is what the screen capture
        returns.  A reference survives every failure and is consumed by a comparison. */
    method ScreenDiffSummary(referenceId: Option<string>, now: int, freshId: string, capture: Result<Frame, string>)
      returns (r: Result<Answer, string>)
      requires capture.Ok? ==> PackedFrame(capture.value)
      modifies this
      ensures r.Err? ==>
                && refs == Cleaned(old(refs), now)
                && forall id :: id in refs <==> id in old(refs) && now - old(refs)[id].created < 60_000
      ensures referenceId.None? ==>
        match capture
        case Err(e) => r == Err(e)
        case Ok(f) =>
          && r == Ok(BaselineCaptured(freshId, f.width, f.height))
          && refs == Cleaned(old(refs), now)[freshId := Baseline(f, now)]
      ensures referenceId.Some? ==>
        var live := Cleaned(old(refs), now);
        && (referenceId.value in live <==>
              referenceId.value in old(refs) && now - old(refs)[referenceId.value].created < 60_000)
        && (r.Ok? <==> && referenceId.value in live && capture.Ok?
                       && live[referenceId.value].frame.width == capture.value.width
                       && live[referenceId.value].frame.height == capture.value.height)
        && (r.Ok? ==> && r.value == Comparison(live[referenceId.value].frame, capture.value)
                      && refs == live - {referenceId.value})
    {
      refs := Cleaned(refs, now);
      match referenceId {
        case None =>
          if capture.Err? {
            return Err(capture.error);
          }
          var f := capture.value;
          refs := refs[freshId := Baseline(f, now)];
          return Ok(BaselineCaptured(freshId, f.width, f.height));
        case Some(id) =>
          if id !in refs {
            return Err("reference not found or expired");
          }
          var base := refs[id].frame;
          if capture.Err? {
            return Err(capture.error);
          }
          var current := capture.value;
          if base.width != current.width || base.height != current.height {
            return Err("screen dimensions changed");
          }
          var answer := Compare(base, current);
          refs := refs - {id};
          return Ok(answer);
      }
    }
  }

  /** For captures of equal length "changed" always comes with a reported region, and one whose
      share is at least the overall share. */
  lemma ChangedMeansRegion(base: Frame, current: Frame)
    requires PackedFrame(base) && base.width == current.width && base.height == current.height
    requires Frames(base.rgba, current.rgba, base.width, base.height) && base.rgba != []
    requires 4 * (base.width * base.height) <= U32
    requires Comparison(base, current).changed
    ensures exists cell: nat ::
              && cell < 9
              && (exists r :: r in Comparison(base, current).regions && r.area == LABELS[cell])
              && AtLeastOverall(base.rgba, current.rgba, base.width, base.height, cell)
  {
    var w, h, held := base.width, base.height, |base.rgba| / 4;
    var overall := Count(FlatPixels(base.rgba, current.rgba, 10), 0, held);
    HalfPercent(overall, held);
    var cell := BusiestCell(base.rgba, current.rgba, w, h);
    var c, t := CellChanged(base.rgba, current.rgba, w, h, cell), CellTotal(base.rgba, current.rgba, w, h, cell);
    Scale(c, t, overall, held);
    ReportedExactly(base.rgba, current.rgba, w, h, cell, Describe(cell, Percent(c, t)));
  }

  lemma Scale(c: nat, t: nat, part: nat, whole: nat)
    requires c * whole >= part * t && 200 * part > whole > 0 && t > 0
    ensures 200 * c > t
  {
    calc {
      (200 * c) * whole;
    >=
      (200 * part) * t;
    >
      whole * t;
    }
    if 200 * c <= t { MulMono(200 * c, t, whole); }
  }

  ghost predicate Sized(f: Frame, len: nat, width: nat, height: nat) {
    PackedFrame(f) && |f.rgba| == len && f.width == width && f.height == height
  }

  /** Frames of these dimensions and lengths that are "changed" always have a region to show. */
  ghost predicate AlwaysShows(len1: nat, len2: nat, width: nat, height: nat) {
    forall base, current | Sized(base, len1, width, height) && Sized(current, len2, width, height) ::
      Comparison(base, current).changed ==> Comparison(base, current).regions != []
  }

  /** That holds of all frames exactly if the captures have the same length and are not empty:
      otherwise they count as 100% changed, though every pixel may be the same. */
  lemma ChangedMeansRegionExactly(len1: nat, len2: nat, width: nat, height: nat)
    requires width < U32 && height < U32 && 4 * (width * height) <= U32
    requires len1 % 4 == 0 && len2 % 4 == 0 && len1 <= 4 * (width * height) && len2 <= 4 * (width * height)
    ensures AlwaysShows(len1, len2, width, height) <==> len1 == len2 > 0
  {
    if len1 == len2 > 0 {
      forall base, current |
        Sized(base, len1, width, height) && Sized(current, len2, width, height) && Comparison(base, current).changed
        ensures Comparison(base, current).regions != []
      {
        ChangedMeansRegion(base, current);
      }
    } else {
      BlackFramesShowNothing(len1, len2, width, height);
    }
  }

  lemma BlackFramesShowNothing(len1: nat, len2: nat, width: nat, height: nat)
    requires width < U32 && height < U32 && len1 % 4 == 0 && len2 % 4 == 0 && !(len1 == len2 > 0)
    ensures !AlwaysShows(len1, len2, width, height)
  {
    var base, current := Frame(seq(len1, _ => 0), width, height), Frame(seq(len2, _ => 0), width, height);
    assert Sized(base, len1, width, height) && Sized(current, len2, width, height);
    NothingChanged(base.rgba, current.rgba, width, height);
    CountsAsChanged(base, current);
  }

  /** Past 2^30 pixels the grid does not see the rest: captures that are large enough, even of one
      length, can be changed with no region to show. */
  lemma LargeFramesShowNothing(len: nat, width: nat, height: nat)
    requires width < U32 && height < U32 && len % 4 == 0 && 200 * (len / 4 - U32 / 4) > len / 4
    ensures !AlwaysShows(len, len, width, height)
  {
    var base := Frame(seq(len, _ => 0), width, height);
    var current := Frame(seq(len, k => if k < U32 then 0 else 255), width, height);
    assert Sized(base, len, width, height) && Sized(current, len, width, height);
    ChangedByRest(base, current, len / 4);
    NothingSeen(base.rgba, current.rgba, width, height);
  }

  /** Two buffers that differ from byte 2^32 on, and only there. */
  ghost predicate DifferPast(buf1: seq<Byte>, buf2: seq<Byte>) {
    && |buf1| == |buf2|
    && forall k :: 0 <= k < |buf1| ==> buf1[k] == 0 && buf2[k] == if k < U32 then 0 else 255
  }

  lemma {:induction false} RestChanged(buf1: seq<Byte>, buf2: seq<Byte>, n: nat)
    requires DifferPast(buf1, buf2) && |buf1| == 4 * n && n >= U32 / 4
    ensures Count(FlatPixels(buf1, buf2, 10), 0, n) == n - U32 / 4
  {
    var flat := FlatPixels(buf1, buf2, 10);
    forall p: nat | p < n
      ensures flat(p) <==> p >= U32 / 4
    {
      if p < U32 / 4 { SameBytesSame(buf1, buf2, 4 * p); }
    }
    CountSplit(flat, 0, U32 / 4, n);
    CountBounds(flat, 0, U32 / 4);
    CountBounds(flat, U32 / 4, n);
  }

  lemma ChangedByRest(base: Frame, current: Frame, n: nat)
    requires PackedFrame(base) && DifferPast(base.rgba, current.rgba) && |base.rgba| == 4 * n
    requires n > U32 / 4 && 200 * (n - U32 / 4) > n
    ensures Comparison(base, current).changed
  {
    RestChanged(base.rgba, current.rgba, n);
    OverHalf(base, current, n, n - U32 / 4);
  }

  lemma {:induction false} OverHalf(base: Frame, current: Frame, n: nat, changed: nat)
    requires PackedFrame(base) && |base.rgba| == |current.rgba| == 4 * n && n > 0
    requires Count(FlatPixels(base.rgba, current.rgba, 10), 0, n) == changed && 200 * changed > n
    ensures Comparison(base, current).changed
  {
    HalfPercent(changed, n);
    assert |base.rgba| / 4 == n;
  }

  lemma NothingSeen(buf1: seq<Byte>, buf2: seq<Byte>, width: nat, height: nat)
    requires DifferPast(buf1, buf2)
    ensures Report(buf1, buf2, width, height) == []
  {
    forall p: nat
      ensures !GridPixels(buf1, buf2)(p)
    {
      OffsetAligned(p);
      if CoveredAt(buf1, buf2, p) { SameBytesSame(buf1, buf2, GridOffset(p)); }
    }
    NoneReported(buf1, buf2, width, height);
  }

  lemma NoneReported(buf1: seq<Byte>, buf2: seq<Byte>, width: nat, height: nat)
    requires forall p: nat :: !GridPixels(buf1, buf2)(p)
    ensures Report(buf1, buf2, width, height) == []
  {
    forall cell: nat
      ensures Reports(buf1, buf2, width, height)(cell) == []
    {
      CellNone(GridPixels(buf1, buf2), width, height, cell);
      if cell < 9 { NotReported(buf1, buf2, width, height, cell); }
    }
    GatherNothing(Reports(buf1, buf2, width, height), 9);
  }

  lemma NotReported(buf1: seq<Byte>, buf2: seq<Byte>, width: nat, height: nat, cell: nat)
    requires cell < 9 && CellCount(GridPixels(buf1, buf2), width, height, cell) == 0
    ensures CellReport(buf1, buf2, width, height, cell) == []
  {
  }

  lemma CountsAsChanged(base: Frame, current: Frame)
    requires PackedFrame(base) && (|base.rgba| != |current.rgba| || base.rgba == [])
    ensures Comparison(base, current).changed
  {
  }

  lemma NothingChanged(buf1: seq<Byte>, buf2: seq<Byte>, width: nat, height: nat)
    requires forall i :: 0 <= i < |buf1| ==> buf1[i] == 0
    requires forall i :: 0 <= i < |buf2| ==> buf2[i] == 0
    ensures Report(buf1, buf2, width, height) == []
  {
    forall p: nat
      ensures !GridPixels(buf1, buf2)(p)
    {
    }
    NoneReported(buf1, buf2, width, height);
  }

  lemma CellNone(f: nat -> bool, width: nat, height: nat, cell: nat)
    requires forall p :: !f(p)
    ensures CellCount(f, width, height, cell) == 0
  {
    RectNone(f, width, CellLo(cell % 3, width), CellHi(cell % 3, width),
             CellLo(cell / 3, height), CellHi(cell / 3, height));
  }

  lemma {:induction false} GatherNothing(report: nat -> seq<Region>, k: nat)
    requires forall cell: nat :: report(cell) == []
    ensures Gather(report, k) == []
  {
    if k > 0 { GatherNothing(report, k - 1); }
  }

  lemma {:induction false} RectNone(f: nat -> bool, width: nat, x0: nat, x1: nat, y0: nat, y1: nat)
    requires forall p :: !f(p)
    ensures RectCount(f, width, x0, x1, y0, y1) == 0
    decreases y1
  {
    if y0 < y1 {
      RectNone(f, width, x0, x1, y0, y1 - 1);
      var lo, hi := (y1 - 1) * width + x0, (y1 - 1) * width + x1;
      if lo <= hi { CountBounds(f, lo, hi); }
    }
  }
}
