/** Sizing timeline previews: the sheet layout for a frame, and the sampling interval that
    keeps a title within its frame and sheet budgets. Durations are real numbers. */
module PreviewSizing {
  import opened Text

  const TARGET_FRAMES: int := 2400
  const MAX_SHEETS: int := 256
  const MIN_FRAME_DIMENSION: int := 16
  const MAX_FRAME_DIMENSION: int := 4096
  const MAX_FRAME_PIXELS: int := 4194304
  const MAX_LAYOUT_AXIS: int := 10
  const MAX_SHEET_DIMENSION: int := 4096
  const MAX_SHEET_PIXELS: int := 12000000
  const MAX_DURATION_SECONDS: real := 604800.0

  datatype Layout = Layout(frameWidth: int, frameHeight: int, columns: int, rows: int)

  function FramesPerSheet(l: Layout): int {
    l.columns * l.rows
  }

  predicate FrameAdmissible(width: int, height: int) {
    MIN_FRAME_DIMENSION <= width <= MAX_FRAME_DIMENSION &&
    MIN_FRAME_DIMENSION <= height <= MAX_FRAME_DIMENSION &&
    width * height <= MAX_FRAME_PIXELS
  }

  predicate SheetFits(l: Layout) {
    l.frameWidth * l.columns <= MAX_SHEET_DIMENSION && l.frameHeight * l.rows <= MAX_SHEET_DIMENSION &&
    (l.frameWidth * l.columns) * (l.frameHeight * l.rows) <= MAX_SHEET_PIXELS
  }

  predicate OnAxes(l: Layout) {
    1 <= l.columns <= MAX_LAYOUT_AXIS && 1 <= l.rows <= MAX_LAYOUT_AXIS
  }

  // ---------- the server's validity test ----------

  /** `checked_mul` on 32-bit unsigned numbers. */
  function CheckedMul(a: nat, b: nat): Option<nat> {
    if a * b <= U32_MAX then Some(a * b) else None
  }

  function TrickplayLayoutIsValid(width: nat, height: nat, columns: nat, rows: nat): bool {
    match CheckedMul(width, height)
    case None => false
    case Some(framePixels) =>
      match (CheckedMul(width, columns), CheckedMul(height, rows))
      case (Some(sheetWidth), Some(sheetHeight)) =>
        (match CheckedMul(sheetWidth, sheetHeight)
         case None => false
         case Some(sheetPixels) =>
           && MIN_FRAME_DIMENSION <= width <= MAX_FRAME_DIMENSION
           && MIN_FRAME_DIMENSION <= height <= MAX_FRAME_DIMENSION
           && framePixels <= MAX_FRAME_PIXELS
           && 1 <= columns <= MAX_LAYOUT_AXIS && 1 <= rows <= MAX_LAYOUT_AXIS
           && sheetWidth <= MAX_SHEET_DIMENSION && sheetHeight <= MAX_SHEET_DIMENSION
           && sheetPixels <= MAX_SHEET_PIXELS)
      case _ => false
  }

  /** The overflow checks never reject anything the limits would accept. */
  lemma ValidityWithoutOverflow(width: nat, height: nat, columns: nat, rows: nat)
    ensures var l := Layout(width, height, columns, rows);
      TrickplayLayoutIsValid(width, height, columns, rows) <==>
      FrameAdmissible(width, height) && OnAxes(l) && SheetFits(l)
  {
  }

  // ---------- choosing a layout ----------

  /** The generator's sort key: frames, then sheet area, then rows. */
  predicate KeyLess(a: Layout, b: Layout) {
    var (fa, fb) := (FramesPerSheet(a), FramesPerSheet(b));
    var aa := a.frameWidth * a.columns * a.frameHeight * a.rows;
    var ab := b.frameWidth * b.columns * b.frameHeight * b.rows;
    fa < fb || (fa == fb && (aa < ab || (aa == ab && a.rows < b.rows)))
  }

  lemma AreaFollowsFrames(w: int, h: int, c: int, r: int)
    ensures w * c * h * r == (w * h) * (c * r)
  {
    assert w * c * h * r == (w * c) * (h * r);
    assert (w * c) * (h * r) == w * (c * (h * r));
    assert c * (h * r) == h * (c * r);
    assert w * (h * (c * r)) == (w * h) * (c * r);
  }

  /** For one frame size the area says nothing new: more frames win, then more rows. */
  lemma KeyIsFramesThenRows(a: Layout, b: Layout)
    requires a.frameWidth == b.frameWidth && a.frameHeight == b.frameHeight
    ensures KeyLess(a, b) <==>
      FramesPerSheet(a) < FramesPerSheet(b) || (FramesPerSheet(a) == FramesPerSheet(b) && a.rows < b.rows)
  {
    AreaFollowsFrames(a.frameWidth, a.frameHeight, a.columns, a.rows);
    AreaFollowsFrames(b.frameWidth, b.frameHeight, b.columns, b.rows);
  }

  predicate Candidate(width: int, height: int, l: Layout) {
    l.frameWidth == width && l.frameHeight == height && OnAxes(l) && SheetFits(l)
  }

  /** No layout the server accepts holds more frames, and none with as many has more rows. */
  ghost predicate Optimal(best: Layout) {
    forall l: Layout :: Candidate(best.frameWidth, best.frameHeight, l) ==>
      FramesPerSheet(l) < FramesPerSheet(best) ||
      (FramesPerSheet(l) == FramesPerSheet(best) && l.rows <= best.rows)
  }

  lemma OneFrameFits(width: int, height: int)
    requires FrameAdmissible(width, height)
    ensures Candidate(width, height, Layout(width, height, 1, 1))
  {
  }

  /** Layouts in the order of the two loops. */
  predicate Visited(l: Layout, columns: int, rows: int) {
    l.columns < columns || (l.columns == columns && l.rows < rows)
  }

  method Candidates(width: int, height: int) returns (candidates: seq<Layout>)
    ensures forall l :: l in candidates <==> Candidate(width, height, l)
  {
    candidates := [];
    for columns := 1 to MAX_LAYOUT_AXIS + 1
      invariant forall l :: l in candidates <==> Candidate(width, height, l) && Visited(l, columns, 1)
    {
      for rows := 1 to MAX_LAYOUT_AXIS + 1
        invariant forall l :: l in candidates <==> Candidate(width, height, l) && Visited(l, columns, rows)
      {
        var l := Layout(width, height, columns, rows);
        if width * columns <= MAX_SHEET_DIMENSION && height * rows <= MAX_SHEET_DIMENSION &&
           (width * columns) * (height * rows) <= MAX_SHEET_PIXELS {
          candidates := candidates + [l];
        }
      }
    }
  }

  /** Python's `max` with a key: the first of the greatest. */
  method Greatest(candidates: seq<Layout>, ghost width: int, ghost height: int) returns (best: Layout)
    requires candidates != [] && forall l :: l in candidates ==> l.frameWidth == width && l.frameHeight == height
    ensures best in candidates
    ensures forall l :: l in candidates ==>
      FramesPerSheet(l) < FramesPerSheet(best) ||
      (FramesPerSheet(l) == FramesPerSheet(best) && l.rows <= best.rows)
  {
    best := candidates[0];
    for i := 1 to |candidates|
      invariant best in candidates
      invariant forall k :: 0 <= k < i ==>
        FramesPerSheet(candidates[k]) < FramesPerSheet(best) ||
        (FramesPerSheet(candidates[k]) == FramesPerSheet(best) && candidates[k].rows <= best.rows)
    {
      KeyIsFramesThenRows(best, candidates[i]);
      if KeyLess(best, candidates[i]) {
        best := candidates[i];
      }
    }
  }

  /** Never fails for an admissible frame; the layout is one the server accepts, and optimal. */
  method LayoutForFrame(width: nat, height: nat) returns (r: Result<Layout, string>)
    ensures r.Ok? <==> FrameAdmissible(width, height)
    ensures r.Ok? ==> r.value.frameWidth == width && r.value.frameHeight == height && Optimal(r.value)
    ensures r.Ok? ==> r.value.columns >= 0 && r.value.rows >= 0 &&
                      TrickplayLayoutIsValid(width, height, r.value.columns, r.value.rows)
  {
    if !FrameAdmissible(width, height) {
      return Err("preview frame is outside the supported limits");
    }
    var candidates := Candidates(width, height);
    OneFrameFits(width, height);
    assert Layout(width, height, 1, 1) in candidates;
    if candidates == [] {
      return Err("preview resolution cannot fit one frame");
    }
    var best := Greatest(candidates, width, height);
    ValidityWithoutOverflow(width, height, best.columns, best.rows);
    return Ok(best);
  }

  // ---------- intervals ----------

  function Ceil(x: real): int {
    -((-x).Floor)
  }

  /** A duration divided by a count, rounded up: samples for an interval, or seconds for samples. */
  function CeilQuotient(duration: real, parts: int): int
    requires parts > 0
  {
    Ceil(duration / parts as real)
  }

  function Max(a: int, b: int): int {
    if a >= b then a else b
  }

  function MinInt(a: int, b: int): int {
    if a <= b then a else b
  }

  predicate DurationAdmissible(duration: real) {
    0.0 < duration <= MAX_DURATION_SECONDS
  }

  function FrameCapacity(l: Layout): int {
    MinInt(TARGET_FRAMES, FramesPerSheet(l) * MAX_SHEETS)
  }

  /** The generator's `interval_seconds`; `None` is its `ValueError`. */
  function IntervalSeconds(duration: real, target: int): Option<int> {
    if !DurationAdmissible(duration) || !(1 <= target <= TARGET_FRAMES) then None
    else Some(Max(1, CeilQuotient(duration, target)))
  }

  /** The server's interval for one layout. */
  function TrickplayInterval(duration: real, columns: nat, rows: nat): Option<int> {
    match CheckedMul(columns, rows)
    case None => None
    case Some(perSheet) =>
      if perSheet == 0 || columns > MAX_LAYOUT_AXIS || rows > MAX_LAYOUT_AXIS then None
      else match CheckedMul(perSheet, MAX_SHEETS)
           case None => None
           case Some(sheets) => IntervalSeconds(duration, MinInt(sheets, TARGET_FRAMES))
  }

  function TrickplayFrameCount(duration: real, interval: nat): Option<int> {
    if interval == 0 || !DurationAdmissible(duration) then None
    else
      var count := CeilQuotient(duration, interval);
      if 0 < count <= TARGET_FRAMES then Some(count) else None
  }

  function DivCeil(a: int, b: int): int
    requires b > 0
  {
    (a + b - 1) / b
  }

  function TrickplaySheetCount(frames: nat, columns: nat, rows: nat): Option<int> {
    match CheckedMul(columns, rows)
    case None => None
    case Some(perSheet) =>
      if 0 < frames <= TARGET_FRAMES && perSheet > 0 && columns <= MAX_LAYOUT_AXIS && rows <= MAX_LAYOUT_AXIS then
        (if DivCeil(frames, perSheet) <= MAX_SHEETS then Some(DivCeil(frames, perSheet)) else None)
      else None
  }

  lemma CeilAtMost(x: real, n: int)
    ensures Ceil(x) <= n <==> x <= n as real
  {
  }

  lemma QuotientAtMost(d: real, i: int, n: int)
    requires i > 0
    ensures d / i as real <= n as real <==> d <= n as real * i as real
  {
    var q := d / i as real;
    assert q * i as real == d;
    if q <= n as real {
      assert (n as real - q) * i as real >= 0.0;
    } else {
      assert (q - n as real) * i as real > 0.0;
    }
  }

  /** `n` samples of `i` seconds cover a duration in either reading of the division. */
  lemma CoverSymmetry(d: real, i: int, n: int)
    requires i > 0 && n > 0
    ensures CeilQuotient(d, i) <= n <==> CeilQuotient(d, n) <= i
  {
    CeilAtMost(d / i as real, n);
    CeilAtMost(d / n as real, i);
    QuotientAtMost(d, i, n);
    QuotientAtMost(d, n, i);
    assert n as real * i as real == i as real * n as real;
  }

  lemma SheetsWithinLimit(frames: int, perSheet: int)
    requires 0 < frames && 0 < perSheet && frames <= perSheet * MAX_SHEETS
    ensures 1 <= DivCeil(frames, perSheet) <= MAX_SHEETS
    ensures (DivCeil(frames, perSheet) - 1) * perSheet < frames <= DivCeil(frames, perSheet) * perSheet
  {
    SheetCountIs(frames, perSheet, DivCeil(frames, perSheet));
    var q := DivCeil(frames, perSheet);
    if q < 1 {
      TimesKeepsOrder(q, 0, perSheet);
      assert false;
    }
    if q > MAX_SHEETS {
      TimesKeepsOrder(MAX_SHEETS, q - 1, perSheet);
      assert false;
    }
  }

  /** For every admissible duration and accepted layout: generator and server agree on the
      interval, it is the least whole number of seconds from 1 on that keeps the frames within
      the layout's capacity, and the frame and sheet budgets hold. */
  lemma IntervalIsLeast(duration: real, l: Layout)
    requires DurationAdmissible(duration) && OnAxes(l)
    ensures var interval := IntervalSeconds(duration, FrameCapacity(l));
      && interval.Some? && interval == TrickplayInterval(duration, l.columns, l.rows) && interval.value >= 1
      && CeilQuotient(duration, interval.value) <= FrameCapacity(l)
      && (forall i :: 1 <= i < interval.value ==> CeilQuotient(duration, i) > FrameCapacity(l))
    ensures var interval := IntervalSeconds(duration, FrameCapacity(l)).value;
      var frames := CeilQuotient(duration, interval);
      && 1 <= frames <= TARGET_FRAMES && TrickplayFrameCount(duration, interval) == Some(frames)
      && TrickplaySheetCount(frames, l.columns, l.rows) == Some(DivCeil(frames, FramesPerSheet(l)))
      && 1 <= DivCeil(frames, FramesPerSheet(l)) <= MAX_SHEETS
  {
    var perSheet := FramesPerSheet(l);
    assert 1 <= perSheet <= 100 by {
      ProductBounds(l.columns, l.rows);
    }
    var capacity := FrameCapacity(l);
    var interval := IntervalSeconds(duration, capacity).value;
    CoverSymmetry(duration, interval, capacity);
    forall i | 1 <= i < interval ensures CeilQuotient(duration, i) > capacity {
      CoverSymmetry(duration, i, capacity);
    }
    var frames := CeilQuotient(duration, interval);
    CeilAtMost(duration / interval as real, 0);
    QuotientAtMost(duration, interval, 0);
    assert frames >= 1;
    SheetsWithinLimit(frames, perSheet);
  }

  lemma ProductBounds(a: int, b: int)
    requires 1 <= a <= MAX_LAYOUT_AXIS && 1 <= b <= MAX_LAYOUT_AXIS
    ensures 1 <= a * b <= 100
  {
  }

  // ---------- in numbers ----------

  /** A frame is 16 to 4096 pixels each way and at most 4 mebipixels; a sheet has one to ten frames
      each way, at most 4096 pixels each way and twelve million in all. */
  lemma LimitsInNumbers(width: nat, height: nat, columns: nat, rows: nat)
    ensures TrickplayLayoutIsValid(width, height, columns, rows) <==>
      && 16 <= width <= 4096 && 16 <= height <= 4096 && width * height <= 4_194_304
      && 1 <= columns <= 10 && 1 <= rows <= 10 && width * columns <= 4096 && height * rows <= 4096
      && (width * columns) * (height * rows) <= 12_000_000
  {
    ValidityWithoutOverflow(width, height, columns, rows);
  }

  /** Rounding up, as multiplication. */
  lemma CeilMeaning(duration: real, parts: int, n: int)
    requires parts > 0
    ensures CeilQuotient(duration, parts) == n <==>
      (n - 1) as real * parts as real < duration <= n as real * parts as real
  {
    CeilAtMost(duration / parts as real, n);
    CeilAtMost(duration / parts as real, n - 1);
    QuotientAtMost(duration, parts, n);
    QuotientAtMost(duration, parts, n - 1);
  }

  /** A duration of up to a week and a target of one to 2400 samples have an interval, the least
      one of at least a second that covers the duration; nothing else has. */
  lemma IntervalMeaning(duration: real, target: int)
    ensures var r := IntervalSeconds(duration, target);
      && (r.Some? <==> 0.0 < duration <= 604_800.0 && 1 <= target <= 2400)
      && (r.Some? ==>
            && r.value >= 1 && duration <= r.value as real * target as real
            && (r.value == 1 || (r.value - 1) as real * target as real < duration))
  {
    if DurationAdmissible(duration) && 1 <= target <= TARGET_FRAMES {
      var n := CeilQuotient(duration, target);
      CeilMeaning(duration, target, n);
      assert n < 1 ==> n as real * target as real <= 0.0;
    }
  }

  /** The server refuses a layout off the axes, and otherwise takes as many samples as its 256
      sheets hold, 2400 at most. */
  lemma ServerIntervalMeaning(duration: real, columns: nat, rows: nat)
    ensures TrickplayInterval(duration, columns, rows) ==
      if 1 <= columns <= 10 && 1 <= rows <= 10
      then IntervalSeconds(duration, if columns * rows * 256 <= 2400 then columns * rows * 256 else 2400)
      else None
  {
    if columns <= 10 && rows <= 10 {
      assert columns * rows <= 100;
      assert columns == 0 || rows == 0 ==> columns * rows == 0;
      assert columns >= 1 && rows >= 1 ==> columns * rows >= 1;
    }
  }

  /** Frames and sheets are counted up, and refused beyond 2400 and 256. */
  lemma CountsMeaning(duration: real, interval: nat, frames: nat, columns: nat, rows: nat, n: int)
    ensures TrickplayFrameCount(duration, interval) == Some(n) <==>
      interval >= 1 && 0.0 < duration <= 604_800.0 && 1 <= n <= 2400 &&
      (n - 1) as real * interval as real < duration <= n as real * interval as real
    ensures TrickplaySheetCount(frames, columns, rows) == Some(n) <==>
      1 <= frames <= 2400 && 1 <= columns <= 10 && 1 <= rows <= 10 && n <= 256 &&
      (n - 1) * (columns * rows) < frames <= n * (columns * rows)
  {
    if interval >= 1 {
      CeilMeaning(duration, interval, n);
    }
    if 1 <= columns <= 10 && 1 <= rows <= 10 {
      assert 1 <= columns * rows <= 100;
      SheetCountIs(frames, columns * rows, n);
    }
  }

  lemma SheetCountIs(frames: int, perSheet: int, n: int)
    requires perSheet >= 1
    ensures DivCeil(frames, perSheet) == n <==> (n - 1) * perSheet < frames <= n * perSheet
  {
    var m := frames + perSheet - 1;
    var q := m / perSheet;
    QuotientBounds(m, perSheet);
    assert (n - 1) * perSheet == n * perSheet - perSheet && (q + 1) * perSheet == q * perSheet + perSheet;
    if n < q {
      TimesKeepsOrder(n + 1, q, perSheet);
      assert (n + 1) * perSheet == n * perSheet + perSheet;
    } else if n > q {
      TimesKeepsOrder(q + 1, n, perSheet);
    }
  }

  lemma QuotientBounds(m: int, k: int)
    requires k > 0
    ensures (m / k) * k <= m < (m / k + 1) * k
  {
  }

  lemma TimesKeepsOrder(a: int, b: int, k: int)
    requires a <= b && k >= 0
    ensures a * k <= b * k
  {
  }
}
