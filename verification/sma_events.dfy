/**
 * The crossover scanner of `compute_sma_events` (src/sma_events.py): two simple
 * moving averages over one symbol's closes, added to the frame as columns, and a
 * single left-to-right pass with three "previous difference" registers that emits
 * dated events on sign changes.
 */
module SmaEvents {
  import opened Common
  import Sorting

  datatype EventType =
    | PriceCrossShortUp | PriceCrossShortDown
    | PriceCrossLongUp | PriceCrossLongDown
    | GoldenCross | DeathCross
  {
    /** The `event_type` column value. */
    function Name(): string {
      match this
      case PriceCrossShortUp => "price_cross_short_up"
      case PriceCrossShortDown => "price_cross_short_down"
      case PriceCrossLongUp => "price_cross_long_up"
      case PriceCrossLongDown => "price_cross_long_down"
      case GoldenCross => "golden_cross"
      case DeathCross => "death_cross"
    }
  }

  /** The three differences the scanner tracks. */
  datatype Family =
    | PriceVsShort  // close - short SMA
    | PriceVsLong   // close - long SMA
    | ShortVsLong   // short SMA - long SMA

  datatype Direction = Up | Down

  function TypeOf(f: Family, d: Direction): EventType {
    match (f, d)
    case (PriceVsShort, Up) => PriceCrossShortUp
    case (PriceVsShort, Down) => PriceCrossShortDown
    case (PriceVsLong, Up) => PriceCrossLongUp
    case (PriceVsLong, Down) => PriceCrossLongDown
    case (ShortVsLong, Up) => GoldenCross
    case (ShortVsLong, Down) => DeathCross
  }

  function FamilyOf(t: EventType): Family {
    match t
    case PriceCrossShortUp | PriceCrossShortDown => PriceVsShort
    case PriceCrossLongUp | PriceCrossLongDown => PriceVsLong
    case GoldenCross | DeathCross => ShortVsLong
  }

  function DirectionOf(t: EventType): Direction {
    match t
    case PriceCrossShortUp | PriceCrossLongUp | GoldenCross => Up
    case _ => Down
  }

  lemma {:induction false} TypeOfRoundTrip(t: EventType)
    ensures TypeOf(FamilyOf(t), DirectionOf(t)) == t
  {
  }

  /** One row of the price history: a trade date (a day number) and its close. */
  datatype PricePoint = PricePoint(tradeDate: int, close: real)

  /** A row of the frame once the `short_sma` and `long_sma` columns are added (`None` is NaN). */
  datatype FrameRow = FrameRow(tradeDate: int, close: real, shortSma: Option<real>, longSma: Option<real>)

  /** A row of the `sma_events` table, without `created_at` (set by the database). */
  datatype SmaEvent = SmaEvent(
    symbol: string,
    eventDate: int,
    eventType: EventType,
    shortWindow: int,
    longWindow: int,
    closePrice: real,
    shortSma: Option<real>,
    longSma: Option<real>)

  /** The primary key `(symbol, event_date, event_type)`. */
  type EventKey = (string, int, EventType)

  function KeyOf(e: SmaEvent): EventKey {
    (e.symbol, e.eventDate, e.eventType)
  }

  // ---------------------------------------------------------------------------
  // Moving averages

  /** The sum of the closes of `s`. */
  function SumCloses(s: seq<PricePoint>): real {
    if s == [] then 0.0 else SumCloses(s[..|s| - 1]) + s[|s| - 1].close
  }

  /**
   * `frame["close"].rolling(window=w, min_periods=w).mean()` at position `i`: the
   * arithmetic mean of the `w` closes ending at `i`, and absent (NaN) while fewer
   * than `w` closes precede and include `i`.
   */
  function RollingMean(rows: seq<PricePoint>, w: int, i: int): (m: Option<real>)
    requires 0 <= i < |rows|
    ensures m.Some? <==> 1 <= w <= i + 1
  {
    if 1 <= w <= i + 1 then Some(SumCloses(rows[i + 1 - w .. i + 1]) / (w as real)) else None
  }

  /** The date-ordered rows with their two moving-average columns. */
  function WithAverages(rows: seq<PricePoint>, sw: int, lw: int): (frame: seq<FrameRow>)
    ensures |frame| == |rows|
  {
    seq(|rows|, i requires 0 <= i < |rows| =>
      FrameRow(rows[i].tradeDate, rows[i].close, RollingMean(rows, sw, i), RollingMean(rows, lw, i)))
  }

  /** Each close of a window lies in `[lo, hi]`, so their sum lies in `[n * lo, n * hi]`. */
  lemma {:induction false} SumBounds(s: seq<PricePoint>, lo: real, hi: real)
    requires forall k :: 0 <= k < |s| ==> lo <= s[k].close <= hi
    ensures (|s| as real) * lo <= SumCloses(s) <= (|s| as real) * hi
  {
    if s != [] {
      SumBounds(s[..|s| - 1], lo, hi);
    }
  }

  /** A moving average lies between the smallest and the largest close of its window. */
  lemma {:induction false} MeanWithinBounds(rows: seq<PricePoint>, w: int, i: int, lo: real, hi: real)
    requires 0 <= i < |rows| && 1 <= w <= i + 1
    requires forall k :: i + 1 - w <= k <= i ==> lo <= rows[k].close <= hi
    ensures lo <= RollingMean(rows, w, i).value <= hi
  {
    var window := rows[i + 1 - w .. i + 1];
    assert forall k :: 0 <= k < |window| ==> window[k] == rows[i + 1 - w + k];
    SumBounds(window, lo, hi);
    QuotientBounds(SumCloses(window), w as real, lo, hi);
  }

  lemma QuotientBounds(sum: real, n: real, lo: real, hi: real)
    requires n > 0.0 && n * lo <= sum <= n * hi
    ensures lo <= sum / n <= hi
  {
    var q := sum / n;
    assert sum == n * q;
  }

  /** On a flat stretch of closes the moving average equals the close. */
  lemma {:induction false} FlatWindowMean(rows: seq<PricePoint>, w: int, i: int, c: real)
    requires 0 <= i < |rows| && 1 <= w <= i + 1
    requires forall k :: i + 1 - w <= k <= i ==> rows[k].close == c
    ensures RollingMean(rows, w, i) == Some(c)
  {
    MeanWithinBounds(rows, w, i, c, c);
  }

  /**
   * A moving average whose window fits inside a suffix `rows[k..]` has the same
   * value over the suffix as over the whole series.
   */
  lemma {:induction false} RollingMeanOfSuffix(rows: seq<PricePoint>, k: int, i: int, w: int)
    requires 0 <= k <= i < |rows| && w <= i - k + 1
    ensures RollingMean(rows[k..], w, i - k) == RollingMean(rows, w, i)
  {
    if 1 <= w {
      assert rows[k..][i - k + 1 - w .. i - k + 1] == rows[i + 1 - w .. i + 1];
    }
  }

  // ---------------------------------------------------------------------------
  // The scan

  /** Difference `f` at a row; absent when an average it needs is. */
  function Diff(f: Family, row: FrameRow): Option<real> {
    var s := row.shortSma;
    var l := row.longSma;
    match f
    case PriceVsShort => if s.Some? then Some(row.close - s.value) else None
    case PriceVsLong => if l.Some? then Some(row.close - l.value) else None
    case ShortVsLong => if s.Some? && l.Some? then Some(s.value - l.value) else None
  }

  /** What register `previous_*_diff` holds when row `i` is examined. */
  function Previous(f: Family, frame: seq<FrameRow>, i: int): Option<real>
    requires 0 <= i <= |frame|
  {
    if i == 0 then None else Diff(f, frame[i - 1])
  }

  /** The tie-aware sign change: `prev <= 0 < cur` is up, `prev >= 0 > cur` is down. */
  function Crossing(prev: real, cur: real): (d: Option<Direction>)
    ensures d == Some(Up) <==> prev <= 0.0 && cur > 0.0
    ensures d == Some(Down) <==> prev >= 0.0 && cur < 0.0
    ensures cur == 0.0 ==> d == None
  {
    if prev <= 0.0 < cur then Some(Up) else if prev >= 0.0 > cur then Some(Down) else None
  }

  function MakeEvent(symbol: string, row: FrameRow, t: EventType, sw: int, lw: int): SmaEvent {
    SmaEvent(symbol, row.tradeDate, t, sw, lw, row.close, row.shortSma, row.longSma)
  }

  /** The event (if any) that difference `f` emits at `row`, given the register `previous`. */
  function Emit(f: Family, symbol: string, row: FrameRow, sw: int, lw: int, previous: Option<real>): (r: seq<SmaEvent>)
  {
    var current := Diff(f, row);
    if previous.Some? && current.Some? then
      match Crossing(previous.value, current.value)
      case Some(d) => [MakeEvent(symbol, row, TypeOf(f, d), sw, lw)]
      case None => []
    else []
  }

  /** `Emit` yields at most one event, of family `f`, built from `row`. */
  lemma {:induction false} EmitShape(f: Family, symbol: string, row: FrameRow, sw: int, lw: int, previous: Option<real>)
    ensures var r := Emit(f, symbol, row, sw, lw, previous);
      && |r| <= 1
      && forall e :: e in r ==> FamilyOf(e.eventType) == f && e == MakeEvent(symbol, row, e.eventType, sw, lw)
  {
  }

  /** The event (if any) that difference `f` emits at row `i`. */
  function FamilyEvents(f: Family, symbol: string, frame: seq<FrameRow>, sw: int, lw: int, i: int): seq<SmaEvent>
    requires 0 <= i < |frame|
  {
    Emit(f, symbol, frame[i], sw, lw, Previous(f, frame, i))
  }

  /** The events emitted at row `i`, in the order the source appends them. */
  function EventsAt(symbol: string, frame: seq<FrameRow>, sw: int, lw: int, i: int): seq<SmaEvent>
    requires 0 <= i < |frame|
  {
    FamilyEvents(PriceVsShort, symbol, frame, sw, lw, i)
    + FamilyEvents(PriceVsLong, symbol, frame, sw, lw, i)
    + FamilyEvents(ShortVsLong, symbol, frame, sw, lw, i)
  }

  /** The events of the first `n` rows, in emission order. */
  function AllEvents(symbol: string, frame: seq<FrameRow>, sw: int, lw: int, n: int): seq<SmaEvent>
    requires 0 <= n <= |frame|
  {
    if n == 0 then [] else AllEvents(symbol, frame, sw, lw, n - 1) + EventsAt(symbol, frame, sw, lw, n - 1)
  }

  function DateKey(p: PricePoint): real { p.tradeDate as real }

  /** What `compute_sma_events` returns for a frame: nothing when empty, else the scan of the date-sorted rows. */
  function CandidateEvents(symbol: string, history: seq<PricePoint>, sw: int, lw: int): seq<SmaEvent> {
    if history == [] then []
    else AllEvents(symbol, WithAverages(Sorting.SortBy(history, DateKey), sw, lw), sw, lw, |history|)
  }

  /**
   * The scan loop of `compute_sma_events` over the date-ordered frame with its
   * average columns: each row updates the three registers in turn.
   */
  method ScanCrossovers(symbol: string, frame: seq<FrameRow>, sw: int, lw: int) returns (events: seq<SmaEvent>)
    ensures events == AllEvents(symbol, frame, sw, lw, |frame|)
  {
    events := [];
    var previousShortDiff: Option<real> := None;
    var previousLongDiff: Option<real> := None;
    var previousSmaDiff: Option<real> := None;
    for i := 0 to |frame|
      invariant events == AllEvents(symbol, frame, sw, lw, i)
      invariant previousShortDiff == Previous(PriceVsShort, frame, i)
      invariant previousLongDiff == Previous(PriceVsLong, frame, i)
      invariant previousSmaDiff == Previous(ShortVsLong, frame, i)
    {
      var shortFound, longFound, smaFound;
      shortFound, previousShortDiff := DetectCrossing(PriceVsShort, symbol, frame[i], sw, lw, previousShortDiff);
      longFound, previousLongDiff := DetectCrossing(PriceVsLong, symbol, frame[i], sw, lw, previousLongDiff);
      smaFound, previousSmaDiff := DetectCrossing(ShortVsLong, symbol, frame[i], sw, lw, previousSmaDiff);
      AllEventsStep(symbol, frame, sw, lw, i);
      events := events + (shortFound + longFound + smaFound);
    }
  }

  /** One more row appends that row's three family events, in order. */
  lemma {:induction false} AllEventsStep(symbol: string, frame: seq<FrameRow>, sw: int, lw: int, i: int)
    requires 0 <= i < |frame|
    ensures AllEvents(symbol, frame, sw, lw, i + 1) == AllEvents(symbol, frame, sw, lw, i) + EventsAt(symbol, frame, sw, lw, i)
    ensures EventsAt(symbol, frame, sw, lw, i)
         == Emit(PriceVsShort, symbol, frame[i], sw, lw, Previous(PriceVsShort, frame, i))
            + Emit(PriceVsLong, symbol, frame[i], sw, lw, Previous(PriceVsLong, frame, i))
            + Emit(ShortVsLong, symbol, frame[i], sw, lw, Previous(ShortVsLong, frame, i))
  {
  }

  /**
   * One of the three detection blocks of the scan: with the register's value
   * `previous`, emit the up or down event when the difference changes sign at
   * `row`, and return the register's new value (the row's difference, or nothing
   * when an average it needs is undefined).
   */
  method DetectCrossing(f: Family, symbol: string, row: FrameRow, sw: int, lw: int, previous: Option<real>)
    returns (found: seq<SmaEvent>, next: Option<real>)
    ensures found == Emit(f, symbol, row, sw, lw, previous)
    ensures next == Diff(f, row)
  {
    var s := row.shortSma;
    var l := row.longSma;
    var valid := match f
      case PriceVsShort => s.Some?
      case PriceVsLong => l.Some?
      case ShortVsLong => s.Some? && l.Some?;
    found := [];
    if valid {
      var current := match f
        case PriceVsShort => row.close - s.value
        case PriceVsLong => row.close - l.value
        case ShortVsLong => s.value - l.value;
      if previous.Some? {
        if previous.value <= 0.0 < current {
          found := [MakeEvent(symbol, row, TypeOf(f, Up), sw, lw)];
        } else if previous.value >= 0.0 > current {
          found := [MakeEvent(symbol, row, TypeOf(f, Down), sw, lw)];
        }
      }
      next := Some(current);
    } else {
      next := None;
    }
  }

  /**
   * `compute_sma_events(frame, symbol, short_window, long_window)`: an empty frame
   * yields no events; otherwise the rows are sorted by trade date and scanned.
   */
  method ComputeSmaEvents(history: seq<PricePoint>, symbol: string, sw: int, lw: int) returns (events: seq<SmaEvent>)
    ensures events == CandidateEvents(symbol, history, sw, lw)
  {
    if history == [] {
      return [];
    }
    var rows := Sorting.SortBy(history, DateKey);
    var frame := WithAverages(rows, sw, lw);
    events := ScanCrossovers(symbol, frame, sw, lw);
  }

  // ---------------------------------------------------------------------------
  // Properties of the scan

  /** The firing rule of one event type, stated on the register and the current difference. */
  predicate Fires(t: EventType, previous: Option<real>, current: Option<real>) {
    && previous.Some? && current.Some?
    && if DirectionOf(t) == Up then previous.value <= 0.0 && current.value > 0.0
       else previous.value >= 0.0 && current.value < 0.0
  }

  /** An event of row `i` comes from the detection block of its own family. */
  lemma {:induction false} EventOfFamily(symbol: string, frame: seq<FrameRow>, sw: int, lw: int, i: int, e: SmaEvent)
    requires 0 <= i < |frame| && e in EventsAt(symbol, frame, sw, lw, i)
    ensures e in FamilyEvents(FamilyOf(e.eventType), symbol, frame, sw, lw, i)
    ensures e == MakeEvent(symbol, frame[i], e.eventType, sw, lw)
  {
    forall f {
      EmitShape(f, symbol, frame[i], sw, lw, Previous(f, frame, i));
    }
  }

  /**
   * An event of type `t` is emitted at row `i` exactly when the register of its
   * family holds a value (the difference was defined at row `i - 1`), the
   * difference is defined at row `i`, and the pair changes sign in `t`'s direction
   * with the tie rule: up needs previous <= 0 < current, down previous >= 0 > current.
   */
  lemma {:induction false} EventAtIff(symbol: string, frame: seq<FrameRow>, sw: int, lw: int, i: int, t: EventType)
    requires 0 <= i < |frame|
    ensures (exists e :: e in EventsAt(symbol, frame, sw, lw, i) && e.eventType == t)
        <==> Fires(t, Previous(FamilyOf(t), frame, i), Diff(FamilyOf(t), frame[i]))
  {
    var f := FamilyOf(t);
    var prev := Previous(f, frame, i);
    var cur := Diff(f, frame[i]);
    var found := FamilyEvents(f, symbol, frame, sw, lw, i);
    TypeOfRoundTrip(t);
    if e :| e in EventsAt(symbol, frame, sw, lw, i) && e.eventType == t {
      EventOfFamily(symbol, frame, sw, lw, i, e);
      assert prev.Some? && cur.Some?;
      var d := Crossing(prev.value, cur.value);
      assert d.Some? && e.eventType == TypeOf(f, d.value);
      assert d.value == DirectionOf(t);
    }
    if Fires(t, prev, cur) {
      var d := DirectionOf(t);
      assert Crossing(prev.value, cur.value) == Some(d);
      var e := found[0];
      assert e.eventType == t;
      assert e in EventsAt(symbol, frame, sw, lw, i);
    }
  }

  /** A difference whose value is zero never fires, whatever the previous one was. */
  lemma {:induction false} ZeroDiffNeverFires(t: EventType, previous: Option<real>)
    ensures !Fires(t, previous, Some(0.0))
  {
  }

  /**
   * The three differences are independent: one row yields at most one event of
   * each family, in the order price/short, price/long, short/long, so at most
   * three, all of distinct types.
   */
  lemma {:induction false} AtMostOnePerFamily(symbol: string, frame: seq<FrameRow>, sw: int, lw: int, i: int)
    requires 0 <= i < |frame|
    ensures var r := EventsAt(symbol, frame, sw, lw, i);
      && |r| <= 3
      && forall a, b :: 0 <= a < b < |r| ==> FamilyOf(r[a].eventType) != FamilyOf(r[b].eventType)
  {
    forall f {
      EmitShape(f, symbol, frame[i], sw, lw, Previous(f, frame, i));
    }
    var x := FamilyEvents(PriceVsShort, symbol, frame, sw, lw, i);
    var y := FamilyEvents(PriceVsLong, symbol, frame, sw, lw, i);
    var z := FamilyEvents(ShortVsLong, symbol, frame, sw, lw, i);
    var r := x + y + z;
    forall k | 0 <= k < |r|
      ensures FamilyOf(r[k].eventType)
        == if k < |x| then PriceVsShort else if k < |x| + |y| then PriceVsLong else ShortVsLong
    {
      if k < |x| {
        assert r[k] == x[k];
      } else if k < |x| + |y| {
        assert r[k] == y[k - |x|];
      } else {
        assert r[k] == z[k - |x| - |y|];
      }
    }
  }

  /** An event of family `f` at row `i` means the difference `f` was defined at row `i` and at row `i - 1`. */
  lemma {:induction false} EventNeedsDefinedDiff(symbol: string, frame: seq<FrameRow>, sw: int, lw: int, i: int, e: SmaEvent)
    requires 0 <= i < |frame| && e in EventsAt(symbol, frame, sw, lw, i)
    ensures Diff(FamilyOf(e.eventType), frame[i]).Some?
    ensures i >= 1 && Diff(FamilyOf(e.eventType), frame[i - 1]).Some?
  {
    EventOfFamily(symbol, frame, sw, lw, i, e);
  }

  /**
   * Every event records the symbol, the row's date and close, the run's two
   * windows, and both averages at that row (`None` for a window not yet filled).
   * The averages its own family compares are always present, so golden and death
   * crosses carry both.
   */
  lemma {:induction false} EventFields(symbol: string, frame: seq<FrameRow>, sw: int, lw: int, i: int, e: SmaEvent)
    requires 0 <= i < |frame| && e in EventsAt(symbol, frame, sw, lw, i)
    ensures && e.symbol == symbol && e.eventDate == frame[i].tradeDate && e.closePrice == frame[i].close
            && e.shortWindow == sw && e.longWindow == lw
            && e.shortSma == frame[i].shortSma && e.longSma == frame[i].longSma
    ensures FamilyOf(e.eventType) != PriceVsLong ==> e.shortSma.Some?
    ensures FamilyOf(e.eventType) != PriceVsShort ==> e.longSma.Some?
  {
    EventOfFamily(symbol, frame, sw, lw, i, e);
  }

  /** The events of the whole scan come from rows before `n`. */
  lemma {:induction false} EventProvenance(symbol: string, frame: seq<FrameRow>, sw: int, lw: int, n: int, e: SmaEvent)
    requires 0 <= n <= |frame| && e in AllEvents(symbol, frame, sw, lw, n)
    ensures exists i :: 0 <= i < n && e in EventsAt(symbol, frame, sw, lw, i)
  {
    if n > 0 {
      var earlier := AllEvents(symbol, frame, sw, lw, n - 1);
      assert AllEvents(symbol, frame, sw, lw, n) == earlier + EventsAt(symbol, frame, sw, lw, n - 1);
      if e in earlier {
        EventProvenance(symbol, frame, sw, lw, n - 1, e);
        var i :| 0 <= i < n - 1 && e in EventsAt(symbol, frame, sw, lw, i);
        assert 0 <= i < n;
      } else {
        assert e in EventsAt(symbol, frame, sw, lw, n - 1);
      }
    }
  }

  /** Row `i` of the frame is row `i` of the history with the two averages at `i` as its columns. */
  lemma {:induction false} AverageColumns(rows: seq<PricePoint>, sw: int, lw: int, i: int)
    requires 0 <= i < |rows|
    ensures WithAverages(rows, sw, lw)[i]
         == FrameRow(rows[i].tradeDate, rows[i].close, RollingMean(rows, sw, i), RollingMean(rows, lw, i))
  {
  }

  /**
   * With valid windows (`sw < lw`), a series shorter than the short window, the
   * empty one included, produces no event at all.
   */
  lemma {:induction false} ShortSeriesNoEvents(symbol: string, rows: seq<PricePoint>, sw: int, lw: int, n: int)
    requires 0 <= n <= |rows| && n < sw < lw
    ensures AllEvents(symbol, WithAverages(rows, sw, lw), sw, lw, n) == []
  {
    if n > 0 {
      ShortSeriesNoEvents(symbol, rows, sw, lw, n - 1);
      AverageColumns(rows, sw, lw, n - 1);
      assert EventsAt(symbol, WithAverages(rows, sw, lw), sw, lw, n - 1) == [];
    }
  }

  /**
   * With valid windows, a series shorter than the long window produces only
   * price-versus-short-average crossings.
   */
  lemma {:induction false} BelowLongWindowOnlyShortEvents(symbol: string, rows: seq<PricePoint>, sw: int, lw: int, n: int)
    requires 0 <= n <= |rows| && n < lw
    ensures forall e :: e in AllEvents(symbol, WithAverages(rows, sw, lw), sw, lw, n) ==>
      e.eventType == PriceCrossShortUp || e.eventType == PriceCrossShortDown
  {
    var frame := WithAverages(rows, sw, lw);
    forall e | e in AllEvents(symbol, frame, sw, lw, n)
      ensures e.eventType == PriceCrossShortUp || e.eventType == PriceCrossShortDown
    {
      EventProvenance(symbol, frame, sw, lw, n, e);
      var i :| 0 <= i < n && e in EventsAt(symbol, frame, sw, lw, i);
      EventNeedsDefinedDiff(symbol, frame, sw, lw, i, e);
      AverageColumns(rows, sw, lw, i);
    }
  }

  // ---------------------------------------------------------------------------
  // Scanning a suffix (the resumed run) against scanning the whole history

  /**
   * Row `j` of a frame built from a suffix against row `k + j` of the frame built
   * from the whole history: same date and close; an average whose window fits in
   * the suffix's first `j + 1` rows is the same, any other is absent.
   */
  ghost predicate RowAgrees(p: FrameRow, w: FrameRow, j: int, sw: int, lw: int) {
    && p.tradeDate == w.tradeDate && p.close == w.close
    && (if sw <= j + 1 then p.shortSma == w.shortSma else p.shortSma == None)
    && (if lw <= j + 1 then p.longSma == w.longSma else p.longSma == None)
  }

  /** `part` is the frame of a resumed scan that starts at row `k` of the history behind `whole`. */
  ghost predicate ResumedFrame(part: seq<FrameRow>, whole: seq<FrameRow>, k: int, sw: int, lw: int) {
    && 0 <= k && k + |part| == |whole|
    && forall j :: 0 <= j < |part| ==> AgreesAt(part, whole, k, j, sw, lw)
  }

  /** Row `j` of the resumed frame agrees with row `k + j` of the full one. */
  ghost predicate AgreesAt(part: seq<FrameRow>, whole: seq<FrameRow>, k: int, j: int, sw: int, lw: int) {
    0 <= j < |part| && 0 <= k + j < |whole| && RowAgrees(part[j], whole[k + j], j, sw, lw)
  }

  /** The frame of the suffix `rows[k..]` is a resumed frame of the frame of `rows`. */
  lemma {:induction false} SuffixFrameIsResumed(rows: seq<PricePoint>, sw: int, lw: int, k: int)
    requires 0 <= k <= |rows|
    ensures ResumedFrame(WithAverages(rows[k..], sw, lw), WithAverages(rows, sw, lw), k, sw, lw)
  {
    var part := WithAverages(rows[k..], sw, lw);
    var whole := WithAverages(rows, sw, lw);
    forall j | 0 <= j < |part| ensures AgreesAt(part, whole, k, j, sw, lw) {
      assert rows[k..][j] == rows[k + j];
      AverageColumns(rows[k..], sw, lw, j);
      AverageColumns(rows, sw, lw, k + j);
      if sw <= j + 1 {
        RollingMeanOfSuffix(rows, k, k + j, sw);
      }
      if lw <= j + 1 {
        RollingMeanOfSuffix(rows, k, k + j, lw);
      }
    }
  }

  /** A difference defined on a resumed row has the same value as on the full row. */
  lemma {:induction false} DiffAgrees(f: Family, p: FrameRow, w: FrameRow, j: int, sw: int, lw: int)
    requires RowAgrees(p, w, j, sw, lw)
    requires Diff(f, p).Some? || (sw <= j + 1 && lw <= j + 1)
    ensures Diff(f, p) == Diff(f, w)
  {
  }

  /**
   * Once both windows fit before row `j` of a resumed frame, the resumed scan
   * emits at `j` exactly what the full scan emits at `k + j`.
   */
  lemma {:induction false} ResumedScanAgrees(symbol: string, part: seq<FrameRow>, whole: seq<FrameRow>, k: int, sw: int, lw: int, j: int)
    requires ResumedFrame(part, whole, k, sw, lw)
    requires 1 <= j < |part| && sw <= j && lw <= j
    ensures EventsAt(symbol, part, sw, lw, j) == EventsAt(symbol, whole, sw, lw, k + j)
  {
    assert AgreesAt(part, whole, k, j, sw, lw) && AgreesAt(part, whole, k, j - 1, sw, lw);
    assert part[j] == whole[k + j];
    forall f ensures Previous(f, part, j) == Previous(f, whole, k + j) {
      DiffAgrees(f, part[j - 1], whole[k + j - 1], j - 1, sw, lw);
    }
  }

  /**
   * Resuming never invents an event: an event the resumed scan emits at its row
   * `j` has its key among the events the full scan emits at row `k + j`, because a
   * firing difference was defined at `j` and `j - 1`, so its windows fit.
   */
  lemma {:induction false} ResumedEventKeyIsFullKey(symbol: string, part: seq<FrameRow>, whole: seq<FrameRow>, k: int, sw: int, lw: int,
                                 j: int, e: SmaEvent) returns (d: SmaEvent)
    requires ResumedFrame(part, whole, k, sw, lw)
    requires 0 <= j < |part| && e in EventsAt(symbol, part, sw, lw, j)
    ensures k + j < |whole| && d in EventsAt(symbol, whole, sw, lw, k + j) && KeyOf(d) == KeyOf(e)
  {
    var t := e.eventType;
    var f := FamilyOf(t);
    EventNeedsDefinedDiff(symbol, part, sw, lw, j, e);
    assert AgreesAt(part, whole, k, j, sw, lw) && AgreesAt(part, whole, k, j - 1, sw, lw);
    DiffAgrees(f, part[j], whole[k + j], j, sw, lw);
    DiffAgrees(f, part[j - 1], whole[k + j - 1], j - 1, sw, lw);
    EventAtIff(symbol, part, sw, lw, j, t);
    EventAtIff(symbol, whole, sw, lw, k + j, t);
    d :| d in EventsAt(symbol, whole, sw, lw, k + j) && d.eventType == t;
    EventFields(symbol, part, sw, lw, j, e);
    EventFields(symbol, whole, sw, lw, k + j, d);
    assert KeyOf(d) == KeyOf(e);
  }

  /** Trade dates strictly increase along the frame (one row per date, sorted). */
  ghost predicate StrictlyAscending(frame: seq<FrameRow>) {
    forall i, j :: 0 <= i < j < |frame| ==> frame[i].tradeDate < frame[j].tradeDate
  }

  /** Events in non-decreasing date order, no two with the same key. */
  ghost predicate DateOrderedDistinctKeys(r: seq<SmaEvent>) {
    forall a, b :: 0 <= a < b < |r| ==> r[a].eventDate <= r[b].eventDate && KeyOf(r[a]) != KeyOf(r[b])
  }

  /**
   * Over rows with distinct ascending dates the scan emits its events in date
   * order and never the same `(symbol, event_date, event_type)` key twice, so a
   * batch of candidates never collides with itself in the upsert.
   */
  lemma {:induction false} ScanKeysDistinct(symbol: string, frame: seq<FrameRow>, sw: int, lw: int, n: int)
    requires 0 <= n <= |frame| && StrictlyAscending(frame)
    ensures DateOrderedDistinctKeys(AllEvents(symbol, frame, sw, lw, n))
  {
    if n > 0 {
      ScanKeysDistinct(symbol, frame, sw, lw, n - 1);
      EarlierEventsPrecede(symbol, frame, sw, lw, n);
      ScanKeysDistinctStep(symbol, frame, sw, lw, n);
    }
  }

  lemma {:induction false} ScanKeysDistinctStep(symbol: string, frame: seq<FrameRow>, sw: int, lw: int, n: int)
    requires 0 < n <= |frame|
    requires DateOrderedDistinctKeys(AllEvents(symbol, frame, sw, lw, n - 1))
    requires DatedBefore(AllEvents(symbol, frame, sw, lw, n - 1), frame[n - 1].tradeDate)
    ensures DateOrderedDistinctKeys(AllEvents(symbol, frame, sw, lw, n))
  {
    RowAppendOrdered(symbol, frame, sw, lw, n - 1, AllEvents(symbol, frame, sw, lw, n - 1));
  }

  /** Appending the events of row `i` to events dated before it keeps the order and the distinct keys. */
  lemma {:induction false} RowAppendOrdered(symbol: string, frame: seq<FrameRow>, sw: int, lw: int, i: int, p: seq<SmaEvent>)
    requires 0 <= i < |frame|
    requires DateOrderedDistinctKeys(p) && DatedBefore(p, frame[i].tradeDate)
    ensures DateOrderedDistinctKeys(p + EventsAt(symbol, frame, sw, lw, i))
  {
    RowEventsShareDate(symbol, frame, sw, lw, i);
    AppendDateOrdered(p, EventsAt(symbol, frame, sw, lw, i), frame[i].tradeDate);
  }

  /** Every event of `p` is dated before `date`. */
  ghost predicate DatedBefore(p: seq<SmaEvent>, date: int) {
    forall e :: e in p ==> e.eventDate < date
  }

  /** Every event of `q` is dated `date`, and no two share a type. */
  ghost predicate SameDateDistinctTypes(q: seq<SmaEvent>, date: int) {
    && (forall b :: 0 <= b < |q| ==> q[b].eventDate == date)
    && (forall a, b :: 0 <= a < b < |q| ==> q[a].eventType != q[b].eventType)
  }

  /** Over strictly ascending dates, the events of rows before `n - 1` are dated before row `n - 1`. */
  lemma {:induction false} EarlierEventsPrecede(symbol: string, frame: seq<FrameRow>, sw: int, lw: int, n: int)
    requires 0 < n <= |frame| && StrictlyAscending(frame)
    ensures DatedBefore(AllEvents(symbol, frame, sw, lw, n - 1), frame[n - 1].tradeDate)
  {
    forall e | e in AllEvents(symbol, frame, sw, lw, n - 1) ensures e.eventDate < frame[n - 1].tradeDate {
      EventProvenance(symbol, frame, sw, lw, n - 1, e);
      var i :| 0 <= i < n - 1 && e in EventsAt(symbol, frame, sw, lw, i);
      EventFields(symbol, frame, sw, lw, i, e);
    }
  }

  /** The events of one row all carry its date and have pairwise distinct types. */
  lemma {:induction false} RowEventsShareDate(symbol: string, frame: seq<FrameRow>, sw: int, lw: int, i: int)
    requires 0 <= i < |frame|
    ensures SameDateDistinctTypes(EventsAt(symbol, frame, sw, lw, i), frame[i].tradeDate)
  {
    var q := EventsAt(symbol, frame, sw, lw, i);
    AtMostOnePerFamily(symbol, frame, sw, lw, i);
    forall b | 0 <= b < |q| ensures q[b].eventDate == frame[i].tradeDate {
      EventFields(symbol, frame, sw, lw, i, q[b]);
    }
  }

  lemma {:induction false} AppendDateOrdered(p: seq<SmaEvent>, q: seq<SmaEvent>, date: int)
    requires DateOrderedDistinctKeys(p) && DatedBefore(p, date) && SameDateDistinctTypes(q, date)
    ensures DateOrderedDistinctKeys(p + q)
  {
    var r := p + q;
    forall a, b | 0 <= a < b < |r| ensures r[a].eventDate <= r[b].eventDate && KeyOf(r[a]) != KeyOf(r[b]) {
      if b < |p| {
        assert r[a] == p[a] && r[b] == p[b];
      } else if a < |p| {
        assert r[a] == p[a] && r[b] == q[b - |p|];
        assert p[a] in p;
      } else {
        assert r[a] == q[a - |p|] && r[b] == q[b - |p|];
      }
    }
  }

  // ---------------------------------------------------------------------------
  // Candidates of a whole history

  /** Trade dates strictly increase along the history (one row per date, in order). */
  ghost predicate AscendingDates(rows: seq<PricePoint>) {
    forall i, j :: 0 <= i < j < |rows| ==> rows[i].tradeDate < rows[j].tradeDate
  }

  /** The keys of a sequence of events. */
  function KeySet(q: seq<SmaEvent>): set<EventKey> {
    set e | e in q :: KeyOf(e)
  }

  /** The `(symbol, event_date, event_type)` keys of what `compute_sma_events` returns. */
  function CandidateKeys(symbol: string, history: seq<PricePoint>, sw: int, lw: int): set<EventKey> {
    KeySet(CandidateEvents(symbol, history, sw, lw))
  }

  /** Every candidate key names the scanned symbol. */
  lemma {:induction false} CandidateKeysOfSymbol(symbol: string, history: seq<PricePoint>, sw: int, lw: int)
    ensures forall key :: key in CandidateKeys(symbol, history, sw, lw) ==> key.0 == symbol
  {
    if history != [] {
      var frame := WithAverages(Sorting.SortBy(history, DateKey), sw, lw);
      forall e | e in AllEvents(symbol, frame, sw, lw, |history|) ensures e.symbol == symbol {
        EventProvenance(symbol, frame, sw, lw, |history|, e);
        var i :| 0 <= i < |history| && e in EventsAt(symbol, frame, sw, lw, i);
        EventFields(symbol, frame, sw, lw, i, e);
      }
    }
  }

  /** An event emitted at row `i` is part of every scan that goes past `i`. */
  lemma {:induction false} EventsAtInAll(symbol: string, frame: seq<FrameRow>, sw: int, lw: int, n: int, i: int, e: SmaEvent)
    requires 0 <= i < n <= |frame| && e in EventsAt(symbol, frame, sw, lw, i)
    ensures e in AllEvents(symbol, frame, sw, lw, n)
  {
    if i < n - 1 {
      EventsAtInAll(symbol, frame, sw, lw, n - 1, i, e);
    }
  }

  /** Over date-ordered rows the sort in `compute_sma_events` changes nothing: the rows are scanned as given. */
  lemma {:induction false} CandidatesOfOrdered(symbol: string, rows: seq<PricePoint>, sw: int, lw: int)
    requires AscendingDates(rows)
    ensures CandidateEvents(symbol, rows, sw, lw) == AllEvents(symbol, WithAverages(rows, sw, lw), sw, lw, |rows|)
  {
    if rows != [] {
      assert Sorting.SortedBy(rows, DateKey);
      Sorting.SortSortedIsIdentity(rows, DateKey);
    }
  }

  /**
   * Resuming from a later row never invents an event: every key the scan of the
   * suffix `rows[k..]` produces is a key the scan of all of `rows` produces.
   */
  lemma {:induction false} ResumedCandidateKeys(symbol: string, rows: seq<PricePoint>, k: int, sw: int, lw: int)
    requires AscendingDates(rows) && 0 <= k <= |rows|
    ensures CandidateKeys(symbol, rows[k..], sw, lw) <= CandidateKeys(symbol, rows, sw, lw)
  {
    assert AscendingDates(rows[k..]) by {
      forall i, j | 0 <= i < j < |rows[k..]| ensures rows[k..][i].tradeDate < rows[k..][j].tradeDate {
        assert rows[k..][i] == rows[k + i] && rows[k..][j] == rows[k + j];
      }
    }
    CandidatesOfOrdered(symbol, rows, sw, lw);
    CandidatesOfOrdered(symbol, rows[k..], sw, lw);
    SuffixFrameIsResumed(rows, sw, lw, k);
    ResumedScanKeys(symbol, WithAverages(rows[k..], sw, lw), WithAverages(rows, sw, lw), k, sw, lw);
  }

  /** Every event of a resumed scan has its key among the events of the full scan. */
  lemma {:induction false} ResumedScanKeys(symbol: string, part: seq<FrameRow>, whole: seq<FrameRow>, k: int, sw: int, lw: int)
    requires ResumedFrame(part, whole, k, sw, lw)
    ensures forall e :: e in AllEvents(symbol, part, sw, lw, |part|) ==>
      exists d :: d in AllEvents(symbol, whole, sw, lw, |whole|) && KeyOf(d) == KeyOf(e)
  {
    forall e | e in AllEvents(symbol, part, sw, lw, |part|)
      ensures exists d :: d in AllEvents(symbol, whole, sw, lw, |whole|) && KeyOf(d) == KeyOf(e)
    {
      var j := EventRow(symbol, part, sw, lw, e);
      FullScanHasKey(symbol, part, whole, k, sw, lw, j, e);
    }
  }

  /** The key of an event the resumed scan emits at row `j` is the key of an event of the full scan. */
  lemma {:induction false} FullScanHasKey(symbol: string, part: seq<FrameRow>, whole: seq<FrameRow>, k: int, sw: int, lw: int,
                                          j: int, e: SmaEvent)
    requires ResumedFrame(part, whole, k, sw, lw)
    requires 0 <= j < |part| && e in EventsAt(symbol, part, sw, lw, j)
    ensures exists d :: d in AllEvents(symbol, whole, sw, lw, |whole|) && KeyOf(d) == KeyOf(e)
  {
    var d := ResumedEventKeyIsFullKey(symbol, part, whole, k, sw, lw, j, e);
    EventsAtInAll(symbol, whole, sw, lw, |whole|, k + j, d);
    KeyWitness(e, d, AllEvents(symbol, whole, sw, lw, |whole|));
  }

  lemma KeyWitness(e: SmaEvent, d: SmaEvent, q: seq<SmaEvent>)
    requires d in q && KeyOf(d) == KeyOf(e)
    ensures exists d' :: d' in q && KeyOf(d') == KeyOf(e)
  {
  }

  /** The row of the frame at which a scanned event was emitted. */
  lemma {:induction false} EventRow(symbol: string, frame: seq<FrameRow>, sw: int, lw: int, e: SmaEvent) returns (i: int)
    requires e in AllEvents(symbol, frame, sw, lw, |frame|)
    ensures 0 <= i < |frame| && e in EventsAt(symbol, frame, sw, lw, i)
  {
    EventProvenance(symbol, frame, sw, lw, |frame|, e);
    i :| 0 <= i < |frame| && e in EventsAt(symbol, frame, sw, lw, i);
  }

  /** Over date-ordered rows the candidates come in date order with pairwise distinct keys. */
  lemma {:induction false} CandidateKeysDistinct(symbol: string, rows: seq<PricePoint>, sw: int, lw: int)
    requires AscendingDates(rows)
    ensures DateOrderedDistinctKeys(CandidateEvents(symbol, rows, sw, lw))
  {
    CandidatesOfOrdered(symbol, rows, sw, lw);
    var frame := WithAverages(rows, sw, lw);
    assert StrictlyAscending(frame) by {
      forall i, j | 0 <= i < j < |frame| ensures frame[i].tradeDate < frame[j].tradeDate {
        AverageColumns(rows, sw, lw, i);
        AverageColumns(rows, sw, lw, j);
      }
    }
    ScanKeysDistinct(symbol, frame, sw, lw, |rows|);
  }
}
