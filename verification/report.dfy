/**
 * The pure parts of the 30-day report: the window arithmetic, the report date,
 * the event filter and the per-symbol price performance.  Dates are day numbers.
 */
module ThirtyDayReport {
  import opened Common
  import SmaEvents
  import Sorting

  // ---------------------------------------------------------------------------
  // The report window
  // ---------------------------------------------------------------------------

  /** `ReportWindow`: the inclusive range of trade dates the report covers. */
  datatype ReportWindow = ReportWindow(startDate: int, endDate: int)

  /** The `ValueError` raised for a look-back shorter than one day. */
  datatype WindowError = LookbackTooShort

  /** Whether a day falls inside a window. */
  predicate InWindow(w: ReportWindow, d: int) {
    w.startDate <= d <= w.endDate
  }

  /**
   * `ReportWindow.from_end_and_span`: fails iff the look-back is below one day;
   * otherwise the window ends on the given day and starts `lookbackDays - 1` days before.
   */
  function FromEndAndSpan(endDate: int, lookbackDays: int): (r: Result<ReportWindow, WindowError>)
    ensures r.Err? <==> lookbackDays < 1
    ensures r.Ok? ==> r.value.endDate == endDate && r.value.startDate <= r.value.endDate
    ensures r.Ok? ==> forall d :: InWindow(r.value, d) <==> endDate - lookbackDays < d <= endDate
  {
    if lookbackDays < 1 then Err(LookbackTooShort)
    else Ok(ReportWindow(endDate - (lookbackDays - 1), endDate))
  }

  /**
   * The window of `main`: the report date defaults to today and a future date is
   * replaced by today, then the window is built from it.
   */
  function MainWindow(reportDate: Option<int>, lookbackDays: int, today: int): (r: Result<ReportWindow, WindowError>)
    ensures r.Err? <==> lookbackDays < 1
    ensures r.Ok? ==> r.value.endDate <= today
    ensures r.Ok? && reportDate.Some? && reportDate.value <= today ==> r.value.endDate == reportDate.value
    ensures r.Ok? && (reportDate.None? || reportDate.value > today) ==> r.value.endDate == today
    ensures r.Ok? ==> r.value.endDate - r.value.startDate + 1 == lookbackDays
  {
    FromEndAndSpan(ClampToToday(reportDate, today), lookbackDays)
  }

  // ---------------------------------------------------------------------------
  // Event filter
  // ---------------------------------------------------------------------------

  predicate HasLongWindow(e: SmaEvents.SmaEvent, longWindow: int) {
    e.longWindow == longWindow
  }

  /** `filter_long_window_events`: the events of one long window, in order. */
  function FilterLongWindowEvents(events: seq<SmaEvents.SmaEvent>, longWindow: int): (r: seq<SmaEvents.SmaEvent>)
    ensures forall e :: e in r <==> e in events && e.longWindow == longWindow
  {
    if events == [] then events
    else Filter(events, e => HasLongWindow(e, longWindow))
  }

  /** Each matching event is kept as often as it occurs, every other one is dropped. */
  lemma {:induction false} FilterLongWindowCounts(events: seq<SmaEvents.SmaEvent>, longWindow: int)
    ensures forall e ::
      multiset(FilterLongWindowEvents(events, longWindow))[e] == (if e.longWindow == longWindow then multiset(events)[e] else 0)
  {
    if events != [] {
      var p := (e: SmaEvents.SmaEvent) => HasLongWindow(e, longWindow);
      FilterLongWindowCounts(events[1..], longWindow);
      assert events == [events[0]] + events[1..];
      assert Filter(events, p) == (if p(events[0]) then [events[0]] else []) + Filter(events[1..], p);
      if events[1..] == [] {
        assert Filter(events[1..], p) == [];
      }
    }
  }

  /** Events that all carry the long window come back unchanged. */
  lemma {:induction false} FilterLongWindowKeepsMatching(events: seq<SmaEvents.SmaEvent>, longWindow: int)
    requires forall e :: e in events ==> e.longWindow == longWindow
    ensures FilterLongWindowEvents(events, longWindow) == events
  {
    if events != [] {
      var p := (e: SmaEvents.SmaEvent) => HasLongWindow(e, longWindow);
      FilterLongWindowKeepsMatching(events[1..], longWindow);
      assert events == [events[0]] + events[1..];
      if events[1..] == [] {
        assert Filter(events[1..], p) == [];
      }
    }
  }

  /**
   * The filter keeps the input order: filtering two runs of events one
   * after the other is filtering their concatenation, and a single event
   * is kept exactly when it matches.
   */
  lemma FilterLongWindowKeepsOrder(a: seq<SmaEvents.SmaEvent>, b: seq<SmaEvents.SmaEvent>, longWindow: int)
    ensures FilterLongWindowEvents(a + b, longWindow)
      == FilterLongWindowEvents(a, longWindow) + FilterLongWindowEvents(b, longWindow)
    ensures forall e :: FilterLongWindowEvents([e], longWindow) == if e.longWindow == longWindow then [e] else []
  {
    var p := (e: SmaEvents.SmaEvent) => HasLongWindow(e, longWindow);
    FilterAppend(a, b, p);
    assert a + b == [] ==> a == [] && b == [];
    forall e ensures FilterLongWindowEvents([e], longWindow) == if e.longWindow == longWindow then [e] else [] {
      assert [e][1..] == [];
    }
  }

  // ---------------------------------------------------------------------------
  // Symbol performance
  // ---------------------------------------------------------------------------

  /** A row of the price window; a NULL close is `None`. */
  datatype PriceObs = PriceObs(symbol: string, tradeDate: int, close: Option<real>)

  /** A row of the performance frame. */
  datatype Performance = Performance(
    symbol: string,
    startDate: int,
    endDate: int,
    startClose: real,
    endClose: real,
    pctChange: real)

  predicate HasClose(o: PriceObs) { o.close.Some? }

  /** `dropna(subset=["close"])`. */
  function Closed(prices: seq<PriceObs>): (r: seq<PriceObs>)
    ensures forall o :: o in r <==> o in prices && o.close.Some?
  {
    Filter(prices, HasClose)
  }

  /** Whether `s` has an observation in `obs`. */
  predicate Observed(obs: seq<PriceObs>, s: string) {
    exists o :: o in obs && o.symbol == s
  }

  /**
   * The first row of `s` once sorted by trade date (the sort is stable, so among
   * rows of the same date the earliest in the input wins).
   */
  function Earliest(obs: seq<PriceObs>, s: string): (o: PriceObs)
    requires Observed(obs, s)
    ensures o in obs && o.symbol == s
    ensures forall x :: x in obs && x.symbol == s ==> o.tradeDate <= x.tradeDate
  {
    var rest := obs[1..];
    assert forall x :: x in obs ==> x == obs[0] || x in rest;
    if obs[0].symbol == s && (!Observed(rest, s) || obs[0].tradeDate <= Earliest(rest, s).tradeDate) then obs[0]
    else Earliest(rest, s)
  }

  /** The last row of `s` once sorted by trade date (later input rows win ties). */
  function Latest(obs: seq<PriceObs>, s: string): (o: PriceObs)
    requires Observed(obs, s)
    ensures o in obs && o.symbol == s
    ensures forall x :: x in obs && x.symbol == s ==> x.tradeDate <= o.tradeDate
  {
    var rest := obs[1..];
    assert forall x :: x in obs ==> x == obs[0] || x in rest;
    if obs[0].symbol == s && (!Observed(rest, s) || obs[0].tradeDate > Latest(rest, s).tradeDate) then obs[0]
    else Latest(rest, s)
  }

  /** The symbols of `obs`, each once, in order of first appearance. */
  function DistinctSymbols(obs: seq<PriceObs>): (r: seq<string>)
    ensures forall s :: s in r <==> Observed(obs, s)
    ensures forall i, j :: 0 <= i < j < |r| ==> r[i] != r[j]
  {
    if obs == [] then []
    else
      var init := obs[..|obs| - 1];
      var last := obs[|obs| - 1];
      assert forall x :: x in obs <==> x in init || x == last;
      var r := DistinctSymbols(init);
      if last.symbol in r then r else r + [last.symbol]
  }

  /** `(end - start) / start * 100`. */
  function PctChange(startClose: real, endClose: real): real
    requires startClose != 0.0
  {
    (endClose - startClose) / startClose * 100.0
  }

  /** The first and last close of a symbol, when the first one is not zero. */
  function SymbolPerformance(obs: seq<PriceObs>, s: string): Option<Performance>
    requires Observed(obs, s)
    requires forall o :: o in obs ==> o.close.Some?
  {
    var first := Earliest(obs, s);
    var last := Latest(obs, s);
    if first.close.value == 0.0 then None
    else Some(Performance(s, first.tradeDate, last.tradeDate, first.close.value, last.close.value,
                          PctChange(first.close.value, last.close.value)))
  }

  /** The groups of `symbols` in order, with the zero starts dropped. */
  function Grouped(obs: seq<PriceObs>, symbols: seq<string>): (r: seq<Performance>)
    requires forall s :: s in symbols ==> Observed(obs, s)
    requires forall o :: o in obs ==> o.close.Some?
    ensures forall p :: p in r ==> p.symbol in symbols && Some(p) == SymbolPerformance(obs, p.symbol)
    ensures forall s :: s in symbols && SymbolPerformance(obs, s).Some? ==> SymbolPerformance(obs, s).value in r
  {
    if symbols == [] then []
    else
      var rest := Grouped(obs, symbols[1..]);
      match SymbolPerformance(obs, symbols[0])
      case None => rest
      case Some(p) => [p] + rest
  }

  /** The sort key of `sort_values("pct_change", ascending=False)`. */
  function Descending(p: Performance): real { -p.pctChange }

  /** `compute_symbol_performance`: one row per symbol, largest gain first. */
  function ComputeSymbolPerformance(prices: seq<PriceObs>): (r: seq<Performance>)
    ensures forall i, j :: 0 <= i < j < |r| ==> r[i].pctChange >= r[j].pctChange
  {
    var obs := Closed(prices);
    var r := Sorting.SortBy(Grouped(obs, DistinctSymbols(obs)), Descending);
    assert forall i, j :: 0 <= i < j < |r| ==> Descending(r[i]) <= Descending(r[j]);
    r
  }

  /** The reference description of the row a symbol gets. */
  predicate DescribesSymbol(prices: seq<PriceObs>, p: Performance) {
    // the start is the close of the earliest dated non-null row of the symbol ...
    (exists o :: o in prices && o.symbol == p.symbol && o.close == Some(p.startClose) && o.tradeDate == p.startDate)
    && (forall o :: o in prices && o.symbol == p.symbol && o.close.Some? ==> p.startDate <= o.tradeDate)
    // ... the end the close of the latest one ...
    && (exists o :: o in prices && o.symbol == p.symbol && o.close == Some(p.endClose) && o.tradeDate == p.endDate)
    && (forall o :: o in prices && o.symbol == p.symbol && o.close.Some? ==> o.tradeDate <= p.endDate)
    // ... and the change is relative to a non-zero start
    && p.startClose != 0.0 && p.pctChange == PctChange(p.startClose, p.endClose)
  }

  /** Every row describes its symbol's first and last non-null close. */
  lemma PerformanceRowsDescribeSymbols(prices: seq<PriceObs>)
    ensures forall p :: p in ComputeSymbolPerformance(prices) ==> DescribesSymbol(prices, p)
  {
    var obs := Closed(prices);
    var g := Grouped(obs, DistinctSymbols(obs));
    assert multiset(ComputeSymbolPerformance(prices)) == multiset(g);
    forall p | p in ComputeSymbolPerformance(prices)
      ensures DescribesSymbol(prices, p)
    {
      assert p in multiset(g);
      var first := Earliest(obs, p.symbol);
      var last := Latest(obs, p.symbol);
      assert first in prices && last in prices;
    }
  }

  /**
   * A symbol gets a row iff it has a non-null close and its earliest such close is
   * not zero.
   */
  lemma PerformanceCoversSymbols(prices: seq<PriceObs>)
    ensures forall s :: (exists p :: p in ComputeSymbolPerformance(prices) && p.symbol == s) <==>
      Observed(Closed(prices), s) && Earliest(Closed(prices), s).close.value != 0.0
  {
    var obs := Closed(prices);
    var g := Grouped(obs, DistinctSymbols(obs));
    var r := ComputeSymbolPerformance(prices);
    assert multiset(r) == multiset(g);
    forall s | Observed(obs, s) && Earliest(obs, s).close.value != 0.0
      ensures exists p :: p in r && p.symbol == s
    {
      var p := SymbolPerformance(obs, s).value;
      assert p in multiset(g);
    }
    forall p | p in r
      ensures Observed(obs, p.symbol) && Earliest(obs, p.symbol).close.value != 0.0
    {
      assert p in multiset(g);
    }
  }

  /** No symbol gets two rows. */
  lemma PerformanceSymbolsDistinct(prices: seq<PriceObs>)
    ensures var r := ComputeSymbolPerformance(prices);
      forall i, j :: 0 <= i < j < |r| ==> r[i].symbol != r[j].symbol
  {
    var obs := Closed(prices);
    var symbols := DistinctSymbols(obs);
    var g := Grouped(obs, symbols);
    var r := ComputeSymbolPerformance(prices);
    assert multiset(r) == multiset(g);
    GroupedDistinct(obs, symbols);
    forall i, j | 0 <= i < j < |r|
      ensures r[i].symbol != r[j].symbol
    {
      assert r[i] in multiset(g) && r[j] in multiset(g);
      assert r[i].symbol == r[j].symbol ==> r[i] == r[j];
      RepeatCountsTwice(r, i, j);
    }
  }

  /** Distinct symbols give distinct rows, each occurring once. */
  lemma {:induction false} GroupedDistinct(obs: seq<PriceObs>, symbols: seq<string>)
    requires forall s :: s in symbols ==> Observed(obs, s)
    requires forall o :: o in obs ==> o.close.Some?
    requires forall i, j :: 0 <= i < j < |symbols| ==> symbols[i] != symbols[j]
    ensures forall p :: multiset(Grouped(obs, symbols))[p] <= 1
  {
    if symbols != [] {
      var tail := symbols[1..];
      GroupedDistinct(obs, tail);
      forall p | p in Grouped(obs, tail)
        ensures p.symbol != symbols[0]
      {
        var k :| 0 <= k < |tail| && tail[k] == p.symbol;
        assert symbols[k + 1] == p.symbol;
      }
    }
  }

  /** An element at two positions of a sequence occurs at least twice in it. */
  lemma RepeatCountsTwice<T>(r: seq<T>, i: int, j: int)
    requires 0 <= i < j < |r|
    ensures r[i] == r[j] ==> multiset(r)[r[i]] >= 2
  {
    assert r == r[..j] + [r[j]] + r[j + 1..];
    assert r[i] in r[..j];
  }

  /** `dropna` of a window without any close is empty. */
  lemma {:induction false} NoClosesNoRows(prices: seq<PriceObs>)
    requires forall o :: o in prices ==> o.close.None?
    ensures Closed(prices) == []
    ensures ComputeSymbolPerformance(prices) == []
  {
    if prices != [] {
      assert prices[1..] == [] || prices[1] in prices;
      NoClosesNoRows(prices[1..]);
    }
  }
}
