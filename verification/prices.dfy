/**
 * Daily price ingestion: the row shape both loaders store, the grouped-daily
 * loader of all_prices.py (one request for every ticker on one date) and the
 * per-symbol planner of prices.py (resume the day after the last stored trade
 * date). Dates are day numbers since 1970-01-01; Polygon timestamps are
 * milliseconds since the epoch.
 */
module PriceIngest {
  import opened Common
  import Batching

  const MillisPerDay: int := 86_400_000

  /** `datetime.utcfromtimestamp(ms / 1000).date()`: the UTC day that contains instant `ms`. */
  function UtcDay(ms: int): (d: int)
    ensures d * MillisPerDay <= ms < (d + 1) * MillisPerDay
  {
    ms / MillisPerDay
  }

  /** One aggregate bar as the REST client returns it; absent attributes are `None`. */
  datatype Aggregate = Aggregate(
    ticker: Option<string>,
    timestamp: Option<int>,
    open: real, high: real, low: real, close: real, volume: real,
    vwap: Option<real>,
    transactions: Option<int>)

  /** A row of the `prices` table, keyed by `(symbol, tradeDate)`. */
  datatype PriceRow = PriceRow(
    symbol: string,
    tradeDate: int,
    open: real, high: real, low: real, close: real, volume: real,
    vwap: Option<real>,
    transactions: Option<int>)

  datatype RowError = MissingTimestamp

  /** The row carries `agg`'s quote unchanged under `symbol`. */
  predicate CopiesQuote(row: PriceRow, symbol: string, agg: Aggregate) {
    row.symbol == symbol
    && row.open == agg.open && row.high == agg.high && row.low == agg.low
    && row.close == agg.close && row.volume == agg.volume
    && row.vwap == agg.vwap && row.transactions == agg.transactions
  }

  /**
   * `to_price_row(symbol, aggregate, trade_date)`: the trade date is the one supplied,
   * else the UTC day of the aggregate's timestamp; with neither it raises. prices.py's
   * `to_price_row` is the case `tradeDate == None`.
   */
  function ToPriceRow(symbol: string, agg: Aggregate, tradeDate: Option<int>): (r: Result<PriceRow, RowError>)
    ensures r.Err? <==> tradeDate.None? && agg.timestamp.None?
    ensures r.Ok? ==> CopiesQuote(r.value, symbol, agg)
    ensures r.Ok? && tradeDate.Some? ==> r.value.tradeDate == tradeDate.value
    ensures r.Ok? && tradeDate.None? ==>
      r.value.tradeDate * MillisPerDay <= agg.timestamp.value < (r.value.tradeDate + 1) * MillisPerDay
  {
    if tradeDate.None? && agg.timestamp.None? then Err(MissingTimestamp)
    else
      var day := if tradeDate.Some? then tradeDate.value else UtcDay(agg.timestamp.value);
      Ok(PriceRow(symbol, day, agg.open, agg.high, agg.low, agg.close, agg.volume, agg.vwap, agg.transactions))
  }

  /**
   * `date_range(start, end)`: every day from `start` to `end` inclusive, ascending by
   * one day; nothing when `start > end`.
   */
  method DateRange(start: int, end: int) returns (days: seq<int>)
    ensures |days| == Max(end - start + 1, 0)
    ensures forall i :: 0 <= i < |days| ==> days[i] == start + i
    ensures forall d :: d in days <==> start <= d <= end
  {
    days := [];
    var current := start;
    while current <= end
      invariant start <= current <= Max(end + 1, start)
      invariant |days| == current - start
      invariant forall i :: 0 <= i < |days| ==> days[i] == start + i
      decreases end - current
    {
      days := days + [current];
      current := current + 1;
    }
    forall d | start <= d <= end
      ensures d in days
    {
      assert days[d - start] == d;
    }
  }

  // ---------------------------------------------------------------- the prices table

  /** The quote columns of the `prices` table, in table order. */
  const PriceValueNames: seq<string> := ["open", "high", "low", "close", "volume", "vwap", "transactions"]

  /** The `prices` table as both loaders declare it: `(symbol, trade_date)` is the primary key. */
  const PriceColumns: seq<Batching.Column> :=
    [Batching.Column("symbol", true), Batching.Column("trade_date", true)] + Batching.ValueColumns(PriceValueNames)

  /** `upsert_prices` overwrites every column but the key: the seven quote columns, in table order. */
  lemma PriceUpdateColumns()
    ensures Batching.UpdateColumns(PriceColumns, {}) == PriceValueNames
  {
    Batching.UpdateColumnsOfValues([Batching.Column("symbol", true), Batching.Column("trade_date", true)], PriceValueNames);
  }

  datatype PriceKey = PriceKey(symbol: string, tradeDate: int)

  function KeyOfRow(r: PriceRow): PriceKey {
    PriceKey(r.symbol, r.tradeDate)
  }

  /**
   * The `prices` table after upserting `rows` in order. A row whose key is new is
   * inserted; one whose key is present overwrites every non-key column, so the
   * stored row becomes the incoming row.
   */
  function StoredPrices(table: map<PriceKey, PriceRow>, rows: seq<PriceRow>): map<PriceKey, PriceRow> {
    if rows == [] then table
    else
      var last := rows[|rows| - 1];
      StoredPrices(table, rows[..|rows| - 1])[KeyOfRow(last) := last]
  }

  /** The keys after the upsert are the old keys and those of the rows. */
  lemma {:induction false} StoredPricesKeys(table: map<PriceKey, PriceRow>, rows: seq<PriceRow>)
    ensures StoredPrices(table, rows).Keys == table.Keys + (set r | r in rows :: KeyOfRow(r))
  {
    if rows != [] {
      var init := rows[..|rows| - 1];
      StoredPricesKeys(table, init);
      assert rows == init + [rows[|rows| - 1]];
    }
  }

  /** A stored row no incoming row shares a key with is left as it was. */
  lemma {:induction false} StoredPricesLeavesOthers(table: map<PriceKey, PriceRow>, rows: seq<PriceRow>, k: PriceKey)
    requires k in table && forall r :: r in rows ==> KeyOfRow(r) != k
    ensures k in StoredPrices(table, rows) && StoredPrices(table, rows)[k] == table[k]
  {
    if rows != [] {
      var init := rows[..|rows| - 1];
      assert forall r :: r in init ==> r in rows;
      StoredPricesLeavesOthers(table, init, k);
      assert rows[|rows| - 1] in rows;
    }
  }

  /** The last incoming row with a key is what the table holds under that key, whatever was there before. */
  lemma {:induction false} StoredPricesLastWins(table: map<PriceKey, PriceRow>, rows: seq<PriceRow>, i: int)
    requires 0 <= i < |rows|
    requires forall j :: i < j < |rows| ==> KeyOfRow(rows[j]) != KeyOfRow(rows[i])
    ensures KeyOfRow(rows[i]) in StoredPrices(table, rows)
    ensures StoredPrices(table, rows)[KeyOfRow(rows[i])] == rows[i]
  {
    if i < |rows| - 1 {
      var init := rows[..|rows| - 1];
      StoredPricesLastWins(table, init, i);
    }
  }

  // ---------------------------------------------------------------- all_prices.py

  /** The grouped-daily filter: a non-empty ticker that is one of the known symbols. */
  predicate Wanted(agg: Aggregate, symbols: set<string>) {
    agg.ticker.Some? && agg.ticker.value != "" && agg.ticker.value in symbols
  }

  /** The row a wanted aggregate becomes, stamped with the requested date. */
  function Stamped(agg: Aggregate, target: int): (row: PriceRow)
    ensures row.tradeDate == target && CopiesQuote(row, agg.ticker.GetOr(""), agg)
  {
    ToPriceRow(agg.ticker.GetOr(""), agg, Some(target)).value
  }

  /** The aggregates `fetch_grouped_price_rows` keeps, in input order. */
  function Kept(aggs: seq<Aggregate>, symbols: set<string>): seq<Aggregate> {
    Filter(aggs, (a: Aggregate) => Wanted(a, symbols))
  }

  /** The rows `fetch_grouped_price_rows` returns for the aggregates of one date. */
  function GroupedRows(aggs: seq<Aggregate>, symbols: set<string>, target: int): (rows: seq<PriceRow>)
    ensures |rows| == |Kept(aggs, symbols)| <= |aggs|
    ensures forall i :: 0 <= i < |rows| ==> rows[i] == Stamped(Kept(aggs, symbols)[i], target)
    ensures forall r :: r in rows ==> r.tradeDate == target && r.symbol != "" && r.symbol in symbols
    ensures forall a :: a in aggs && Wanted(a, symbols) ==> Stamped(a, target) in rows
  {
    var kept := Kept(aggs, symbols);
    var rows := seq(|kept|, i requires 0 <= i < |kept| => Stamped(kept[i], target));
    assert forall i :: 0 <= i < |kept| ==> kept[i] in kept;
    assert forall a :: a in kept ==> exists i :: 0 <= i < |kept| && kept[i] == a && rows[i] == Stamped(a, target);
    rows
  }

  lemma GroupedRowsSnoc(aggs: seq<Aggregate>, a: Aggregate, symbols: set<string>, target: int)
    ensures GroupedRows(aggs + [a], symbols, target)
         == GroupedRows(aggs, symbols, target) + (if Wanted(a, symbols) then [Stamped(a, target)] else [])
  {
    FilterSnoc(aggs, a, (x: Aggregate) => Wanted(x, symbols));
  }

  /**
   * `fetch_grouped_price_rows`: walks the day's aggregates once and keeps, in order,
   * those whose ticker is non-empty and known, each stamped with `target`.
   */
  method FetchGroupedPriceRows(aggs: seq<Aggregate>, target: int, symbols: set<string>) returns (rows: seq<PriceRow>)
    ensures rows == GroupedRows(aggs, symbols, target)
  {
    rows := [];
    for i := 0 to |aggs|
      invariant rows == GroupedRows(aggs[..i], symbols, target)
    {
      var agg := aggs[i];
      GroupedRowsSnoc(aggs[..i], agg, symbols, target);
      assert aggs[..i + 1] == aggs[..i] + [agg];
      if !agg.ticker.Some? || agg.ticker.value == "" || agg.ticker.value !in symbols {
        continue;
      }
      var row := ToPriceRow(agg.ticker.value, agg, Some(target));
      rows := rows + [row.value];
    }
    assert aggs[..|aggs|] == aggs;
  }

  /**
   * all_prices.py `main` after the API key check: the requested date (default today,
   * a future one replaced by today), nothing stored when there are no symbols, else
   * the day's matching rows upserted.
   */
  method GroupedDailyImport(dateArg: Option<int>, today: int, symbols: seq<string>, aggs: seq<Aggregate>, chunkSize: int)
    returns (day: int, inserted: int)
    ensures day == ClampToToday(dateArg, today) && day <= today
    ensures symbols == [] ==> inserted == 0
    ensures symbols != [] ==> inserted == |GroupedRows(aggs, (set s | s in symbols), day)|
  {
    day := ClampToToday(dateArg, today);
    if symbols == [] {
      return day, 0;
    }
    var rows := FetchGroupedPriceRows(aggs, day, (set s | s in symbols));
    inserted := Batching.UpsertedCount(rows, chunkSize);
  }

  // ---------------------------------------------------------------- prices.py

  /** The validated command line of prices.py: end date, explicit start, lookback. */
  datatype Plan = Plan(end: int, start: Option<int>, lookback: int)

  datatype PlanError = StartAfterEnd

  /**
   * The first day to fetch for a symbol: the day after its last stored trade date;
   * else the explicit start; else the `lookback` days ending at `end`.
   */
  function StartDate(latest: Option<int>, plan: Plan): (start: int)
    ensures latest.Some? ==> start == latest.value + 1
    ensures latest.None? && plan.start.Some? ==> start == plan.start.value
    ensures latest.None? && plan.start.None? ==> plan.end - start == plan.lookback - 1
  {
    if latest.Some? then latest.value + 1
    else if plan.start.Some? then plan.start.value
    else plan.end - (plan.lookback - 1)
  }

  /**
   * The checks at the top of prices.py `main`: the end date defaults to today and a
   * future one becomes today; an explicit start after that end raises; the lookback
   * is at least one day.
   */
  function PlanRun(endArg: Option<int>, startArg: Option<int>, lookbackArg: int, today: int): (r: Result<Plan, PlanError>)
    ensures r.Err? <==> startArg.Some? && startArg.value > ClampToToday(endArg, today)
    ensures r.Ok? ==> r.value.end == ClampToToday(endArg, today) <= today
    ensures r.Ok? ==> r.value.start == startArg && r.value.lookback >= 1
    ensures r.Ok? && lookbackArg >= 1 ==> r.value.lookback == lookbackArg
    ensures r.Ok? ==> StartDate(None, r.value) <= r.value.end
  {
    var end := ClampToToday(endArg, today);
    if startArg.Some? && startArg.value > end then Err(StartAfterEnd)
    else Ok(Plan(end, startArg, Max(lookbackArg, 1)))
  }

  /** `latest_trade_dates.get(symbol)`. */
  function Lookup(latest: map<string, int>, symbol: string): Option<int> {
    if symbol in latest then Some(latest[symbol]) else None
  }

  /** One `list_aggs` call of the symbol loop: the symbol and its inclusive day range. */
  datatype Request = Request(symbol: string, start: int, end: int)

  /** The request the symbol loop issues for one symbol: none when it is up to date. */
  function RequestFor(symbol: string, latest: map<string, int>, plan: Plan): (r: seq<Request>)
    ensures |r| <= 1
  {
    var start := StartDate(Lookup(latest, symbol), plan);
    if start <= plan.end then [Request(symbol, start, plan.end)] else []
  }

  /** The requests issued for the first `n` symbols, in symbol order. */
  function RequestsUpTo(symbols: seq<string>, n: nat, latest: map<string, int>, plan: Plan): (r: seq<Request>)
    requires n <= |symbols|
    ensures |r| <= n
  {
    if n == 0 then [] else RequestsUpTo(symbols, n - 1, latest, plan) + RequestFor(symbols[n - 1], latest, plan)
  }

  /**
   * The requests the symbol loop issues, in symbol order: one per symbol whose start
   * date is not after the end date; the others are up to date and skipped.
   */
  function Requests(symbols: seq<string>, latest: map<string, int>, plan: Plan): (r: seq<Request>)
    ensures |r| <= |symbols|
  {
    RequestsUpTo(symbols, |symbols|, latest, plan)
  }

  lemma {:induction false} RequestsUpToExact(symbols: seq<string>, n: nat, latest: map<string, int>, plan: Plan)
    requires n <= |symbols|
    ensures forall q :: q in RequestsUpTo(symbols, n, latest, plan) ==>
      q.symbol in symbols && q.start == StartDate(Lookup(latest, q.symbol), plan) && q.start <= q.end == plan.end
    ensures forall j :: 0 <= j < n && StartDate(Lookup(latest, symbols[j]), plan) <= plan.end ==>
      Request(symbols[j], StartDate(Lookup(latest, symbols[j]), plan), plan.end) in RequestsUpTo(symbols, n, latest, plan)
  {
    if n > 0 {
      RequestsUpToExact(symbols, n - 1, latest, plan);
    }
  }

  /**
   * Every request is for a listed symbol, starts at that symbol's start date and
   * covers a non-empty range ending at the end date; and every symbol that is not up
   * to date is requested.
   */
  lemma RequestsExact(symbols: seq<string>, latest: map<string, int>, plan: Plan)
    ensures forall q :: q in Requests(symbols, latest, plan) ==>
      q.symbol in symbols && q.start == StartDate(Lookup(latest, q.symbol), plan) && q.start <= q.end == plan.end
    ensures forall s :: s in symbols && StartDate(Lookup(latest, s), plan) <= plan.end ==>
      Request(s, StartDate(Lookup(latest, s), plan), plan.end) in Requests(symbols, latest, plan)
  {
    RequestsUpToExact(symbols, |symbols|, latest, plan);
    forall s | s in symbols && StartDate(Lookup(latest, s), plan) <= plan.end
      ensures Request(s, StartDate(Lookup(latest, s), plan), plan.end) in Requests(symbols, latest, plan)
    {
      var j :| 0 <= j < |symbols| && symbols[j] == s;
    }
  }

  /**
   * A symbol with no stored prices is never skipped: after the start-after-end check,
   * both the explicit start and the lookback window begin no later than the end.
   */
  lemma NeverStoredIsRequested(endArg: Option<int>, startArg: Option<int>, lookbackArg: int, today: int,
                               symbols: seq<string>, latest: map<string, int>, plan: Plan, s: string)
    requires PlanRun(endArg, startArg, lookbackArg, today) == Ok(plan)
    requires s in symbols && s !in latest
    ensures Request(s, StartDate(None, plan), plan.end) in Requests(symbols, latest, plan)
  {
    RequestsExact(symbols, latest, plan);
  }

  /** A symbol whose last stored trade date is the end date or later gets no request. */
  lemma UpToDateIsSkipped(symbols: seq<string>, latest: map<string, int>, plan: Plan, s: string)
    requires s in latest && latest[s] >= plan.end
    ensures forall q :: q in Requests(symbols, latest, plan) ==> q.symbol != s
  {
    RequestsExact(symbols, latest, plan);
  }

  /**
   * `fetch_price_rows`: the response's aggregates as rows in order, or `None` when
   * converting one of them raises (an aggregate without a timestamp).
   */
  function RowsFor(symbol: string, aggs: seq<Aggregate>): (r: Option<seq<PriceRow>>)
    ensures r.Some? <==> forall a :: a in aggs ==> a.timestamp.Some?
    ensures r.Some? ==> |r.value| == |aggs|
    ensures r.Some? ==> forall i :: 0 <= i < |aggs| ==> r.value[i] == ToPriceRow(symbol, aggs[i], None).value
  {
    if aggs == [] then Some([])
    else
      match ToPriceRow(symbol, aggs[0], None)
      case Err(_) => None
      case Ok(row) =>
        match RowsFor(symbol, aggs[1..])
        case None => None
        case Some(rest) => Some([row] + rest)
  }

  /** What one request stores: nothing when the call or a row conversion raised. */
  function StoredRows(q: Request, fetch: Request -> Option<seq<Aggregate>>): seq<PriceRow> {
    match fetch(q)
    case None => []
    case Some(aggs) => RowsFor(q.symbol, aggs).GetOr([])
  }

  /** The sum of the per-symbol upsert counts. */
  function TotalStored(requests: seq<Request>, fetch: Request -> Option<seq<Aggregate>>): nat {
    if requests == [] then 0
    else TotalStored(requests[..|requests| - 1], fetch) + |StoredRows(requests[|requests| - 1], fetch)|
  }

  lemma TotalStoredSnoc(requests: seq<Request>, q: Request, fetch: Request -> Option<seq<Aggregate>>)
    ensures TotalStored(requests + [q], fetch) == TotalStored(requests, fetch) + |StoredRows(q, fetch)|
  {
    assert (requests + [q])[..|requests|] == requests;
  }

  /**
   * The body of the symbol loop for a symbol that is not up to date: fetch its range
   * and upsert the rows; an exception from the client or from a row conversion is
   * logged and the symbol contributes nothing.
   */
  method StoreRequest(q: Request, fetch: Request -> Option<seq<Aggregate>>, chunkSize: int) returns (inserted: int)
    ensures inserted == |StoredRows(q, fetch)|
  {
    var response := fetch(q);
    if response.None? {
      return 0;
    }
    var rows := RowsFor(q.symbol, response.value);
    if rows.None? {
      return 0;
    }
    inserted := Batching.UpsertedCount(rows.value, chunkSize);
  }

  /**
   * One turn of the symbol loop: a symbol that is not up to date is fetched and
   * stored, and its request and upsert count are added to what came before.
   */
  method ImportSymbol(symbol: string, latest: map<string, int>, plan: Plan,
                      fetch: Request -> Option<seq<Aggregate>>, chunkSize: int,
                      requests: seq<Request>, total: int)
    returns (requests': seq<Request>, total': int)
    requires total == TotalStored(requests, fetch)
    ensures requests' == requests + RequestFor(symbol, latest, plan)
    ensures total' == TotalStored(requests', fetch)
  {
    requests', total' := requests, total;
    var start := StartDate(Lookup(latest, symbol), plan);
    if start <= plan.end {
      var q := Request(symbol, start, plan.end);
      var inserted := StoreRequest(q, fetch, chunkSize);
      TotalStoredSnoc(requests, q, fetch);
      requests' := requests + [q];
      total' := total + inserted;
    }
  }

  /**
   * The symbol loop of prices.py `main`: resolve each symbol's start, skip the up to
   * date ones, fetch the rest (a failure skips that symbol only) and add up what each
   * upsert reports. `fetch` stands for the REST client.
   */
  method ImportPrices(symbols: seq<string>, latest: map<string, int>, plan: Plan,
                      fetch: Request -> Option<seq<Aggregate>>, chunkSize: int)
    returns (total: int, requests: seq<Request>)
    ensures requests == Requests(symbols, latest, plan)
    ensures total == TotalStored(requests, fetch)
  {
    total := 0;
    requests := [];
    for i := 0 to |symbols|
      invariant requests == RequestsUpTo(symbols, i, latest, plan)
      invariant total == TotalStored(requests, fetch)
    {
      requests, total := ImportSymbol(symbols[i], latest, plan, fetch, chunkSize, requests, total);
    }
  }
}
