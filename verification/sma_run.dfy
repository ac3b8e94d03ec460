/**
 * The driver around the crossover scanner in src/sma_events.py: the window checks
 * of `main`, the in-memory index built by `load_existing_events`, the resumption
 * floor, `fetch_price_history`, the deduplication of candidates, `upsert_events`
 * against the `sma_events` table, and the per-symbol loop that ties them together.
 */
module SmaRun {
  import opened Common
  import opened SmaEvents
  import Batching

  // ---------------------------------------------------------------------------
  // Configuration

  /** The two `ValueError`s `main` raises before it opens the database. */
  datatype ConfigError = NonPositiveWindow | ShortNotBelowLong

  function ValidateWindows(sw: int, lw: int): (r: Option<ConfigError>)
    ensures r == None <==> 0 < sw < lw
    ensures r == Some(NonPositiveWindow) <==> sw <= 0 || lw <= 0
    ensures r == Some(ShortNotBelowLong) <==> 0 < lw <= sw
  {
    if sw <= 0 || lw <= 0 then Some(NonPositiveWindow)
    else if sw >= lw then Some(ShortNotBelowLong)
    else None
  }

  // ---------------------------------------------------------------------------
  // The latest event date of a symbol

  /** `dict.get`: the value under `key`, or `None`. */
  function Lookup<K, V>(m: map<K, V>, key: K): Option<V> {
    if key in m then Some(m[key]) else None
  }

  /** The largest element of `s`, searching upwards from the element `w`. */
  ghost function MaxFrom(s: set<int>, w: int): (m: int)
    requires w in s
    ensures m in s && w <= m && forall x :: x in s ==> x <= m
    decreases |s|
  {
    if forall x :: x in s ==> x <= w then w
    else
      var y :| y in s && y > w;
      var m := MaxFrom(s - {w}, y);
      assert forall x :: x in s ==> x == w || x in s - {w};
      m
  }

  /** The event dates stored for `symbol`. */
  ghost function DatesOf(keys: set<EventKey>, symbol: string): set<int> {
    set k | k in keys && k.0 == symbol :: k.1
  }

  /** The latest event date stored for `symbol`, if any. */
  ghost function LatestDate(keys: set<EventKey>, symbol: string): (r: Option<int>)
    ensures r.None? <==> forall k :: k in keys ==> k.0 != symbol
    ensures r.Some? ==> (symbol, r.value) in (set k | k in keys :: (k.0, k.1))
    ensures r.Some? ==> forall k :: k in keys && k.0 == symbol ==> k.1 <= r.value
  {
    var dates := DatesOf(keys, symbol);
    if exists k :: k in keys && k.0 == symbol then
      var k :| k in keys && k.0 == symbol;
      var m := MaxFrom(dates, k.1);
      assert forall k :: k in keys && k.0 == symbol ==> k.1 <= m by {
        forall k | k in keys && k.0 == symbol ensures k.1 <= m {
          assert k.1 in dates;
        }
      }
      var k' :| k' in keys && k'.0 == symbol && k'.1 == m;
      assert (k'.0, k'.1) in (set k | k in keys :: (k.0, k.1));
      Some(m)
    else
      None
  }

  /** Recording one key moves the symbol's latest date to the later of the two, and no other symbol's. */
  lemma {:induction false} LatestDateAdd(keys: set<EventKey>, key: EventKey, symbol: string)
    ensures LatestDate(keys + {key}, symbol)
         == if key.0 != symbol then LatestDate(keys, symbol)
            else if LatestDate(keys, symbol).Some? && key.1 <= LatestDate(keys, symbol).value then LatestDate(keys, symbol)
            else Some(key.1)
  {
    if key.0 != symbol {
      assert DatesOf(keys + {key}, symbol) == DatesOf(keys, symbol);
    } else {
      assert DatesOf(keys + {key}, symbol) == DatesOf(keys, symbol) + {key.1};
    }
  }

  /** Keys of other symbols leave a symbol's latest date alone. */
  lemma {:induction false} LatestDateOtherSymbols(keys: set<EventKey>, added: set<EventKey>, symbol: string)
    requires forall k :: k in added ==> k.0 != symbol
    ensures LatestDate(keys + added, symbol) == LatestDate(keys, symbol)
  {
    assert DatesOf(keys + added, symbol) == DatesOf(keys, symbol);
  }

  /** Storing more events never moves a symbol's latest date back. */
  lemma {:induction false} LatestDateGrows(keys: set<EventKey>, more: set<EventKey>, symbol: string)
    requires keys <= more && LatestDate(keys, symbol).Some?
    ensures LatestDate(more, symbol).Some? && LatestDate(keys, symbol).value <= LatestDate(more, symbol).value
  {
    var d := LatestDate(keys, symbol).value;
    assert (symbol, d) in (set k | k in keys :: (k.0, k.1));
    var k :| k in keys && (k.0, k.1) == (symbol, d);
    assert k in more;
  }

  // ---------------------------------------------------------------------------
  // The index of stored keys

  /**
   * The two dictionaries `main` keeps: the keys already in `sma_events`, and for
   * each symbol the latest event date among them.
   */
  class EventIndex {
    var keys: set<EventKey>
    var latest: map<string, int>

    /** `latest` holds, for every symbol with a stored event, its latest event date. */
    ghost predicate Valid()
      reads this
    {
      forall symbol :: Lookup(latest, symbol) == LatestDate(keys, symbol)
    }

    /** `load_existing_events`: one pass over the stored keys. */
    constructor Load(rows: seq<EventKey>)
      ensures Valid() && keys == set k | k in rows
    {
      keys := {};
      latest := map[];
      new;
      for i := 0 to |rows|
        invariant Valid() && keys == set k | k in rows[..i]
      {
        Add(rows[i]);
        assert rows[..i + 1] == rows[..i] + [rows[i]];
      }
      assert rows[..|rows|] == rows;
    }

    /** Marks `key` as stored and moves its symbol's latest date forward when `key` is later. */
    method Add(key: EventKey)
      requires Valid()
      modifies this
      ensures Valid() && keys == old(keys) + {key}
      ensures Lookup(latest, key.0) == Some(Max(Lookup(old(latest), key.0).GetOr(key.1), key.1))
    {
      keys := keys + {key};
      var current := Lookup(latest, key.0);
      if current.None? || key.1 > current.value {
        latest := latest[key.0 := key.1];
      }
      forall symbol ensures Lookup(latest, symbol) == LatestDate(keys, symbol) {
        LatestDateAdd(old(keys), key, symbol);
      }
    }

    /** The update loop at the end of a symbol's turn in `main`: every new key is recorded. */
    method Record(newEvents: seq<SmaEvent>)
      requires Valid()
      modifies this
      ensures Valid() && keys == old(keys) + KeySet(newEvents)
    {
      for i := 0 to |newEvents|
        invariant Valid() && keys == old(keys) + KeySet(newEvents[..i])
      {
        Add(KeyOf(newEvents[i]));
        assert newEvents[..i + 1] == newEvents[..i] + [newEvents[i]];
      }
      assert newEvents[..|newEvents|] == newEvents;
    }
  }

  // ---------------------------------------------------------------------------
  // Resumption and price history

  /** `start_date_filter`: no floor for a symbol without events, else its latest event date minus the lookback in days. */
  function ResumeFloor(latest: Option<int>, sw: int, lw: int): (floor: Option<int>)
    ensures floor.Some? <==> latest.Some?
    ensures floor.Some? ==> floor.value + Max(lw, sw) + 5 == latest.value
  {
    match latest
    case None => None
    case Some(d) => Some(d - (Max(lw, sw) + 5))
  }

  /** `floor` keeps at least the rows `later` keeps. */
  predicate NoLaterThan(floor: Option<int>, later: Option<int>) {
    floor.None? || (later.Some? && floor.value <= later.value)
  }

  /** A later latest event date gives a later floor. */
  lemma {:induction false} ResumeFloorMonotone(a: Option<int>, b: Option<int>, sw: int, lw: int)
    requires NoLaterThan(a, b)
    ensures NoLaterThan(ResumeFloor(a, sw, lw), ResumeFloor(b, sw, lw))
  {
  }

  /** A row of the `prices` table for one symbol; `close` may be NULL. */
  datatype StoredPrice = StoredPrice(tradeDate: int, close: Option<real>)

  /** The symbol's rows in the order `ORDER BY trade_date` returns them, one per date. */
  ghost predicate AscendingStored(stored: seq<StoredPrice>) {
    forall i, j :: 0 <= i < j < |stored| ==> stored[i].tradeDate < stored[j].tradeDate
  }

  predicate OnOrAfter(date: int, floor: Option<int>) {
    floor.None? || floor.value <= date
  }

  /**
   * `fetch_price_history` over the symbol's stored rows: those dated on or after
   * the floor (all of them without one), in order, without the NULL closes.
   */
  function PriceHistory(stored: seq<StoredPrice>, floor: Option<int>): (h: seq<PricePoint>)
    ensures |h| <= |stored|
  {
    if stored == [] then []
    else
      var r := stored[0];
      (if r.close.Some? && OnOrAfter(r.tradeDate, floor) then [PricePoint(r.tradeDate, r.close.value)] else [])
      + PriceHistory(stored[1..], floor)
  }

  /** The history holds exactly the stored rows with a close, dated on or after the floor. */
  lemma {:induction false} HistoryMembers(stored: seq<StoredPrice>, floor: Option<int>)
    ensures forall p :: (p in PriceHistory(stored, floor)
                         <==> StoredPrice(p.tradeDate, Some(p.close)) in stored && OnOrAfter(p.tradeDate, floor))
  {
    if stored != [] {
      assert stored == [stored[0]] + stored[1..];
      HistoryMembers(stored[1..], floor);
    }
  }

  /** The history of date-ordered rows is date-ordered. */
  lemma {:induction false} HistoryAscending(stored: seq<StoredPrice>, floor: Option<int>)
    requires AscendingStored(stored)
    ensures AscendingDates(PriceHistory(stored, floor))
  {
    if stored != [] {
      var tail := stored[1..];
      HistoryAscending(tail, floor);
      var rest := PriceHistory(tail, floor);
      var r := stored[0];
      if r.close.Some? && OnOrAfter(r.tradeDate, floor) {
        HistoryAfterFirst(stored, floor);
        ConsAscending(PricePoint(r.tradeDate, r.close.value), rest);
      }
    }
  }

  /** The rows after the first one are all dated after it. */
  lemma {:induction false} HistoryAfterFirst(stored: seq<StoredPrice>, floor: Option<int>)
    requires AscendingStored(stored) && stored != []
    ensures forall p :: p in PriceHistory(stored[1..], floor) ==> stored[0].tradeDate < p.tradeDate
  {
    var tail := stored[1..];
    HistoryMembers(tail, floor);
    forall p | p in PriceHistory(tail, floor) ensures stored[0].tradeDate < p.tradeDate {
      var j :| 0 <= j < |tail| && tail[j] == StoredPrice(p.tradeDate, Some(p.close));
      assert stored[j + 1] == tail[j];
    }
  }

  lemma {:induction false} ConsAscending(p: PricePoint, rest: seq<PricePoint>)
    requires AscendingDates(rest) && forall q :: q in rest ==> p.tradeDate < q.tradeDate
    ensures AscendingDates([p] + rest)
  {
    var h := [p] + rest;
    forall i, j | 0 <= i < j < |h| ensures h[i].tradeDate < h[j].tradeDate {
      assert h[j] == rest[j - 1];
      if i > 0 {
        assert h[i] == rest[i - 1];
      } else {
        assert rest[j - 1] in rest;
      }
    }
  }

  /** When the first row is on or after the floor, so are all later ones, and the floor removes nothing. */
  lemma {:induction false} FloorBelowAll(stored: seq<StoredPrice>, floor: Option<int>)
    requires AscendingStored(stored) && stored != [] && OnOrAfter(stored[0].tradeDate, floor)
    ensures PriceHistory(stored, floor) == PriceHistory(stored, None)
  {
    if |stored| > 1 {
      FloorBelowAll(stored[1..], floor);
    }
  }

  /** `tail` is what remains of `whole` after dropping some leading elements. */
  ghost predicate IsSuffix(tail: seq<PricePoint>, whole: seq<PricePoint>) {
    |tail| <= |whole| && tail == whole[|whole| - |tail|..]
  }

  /** With a later floor the history is a suffix of the history with an earlier one. */
  lemma {:induction false} LaterFloorSuffix(stored: seq<StoredPrice>, early: Option<int>, late: Option<int>)
    requires AscendingStored(stored) && NoLaterThan(early, late)
    ensures IsSuffix(PriceHistory(stored, late), PriceHistory(stored, early))
  {
    if stored != [] {
      LaterFloorSuffix(stored[1..], early, late);
      var r := stored[0];
      if r.close.Some? && OnOrAfter(r.tradeDate, late) {
        FloorBelowAll(stored, late);
        FloorBelowAll(stored, early);
        SuffixOfItself(PriceHistory(stored, early));
      } else {
        DroppedByLaterFloor(stored, early, late);
      }
    }
  }

  /** The first row is not in the later history: the step keeps the suffix relation of the rest. */
  lemma {:induction false} DroppedByLaterFloor(stored: seq<StoredPrice>, early: Option<int>, late: Option<int>)
    requires stored != [] && !(stored[0].close.Some? && OnOrAfter(stored[0].tradeDate, late))
    requires IsSuffix(PriceHistory(stored[1..], late), PriceHistory(stored[1..], early))
    ensures IsSuffix(PriceHistory(stored, late), PriceHistory(stored, early))
  {
    var r := stored[0];
    var t1 := PriceHistory(stored[1..], early);
    if r.close.Some? && OnOrAfter(r.tradeDate, early) {
      SuffixOfCons(PricePoint(r.tradeDate, r.close.value), t1, PriceHistory(stored[1..], late));
    }
  }

  lemma {:induction false} SuffixOfItself(s: seq<PricePoint>)
    ensures IsSuffix(s, s)
  {
    assert s[0..] == s;
  }

  lemma {:induction false} SuffixOfCons(p: PricePoint, t1: seq<PricePoint>, t2: seq<PricePoint>)
    requires IsSuffix(t2, t1)
    ensures IsSuffix(t2, [p] + t1)
  {
    assert ([p] + t1)[|[p] + t1| - |t2|..] == t1[|t1| - |t2|..];
  }

  /** Resuming from a later floor never invents a key the scan from an earlier floor lacks. */
  lemma {:induction false} LaterFloorKeys(symbol: string, stored: seq<StoredPrice>, early: Option<int>, late: Option<int>, sw: int, lw: int)
    requires AscendingStored(stored) && NoLaterThan(early, late)
    ensures CandidateKeys(symbol, PriceHistory(stored, late), sw, lw) <= CandidateKeys(symbol, PriceHistory(stored, early), sw, lw)
  {
    LaterFloorSuffix(stored, early, late);
    var h1 := PriceHistory(stored, early);
    var h2 := PriceHistory(stored, late);
    HistoryAscending(stored, early);
    ResumedCandidateKeys(symbol, h1, |h1| - |h2|, sw, lw);
    assert h2 == h1[|h1| - |h2|..];
  }

  // ---------------------------------------------------------------------------
  // Deduplication

  /** The comprehension in `main`: the candidates whose key is not stored yet, in their order. */
  function NewEvents(candidates: seq<SmaEvent>, keys: set<EventKey>): (r: seq<SmaEvent>)
    ensures |r| <= |candidates|
    ensures forall e :: e in r <==> e in candidates && KeyOf(e) !in keys
  {
    if candidates == [] then []
    else
      assert candidates == [candidates[0]] + candidates[1..];
      (if KeyOf(candidates[0]) !in keys then [candidates[0]] else []) + NewEvents(candidates[1..], keys)
  }

  /** Candidates none of whose keys are stored all pass, in order. */
  lemma {:induction false} NewEventsKeepsUnknown(candidates: seq<SmaEvent>, keys: set<EventKey>)
    requires KeySet(candidates) !! keys
    ensures NewEvents(candidates, keys) == candidates
  {
    if candidates != [] {
      assert KeyOf(candidates[0]) in KeySet(candidates);
      assert KeySet(candidates[1..]) <= KeySet(candidates);
      NewEventsKeepsUnknown(candidates[1..], keys);
    }
  }

  /** No two events share a key. */
  ghost predicate DistinctKeys(q: seq<SmaEvent>) {
    forall a, b :: 0 <= a < b < |q| ==> KeyOf(q[a]) != KeyOf(q[b])
  }

  lemma {:induction false} NewEventsDistinct(candidates: seq<SmaEvent>, keys: set<EventKey>)
    requires DistinctKeys(candidates)
    ensures DistinctKeys(NewEvents(candidates, keys))
  {
    if candidates != [] {
      var tail := candidates[1..];
      NewEventsDistinct(tail, keys);
      var rest := NewEvents(tail, keys);
      var r := NewEvents(candidates, keys);
      if r != rest {
        assert r == [candidates[0]] + rest;
        forall a, b | 0 <= a < b < |r| ensures KeyOf(r[a]) != KeyOf(r[b]) {
          assert r[b] == rest[b - 1];
          if a == 0 {
            assert rest[b - 1] in tail;
            var j :| 0 <= j < |tail| && tail[j] == rest[b - 1];
            assert candidates[j + 1] == tail[j];
          } else {
            assert r[a] == rest[a - 1];
          }
        }
      }
    }
  }

  /** Events with pairwise distinct keys have as many keys as events. */
  lemma {:induction false} KeySetSize(q: seq<SmaEvent>)
    requires DistinctKeys(q)
    ensures |KeySet(q)| == |q|
  {
    if q != [] {
      var init := q[..|q| - 1];
      var last := q[|q| - 1];
      assert DistinctKeys(init);
      KeySetSize(init);
      assert q == init + [last];
      assert KeySet(q) == KeySet(init) + {KeyOf(last)};
    }
  }

  // ---------------------------------------------------------------------------
  // The `sma_events` table

  /** A stored row: the event's columns and `created_at`, set by the server on insert. */
  datatype StoredEvent = StoredEvent(event: SmaEvent, createdAt: int)

  /**
   * One row of `INSERT ... ON DUPLICATE KEY UPDATE`: a new key is inserted with
   * `created_at = now`; an existing key has its value columns overwritten (the key
   * columns are equal by definition) and keeps its `created_at`.
   */
  function Put(table: map<EventKey, StoredEvent>, e: SmaEvent, now: int): map<EventKey, StoredEvent> {
    var k := KeyOf(e);
    table[k := StoredEvent(e, if k in table then table[k].createdAt else now)]
  }

  /** The table after upserting `events` in order. */
  function Upserted(table: map<EventKey, StoredEvent>, events: seq<SmaEvent>, now: int): map<EventKey, StoredEvent> {
    if events == [] then table
    else Put(Upserted(table, events[..|events| - 1], now), events[|events| - 1], now)
  }

  lemma {:induction false} UpsertedSnoc(table: map<EventKey, StoredEvent>, events: seq<SmaEvent>, e: SmaEvent, now: int)
    ensures Upserted(table, events + [e], now) == Put(Upserted(table, events, now), e, now)
  {
    assert (events + [e])[..|events|] == events;
  }

  /** Upserting two runs of events one after the other is upserting their concatenation. */
  lemma {:induction false} UpsertedAppend(table: map<EventKey, StoredEvent>, a: seq<SmaEvent>, b: seq<SmaEvent>, now: int)
    ensures Upserted(table, a + b, now) == Upserted(Upserted(table, a, now), b, now)
  {
    if b == [] {
      assert a + b == a;
    } else {
      var init := b[..|b| - 1];
      var last := b[|b| - 1];
      UpsertedAppend(table, a, init, now);
      assert a + b == (a + init) + [last];
      assert b == init + [last];
      UpsertedSnoc(table, a + init, last, now);
      UpsertedSnoc(Upserted(table, a, now), init, last, now);
    }
  }

  /** Every stored row sits under its own key. */
  ghost predicate KeyedByEvent(table: map<EventKey, StoredEvent>) {
    forall k :: k in table ==> KeyOf(table[k].event) == k
  }

  lemma {:induction false} UpsertedKeyed(table: map<EventKey, StoredEvent>, events: seq<SmaEvent>, now: int)
    requires KeyedByEvent(table)
    ensures KeyedByEvent(Upserted(table, events, now))
  {
    if events != [] {
      UpsertedKeyed(table, events[..|events| - 1], now);
    }
  }

  /** Upserting adds exactly the events' keys and deletes nothing. */
  lemma {:induction false} UpsertedKeys(table: map<EventKey, StoredEvent>, events: seq<SmaEvent>, now: int)
    ensures Upserted(table, events, now).Keys == table.Keys + KeySet(events)
  {
    if events != [] {
      var init := events[..|events| - 1];
      UpsertedKeys(table, init, now);
      assert events == init + [events[|events| - 1]];
      assert KeySet(events) == KeySet(init) + {KeyOf(events[|events| - 1])};
    }
  }

  /** A row that was stored keeps its `created_at`. */
  lemma {:induction false} UpsertedKeepsCreatedAt(table: map<EventKey, StoredEvent>, events: seq<SmaEvent>, now: int, k: EventKey)
    requires k in table
    ensures k in Upserted(table, events, now) && Upserted(table, events, now)[k].createdAt == table[k].createdAt
  {
    if events != [] {
      UpsertedKeepsCreatedAt(table, events[..|events| - 1], now, k);
    }
  }

  /** A row whose key no event carries is left as it was. */
  lemma {:induction false} UpsertedLeavesOthers(table: map<EventKey, StoredEvent>, events: seq<SmaEvent>, now: int, k: EventKey)
    requires k in table && k !in KeySet(events)
    ensures k in Upserted(table, events, now) && Upserted(table, events, now)[k] == table[k]
  {
    if events != [] {
      var init := events[..|events| - 1];
      assert KeySet(init) <= KeySet(events);
      assert KeyOf(events[|events| - 1]) in KeySet(events);
      UpsertedKeys(table, init, now);
      UpsertedLeavesOthers(table, init, now, k);
    }
  }

  /** A key that was not stored before is stored, if at all, with `created_at = now`. */
  lemma {:induction false} UpsertedNewCreatedAt(table: map<EventKey, StoredEvent>, events: seq<SmaEvent>, now: int, k: EventKey)
    requires k !in table
    ensures k in Upserted(table, events, now) ==> Upserted(table, events, now)[k].createdAt == now
  {
    if events != [] {
      UpsertedNewCreatedAt(table, events[..|events| - 1], now, k);
    }
  }

  /**
   * The last event with a key is what the table holds under that key, with
   * `created_at = now` unless the key was already stored before the upsert.
   */
  lemma {:induction false} UpsertedStoresEvent(table: map<EventKey, StoredEvent>, events: seq<SmaEvent>, now: int, i: int)
    requires 0 <= i < |events|
    requires forall j :: i < j < |events| ==> KeyOf(events[j]) != KeyOf(events[i])
    ensures var k := KeyOf(events[i]);
      k in Upserted(table, events, now)
      && Upserted(table, events, now)[k] == StoredEvent(events[i], if k in table then table[k].createdAt else now)
  {
    var n := |events|;
    var init := events[..n - 1];
    if i < n - 1 {
      assert init[i] == events[i];
      assert forall j :: i < j < |init| ==> init[j] == events[j];
      UpsertedStoresEvent(table, init, now, i);
    } else {
      var k := KeyOf(events[i]);
      if k in table {
        UpsertedKeepsCreatedAt(table, init, now, k);
      } else {
        UpsertedNewCreatedAt(table, init, now, k);
      }
    }
  }

  class EventStore {
    /** The rows of `sma_events` by primary key `(symbol, event_date, event_type)`. */
    var rows: map<EventKey, StoredEvent>

    ghost predicate Valid()
      reads this
    {
      KeyedByEvent(rows)
    }

    /** `select symbol, event_date, event_type from sma_events`: every stored key once, in no particular order. */
    method KeyRows() returns (keyRows: seq<EventKey>)
      ensures (set k | k in keyRows) == rows.Keys
    {
      keyRows := [];
      var pending := rows.Keys;
      while pending != {}
        invariant pending <= rows.Keys
        invariant (set k | k in keyRows) == rows.Keys - pending
        decreases |pending|
      {
        var k :| k in pending;
        assert (set x | x in keyRows + [k]) == (set x | x in keyRows) + {k};
        keyRows := keyRows + [k];
        pending := pending - {k};
      }
    }

    /** One multi-row `INSERT ... ON DUPLICATE KEY UPDATE` statement: its rows take effect in order. */
    method ExecuteBatch(batch: seq<SmaEvent>, now: int)
      modifies this
      ensures rows == Upserted(old(rows), batch, now)
    {
      for i := 0 to |batch|
        invariant rows == Upserted(old(rows), batch[..i], now)
      {
        UpsertedSnoc(old(rows), batch[..i], batch[i], now);
        assert batch[..i + 1] == batch[..i] + [batch[i]];
        rows := Put(rows, batch[i], now);
      }
      assert batch[..|batch|] == batch;
    }

    /**
     * `upsert_events`: 0 for no rows; otherwise one statement per batch of
     * `chunked(events, chunkSize)`, and the number of rows handed in.
     */
    method Upsert(events: seq<SmaEvent>, chunkSize: int, now: int) returns (inserted: int)
      requires Valid()
      modifies this
      ensures Valid()
      ensures inserted == |events|
      ensures rows == Upserted(old(rows), events, now)
    {
      if events == [] {
        return 0;
      }
      inserted := 0;
      var batches := Batching.Chunked(events, chunkSize);
      for b := 0 to |batches|
        invariant inserted == |Batching.Flatten(batches[..b])|
        invariant rows == Upserted(old(rows), Batching.Flatten(batches[..b]), now)
      {
        var batch := batches[b];
        ExecuteBatch(batch, now);
        UpsertedAppend(old(rows), Batching.Flatten(batches[..b]), batch, now);
        assert batches[..b + 1] == batches[..b] + [batch];
        Batching.FlattenAppend(batches[..b], batch);
        inserted := inserted + |batch|;
      }
      assert batches[..|batches|] == batches;
      UpsertedKeyed(old(rows), events, now);
    }
  }

  // ---------------------------------------------------------------------------
  // The run

  /** The rows of `symbol` in the `prices` table, ordered by date. */
  function PricesOf(prices: map<string, seq<StoredPrice>>, symbol: string): seq<StoredPrice> {
    if symbol in prices then prices[symbol] else []
  }

  /** What `compute_sma_events` returns for `symbol` when the stored keys are `keys`. */
  ghost function SymbolCandidates(symbol: string, prices: map<string, seq<StoredPrice>>, keys: set<EventKey>,
                                  sw: int, lw: int): seq<SmaEvent>
  {
    CandidateEvents(symbol, PriceHistory(PricesOf(prices, symbol), ResumeFloor(LatestDate(keys, symbol), sw, lw)), sw, lw)
  }

  /** Every key a run would find for `symbol` is stored already. */
  ghost predicate SettledFor(symbol: string, prices: map<string, seq<StoredPrice>>, keys: set<EventKey>, sw: int, lw: int) {
    KeySet(SymbolCandidates(symbol, prices, keys, sw, lw)) <= keys
  }

  /** Every key of the scan of the symbol's whole history: what a run may ever store for it. */
  ghost function FullHistoryKeys(symbol: string, prices: map<string, seq<StoredPrice>>, sw: int, lw: int): set<EventKey> {
    CandidateKeys(symbol, PriceHistory(PricesOf(prices, symbol), None), sw, lw)
  }

  /** Storing the new events of `symbol` settles it, even though its floor moves forward. */
  lemma {:induction false} RecordSettles(symbol: string, prices: map<string, seq<StoredPrice>>, keys: set<EventKey>, sw: int, lw: int)
    requires AscendingStored(PricesOf(prices, symbol))
    ensures var after := keys + KeySet(NewEvents(SymbolCandidates(symbol, prices, keys, sw, lw), keys));
      SettledFor(symbol, prices, after, sw, lw)
  {
    var candidates := SymbolCandidates(symbol, prices, keys, sw, lw);
    var after := keys + KeySet(NewEvents(candidates, keys));
    forall k | k in KeySet(candidates) ensures k in after {
      var e :| e in candidates && KeyOf(e) == k;
      if k !in keys {
        assert e in NewEvents(candidates, keys);
      }
    }
    var early := ResumeFloor(LatestDate(keys, symbol), sw, lw);
    var late := ResumeFloor(LatestDate(after, symbol), sw, lw);
    if LatestDate(keys, symbol).Some? {
      LatestDateGrows(keys, after, symbol);
    }
    ResumeFloorMonotone(LatestDate(keys, symbol), LatestDate(after, symbol), sw, lw);
    LaterFloorKeys(symbol, PricesOf(prices, symbol), early, late, sw, lw);
  }

  /** Storing keys of another symbol keeps a settled symbol settled. */
  lemma {:induction false} OtherSymbolStaysSettled(symbol: string, prices: map<string, seq<StoredPrice>>, keys: set<EventKey>,
                                added: set<EventKey>, sw: int, lw: int)
    requires SettledFor(symbol, prices, keys, sw, lw)
    requires forall k :: k in added ==> k.0 != symbol
    ensures SettledFor(symbol, prices, keys + added, sw, lw)
  {
    LatestDateOtherSymbols(keys, added, symbol);
  }

  /** The new events of a symbol carry its name, have distinct keys, and come from its whole history. */
  lemma {:induction false} NewEventsOfSymbol(symbol: string, prices: map<string, seq<StoredPrice>>, keys: set<EventKey>, sw: int, lw: int)
    requires AscendingStored(PricesOf(prices, symbol))
    ensures var newEvents := NewEvents(SymbolCandidates(symbol, prices, keys, sw, lw), keys);
      && DistinctKeys(newEvents)
      && KeySet(newEvents) !! keys
      && (forall k :: k in KeySet(newEvents) ==> k.0 == symbol && k in FullHistoryKeys(symbol, prices, sw, lw))
  {
    var stored := PricesOf(prices, symbol);
    var floor := ResumeFloor(LatestDate(keys, symbol), sw, lw);
    var history := PriceHistory(stored, floor);
    var candidates := SymbolCandidates(symbol, prices, keys, sw, lw);
    var newEvents := NewEvents(candidates, keys);
    HistoryAscending(stored, floor);
    CandidateKeysDistinct(symbol, history, sw, lw);
    NewEventsDistinct(candidates, keys);
    CandidateKeysOfSymbol(symbol, history, sw, lw);
    LaterFloorKeys(symbol, stored, None, floor, sw, lw);
    forall k | k in KeySet(newEvents) ensures k.0 == symbol && k in FullHistoryKeys(symbol, prices, sw, lw) && k !in keys {
      var e :| e in newEvents && KeyOf(e) == k;
      assert KeyOf(e) in CandidateKeys(symbol, history, sw, lw);
    }
  }

  /**
   * One symbol's turn in `main`: floor, history, scan, deduplication, and, when
   * anything is new, the upsert and the index update.
   */
  method ProcessSymbol(symbol: string, prices: map<string, seq<StoredPrice>>, index: EventIndex, store: EventStore,
                       sw: int, lw: int, chunkSize: int, now: int) returns (inserted: int)
    requires index.Valid() && store.Valid() && index.keys == store.rows.Keys
    modifies index, store
    ensures index.Valid() && store.Valid() && index.keys == store.rows.Keys
    ensures var newEvents := NewEvents(SymbolCandidates(symbol, prices, old(index.keys), sw, lw), old(index.keys));
      && inserted == |newEvents|
      && index.keys == old(index.keys) + KeySet(newEvents)
      && store.rows == Upserted(old(store.rows), newEvents, now)
  {
    var latest := Lookup(index.latest, symbol);
    var floor := ResumeFloor(latest, sw, lw);
    var history := PriceHistory(PricesOf(prices, symbol), floor);
    var events := ComputeSmaEvents(history, symbol, sw, lw);
    var newEvents := NewEvents(events, index.keys);
    if newEvents == [] {
      return 0;
    }
    inserted := store.Upsert(newEvents, chunkSize, now);
    index.Record(newEvents);
    UpsertedKeys(old(store.rows), newEvents, now);
  }

  /** Every symbol of `done` is settled. */
  ghost predicate AllSettled(done: seq<string>, prices: map<string, seq<StoredPrice>>, keys: set<EventKey>, sw: int, lw: int) {
    forall s :: s in done ==> SettledFor(s, prices, keys, sw, lw)
  }

  /** Every key added since `before` belongs to a symbol of `done` and to the scan of its whole history. */
  ghost predicate AddedFromHistory(done: seq<string>, prices: map<string, seq<StoredPrice>>,
                                   before: set<EventKey>, after: set<EventKey>, sw: int, lw: int) {
    forall k :: k in after && k !in before ==> k.0 in done && k in FullHistoryKeys(k.0, prices, sw, lw)
  }

  /** Nothing removed and every `created_at` kept. */
  ghost predicate KeepsRows(before: map<EventKey, StoredEvent>, after: map<EventKey, StoredEvent>) {
    && before.Keys <= after.Keys
    && forall k :: k in before ==> after[k].createdAt == before[k].createdAt
  }

  /**
   * What the first `done` symbols of a run have achieved on the table `before`:
   * nothing removed, every `created_at` kept, `total` rows added, each of them
   * settled, every added key one of their full-history keys, and nothing changed
   * at all when every symbol was settled to begin with.
   */
  ghost predicate Progress(symbols: seq<string>, done: int, prices: map<string, seq<StoredPrice>>,
                           before: map<EventKey, StoredEvent>, after: map<EventKey, StoredEvent>,
                           total: int, sw: int, lw: int)
    requires 0 <= done <= |symbols|
  {
    && KeepsRows(before, after)
    && total == |after.Keys| - |before.Keys|
    && AllSettled(symbols[..done], prices, after.Keys, sw, lw)
    && AddedFromHistory(symbols[..done], prices, before.Keys, after.Keys, sw, lw)
    && (AllSettled(symbols, prices, before.Keys, sw, lw) ==> after == before)
  }

  /** Upserting new events with distinct, unstored keys keeps the rows and adds one row per event. */
  lemma {:induction false} StepRows(before: map<EventKey, StoredEvent>, table: map<EventKey, StoredEvent>, newEvents: seq<SmaEvent>,
                 total: int, now: int)
    requires KeepsRows(before, table) && total == |table.Keys| - |before.Keys|
    requires DistinctKeys(newEvents) && KeySet(newEvents) !! table.Keys
    ensures KeepsRows(before, Upserted(table, newEvents, now))
    ensures total + |newEvents| == |Upserted(table, newEvents, now).Keys| - |before.Keys|
  {
    KeySetSize(newEvents);
    UpsertedKeys(table, newEvents, now);
    forall k | k in before ensures Upserted(table, newEvents, now)[k].createdAt == before[k].createdAt {
      UpsertedKeepsCreatedAt(table, newEvents, now, k);
    }
  }

  /** Keys added for the next symbol leave the earlier symbols settled and settle it too. */
  lemma {:induction false} StepSettled(symbols: seq<string>, i: int, prices: map<string, seq<StoredPrice>>,
                    keys: set<EventKey>, added: set<EventKey>, sw: int, lw: int)
    requires 0 <= i < |symbols| && AllSettled(symbols[..i], prices, keys, sw, lw)
    requires forall a, b :: 0 <= a < b < |symbols| ==> symbols[a] != symbols[b]
    requires SettledFor(symbols[i], prices, keys + added, sw, lw)
    requires forall k :: k in added ==> k.0 == symbols[i]
    ensures AllSettled(symbols[..i + 1], prices, keys + added, sw, lw)
  {
    assert symbols[..i + 1] == symbols[..i] + [symbols[i]];
    forall s | s in symbols[..i] ensures SettledFor(s, prices, keys + added, sw, lw) {
      var a :| 0 <= a < i && symbols[a] == s;
      OtherSymbolStaysSettled(s, prices, keys, added, sw, lw);
    }
  }

  /** Keys of the next symbol taken from its whole history keep every added key accounted for. */
  lemma {:induction false} StepFromHistory(symbols: seq<string>, i: int, prices: map<string, seq<StoredPrice>>,
                        before: set<EventKey>, keys: set<EventKey>, added: set<EventKey>, sw: int, lw: int)
    requires 0 <= i < |symbols| && AddedFromHistory(symbols[..i], prices, before, keys, sw, lw)
    requires forall k :: k in added ==> k.0 == symbols[i] && k in FullHistoryKeys(symbols[i], prices, sw, lw)
    ensures AddedFromHistory(symbols[..i + 1], prices, before, keys + added, sw, lw)
  {
    assert symbols[..i + 1] == symbols[..i] + [symbols[i]];
  }

  /** Processing the next symbol extends the progress by one symbol. */
  lemma {:induction false} ProgressStep(symbols: seq<string>, i: int, prices: map<string, seq<StoredPrice>>,
                     before: map<EventKey, StoredEvent>, table: map<EventKey, StoredEvent>,
                     total: int, sw: int, lw: int, now: int)
    requires 0 <= i < |symbols| && Progress(symbols, i, prices, before, table, total, sw, lw)
    requires forall a, b :: 0 <= a < b < |symbols| ==> symbols[a] != symbols[b]
    requires forall s :: s in prices ==> AscendingStored(prices[s])
    ensures var newEvents := NewEvents(SymbolCandidates(symbols[i], prices, table.Keys, sw, lw), table.Keys);
      Progress(symbols, i + 1, prices, before, Upserted(table, newEvents, now), total + |newEvents|, sw, lw)
  {
    var symbol := symbols[i];
    var keys := table.Keys;
    var newEvents := NewEvents(SymbolCandidates(symbol, prices, keys, sw, lw), keys);
    var added := KeySet(newEvents);
    NewEventsOfSymbol(symbol, prices, keys, sw, lw);
    RecordSettles(symbol, prices, keys, sw, lw);
    StepRows(before, table, newEvents, total, now);
    UpsertedKeys(table, newEvents, now);
    StepSettled(symbols, i, prices, keys, added, sw, lw);
    StepFromHistory(symbols, i, prices, before.Keys, keys, added, sw, lw);
    if AllSettled(symbols, prices, before.Keys, sw, lw) {
      assert SettledFor(symbol, prices, keys, sw, lw);
      assert newEvents == [];
    }
  }

  /**
   * `main` after argument parsing: the window checks come first and leave the
   * table untouched; then every symbol is processed in turn. The count returned is
   * the number of rows the run added; afterwards every symbol is settled (a second
   * run over the same prices finds nothing), and every added key is an event of
   * the scan of its symbol's whole history.
   */
  method Run(symbols: seq<string>, prices: map<string, seq<StoredPrice>>, store: EventStore,
             sw: int, lw: int, chunkSize: int, now: int) returns (r: Result<int, ConfigError>)
    requires store.Valid()
    requires forall i, j :: 0 <= i < j < |symbols| ==> symbols[i] != symbols[j]
    requires forall s :: s in prices ==> AscendingStored(prices[s])
    modifies store
    ensures r.Err? <==> ValidateWindows(sw, lw).Some?
    ensures r.Err? ==> r.error == ValidateWindows(sw, lw).value && store.rows == old(store.rows)
    ensures r.Ok? ==> store.Valid() && old(store.rows).Keys <= store.rows.Keys
    ensures r.Ok? ==> forall k :: k in old(store.rows) ==> store.rows[k].createdAt == old(store.rows)[k].createdAt
    ensures r.Ok? ==> r.value == |store.rows.Keys| - |old(store.rows).Keys|
    ensures r.Ok? ==> AllSettled(symbols, prices, store.rows.Keys, sw, lw)
    ensures r.Ok? ==> AddedFromHistory(symbols, prices, old(store.rows).Keys, store.rows.Keys, sw, lw)
    ensures r.Ok? && AllSettled(symbols, prices, old(store.rows).Keys, sw, lw) ==>
      r.value == 0 && store.rows == old(store.rows)
  {
    var invalid := ValidateWindows(sw, lw);
    if invalid.Some? {
      return Err(invalid.value);
    }
    if symbols == [] {
      return Ok(0);
    }
    var keyRows := store.KeyRows();
    var index := new EventIndex.Load(keyRows);
    ghost var before := store.rows;
    var total := 0;
    for i := 0 to |symbols|
      invariant index.Valid() && store.Valid() && index.keys == store.rows.Keys
      invariant Progress(symbols, i, prices, before, store.rows, total, sw, lw)
    {
      var symbol := symbols[i];
      ghost var table := store.rows;
      var inserted := ProcessSymbol(symbol, prices, index, store, sw, lw, chunkSize, now);
      ProgressStep(symbols, i, prices, before, table, total, sw, lw, now);
      total := total + inserted;
    }
    assert symbols[..|symbols|] == symbols;
    return Ok(total);
  }
}
