/**
 * Batched writes, common to every loader: `chunked` (the same eight lines appear in
 * sma_events.py, all_prices.py, prices.py and import_to_mysql.py), the row count an
 * upsert reports, and which columns an `ON DUPLICATE KEY UPDATE` overwrites.
 */
module Batching {
  import opened Common

  function Flatten<T>(chunks: seq<seq<T>>): seq<T> {
    if chunks == [] then [] else chunks[0] + Flatten(chunks[1..])
  }

  lemma {:induction false} FlattenAppend<T>(chunks: seq<seq<T>>, last: seq<T>)
    ensures Flatten(chunks + [last]) == Flatten(chunks) + last
  {
    if chunks == [] {
      assert Flatten([last]) == last + Flatten([]);
    } else {
      assert (chunks + [last])[1..] == chunks[1..] + [last];
      FlattenAppend(chunks[1..], last);
    }
  }

  /** The batch length `chunked` aims for: with `size <= 0` every item closes its own batch. */
  function BatchLimit(size: int): (n: nat)
    ensures n >= 1 && (size >= 1 ==> n == size)
  {
    if size < 1 then 1 else size
  }

  /**
   * `chunked(items, size)`: consecutive non-empty batches of at most `size` items
   * (one item each when `size <= 0`), all full except possibly the last, whose
   * concatenation is `items`.
   */
  method Chunked<T>(items: seq<T>, size: int) returns (chunks: seq<seq<T>>)
    ensures Flatten(chunks) == items
    ensures forall i :: 0 <= i < |chunks| ==> 0 < |chunks[i]| <= BatchLimit(size)
    ensures forall i :: 0 <= i < |chunks| - 1 ==> |chunks[i]| == BatchLimit(size)
    ensures items == [] <==> chunks == []
  {
    chunks := [];
    var chunk: seq<T> := [];
    for i := 0 to |items|
      invariant Flatten(chunks) + chunk == items[..i]
      invariant |chunk| < BatchLimit(size)
      invariant forall k :: 0 <= k < |chunks| ==> |chunks[k]| == BatchLimit(size)
    {
      var next := chunk + [items[i]];
      assert Flatten(chunks) + next == items[..i + 1] by {
        assert items[..i + 1] == items[..i] + [items[i]];
        assert Flatten(chunks) + next == (Flatten(chunks) + chunk) + [items[i]];
      }
      if |next| >= size {
        FlattenAppend(chunks, next);
        chunks := chunks + [next];
        chunk := [];
        assert Flatten(chunks) + chunk == Flatten(chunks);
      } else {
        chunk := next;
      }
    }
    if chunk != [] {
      FlattenAppend(chunks, chunk);
      chunks := chunks + [chunk];
    }
    assert items[..|items|] == items;
  }

  /**
   * The count an `upsert_*` function returns: 0 for no rows, otherwise the sum of
   * the batch lengths, which is the number of rows handed in (not the number of
   * rows the database changed).
   */
  method UpsertedCount<T>(rows: seq<T>, chunkSize: int) returns (inserted: int)
    ensures inserted == |rows|
  {
    if rows == [] {
      return 0;
    }
    inserted := 0;
    var batches := Chunked(rows, chunkSize);
    for k := 0 to |batches|
      invariant inserted == |Flatten(batches[..k])|
    {
      assert batches[..k + 1] == batches[..k] + [batches[k]];
      FlattenAppend(batches[..k], batches[k]);
      inserted := inserted + |batches[k]|;
    }
    assert batches[..|batches|] == batches;
  }

  /** A column of a table as the upsert sees it. */
  datatype Column = Column(name: string, primaryKey: bool)

  /**
   * The columns an `ON DUPLICATE KEY UPDATE` overwrites: every column that is not
   * part of the primary key and whose name is not in `kept`, in table order.
   */
  function UpdateColumns(table: seq<Column>, kept: set<string>): (r: seq<string>)
    ensures forall n :: n in r <==> exists c :: c in table && c.name == n && !c.primaryKey && n !in kept
  {
    if table == [] then []
    else
      var c := table[0];
      (if !c.primaryKey && c.name !in kept then [c.name] else []) + UpdateColumns(table[1..], kept)
  }

  /** Columns outside the primary key, one per name, in order. */
  function ValueColumns(names: seq<string>): (cols: seq<Column>)
    ensures |cols| == |names|
    ensures forall i :: 0 <= i < |names| ==> cols[i] == Column(names[i], false)
  {
    seq(|names|, i requires 0 <= i < |names| => Column(names[i], false))
  }

  /**
   * A table made of key columns followed by value columns, with nothing kept,
   * updates exactly the value columns, in table order.
   */
  lemma UpdateColumnsOfValues(keys: seq<Column>, names: seq<string>)
    requires forall c :: c in keys ==> c.primaryKey
    ensures UpdateColumns(keys + ValueColumns(names), {}) == names
  {
    KeyColumnsSkipped(keys, ValueColumns(names));
    ValueColumnsUpdated(names);
  }

  /** Primary-key columns are never overwritten. */
  lemma {:induction false} KeyColumnsSkipped(keys: seq<Column>, rest: seq<Column>)
    requires forall c :: c in keys ==> c.primaryKey
    ensures UpdateColumns(keys + rest, {}) == UpdateColumns(rest, {})
  {
    if keys == [] {
      assert keys + rest == rest;
    } else {
      assert keys[0] in keys && forall c :: c in keys[1..] ==> c in keys;
      assert (keys + rest)[0] == keys[0] && (keys + rest)[1..] == keys[1..] + rest;
      KeyColumnsSkipped(keys[1..], rest);
    }
  }

  /** Every value column is overwritten, in order. */
  lemma {:induction false} ValueColumnsUpdated(names: seq<string>)
    ensures UpdateColumns(ValueColumns(names), {}) == names
  {
    if names != [] {
      assert ValueColumns(names)[1..] == ValueColumns(names[1..]);
      ValueColumnsUpdated(names[1..]);
    }
  }
}
