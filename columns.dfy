/**
 * Columns (the contents of the attribute store builders) and what the index
 * builders are fed: one slot per record, `None` where a record was padded with
 * `skip()`, and (value, position) entries for each index.
 */
module Columns {
  import opened Entities

  /** The slots an attribute store builder holds, one per record. */
  type Column = seq<Option<Value>>

  /** One `add(value, position)` call received by an index builder. */
  datatype IndexEntry = IndexEntry(value: Option<Value>, position: nat)

  /** Index builder kinds: keyed on primitive longs, or on arbitrary values. */
  datatype IndexKind = LongKeyed | GenericKeyed

  /** An index builder: its kind and the entries it was fed, in order. */
  datatype IndexBuilder = IndexBuilder(kind: IndexKind, entries: seq<IndexEntry>)

  /** What a backfill from a column feeds a fresh index: every slot, padded ones included, with its position. */
  function BackfillFeed(col: Column): (f: seq<IndexEntry>)
    ensures |f| == |col|
    ensures forall i :: 0 <= i < |f| ==> f[i] == IndexEntry(col[i], i)
  {
    if |col| == 0 then [] else BackfillFeed(col[..|col| - 1]) + [IndexEntry(col[|col| - 1], |col| - 1)]
  }

  /** What incremental indexing feeds for the records at positions `from..|col|-1`: only slots that hold a value. */
  function CarriedFeed(col: Column, from: nat): (f: seq<IndexEntry>)
    ensures forall k :: 0 <= k < |f| ==> from <= f[k].position < |col| && f[k].value.Some? && f[k].value == col[f[k].position]
    ensures forall k, m :: 0 <= k < m < |f| ==> f[k].position < f[m].position
    decreases |col|
  {
    if |col| <= from then []
    else
      var last := |col| - 1;
      CarriedFeed(col[..last], from) + (if col[last].Some? then [IndexEntry(col[last], last)] else [])
  }

  /** Incremental indexing feeds every slot from `from` on that holds a value, with its position. */
  lemma {:induction false} CarriedFeedComplete(col: Column, from: nat)
    ensures forall i :: from <= i < |col| && col[i].Some? ==> IndexEntry(col[i], i) in CarriedFeed(col, from)
    decreases |col|
  {
    if |col| > from {
      var last := |col| - 1;
      var init := col[..last];
      CarriedFeedComplete(init, from);
      forall i | from <= i < last && col[i].Some? ensures IndexEntry(col[i], i) in CarriedFeed(col, from) {
        assert init[i] == col[i];
      }
    }
  }

  /** The entries of a feed that carry a value. */
  function Present(f: seq<IndexEntry>): (p: seq<IndexEntry>)
    ensures |p| <= |f|
    ensures forall k :: 0 <= k < |p| ==> p[k].value.Some?
  {
    if |f| == 0 then []
    else Present(f[..|f| - 1]) + (if f[|f| - 1].value.Some? then [f[|f| - 1]] else [])
  }

  /** Removing the padded entries of a feed keeps exactly its entries that carry a value. */
  lemma {:induction false} PresentMembers(f: seq<IndexEntry>)
    ensures forall x :: x in Present(f) <==> x in f && x.value.Some?
  {
    if |f| > 0 {
      var init := f[..|f| - 1];
      PresentMembers(init);
      assert f == init + [f[|f| - 1]];
    }
  }

  /** Removing the padded entries from a backfill leaves exactly what incremental indexing from position 0 feeds. */
  lemma {:induction false} PresentBackfillIsCarried(col: Column)
    ensures Present(BackfillFeed(col)) == CarriedFeed(col, 0)
  {
    if |col| > 0 {
      var last := |col| - 1;
      var init := col[..last];
      PresentBackfillIsCarried(init);
      var b := BackfillFeed(col);
      assert b[..|b| - 1] == BackfillFeed(init);
    }
  }

  /**
   * An index installed when `s` records existed and kept up to date afterwards
   * holds, once its padded entries are removed, what an index kept up to date
   * from the first record holds.
   */
  lemma {:induction false} BackfillThenCarried(col: Column, s: nat)
    requires s <= |col|
    ensures Present(BackfillFeed(col[..s])) + CarriedFeed(col, s) == CarriedFeed(col, 0)
  {
    if |col| == s {
      assert col[..s] == col;
      PresentBackfillIsCarried(col);
    } else {
      var last := |col| - 1;
      var init := col[..last];
      assert init[..s] == col[..s];
      BackfillThenCarried(init, s);
    }
  }

  /** Removing padded entries distributes over concatenation. */
  lemma {:induction false} PresentAppend(a: seq<IndexEntry>, b: seq<IndexEntry>)
    ensures Present(a + b) == Present(a) + Present(b)
  {
    if |b| > 0 {
      var c := a + b;
      assert c[..|c| - 1] == a + b[..|b| - 1];
      PresentAppend(a, b[..|b| - 1]);
    } else {
      assert a + b == a;
    }
  }

  /** Incremental indexing feeds no padded entries. */
  lemma {:induction false} PresentCarried(col: Column, from: nat)
    ensures Present(CarriedFeed(col, from)) == CarriedFeed(col, from)
    decreases |col|
  {
    if |col| > from {
      var last := |col| - 1;
      var init := CarriedFeed(col[..last], from);
      var tail: seq<IndexEntry> := if col[last].Some? then [IndexEntry(col[last], last)] else [];
      assert CarriedFeed(col, from) == init + tail;
      PresentCarried(col[..last], from);
      PresentAppend(init, tail);
      assert Present(tail) == tail by {
        if col[last].Some? {
          assert tail[..0] == [];
        }
      }
    }
  }

  /**
   * Whatever record count an index was installed at, once its padded entries
   * are removed it lists exactly the slots of its column that hold a value,
   * with their positions, in position order.
   */
  lemma IndexMatchesColumn(col: Column, s: nat)
    requires s <= |col|
    ensures Present(BackfillFeed(col[..s]) + CarriedFeed(col, s)) == CarriedFeed(col, 0)
  {
    PresentAppend(BackfillFeed(col[..s]), CarriedFeed(col, s));
    PresentCarried(col, s);
    BackfillThenCarried(col, s);
  }

  /** The feed of an index installed at `s` after one more record whose slot is `v`. */
  lemma FeedStep(col: Column, s: nat, v: Option<Value>)
    requires s <= |col|
    ensures BackfillFeed((col + [v])[..s]) + CarriedFeed(col + [v], s)
         == BackfillFeed(col[..s]) + CarriedFeed(col, s) + (if v.Some? then [IndexEntry(v, |col|)] else [])
  {
    var c := col + [v];
    assert c[..s] == col[..s];
    assert c[..|c| - 1] == col;
  }

  /** Whether every record attribute has a schema position and no two share one. */
  predicate DistinctPositions(schema: seq<TypedName>, attrs: seq<Attribute>) {
    (forall k :: 0 <= k < |attrs| ==> Lookup(schema, attrs[k].name) >= 0)
    && (forall j, k :: 0 <= j < k < |attrs| ==> Lookup(schema, attrs[j].name) != Lookup(schema, attrs[k].name))
  }

  /** The slot a record fills at schema position `p`: the value of the attribute stored there, if the record carries one. */
  function Slot(schema: seq<TypedName>, attrs: seq<Attribute>, p: int): Option<Value>
  {
    if |attrs| == 0 then None
    else if Lookup(schema, attrs[|attrs| - 1].name) == p then Some(attrs[|attrs| - 1].value)
    else Slot(schema, attrs[..|attrs| - 1], p)
  }

  /** Taking one more attribute into account: it decides the slot at its own position and leaves the others as they were. */
  lemma SlotStep(schema: seq<TypedName>, attrs: seq<Attribute>, k: nat, p: int)
    requires k < |attrs|
    ensures Slot(schema, attrs[..k + 1], p)
         == if Lookup(schema, attrs[k].name) == p then Some(attrs[k].value) else Slot(schema, attrs[..k], p)
  {
    assert attrs[..k + 1][..k] == attrs[..k];
  }

  /** A record fills position `p` with the value of its attribute at `p`, and leaves it absent when it carries none. */
  lemma {:induction false} SlotMeaning(schema: seq<TypedName>, attrs: seq<Attribute>, p: int)
    requires DistinctPositions(schema, attrs)
    ensures forall k :: 0 <= k < |attrs| && Lookup(schema, attrs[k].name) == p ==> Slot(schema, attrs, p) == Some(attrs[k].value)
    ensures (forall k :: 0 <= k < |attrs| ==> Lookup(schema, attrs[k].name) != p) ==> Slot(schema, attrs, p) == None
  {
    if |attrs| > 0 {
      var init := attrs[..|attrs| - 1];
      assert DistinctPositions(schema, init) by {
        forall k | 0 <= k < |init| ensures Lookup(schema, init[k].name) >= 0 {
          assert init[k] == attrs[k];
        }
        forall j, k | 0 <= j < k < |init| ensures Lookup(schema, init[j].name) != Lookup(schema, init[k].name) {
          assert init[j] == attrs[j] && init[k] == attrs[k];
        }
      }
      SlotMeaning(schema, init, p);
      forall k | 0 <= k < |init| ensures init[k] == attrs[k] { }
    }
  }

  /** The columns after one record: each column grows by that record's slot. */
  function NextColumns(cols: seq<Column>, schema: seq<TypedName>, attrs: seq<Attribute>): (r: seq<Column>)
    ensures |r| == |cols|
    ensures forall p :: 0 <= p < |r| ==> r[p] == cols[p] + [Slot(schema, attrs, p)]
  {
    seq(|cols|, p requires 0 <= p < |cols| => cols[p] + [Slot(schema, attrs, p)])
  }

  /** An index builder after a record whose slot at its position is `v`, stored at position `n`. */
  function Fed(ib: Option<IndexBuilder>, v: Option<Value>, n: nat): (r: Option<IndexBuilder>)
    ensures r.Some? <==> ib.Some?
    ensures r.Some? ==> r.value.kind == ib.value.kind
    ensures r.Some? && v.Some? ==> r.value.entries == ib.value.entries + [IndexEntry(v, n)]
    ensures v.None? ==> r == ib
  {
    if ib.Some? && v.Some? then Some(ib.value.(entries := ib.value.entries + [IndexEntry(v, n)])) else ib
  }

  /** The index builders after one record stored at position `n`. */
  function NextIndexes(ibs: seq<Option<IndexBuilder>>, schema: seq<TypedName>, attrs: seq<Attribute>, n: nat): (r: seq<Option<IndexBuilder>>)
    ensures |r| == |ibs|
    ensures forall p :: 0 <= p < |r| ==> r[p] == Fed(ibs[p], Slot(schema, attrs, p), n)
  {
    seq(|ibs|, p requires 0 <= p < |ibs| => Fed(ibs[p], Slot(schema, attrs, p), n))
  }
}
