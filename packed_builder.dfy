/**
 * The packed entity collection builder: one append-only column per schema
 * attribute, optional per-attribute index builders, a record count, a
 * "still sorted by identifier" flag and a lazily built identifier set.
 */
module PackedStore {
  import opened Entities
  import opened BinarySearch
  import opened Columns

  /** The shard a column is packed into; the identifier column has its own long store. */
  datatype ShardKind = IdShard | LongShard | IntShard | DoubleShard | ObjectShard

  /** A finalised column. */
  datatype AttrStore = AttrStore(kind: ShardKind, values: Column)

  /** A finalised index. */
  datatype PackIndex = PackIndex(kind: IndexKind, entries: seq<IndexEntry>)

  /** The finalised collection: stores and optional indexes aligned with the schema positions. */
  datatype PackedEntityCollection = PackedEntityCollection(
    entityType: string,
    attributes: seq<TypedName>,
    stores: seq<AttrStore>,
    indexes: seq<Option<PackIndex>>)

  datatype BuilderError =
    | IllegalArgument(message: string)
    | UnsupportedOperation(message: string)
    | IllegalState(message: string)

  datatype Outcome = Pass | Fail(error: BuilderError)

  /** What the duplicate check of `add` decides: append the record, return without it, or refuse it. */
  datatype Verdict = Proceed | Drop | Reject

  datatype Result<+T> = Success(value: T) | Failure(error: BuilderError)

  /** The largest attribute set a packed builder accepts has 31 attributes. */
  const MaxAttributes: nat := 31

  /** The argument checks of construction, in order; `None` when the attribute set is accepted. */
  function CheckSchema(attrs: seq<TypedName>): (r: Option<BuilderError>)
    ensures r.None? <==> 0 < |attrs| <= MaxAttributes && attrs[0] == EntityId
    ensures r.Some? ==> r.value.IllegalArgument?
    ensures r == Some(IllegalArgument("attribute set is emtpy")) <==> |attrs| == 0
    ensures r == Some(IllegalArgument("cannot have more than 31 attributes")) <==> |attrs| > MaxAttributes
    ensures r == Some(IllegalArgument("attribute set does not contain entity ID attribute"))
            <==> 0 < |attrs| <= MaxAttributes && attrs[0] != EntityId
  {
    if |attrs| == 0 then Some(IllegalArgument("attribute set is emtpy"))
    else if |attrs| >= 32 then Some(IllegalArgument("cannot have more than 31 attributes"))
    else if attrs[0] != EntityId then Some(IllegalArgument("attribute set does not contain entity ID attribute"))
    else None
  }

  /** The shard kind for a non-identifier attribute, chosen by its declared type. */
  function ShardKindFor(ty: DeclaredType): (k: ShardKind)
    ensures k != IdShard
    ensures k == LongShard <==> ty == LongType
    ensures k == IntShard <==> ty == IntegerType
    ensures k == DoubleShard <==> ty == DoubleType
    ensures k == ObjectShard <==> ty.OtherType?
  {
    match ty
    case LongType => LongShard
    case IntegerType => IntShard
    case DoubleType => DoubleShard
    case OtherType(_) => ObjectShard
  }

  /** The index kind for an attribute: long-keyed exactly when its raw type is `Long`. */
  function IndexKindFor(ty: DeclaredType): (k: IndexKind)
    ensures k == LongKeyed <==> ty == LongType
  {
    if ty == LongType then LongKeyed else GenericKeyed
  }

  /** A column every slot of which holds a long: the identifier column. */
  predicate IdColumn(col: Column) {
    forall i :: 0 <= i < |col| ==> col[i].Some? && col[i].value.LongValue?
  }

  /** The identifiers an identifier column holds, in position order. */
  function IdsOf(col: Column): (ids: seq<int>)
    requires IdColumn(col)
    ensures |ids| == |col|
    ensures forall i :: 0 <= i < |col| ==> col[i] == Some(LongValue(ids[i]))
  {
    if |col| == 0 then [] else IdsOf(col[..|col| - 1]) + [col[|col| - 1].value.l]
  }

  function SetOf(s: seq<int>): set<int> {
    set x | x in s
  }

  /** What `add` demands of a record: a long identifier, carried as its `id` attribute, and attributes that each have their own schema position. */
  predicate RecordFits(schema: seq<TypedName>, e: Entity) {
    IsLong(e.id)
    && Attribute(EntityId, LongValue(e.id)) in e.attributes
    && DistinctPositions(schema, e.attributes)
  }

  /**
   * Whether the sorted-mode duplicate check lets a record through, as written:
   * with `replace` it is skipped, otherwise the record is dropped when the
   * search result is at most 0.
   */
  function SortedModeAppends(ids: seq<int>, id: int, replace: bool): (r: bool)
    requires StrictlyIncreasing(ids)
    ensures replace ==> r
    ensures r && !replace ==> id in ids
  {
    replace || SearchOutcome(ids, id) > 0
  }

  /** The sorted-mode duplicate check with the evidently intended test: drop the record when the search finds its identifier. */
  function SortedModeAppendsIntended(ids: seq<int>, id: int, replace: bool): (r: bool)
    requires StrictlyIncreasing(ids)
    ensures replace ==> r
    ensures r && !replace ==> id !in ids
  {
    replace || SearchOutcome(ids, id) < 0
  }

  /**
   * As written, sorted mode without `replace` never appends a record whose
   * identifier is above every stored one, which is every record sorted mode sees.
   */
  lemma SortedModeDropsNewIds(ids: seq<int>, id: int)
    requires StrictlyIncreasing(ids)
    requires forall i :: 0 <= i < |ids| ==> ids[i] < id
    ensures id !in ids
    ensures !SortedModeAppends(ids, id, false)
  {
  }

  /** As written, sorted mode without `replace` appends exactly the duplicates found at a position other than 0. */
  lemma SortedModeAppendsOnlyDuplicates(ids: seq<int>, id: int)
    requires StrictlyIncreasing(ids)
    ensures SortedModeAppends(ids, id, false) <==> exists k :: 0 < k < |ids| && ids[k] == id
  {
    if exists k :: 0 < k < |ids| && ids[k] == id {
      var k :| 0 < k < |ids| && ids[k] == id;
      assert SearchOutcome(ids, id) == k;
    }
  }

  /** The intended check drops a record exactly when its identifier is already stored. */
  lemma SortedModeIntendedDropsDuplicates(ids: seq<int>, id: int)
    requires StrictlyIncreasing(ids)
    ensures SortedModeAppendsIntended(ids, id, false) <==> id !in ids
  {
  }

  /**
   * Routes each attribute of a record to the column at its schema position,
   * and to that position's index builder, if any, as an entry at position `n`.
   */
  method StoreCarried(schema: seq<TypedName>, cols: seq<Column>, ibs: seq<Option<IndexBuilder>>, attrs: seq<Attribute>, n: nat)
    returns (cols': seq<Column>, ibs': seq<Option<IndexBuilder>>)
    requires |cols| == |ibs| == |schema|
    requires DistinctPositions(schema, attrs)
    requires forall p :: 0 <= p < |cols| ==> |cols[p]| == n
    ensures |cols'| == |cols|
    ensures OneShortAtMost(cols', n + 1)
    ensures forall p :: 0 <= p < |cols| ==>
      cols'[p] == cols[p] + (var v := Slot(schema, attrs, p); if v.Some? then [v] else [])
    ensures ibs' == NextIndexes(ibs, schema, attrs, n)
  {
    cols', ibs' := cols, ibs;
    var k := 0;
    while k < |attrs|
      invariant 0 <= k <= |attrs|
      invariant |cols'| == |cols| && |ibs'| == |ibs|
      invariant forall p :: 0 <= p < |cols| ==>
        cols'[p] == cols[p] + (var v := Slot(schema, attrs[..k], p); if v.Some? then [v] else [])
      invariant forall p :: 0 <= p < |ibs| ==> ibs'[p] == Fed(ibs[p], Slot(schema, attrs[..k], p), n)
    {
      var a := attrs[k];
      var ap := Lookup(schema, a.name);
      StoreStep(schema, attrs, k);
      if ap >= 0 {
        cols' := cols'[ap := cols'[ap] + [Some(a.value)]];
      }
      if ibs'[ap].Some? {
        var ib := ibs'[ap].value;
        ibs' := ibs'[ap := Some(ib.(entries := ib.entries + [IndexEntry(Some(a.value), n)]))];
      }
      k := k + 1;
    }
    assert attrs[..|attrs|] == attrs;
  }

  /** The slots after attribute `k` is taken into account: it fills its own position, which was still empty. */
  lemma StoreStep(schema: seq<TypedName>, attrs: seq<Attribute>, k: nat)
    requires DistinctPositions(schema, attrs)
    requires k < |attrs|
    ensures Slot(schema, attrs[..k], Lookup(schema, attrs[k].name)) == None
    ensures forall p :: Slot(schema, attrs[..k + 1], p)
                        == if Lookup(schema, attrs[k].name) == p then Some(attrs[k].value) else Slot(schema, attrs[..k], p)
  {
    var ap := Lookup(schema, attrs[k].name);
    forall p ensures Slot(schema, attrs[..k + 1], p) == if ap == p then Some(attrs[k].value) else Slot(schema, attrs[..k], p) {
      SlotStep(schema, attrs, k, p);
    }
    assert DistinctPositions(schema, attrs[..k]) by {
      forall j | 0 <= j < k ensures attrs[..k][j] == attrs[j] { }
    }
    SlotMeaning(schema, attrs[..k], ap);
    forall j | 0 <= j < k ensures Lookup(schema, attrs[..k][j].name) != ap {
      assert attrs[..k][j] == attrs[j];
    }
  }

  /** Whether every column holds `n` slots or one fewer. */
  predicate OneShortAtMost(cols: seq<Column>, n: nat) {
    forall p :: 0 <= p < |cols| ==> |cols[p]| == n || |cols[p]| + 1 == n
  }

  /** Pads with an absent slot every column that is one short of `n` records, so that all of them hold `n`. */
  method PadColumns(cols: seq<Column>, n: nat) returns (cols': seq<Column>)
    requires OneShortAtMost(cols, n)
    ensures |cols'| == |cols|
    ensures forall p :: 0 <= p < |cols| ==> |cols'[p]| == n
    ensures forall p :: 0 <= p < |cols| ==> cols'[p] == if |cols[p]| == n then cols[p] else cols[p] + [None]
  {
    cols' := cols;
    var p := 0;
    while p < |cols'|
      invariant 0 <= p <= |cols'| == |cols|
      invariant forall q :: 0 <= q < p ==> cols'[q] == if |cols[q]| == n then cols[q] else cols[q] + [None]
      invariant forall q :: p <= q < |cols| ==> cols'[q] == cols[q]
    {
      if |cols'[p]| < n {
        cols' := cols'[p := cols'[p] + [None]];
      }
      p := p + 1;
    }
  }

  /**
   * The column and index-builder side of an append: the record's values go to
   * their columns and index builders at position `n`, then every column the
   * record left out is padded.
   */
  method AppendSlots(schema: seq<TypedName>, cols: seq<Column>, ibs: seq<Option<IndexBuilder>>, attrs: seq<Attribute>, n: nat)
    returns (cols': seq<Column>, ibs': seq<Option<IndexBuilder>>)
    requires |cols| == |ibs| == |schema|
    requires DistinctPositions(schema, attrs)
    requires forall p :: 0 <= p < |cols| ==> |cols[p]| == n
    ensures cols' == NextColumns(cols, schema, attrs)
    ensures ibs' == NextIndexes(ibs, schema, attrs, n)
  {
    var stored;
    stored, ibs' := StoreCarried(schema, cols, ibs, attrs, n);
    cols' := PadColumns(stored, n + 1);
    PaddedIsNext(schema, attrs, cols, stored, cols', n);
  }

  /** Storing a record's values and then padding leaves each column grown by exactly that record's slot. */
  lemma PaddedIsNext(schema: seq<TypedName>, attrs: seq<Attribute>, cols0: seq<Column>, stored: seq<Column>, cols: seq<Column>, n0: nat)
    requires |stored| == |cols0| == |cols|
    requires forall p :: 0 <= p < |cols0| ==> |cols0[p]| == n0
    requires forall p :: 0 <= p < |cols0| ==>
      stored[p] == cols0[p] + (var v := Slot(schema, attrs, p); if v.Some? then [v] else [])
    requires forall p :: 0 <= p < |cols0| ==> cols[p] == if |stored[p]| == n0 + 1 then stored[p] else stored[p] + [None]
    ensures cols == NextColumns(cols0, schema, attrs)
  {
    forall p | 0 <= p < |cols| ensures cols[p] == cols0[p] + [Slot(schema, attrs, p)] {
      assert stored[p] == cols0[p] + (var v := Slot(schema, attrs, p); if v.Some? then [v] else []);
    }
  }

  /** In a strictly increasing sequence whose last element is below `id`, every element is below `id`. */
  lemma BelowLast(s: seq<int>, id: int)
    requires StrictlyIncreasing(s)
    requires |s| > 0 ==> s[|s| - 1] < id
    ensures forall i :: 0 <= i < |s| ==> s[i] < id
  {
    forall i | 0 <= i < |s| ensures s[i] < id {
      assert s[i] <= s[|s| - 1];
    }
  }

  /** Whether an index builder for attribute `tn` holds the backfill of the first `s` slots of `col` and the values carried since. */
  ghost predicate IndexFedFrom(ib: IndexBuilder, tn: TypedName, col: Column, s: nat) {
    s <= |col|
    && ib.kind == IndexKindFor(tn.ty)
    && ib.entries == BackfillFeed(col[..s]) + CarriedFeed(col, s)
  }

  /** Every index builder keeps its feed invariant across one appended record. */
  lemma IndexesStep(schema: seq<TypedName>, cols0: seq<Column>, ibs0: seq<Option<IndexBuilder>>, from: seq<nat>, attrs: seq<Attribute>, n0: nat)
    requires |cols0| == |ibs0| == |from| == |schema|
    requires forall p :: 0 <= p < |cols0| ==> |cols0[p]| == n0
    requires forall p :: 0 <= p < |ibs0| && ibs0[p].Some? ==> IndexFedFrom(ibs0[p].value, schema[p], cols0[p], from[p])
    ensures var cols, ibs := NextColumns(cols0, schema, attrs), NextIndexes(ibs0, schema, attrs, n0);
      forall p :: 0 <= p < |ibs| && ibs[p].Some? ==> IndexFedFrom(ibs[p].value, schema[p], cols[p], from[p])
  {
    var cols, ibs := NextColumns(cols0, schema, attrs), NextIndexes(ibs0, schema, attrs, n0);
    forall p | 0 <= p < |ibs| && ibs[p].Some?
      ensures IndexFedFrom(ibs[p].value, schema[p], cols[p], from[p])
    {
      FeedStep(cols0[p], from[p], Slot(schema, attrs, p));
    }
  }

  /** Appending an identifier to an identifier column appends it to the identifiers. */
  lemma IdsStep(col: Column, id: int)
    requires IdColumn(col)
    ensures IdColumn(col + [Some(LongValue(id))])
    ensures IdsOf(col + [Some(LongValue(id))]) == IdsOf(col) + [id]
  {
  }

  /** A record that carries its identifier as its `id` attribute fills the identifier position with it. */
  lemma IdSlot(schema: seq<TypedName>, attrs: seq<Attribute>, id: int)
    requires |schema| > 0 && schema[0] == EntityId
    requires DistinctPositions(schema, attrs)
    requires Attribute(EntityId, LongValue(id)) in attrs
    ensures Slot(schema, attrs, 0) == Some(LongValue(id))
  {
    var k :| 0 <= k < |attrs| && attrs[k] == Attribute(EntityId, LongValue(id));
    assert Lookup(schema, EntityId) == 0;
    SlotMeaning(schema, attrs, 0);
  }

  /**
   * Appending an identifier above the last one keeps the identifier column
   * increasing, and leaves the prefix an identifier set was built from as it was.
   */
  lemma IdsKeep(col0: Column, col: Column, id: int, n0: nat, last0: int, sorted: bool, ids: Option<set<int>>, covered: nat)
    requires IdColumn(col0) && |col0| == n0
    requires col == col0 + [Some(LongValue(id))]
    requires n0 > 0 ==> last0 == IdsOf(col0)[n0 - 1]
    requires sorted ==> StrictlyIncreasing(IdsOf(col0)) && id > last0
    requires ids.Some? ==> covered <= n0 && ids.value == SetOf(IdsOf(col0)[..covered])
    ensures IdColumn(col) && |col| == n0 + 1
    ensures IdsOf(col)[n0] == id
    ensures sorted ==> StrictlyIncreasing(IdsOf(col))
    ensures ids.Some? ==> ids.value == SetOf(IdsOf(col)[..covered])
  {
    IdsStep(col0, id);
    var old0, new0 := IdsOf(col0), IdsOf(col);
    if sorted {
      BelowLast(old0, id);
    }
    if ids.Some? {
      assert new0[..covered] == old0[..covered];
    }
  }

  /** The builder. */
  class PackedEntityCollectionBuilder {
    const entityType: string
    const attributes: seq<TypedName>
    /** The shard kind of each store builder. */
    const shardKinds: seq<ShardKind>
    /** The contents of each store builder; position 0 is the identifier store. */
    var columns: seq<Column>
    var indexBuilders: seq<Option<IndexBuilder>>
    var ids: Option<set<int>>
    var isSorted: bool
    var size: nat
    var lastEntityId: int
    /** For each index builder, the record count when it was installed. */
    ghost var indexedFrom: seq<nat>
    /** The record count when `ids` was built. */
    ghost var idsCovered: nat

    ghost predicate Valid()
      reads this
    {
      0 < |attributes| <= MaxAttributes && attributes[0] == EntityId
      && |shardKinds| == |columns| == |indexBuilders| == |indexedFrom| == |attributes|
      && shardKinds[0] == IdShard
      && (forall p :: 1 <= p < |shardKinds| ==> shardKinds[p] == ShardKindFor(attributes[p].ty))
      // alignment: every column holds one slot per record
      && (forall p :: 0 <= p < |columns| ==> |columns[p]| == size)
      && IdColumn(columns[0])
      && IsLong(lastEntityId)
      && (size == 0 ==> lastEntityId == MinLong)
      && (size > 0 ==> lastEntityId == IdsOf(columns[0])[size - 1])
      && (isSorted <==> ids.None?)
      && (isSorted ==> StrictlyIncreasing(IdsOf(columns[0])))
      && (ids.Some? ==> idsCovered <= size && ids.value == SetOf(IdsOf(columns[0])[..idsCovered]))
      && (forall p :: 0 <= p < |indexBuilders| && indexBuilders[p].Some? ==>
            IndexFedFrom(indexBuilders[p].value, attributes[p], columns[p], indexedFrom[p]))
    }

    /** Construction from an attribute set that passes the argument checks. */
    constructor (et: string, attrs: seq<TypedName>)
      requires CheckSchema(attrs).None?
      ensures Valid()
      ensures entityType == et && attributes == attrs
      ensures shardKinds[0] == IdShard
      ensures forall p :: 1 <= p < |attrs| ==> shardKinds[p] == ShardKindFor(attrs[p].ty)
      ensures |columns| == |attrs| && forall p :: 0 <= p < |attrs| ==> columns[p] == []
      ensures |indexBuilders| == |attrs| && forall p :: 0 <= p < |attrs| ==> indexBuilders[p].None?
      ensures size == 0 && isSorted && ids.None? && lastEntityId == MinLong
    {
      var n := |attrs|;
      var kinds := [IdShard];
      var i := 1;
      while i < n
        invariant 1 <= i <= n
        invariant |kinds| == i && kinds[0] == IdShard
        invariant forall p :: 1 <= p < i ==> kinds[p] == ShardKindFor(attrs[p].ty)
      {
        kinds := kinds + [ShardKindFor(attrs[i].ty)];
        i := i + 1;
      }
      entityType := et;
      attributes := attrs;
      shardKinds := kinds;
      columns := seq(n, _ => []);
      indexBuilders := seq(n, _ => None);
      indexedFrom := seq(n, _ => 0);
      idsCovered := 0;
      ids := None;
      isSorted := true;
      size := 0;
      lastEntityId := MinLong;
    }

    /** Construction: fails with an illegal-argument error on an attribute set the checks refuse. */
    static method Create(et: string, attrs: seq<TypedName>) returns (r: Result<PackedEntityCollectionBuilder>)
      ensures r.Failure? <==> CheckSchema(attrs).Some?
      ensures r.Failure? ==> Some(r.error) == CheckSchema(attrs)
      ensures r.Success? ==> (fresh(r.value) && r.value.Valid() && r.value.entityType == et && r.value.attributes == attrs
                              && r.value.size == 0 && r.value.isSorted
                              && forall p :: 0 <= p < |attrs| ==> r.value.indexBuilders[p].None?)
    {
      var err := CheckSchema(attrs);
      if err.Some? {
        return Failure(err.value);
      }
      var b := new PackedEntityCollectionBuilder(et, attrs);
      return Success(b);
    }

    /** Installs (or replaces) the index builder at `aidx` and backfills it from every stored slot. */
    method AddIndexAt(aidx: nat)
      requires Valid()
      requires aidx < |attributes|
      modifies this
      ensures Valid()
      ensures indexBuilders == old(indexBuilders)[aidx := Some(IndexBuilder(IndexKindFor(attributes[aidx].ty), BackfillFeed(columns[aidx])))]
      ensures columns == old(columns) && size == old(size) && isSorted == old(isSorted)
      ensures ids == old(ids) && lastEntityId == old(lastEntityId)
    {
      var kind := IndexKindFor(attributes[aidx].ty);
      var col := columns[aidx];
      var entries := [];
      var i := 0;
      while i < size
        invariant 0 <= i <= size == |col|
        invariant entries == BackfillFeed(col[..i])
      {
        assert col[..i + 1][..i] == col[..i];
        entries := entries + [IndexEntry(col[i], i)];
        i := i + 1;
      }
      assert col[..size] == col;
      indexBuilders := indexBuilders[aidx := Some(IndexBuilder(kind, entries))];
      indexedFrom := indexedFrom[aidx := size];
    }

    /** `addIndex` by typed name: nothing changes when the attribute set does not hold it. */
    method AddIndex(tn: TypedName)
      requires Valid()
      modifies this
      ensures Valid()
      ensures var pos := Lookup(attributes, tn);
        if pos < 0 then indexBuilders == old(indexBuilders)
        else indexBuilders == old(indexBuilders)[pos := Some(IndexBuilder(IndexKindFor(tn.ty), BackfillFeed(columns[pos])))]
      ensures columns == old(columns) && size == old(size) && isSorted == old(isSorted)
      ensures ids == old(ids) && lastEntityId == old(lastEntityId)
    {
      var pos := Lookup(attributes, tn);
      if pos >= 0 {
        AddIndexAt(pos);
      }
    }

    /** `addIndex` by attribute name: nothing changes when no attribute has that name. */
    method AddIndexNamed(name: string)
      requires Valid()
      modifies this
      ensures Valid()
      ensures var pos := LookupName(attributes, name);
        if pos < 0 then indexBuilders == old(indexBuilders)
        else attributes[pos].name == name
             && indexBuilders == old(indexBuilders)[pos := Some(IndexBuilder(IndexKindFor(attributes[pos].ty), BackfillFeed(columns[pos])))]
      ensures columns == old(columns) && size == old(size) && isSorted == old(isSorted)
      ensures ids == old(ids) && lastEntityId == old(lastEntityId)
    {
      var pos := LookupName(attributes, name);
      if pos >= 0 {
        AddIndexAt(pos);
      }
    }

    /** The set of identifiers in the identifier column, collected by a scan of every stored record. */
    method CollectIds() returns (s: set<int>)
      requires |columns| > 0 && |columns[0]| == size && IdColumn(columns[0])
      ensures s == SetOf(IdsOf(columns[0]))
      ensures forall i :: 0 <= i < size ==> columns[0][i].value.l in s
    {
      ghost var all := IdsOf(columns[0]);
      s := {};
      var i := 0;
      while i < size
        invariant 0 <= i <= size
        invariant s == SetOf(all[..i])
      {
        assert all[..i + 1] == all[..i] + [all[i]];
        s := s + {columns[0][i].value.l};
        i := i + 1;
      }
      assert all[..size] == all;
    }

    /**
     * Adds a record. The sorted flag is updated first; then duplicates are
     * looked for (by binary search while sorted, in the identifier set
     * otherwise); a record that gets through is appended.
     */
    method Add(e: Entity, replace: bool) returns (r: Outcome)
      requires Valid()
      requires RecordFits(attributes, e)
      modifies this
      ensures Valid()
      ensures isSorted == (old(isSorted) && e.id > old(lastEntityId))
      ensures isSorted ==> ids.None?
      ensures !isSorted ==> ids == Some(if old(ids).Some? then old(ids).value else SetOf(old(IdsOf(columns[0]))))
      ensures r.Fail? <==> !isSorted && e.id in ids.value && replace
      ensures r.Fail? ==> r.error == UnsupportedOperation("packed builder cannot replace entities")
      ensures var appended :=
                if isSorted then SortedModeAppends(old(IdsOf(columns[0])), e.id, replace) else e.id !in ids.value;
              if appended then
                columns == NextColumns(old(columns), attributes, e.attributes)
                && indexBuilders == NextIndexes(old(indexBuilders), attributes, e.attributes, old(size))
                && size == old(size) + 1 && lastEntityId == e.id
              else
                columns == old(columns) && indexBuilders == old(indexBuilders)
                && size == old(size) && lastEntityId == old(lastEntityId)
      ensures isSorted && !replace ==> size == old(size)
    {
      var verdict := CheckDuplicate(e.id, replace);
      if verdict == Reject {
        return Fail(UnsupportedOperation("packed builder cannot replace entities"));
      } else if verdict == Drop {
        return Pass;
      }
      Append(e);
      return Pass;
    }

    /**
     * The first half of `add`: updates the sorted flag, builds the identifier
     * set the first time order is broken, and decides what becomes of the record.
     */
    method CheckDuplicate(id: int, replace: bool) returns (verdict: Verdict)
      requires Valid()
      requires IsLong(id)
      modifies this`isSorted, this`ids, this`idsCovered
      ensures Valid()
      ensures isSorted == (old(isSorted) && id > lastEntityId)
      ensures isSorted ==> ids.None?
      ensures !isSorted ==> ids == Some(if old(ids).Some? then old(ids).value else SetOf(IdsOf(columns[0])))
      ensures verdict == Reject <==> !isSorted && id in ids.value && replace
      ensures verdict == Proceed <==>
                if isSorted then SortedModeAppends(IdsOf(columns[0]), id, replace) else id !in ids.value
      ensures isSorted && !replace ==> verdict == Drop
    {
      isSorted := isSorted && id > lastEntityId;
      if !isSorted {
        if ids.None? {
          var s := CollectIds();
          ids := Some(s);
          idsCovered := size;
          ghost var all := IdsOf(columns[0]);
          assert all[..size] == all;
        }
      }
      assert Valid();
      verdict := Decide(id, replace);
    }

    /** The duplicate test of `add`, once the sorted flag is up to date and the identifier set exists when it is needed. */
    method Decide(id: int, replace: bool) returns (verdict: Verdict)
      requires Valid()
      requires isSorted ==> id > lastEntityId
      ensures verdict == Reject <==> !isSorted && id in ids.value && replace
      ensures verdict == Proceed <==>
                if isSorted then SortedModeAppends(IdsOf(columns[0]), id, replace) else id !in ids.value
      ensures isSorted && !replace ==> verdict == Drop
    {
      if !isSorted {
        if id in ids.value {
          if replace {
            return Reject;
          } else {
            return Drop;
          }
        }
      } else if !replace {
        var res := Search(IdsOf(columns[0]), id);
        // every stored identifier is below `id`, so the search never finds it and `res` is negative
        SortedModeDropsNewIds(IdsOf(columns[0]), id) by {
          if size > 0 {
            BelowLast(IdsOf(columns[0]), id);
          }
        }
        if res <= 0 {
          return Drop;
        }
      }
      return Proceed;
    }

    /** Stores one record: its carried values and their index entries, then pads every other column. */
    method Append(e: Entity)
      requires Valid()
      requires RecordFits(attributes, e)
      requires isSorted ==> e.id > lastEntityId
      modifies this
      ensures Valid()
      ensures columns == NextColumns(old(columns), attributes, e.attributes)
      ensures indexBuilders == NextIndexes(old(indexBuilders), attributes, e.attributes, old(size))
      ensures size == old(size) + 1 && lastEntityId == e.id
      ensures isSorted == old(isSorted) && ids == old(ids)
    {
      var cols, ibs := AppendSlots(attributes, columns, indexBuilders, e.attributes, size);
      columns, indexBuilders := cols, ibs;
      size := size + 1;
      lastEntityId := e.id;
      AppendKeepsValid(e);
    }

    /**
     * Finalises every column and every index builder that exists; refused
     * unless every record arrived in increasing identifier order.
     */
    method Build() returns (r: Result<PackedEntityCollection>)
      requires Valid()
      ensures r.Failure? <==> !isSorted
      ensures r.Failure? ==> r.error == IllegalState("cannot yet support unsorted builds")
      ensures r.Success? ==> (
        var c := r.value;
        c.entityType == entityType && c.attributes == attributes
        && |c.stores| == |attributes| && |c.indexes| == |attributes|
        && (forall i :: 0 <= i < |attributes| ==> c.stores[i] == AttrStore(shardKinds[i], columns[i]) && |c.stores[i].values| == size)
        && StrictlyIncreasing(IdsOf(c.stores[0].values))
        && (forall i :: 0 <= i < |attributes| ==> (c.indexes[i].Some? <==> indexBuilders[i].Some?))
        && (forall i :: 0 <= i < |attributes| && c.indexes[i].Some? ==>
              c.indexes[i].value == PackIndex(indexBuilders[i].value.kind, indexBuilders[i].value.entries)
              && c.indexes[i].value.kind == IndexKindFor(attributes[i].ty)
              && Present(c.indexes[i].value.entries) == CarriedFeed(c.stores[i].values, 0)))
    {
      if !isSorted {
        return Failure(IllegalState("cannot yet support unsorted builds"));
      }
      var stores := [];
      var indexes := [];
      var i := 0;
      while i < |columns|
        invariant 0 <= i <= |columns|
        invariant |stores| == |indexes| == i
        invariant forall j :: 0 <= j < i ==> stores[j] == AttrStore(shardKinds[j], columns[j])
        invariant forall j :: 0 <= j < i ==>
          (indexes[j] == if indexBuilders[j].Some? then Some(PackIndex(indexBuilders[j].value.kind, indexBuilders[j].value.entries)) else None)
      {
        stores := stores + [AttrStore(shardKinds[i], columns[i])];
        var index: Option<PackIndex> := None;
        if indexBuilders[i].Some? {
          index := Some(PackIndex(indexBuilders[i].value.kind, indexBuilders[i].value.entries));
        }
        indexes := indexes + [index];
        i := i + 1;
      }
      forall j | 0 <= j < |indexBuilders| && indexBuilders[j].Some?
        ensures Present(indexBuilders[j].value.entries) == CarriedFeed(columns[j], 0)
      {
        IndexMatchesColumn(columns[j], indexedFrom[j]);
      }
      return Success(PackedEntityCollection(entityType, attributes, stores, indexes));
    }

    /** Finalises every column but no index: an iterable collection, whatever the identifier order. */
    method Entities() returns (c: PackedEntityCollection)
      requires Valid()
      ensures c.entityType == entityType && c.attributes == attributes
      ensures |c.stores| == |attributes| && |c.indexes| == |attributes|
      ensures forall i :: 0 <= i < |attributes| ==> c.stores[i] == AttrStore(shardKinds[i], columns[i]) && |c.stores[i].values| == size
      ensures forall i :: 0 <= i < |attributes| ==> c.indexes[i].None?
    {
      var stores := [];
      var i := 0;
      while i < |columns|
        invariant 0 <= i <= |columns|
        invariant |stores| == i
        invariant forall j :: 0 <= j < i ==> stores[j] == AttrStore(shardKinds[j], columns[j])
      {
        stores := stores + [AttrStore(shardKinds[i], columns[i])];
        i := i + 1;
      }
      c := PackedEntityCollection(entityType, attributes, stores, seq(|indexBuilders|, _ => None));
    }

    /** The record's identifier lands in the identifier column, so every invariant survives the append. */
    twostate lemma AppendKeepsValid(e: Entity)
      requires old(Valid())
      requires RecordFits(attributes, e)
      requires old(isSorted) ==> e.id > old(lastEntityId)
      requires columns == NextColumns(old(columns), attributes, e.attributes)
      requires indexBuilders == NextIndexes(old(indexBuilders), attributes, e.attributes, old(size))
      requires size == old(size) + 1 && lastEntityId == e.id
      requires isSorted == old(isSorted) && ids == old(ids)
      requires indexedFrom == old(indexedFrom) && idsCovered == old(idsCovered)
      ensures Valid()
    {
      IdSlot(attributes, e.attributes, e.id);
      IdsKeep(old(columns)[0], columns[0], e.id, old(size), old(lastEntityId), isSorted, ids, idsCovered);
      IndexesStep(attributes, old(columns), old(indexBuilders), indexedFrom, e.attributes, old(size));
    }
  }
}
