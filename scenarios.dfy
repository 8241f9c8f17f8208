/**
 * Concrete runs of the builder that show what the duplicate checks of `add`
 * do as written, and the corrected unsorted-mode bookkeeping.
 */
module Scenarios {
  import opened Entities
  import opened PackedStore

  /** A record that carries only its identifier. */
  function Bare(id: int): Entity {
    Entity(id, [Attribute(EntityId, LongValue(id))])
  }

  const Score: TypedName := TypedName("score", DoubleType)

  /** A record with an identifier and a score. */
  function Scored(id: int, score: real): Entity {
    Entity(id, [Attribute(EntityId, LongValue(id)), Attribute(Score, DoubleValue(score))])
  }

  lemma ScoredFits(id: int, score: real)
    requires IsLong(id)
    ensures RecordFits([EntityId, Score], Scored(id, score))
  {
    assert Lookup([EntityId, Score], Score) == 1;
  }

  /**
   * The very first record added without `replace` is dropped: the search over
   * no identifiers gives -1, which the sorted-mode test treats as a duplicate.
   * Added again with `replace`, the same record is stored.
   */
  method FirstRecordIsDropped() returns (sizeAfterPlain: nat, sizeAfterReplace: nat)
    ensures sizeAfterPlain == 0
    ensures sizeAfterReplace == 1
  {
    var b := new PackedEntityCollectionBuilder("item", [EntityId]);
    var out := b.Add(Bare(5), false);
    sizeAfterPlain := b.size;
    out := b.Add(Bare(5), true);
    sizeAfterReplace := b.size;
  }

  /**
   * Once order is broken the identifier set is built once and never extended,
   * so an identifier first seen out of order gets through the duplicate check
   * a second time: after `add(5, true)` and `add(3, true)`, `add(3, false)`
   * stores identifier 3 a second time.
   * The builder then refuses to build, but still lists the stored records.
   */
  method UnsortedDuplicateIsKept() returns (size: nat, built: bool, listed: nat)
    ensures size == 3
    ensures !built
    ensures listed == 3
  {
    var b := new PackedEntityCollectionBuilder("rating", [EntityId, Score]);
    ScoredFits(5, 4.2);
    var out := b.Add(Scored(5, 4.2), true);
    assert b.size == 1 && b.lastEntityId == 5;
    assert IdsOf(b.columns[0]) == [5];
    assert SetOf([5]) == {5};
    ScoredFits(3, 2.9);
    out := b.Add(Scored(3, 2.9), true);
    assert b.size == 2 && !b.isSorted && b.ids == Some({5});
    ScoredFits(3, 9.9);
    out := b.Add(Scored(3, 9.9), false);
    size := b.size;
    var r := b.Build();
    built := r.Success?;
    var c := b.Entities();
    listed := |c.stores[0].values|;
  }

  /**
   * The identifiers unsorted mode would append, without `replace`, if every
   * appended identifier were also added to the set of those already seen.
   */
  function UnsortedAppendsIntended(seen: set<int>, incoming: seq<int>): (r: seq<int>)
    ensures forall x :: x in r <==> x in incoming && x !in seen
    ensures forall i, j :: 0 <= i < j < |r| ==> r[i] != r[j]
    decreases |incoming|
  {
    if |incoming| == 0 then []
    else if incoming[0] in seen then UnsortedAppendsIntended(seen, incoming[1..])
    else [incoming[0]] + UnsortedAppendsIntended(seen + {incoming[0]}, incoming[1..])
  }
}
