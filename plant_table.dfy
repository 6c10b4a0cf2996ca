/** The table of plant records held in memory: one row per saved plant
    position, keyed by `plantId`, and the filter-then-append save. */
module PlantTable {
  import opened Wrappers
  import opened Dates

  /** One row of the table. Date cells may be empty (null) in stored rows. */
  datatype Record = Record(
    plantId: string,
    blockType: string,
    blockId: int,
    row: int,
    position: string,
    plantingDate: Option<Date>,
    fertilizerDate: Option<Date>,
    irrigationCycle: string,
    notes: string,
    floweringDate: Option<Date>,
    harvestDate: Option<Date>)

  type Table = seq<Record>

  /** The number of rows whose key is `id`. */
  function Count(t: Table, id: string): nat {
    if t == [] then 0
    else Count(t[..|t| - 1], id) + (if t[|t| - 1].plantId == id then 1 else 0)
  }

  /** The index of the first row whose key is `id`, if any. */
  function FirstIndex(t: Table, id: string): (k: Option<nat>)
    ensures k.None? <==> forall i :: 0 <= i < |t| ==> t[i].plantId != id
    ensures k.Some? ==> k.value < |t| && t[k.value].plantId == id
    ensures k.Some? ==> forall i :: 0 <= i < k.value ==> t[i].plantId != id
  {
    if t == [] then None
    else if FirstIndex(t[..|t| - 1], id).Some? then FirstIndex(t[..|t| - 1], id)
    else if t[|t| - 1].plantId == id then Some(|t| - 1)
    else None
  }

  /** The first row whose key is `id`: the row the detail form reads. */
  function Find(t: Table, id: string): (r: Option<Record>)
    ensures r.None? <==> forall i :: 0 <= i < |t| ==> t[i].plantId != id
    ensures r.Some? ==> r.value in t && r.value.plantId == id
  {
    var k := FirstIndex(t, id);
    if k.Some? then Some(t[k.value]) else None
  }

  /** The ascending indices of the rows whose key is not `id`. */
  function KeptIndices(t: Table, id: string): seq<nat> {
    if t == [] then []
    else KeptIndices(t[..|t| - 1], id) + (if t[|t| - 1].plantId != id then [|t| - 1] else [])
  }

  /** The table without the rows whose key is `id`. */
  function Without(t: Table, id: string): (r: Table)
    ensures forall i :: 0 <= i < |r| ==> r[i].plantId != id
  {
    if t == [] then []
    else Without(t[..|t| - 1], id) + (if t[|t| - 1].plantId != id then [t[|t| - 1]] else [])
  }

  /** KeptIndices lists, in ascending order, exactly the rows with another key. */
  lemma {:induction false} KeptIndicesExact(t: Table, id: string)
    ensures var idx := KeptIndices(t, id);
      (forall i :: 0 <= i < |idx| ==> idx[i] < |t| && t[idx[i]].plantId != id) &&
      (forall i, j :: 0 <= i < j < |idx| ==> idx[i] < idx[j]) &&
      (forall k :: 0 <= k < |t| && t[k].plantId != id ==> k in idx) &&
      |idx| == |t| - Count(t, id)
  {
    if t != [] {
      var front := t[..|t| - 1];
      KeptIndicesExact(front, id);
      var idx := KeptIndices(front, id);
      assert forall k :: 0 <= k < |front| ==> front[k] == t[k];
      if t[|t| - 1].plantId != id {
        assert KeptIndices(t, id) == idx + [|t| - 1];
      } else {
        assert KeptIndices(t, id) == idx;
      }
    }
  }

  /** Without keeps exactly the rows at KeptIndices, in that order. */
  lemma {:induction false} WithoutIsKeptRows(t: Table, id: string)
    ensures |Without(t, id)| == |KeptIndices(t, id)|
    ensures forall i :: 0 <= i < |Without(t, id)| ==>
      KeptIndices(t, id)[i] < |t| && Without(t, id)[i] == t[KeptIndices(t, id)[i]]
  {
    if t != [] {
      var front := t[..|t| - 1];
      WithoutIsKeptRows(front, id);
      KeptIndicesExact(front, id);
      assert forall k :: 0 <= k < |front| ==> front[k] == t[k];
    }
  }

  /** Saving entry `e`: drop every row with its key, then append it. */
  function Upsert(t: Table, e: Record): (r: Table)
    ensures |r| >= 1 && r[|r| - 1] == e
    ensures forall i :: 0 <= i < |r| - 1 ==> r[i].plantId != e.plantId
  {
    Without(t, e.plantId) + [e]
  }

  lemma {:induction false} CountWithout(t: Table, id: string, other: string)
    ensures Count(Without(t, id), other) == if other == id then 0 else Count(t, other)
  {
    if t != [] {
      var front, last := t[..|t| - 1], t[|t| - 1];
      CountWithout(front, id, other);
      var w := Without(front, id);
      if last.plantId != id {
        assert Without(t, id) == w + [last];
        AppendLast(w, last);
        assert Count(w + [last], other) == Count(w, other) + (if last.plantId == other then 1 else 0);
      } else {
        assert Without(t, id) == w;
      }
    }
  }

  lemma FindAppend(s: Table, x: Record, id: string)
    ensures Find(s + [x], id) ==
      if Find(s, id).Some? then Find(s, id) else if x.plantId == id then Some(x) else None
  {
    AppendLast(s, x);
  }

  lemma {:induction false} FindWithout(t: Table, id: string, other: string)
    requires other != id
    ensures Find(Without(t, id), other) == Find(t, other)
  {
    if t != [] {
      var front, last := t[..|t| - 1], t[|t| - 1];
      assert t == front + [last];
      FindWithout(front, id, other);
      FindAppend(front, last, other);
      var w := Without(front, id);
      if last.plantId != id {
        assert Without(t, id) == w + [last];
        FindAppend(w, last, other);
      } else {
        assert Without(t, id) == w;
      }
    }
  }

  lemma {:induction false} WithoutAbsent(t: Table, id: string)
    requires forall i :: 0 <= i < |t| ==> t[i].plantId != id
    ensures Without(t, id) == t
  {
    if t != [] {
      var front, last := t[..|t| - 1], t[|t| - 1];
      assert t == front + [last];
      WithoutAbsent(front, id);
      assert Without(t, id) == Without(front, id) + [last];
    }
  }

  lemma AppendLast(t: Table, e: Record)
    ensures (t + [e])[..|t|] == t
  {
  }

  /** After a save the table holds exactly one row with the entry's key, and the
      form reads back that very entry. */
  lemma UpsertSingleRow(t: Table, e: Record)
    ensures Count(Upsert(t, e), e.plantId) == 1
    ensures Find(Upsert(t, e), e.plantId) == Some(e)
  {
    var w := Without(t, e.plantId);
    AppendLast(w, e);
    CountWithout(t, e.plantId, e.plantId);
    assert FirstIndex(w, e.plantId).None?;
  }

  /** A save keeps every row with another key, unchanged and in its original
      order, appends the entry last, and removes exactly the rows with its key. */
  lemma UpsertShape(t: Table, e: Record)
    ensures |Upsert(t, e)| == |t| - Count(t, e.plantId) + 1
    ensures Upsert(t, e)[|Upsert(t, e)| - 1] == e
    ensures |KeptIndices(t, e.plantId)| == |Upsert(t, e)| - 1
    ensures forall i :: 0 <= i < |Upsert(t, e)| - 1 ==>
      KeptIndices(t, e.plantId)[i] < |t| && Upsert(t, e)[i] == t[KeptIndices(t, e.plantId)[i]]
  {
    KeptIndicesExact(t, e.plantId);
    WithoutIsKeptRows(t, e.plantId);
  }

  /** Rows with any other key are untouched by a save: same count, same first row. */
  lemma UpsertOtherKeys(t: Table, e: Record, other: string)
    requires other != e.plantId
    ensures Count(Upsert(t, e), other) == Count(t, other)
    ensures Find(Upsert(t, e), other) == Find(t, other)
  {
    var w := Without(t, e.plantId);
    AppendLast(w, e);
    CountWithout(t, e.plantId, other);
    FindWithout(t, e.plantId, other);
  }

  /** A second save of the same key replaces the first in full. */
  lemma UpsertOverwrites(t: Table, e1: Record, e2: Record)
    requires e1.plantId == e2.plantId
    ensures Upsert(Upsert(t, e1), e2) == Upsert(t, e2)
  {
    var w := Without(t, e1.plantId);
    AppendLast(w, e1);
    assert Without(w + [e1], e1.plantId) == Without(w, e1.plantId);
    WithoutAbsent(w, e1.plantId);
  }

  /** Saving the same entry twice leaves the table as saving it once. */
  lemma UpsertIdempotent(t: Table, e: Record)
    ensures Upsert(Upsert(t, e), e) == Upsert(t, e)
  {
    UpsertOverwrites(t, e, e);
  }
}
