/**
 * The vector index of one key and the commands on it
 * (internal/engine/vector.go, internal/engine/vector_migration.go), with the
 * columns updated in place.  Every command is shown to be the corresponding
 * step of the machine in MigrationLog.
 */
module VectorIndexing {
  import opened Options
  import opened MigrationLog
  import opened VectorRecovery
  import opened VectorTable
  import LastRecord

  /** Encoded rows have the width the layout gives them. */
  ghost predicate CodecOk(codec: Codec)
  {
    forall e, v :: |(codec.encode)(e, v)| == RowSize(|v|, e)
  }

  const INITIAL_ROWS: nat := 1000

  class VectorIndex {
    const codec: Codec
    var dim: int
    var encoding: Encoding
    var count: nat
    var idMap: map<string, nat>
    var idList: seq<string>
    var tombstones: seq<bool>
    var generations: seq<nat>
    var mmap: seq<bv8>

    var isMigrating: bool
    var shadowDim: int
    var shadowEncoding: Encoding
    var shadow: VectorIndex?

    ghost function Cols(): Columns
      reads this
    {
      Columns(dim, encoding, idMap, idList, tombstones, generations, mmap)
    }

    ghost predicate Valid()
      reads this
    {
      CodecOk(codec) && VectorTable.Valid(Cols()) && count == |idList|
    }

    ghost function Contents(): Table
      reads this
      requires Valid()
    {
      TableOf(Cols())
    }

    constructor (codec: Codec, dim: int, encoding: Encoding)
      requires CodecOk(codec)
      requires RowSize(dim, encoding) > 0
      ensures Valid() && this.codec == codec
      ensures Contents() == Table(dim, encoding, map[])
      ensures tombstones == [] && OddWhileLive(Cols())
      ensures !isMigrating && shadow == null
    {
      this.codec, this.dim, this.encoding := codec, dim, encoding;
      count, idMap, idList, tombstones, generations := 0, map[], [], [], [];
      mmap := seq(INITIAL_ROWS * RowSize(dim, encoding), _ => 0);
      isMigrating, shadow, shadowDim, shadowEncoding := false, null, 0, Sq8;
    }

    /** Doubles the mapped file, or more if that is not enough. */
    method EnsureCapacity(needed: int)
      requires Valid()
      modifies `mmap
      ensures Valid() && |mmap| >= needed
      ensures Contents() == old(Contents())
      ensures old(OddWhileLive(Cols())) ==> OddWhileLive(Cols())
    {
      if needed > |mmap| {
        var newSize := |mmap| * 2;
        if newSize < needed {
          newSize := needed;
        }
        ghost var before := Cols();
        var more := seq(newSize - |mmap|, _ => 0);
        mmap := mmap + more;
        GrownTable(before, more);
      }
    }

    /** Gives `id` a row, reviving it if it was deleted, and writes the vector. */
    method Upsert(id: string, vec: Vector)
      requires Valid() && |vec| == dim
      requires id !in idMap ==> (count + 1) * RowSize(dim, encoding) <= |mmap|
      modifies `count, `idMap, `idList, `tombstones, `generations, `mmap
      ensures Valid() && |mmap| == old(|mmap|)
      ensures Contents() == Put(codec, old(Contents()), id, vec)
      ensures Contents() == old(Contents()).(rows := old(Contents()).rows[id := (codec.encode)(encoding, vec)])
      ensures idMap.Keys == old(idMap.Keys) + {id}
      ensures count == old(count) + if id in old(idMap) then 0 else 1
      ensures old(OddWhileLive(Cols())) ==> OddWhileLive(Cols())
    {
      hide Inverse, TableOf, WithRow, OddWhileLive;
      ghost var before := Cols();
      var width := RowSize(dim, encoding);
      var bytes := (codec.encode)(encoding, vec);
      if id in idMap {
        var row := idMap[id];
        DistinctRows(before, id, id);
        RowFits(before, row);
        if tombstones[row] {
          tombstones := tombstones[row := false];
          generations := generations[row := generations[row] + 1];
        }
        mmap := WithRow(mmap, width, row, bytes);
        LiveGeneration(before, row);
        OverwrittenTable(before, id, bytes, generations[row]);
        assert Cols() == Overwritten(before, row, bytes, generations[row]);
        assert idMap.Keys == old(idMap.Keys) + {id};
        TableShape(before);
      } else {
        var row := count;
        idMap := idMap[id := row];
        idList := idList + [id];
        tombstones := tombstones + [false];
        generations := generations + [1];
        count := count + 1;
        mmap := WithRow(mmap, width, row, bytes);
        AppendedTable(before, id, bytes);
        assert Cols() == Appended(before, id, bytes);
        TableShape(before);
      }
    }

    /** VADD, once the index exists. */
    method Add(id: string, vec: Vector) returns (ok: bool)
      requires Valid()
      modifies `count, `idMap, `idList, `tombstones, `generations, `mmap
      ensures Valid()
      ensures ok <==> ValidVector(id, vec) && |vec| == dim
      ensures Contents() == if ok then Put(codec, old(Contents()), id, vec) else old(Contents())
      ensures ok ==> Contents() == old(Contents()).(rows := old(Contents()).rows[id := (codec.encode)(encoding, vec)])
      ensures count == old(count) + if ok && id !in old(idMap) then 1 else 0
      ensures old(OddWhileLive(Cols())) ==> OddWhileLive(Cols())
    {
      hide OddWhileLive, TableOf, Inverse, Put, CodecOk;
      if !ValidVector(id, vec) || |vec| != dim {
        return false;
      }
      var needed := if id in idMap then count else count + 1;
      EnsureCapacity(needed * RowSize(dim, encoding));
      Upsert(id, vec);
      return true;
    }

    /** The mapped file has room for this many rows. */
    ghost predicate RoomFor(rows: nat)
      reads this
    {
      rows * RowSize(dim, encoding) <= |mmap|
    }

    /** Writes the vectors of a batch one after the other.  `known` are the ids
        for which rows have been reserved. */
    method UpsertAll(ids: seq<string>, vecs: seq<Vector>, ghost known: set<string>)
      requires Valid()
      requires |ids| == |vecs| && forall i :: 0 <= i < |ids| ==> |vecs[i]| == dim && ids[i] in known
      requires idMap.Keys <= known && RoomFor(|known|)
      modifies `count, `idMap, `idList, `tombstones, `generations, `mmap
      ensures Valid() && count >= old(count)
      ensures Contents() == PutAll(codec, old(Contents()), ids, vecs)
      ensures old(OddWhileLive(Cols())) ==> OddWhileLive(Cols())
    {
      hide TableOf, OddWhileLive, RowSize, CodecOk, Put, PutAll, Inverse;
      EmptyBatch(codec, Contents(), ids[..0], vecs[..0]);
      for i := 0 to |ids|
        invariant Valid() && |mmap| == old(|mmap|) && count >= old(count)
        invariant Contents() == PutAll(codec, old(Contents()), ids[..i], vecs[..i])
        invariant idMap.Keys <= known
        invariant old(OddWhileLive(Cols())) ==> OddWhileLive(Cols())
      {
        RoomForOne(Cols(), ids[i], known, |known|);
        PutAllSnoc(codec, old(Contents()), ids, vecs, i);
        Upsert(ids[i], vecs[i]);
      }
      assert ids[..|ids|] == ids && vecs[..|ids|] == vecs;
    }

    /** Makes room for the rows of the batch's new ids. */
    method Reserve(ids: seq<string>) returns (ghost known: set<string>)
      requires Valid()
      modifies `mmap
      ensures Valid() && Contents() == old(Contents())
      ensures old(OddWhileLive(Cols())) ==> OddWhileLive(Cols())
      ensures idMap.Keys <= known && RoomFor(|known|)
      ensures forall i :: 0 <= i < |ids| ==> ids[i] in known
    {
      hide VectorTable.Valid, TableOf, RowSize, CodecOk;
      var newIds := NewIds(idMap, ids);
      ReservedIds(Cols(), ids, newIds);
      known := idMap.Keys + newIds;
      EnsureCapacity((count + |newIds|) * RowSize(dim, encoding));
    }

    /** VADD of many vectors, once the index exists. */
    method AddBatch(batchDim: int, ids: seq<string>, vecs: seq<Vector>) returns (ok: bool)
      requires Valid()
      modifies `count, `idMap, `idList, `tombstones, `generations, `mmap
      ensures Valid() && count >= old(count)
      ensures ok <==> ValidBatch(batchDim, ids, vecs) && batchDim == dim
      ensures ok ==> Contents() == PutAll(codec, old(Contents()), ids, vecs)
      ensures ok ==> |ids| == |vecs| && LastRecord.HoldsBatch(codec, old(Contents()), Contents(), ids, vecs)
      ensures !ok ==> Contents() == old(Contents()) && count == old(count)
      ensures old(OddWhileLive(Cols())) ==> OddWhileLive(Cols())
    {
      hide Valid, TableOf, OddWhileLive, CodecOk, PutAll, RoomFor, LastRecord.HoldsBatch;
      if !ValidBatch(batchDim, ids, vecs) || batchDim != dim {
        return false;
      }
      BatchDims(this, ids, vecs);
      LastRecord.BatchHeld(codec, Contents(), ids, vecs);
      ghost var known := Reserve(ids);
      UpsertAll(ids, vecs, known);
      return true;
    }

    /** VDEL: leaves a tombstone. */
    method Del(id: string) returns (deleted: bool)
      requires Valid()
      modifies `tombstones, `generations
      ensures Valid()
      ensures deleted <==> id in old(Contents()).rows
      ensures Contents() == old(Contents()).(rows := old(Contents()).rows - {id})
      ensures old(OddWhileLive(Cols())) ==> OddWhileLive(Cols())
    {
      ghost var before := Cols();
      if id !in idMap || tombstones[idMap[id]] {
        assert Contents().rows - {id} == Contents().rows;
        return false;
      }
      var row := idMap[id];
      tombstones := tombstones[row := true];
      generations := generations[row := generations[row] + 1];
      DeletedTable(before, id);
      assert Cols() == Deleted(before, row);
      return true;
    }

    /** The living ids, generations and copies of their rows. */
    method CollectLiving() returns (ids: seq<string>, gens: seq<nat>, rows: seq<Row>, removed: nat)
      requires Valid()
      ensures ids == Kept(idList, tombstones)
      ensures gens == Kept(generations, tombstones)
      ensures rows == Kept(AllRows(Cols()), tombstones)
      ensures removed == |idList| - Living(tombstones)
    {
      hide Inverse, Kept, Living, AllRows, RowAt;
      ids, gens, rows, removed := [], [], [], 0;
      var width := RowSize(dim, encoding);
      ghost var all := AllRows(Cols());
      NothingKept(idList[..0], generations[..0], all[..0], tombstones[..0]);
      for r := 0 to |idList|
        invariant ids == Kept(idList[..r], tombstones[..r])
        invariant gens == Kept(generations[..r], tombstones[..r])
        invariant rows == Kept(all[..r], tombstones[..r])
        invariant removed == r - Living(tombstones[..r])
      {
        KeptSnoc(idList, tombstones, r);
        KeptSnoc(generations, tombstones, r);
        KeptSnoc(all, tombstones, r);
        if tombstones[r] {
          removed := removed + 1;
        } else {
          RowFits(Cols(), r);
          RowsAt(Cols(), r);
          ids := ids + [idList[r]];
          gens := gens + [generations[r]];
          rows := rows + [RowAt(mmap, width, r)];
        }
      }
      assert idList[..|idList|] == idList && generations[..|idList|] == generations;
      assert all[..|idList|] == all && tombstones[..|idList|] == tombstones;
    }

    /** VCOMPACT: drops the tombstoned rows and moves the others up in place. */
    method Compact() returns (removed: nat)
      requires Valid()
      modifies `count, `idMap, `idList, `tombstones, `generations, `mmap
      ensures Valid()
      ensures removed == old(|idList| - Living(tombstones)) && count == old(count) - removed
      ensures idList == old(Kept(idList, tombstones))
      ensures generations == old(Kept(generations, tombstones))
      ensures AllFalse(tombstones)
      ensures Contents() == old(Contents())
      ensures old(OddWhileLive(Cols())) ==> OddWhileLive(Cols())
    {
      hide Inverse, TableOf, Kept, Living, AllRows, OddWhileLive, WithRow, RowAt, CodecOk, RowSize;
      ghost var before := Cols();
      var ids, gens, rows;
      ids, gens, rows, removed := CollectLiving();
      KeptLength(idList, tombstones);
      KeptLength(generations, tombstones);
      KeptLength(AllRows(Cols()), tombstones);
      if removed == 0 {
        NothingDead(before);
        return;
      }
      KeptWidths(before);
      Replace(before, ids, gens, rows);
      CompactedTable(before, Cols());
    }

    /** Makes the given living rows of `before` the contents of the index. */
    method Replace(ghost before: Columns, ids: seq<string>, gens: seq<nat>, rows: seq<Row>)
      requires Valid() && before == Cols()
      requires |ids| == |gens| == |rows| <= |idList|
      requires forall k :: 0 <= k < |rows| ==> |rows[k]| == RowSize(dim, encoding)
      requires ids == Kept(idList, tombstones) && gens == Kept(generations, tombstones)
      requires rows == Kept(AllRows(before), tombstones)
      modifies `count, `idMap, `idList, `tombstones, `generations, `mmap
      ensures Valid()
      ensures idList == ids && generations == gens
      ensures IsCompacted(before, Cols())
    {
      hide IsCompacted, Inverse, Kept, AllRows, WithRow, RowAt, Holds, CodecOk, RowSize;
      var moved := MoveUp(mmap, RowSize(dim, encoding), |idList|, rows);
      KeptDistinct(before);
      var index := IndexIds(ids);
      var clear := seq(|ids|, _ => false);
      MadeCompact(before, Columns(dim, encoding, index, ids, clear, gens, moved), rows);
      idMap, idList, generations, mmap, tombstones, count := index, ids, gens, moved, clear, |ids|;
    }

    // ---- Migration ----

    /** The shadow is an index of its own, in which nothing is ever deleted. */
    ghost predicate MigrationOk()
      reads this, shadow
    {
      && (isMigrating <==> shadow != null)
      && (shadow != null ==>
            && shadow != this
            && shadow.Valid()
            && shadow.codec == codec
            && shadow.dim == shadowDim && shadow.encoding == shadowEncoding
            && AllFalse(shadow.tombstones))
    }

    ghost function Abs(): Store
      reads this, shadow
      requires Valid() && MigrationOk()
    {
      Present(Contents(), if shadow == null then None else Some(shadow.Contents()))
    }

    method StartMigration(newDim: int, newEncoding: Option<Encoding>) returns (ok: bool)
      requires Valid() && MigrationOk()
      modifies `isMigrating, `shadow, `shadowDim, `shadowEncoding
      ensures Valid() && MigrationOk()
      ensures shadow == null || shadow == old(shadow) || fresh(shadow)
      ensures Abs() == Step(codec, old(Abs()), Start(newDim, newEncoding))
      ensures ok <==> !Refuses(old(Abs()), Start(newDim, newEncoding))
    {
      hide VectorTable.Valid, TableOf, CodecOk;
      if newEncoding.None? {
        return false;
      }
      if isMigrating {
        SameShape(shadow);
        if shadowDim == newDim && shadowEncoding == newEncoding.value {
          return true;
        }
        shadow, isMigrating := null, false;
      }
      if RowSize(newDim, newEncoding.value) <= 0 {
        return false;
      }
      var created := new VectorIndex(codec, newDim, newEncoding.value);
      SameShape(created);
      shadowDim, shadowEncoding, shadow, isMigrating := newDim, newEncoding.value, created, true;
      return true;
    }

    /** The part of a shadow insertion that happens on the shadow itself: an
        overwrite raises the generation although the row stays live. */
    method ShadowUpsert(id: string, vec: Vector)
      requires Valid() && |vec| == dim && AllFalse(tombstones)
      requires id !in idMap ==> (count + 1) * RowSize(dim, encoding) <= |mmap|
      modifies `count, `idMap, `idList, `tombstones, `generations, `mmap
      ensures Valid() && AllFalse(tombstones)
      ensures Contents() == Put(codec, old(Contents()), id, vec)
      ensures Contents() == old(Contents()).(rows := old(Contents()).rows[id := (codec.encode)(encoding, vec)])
    {
      hide Inverse, TableOf, WithRow;
      ghost var before := Cols();
      var width := RowSize(dim, encoding);
      var bytes := (codec.encode)(encoding, vec);
      TableShape(before);
      if id in idMap {
        var row := idMap[id];
        DistinctRows(before, id, id);
        RowFits(before, row);
        generations := generations[row := generations[row] + 1];
        mmap := WithRow(mmap, width, row, bytes);
        OverwrittenTable(before, id, bytes, generations[row]);
        assert tombstones[row := false] == tombstones;
        assert Cols() == Overwritten(before, row, bytes, generations[row]);
      } else {
        idMap := idMap[id := count];
        idList := idList + [id];
        tombstones := tombstones + [false];
        generations := generations + [1];
        mmap := WithRow(mmap, width, count, bytes);
        count := count + 1;
        AppendedTable(before, id, bytes);
        assert Cols() == Appended(before, id, bytes);
      }
    }

    method InsertShadowVector(id: string, vec: Vector) returns (ok: bool)
      requires Valid() && MigrationOk()
      modifies shadow
      ensures Valid() && MigrationOk() && shadow == old(shadow)
      ensures Abs() == Step(codec, old(Abs()), ShadowAdd(id, vec))
      ensures ok <==> !Refuses(old(Abs()), ShadowAdd(id, vec))
    {
      hide VectorTable.Valid, TableOf, CodecOk, RowSize;
      if !isMigrating || shadow == null {
        return false;
      }
      SameShape(shadow);
      if !ValidVector(id, vec) || |vec| != shadow.dim {
        return false;
      }
      if id !in shadow.idMap {
        shadow.EnsureCapacity((shadow.count + 1) * RowSize(shadow.dim, shadow.encoding));
      }
      shadow.ShadowUpsert(id, vec);
      return true;
    }

    /** Makes the shadow the live index.  Without a migration there is nothing
        to do; an empty shadow is refused. */
    method SwapMigration() returns (ok: bool)
      requires Valid() && MigrationOk()
      modifies this
      ensures Valid() && MigrationOk()
      ensures shadow == null || shadow == old(shadow)
      ensures Abs() == Step(codec, old(Abs()), Swap)
      ensures ok <==> !Refuses(old(Abs()), Swap)
    {
      hide VectorTable.Valid, TableOf, CodecOk, Step;
      SwapStep(codec, Abs());
      if !isMigrating || shadow == null {
        return true;
      }
      EmptyIffNoRows(shadow.Cols());
      if shadow.count == 0 {
        return false;
      }
      TakeOver();
      shadow, isMigrating := null, false;
      return true;
    }

    /** The columns of the shadow replace those of the index. */
    method TakeOver()
      requires Valid() && MigrationOk() && shadow != null
      modifies `dim, `encoding, `count, `idMap, `idList, `tombstones, `generations, `mmap
      ensures Valid() && Contents() == shadow.Contents()
    {
      hide VectorTable.Valid, TableOf, CodecOk;
      ghost var promoted := shadow.Cols();
      dim, encoding, count := shadow.dim, shadow.encoding, shadow.count;
      idMap, idList, tombstones, generations := shadow.idMap, shadow.idList, shadow.tombstones, shadow.generations;
      mmap := shadow.mmap;
      assert Cols() == promoted;
    }

    method CancelMigration()
      requires Valid() && MigrationOk()
      modifies `isMigrating, `shadow, `shadowDim, `shadowEncoding
      ensures Valid() && MigrationOk() && shadow == null
      ensures Abs() == Step(codec, old(Abs()), Cancel)
    {
      hide VectorTable.Valid, TableOf, CodecOk;
      if isMigrating {
        shadow, isMigrating, shadowDim, shadowEncoding := null, false, 0, Sq8;
      }
    }
  }

  lemma SameShape(index: VectorIndex)
    requires index.Valid()
    ensures index.Contents().dim == index.dim && index.Contents().encoding == index.encoding
  {
  }

  lemma AddStep(codec: Codec, s: Store, id: string, vec: Vector)
    ensures var p := MigrationLog.GetOrCreate(codec, s, |vec|);
            && Step(codec, s, Add(id, vec)) == (if ValidVector(id, vec) then p.(live := Put(codec, p.live, id, vec)) else s)
            && (Refuses(s, Add(id, vec)) <==> !ValidVector(id, vec) || p.live.dim != |vec|)
            && (p.live.dim != |vec| ==> Put(codec, p.live, id, vec) == p.live)
  {
  }

  lemma BatchStep(codec: Codec, s: Store, dim: int, ids: seq<string>, vecs: seq<Vector>)
    ensures var p := MigrationLog.GetOrCreate(codec, s, dim);
            && (!ValidBatch(dim, ids, vecs) ==> Step(codec, s, AddBatch(dim, ids, vecs)) == s)
            && (ValidBatch(dim, ids, vecs) ==>
                  Step(codec, s, AddBatch(dim, ids, vecs)) == if p.live.dim != dim then p else p.(live := PutAll(codec, p.live, ids, vecs)))
            && (Refuses(s, AddBatch(dim, ids, vecs)) <==> !ValidBatch(dim, ids, vecs) || p.live.dim != dim)
  {
  }

  lemma SwapStep(codec: Codec, s: Store)
    ensures s.Present? ==> Step(codec, s, Swap) == if s.shadow.Some? && s.shadow.value.rows != map[] then Present(s.shadow.value, None) else s
  {
  }

  /** A row that is live, or revived, has an odd generation. */
  lemma LiveGeneration(c: Columns, r: nat)
    requires |c.tombstones| == |c.generations| && r < |c.tombstones|
    ensures OddWhileLive(c) ==> (c.generations[r] + if c.tombstones[r] then 1 else 0) % 2 == 1
  {
  }

  lemma EmptyIffNoRows(c: Columns)
    requires VectorTable.Valid(c) && AllFalse(c.tombstones)
    ensures |c.idList| == 0 <==> TableOf(c).rows == map[]
  {
    if |c.idList| > 0 {
      assert IsLive(c, c.idList[0]);
      assert c.idList[0] in TableOf(c).rows;
    }
  }

  /** All vector state of one key. */
  class VectorStore {
    const codec: Codec
    var index: VectorIndex?

    ghost function Repr(): set<object>
      reads this, index
    {
      {this} + (if index == null then {} else {index} + (if index.shadow == null then {} else {index.shadow}))
    }

    ghost predicate Valid()
      reads this, index, if index == null then null else index.shadow
    {
      CodecOk(codec) && (index != null ==> index.codec == codec && index.Valid() && index.MigrationOk())
    }

    ghost function Abs(): Store
      reads this, index, if index == null then null else index.shadow
      requires Valid()
    {
      if index == null then Missing else index.Abs()
    }

    constructor (codec: Codec)
      requires CodecOk(codec)
      ensures Valid() && this.codec == codec && Abs() == Missing && fresh(Repr())
    {
      this.codec, index := codec, null;
    }

    method GetOrCreate(dim: nat)
      requires Valid()
      modifies this
      ensures Valid() && index != null && fresh(Repr() - old(Repr()))
      ensures Abs() == MigrationLog.GetOrCreate(codec, old(Abs()), dim)
      ensures Abs() == if old(Abs()).Missing? then Present(Table(dim, codec.default, map[]), None) else old(Abs())
    {
      if index == null {
        index := new VectorIndex(codec, dim, codec.default);
      }
    }

    /** Adds or overwrites one vector. */
    method VAdd(id: string, vec: Vector) returns (ok: bool)
      requires Valid()
      modifies Repr()
      ensures Valid() && fresh(Repr() - old(Repr()))
      ensures Abs() == Step(codec, old(Abs()), Op.Add(id, vec))
      ensures ok <==> !Refuses(old(Abs()), Op.Add(id, vec))
      ensures ok <==> 0 < |id| <= 512 && 0 < |vec| <= 4096 && (old(Abs()).Present? ==> old(Abs()).live.dim == |vec|)
      ensures LastRecord.SetsRow(codec, old(Abs()), Abs(), id, vec, ok)
    {
      hide VectorTable.Valid, TableOf, CodecOk, RowSize, Put, PutAll, Step, Refuses, LastRecord.SetsRow;
      AddStep(codec, Abs(), id, vec);
      LastRecord.AddSets(codec, Abs(), id, vec);
      if !ValidVector(id, vec) {
        return false;
      }
      GetOrCreate(|vec|);
      SameShape(index);
      ok := index.Add(id, vec);
    }

    /** Adds a batch; all of it or, when it is malformed, nothing. */
    method VAddBatch(dim: int, ids: seq<string>, vecs: seq<Vector>) returns (ok: bool)
      requires Valid()
      modifies Repr()
      ensures Valid() && fresh(Repr() - old(Repr()))
      ensures Abs() == Step(codec, old(Abs()), Op.AddBatch(dim, ids, vecs))
      ensures ok <==> !Refuses(old(Abs()), Op.AddBatch(dim, ids, vecs)) || (ids == [] && vecs == [])
      ensures ok <==> |ids| == |vecs| && (ids == [] || LastRecord.WellFormed(old(Abs()), dim, ids, vecs))
      ensures LastRecord.SetsRows(codec, old(Abs()), Abs(), ids, vecs, ok && ids != [])
    {
      hide VectorTable.Valid, TableOf, CodecOk, RowSize, PutAll, Step, Refuses, ValidBatch, LastRecord.SetsRows, LastRecord.WellFormed;
      BatchStep(codec, Abs(), dim, ids, vecs);
      LastRecord.BatchTaken(Abs(), dim, ids, vecs);
      LastRecord.BatchSets(codec, Abs(), Op.AddBatch(dim, ids, vecs));
      if !ValidBatch(dim, ids, vecs) {
        return ids == [] && vecs == [];
      }
      GetOrCreate(dim);
      SameShape(index);
      ok := index.AddBatch(dim, ids, vecs);
    }

    /** Deletes one vector. */
    method VDel(id: string) returns (deleted: bool)
      requires Valid()
      modifies Repr()
      ensures Valid() && fresh(Repr() - old(Repr()))
      ensures Abs() == Step(codec, old(Abs()), Op.Del(id))
      ensures deleted <==> Lookup(old(Abs()), id).Some?
      ensures forall x :: Lookup(Abs(), x) == if x == id then None else Lookup(old(Abs()), x)
      ensures Shadow(Abs()) == Shadow(old(Abs()))
    {
      hide VectorTable.Valid, TableOf, CodecOk, RowSize, PutAll;
      if index == null {
        return false;
      }
      deleted := index.Del(id);
    }

    /** Drops tombstoned rows. */
    method VCompact() returns (removed: nat)
      requires Valid()
      modifies Repr()
      ensures Valid() && fresh(Repr() - old(Repr()))
      ensures Abs() == Step(codec, old(Abs()), Op.Compact)
      ensures removed == old(if index == null then 0 else |index.idList| - Living(index.tombstones))
      ensures Abs() == old(Abs())
    {
      hide VectorTable.Valid, TableOf, CodecOk, RowSize, PutAll;
      if index == null {
        return 0;
      }
      removed := index.Compact();
    }

    /** Begins a migration, creating the index if need be. */
    method VMigrateStart(dim: int, encoding: Option<Encoding>) returns (ok: bool)
      requires Valid()
      modifies Repr()
      ensures Valid() && fresh(Repr() - old(Repr()))
      ensures Abs() == Step(codec, old(Abs()), Op.Start(dim, encoding))
      ensures ok <==> !Refuses(old(Abs()), Op.Start(dim, encoding))
      ensures LastRecord.Migrates(old(Abs()), Abs(), dim, encoding, ok)
    {
      hide VectorTable.Valid, TableOf, CodecOk, RowSize, PutAll, Restart, LastRecord.Migrates;
      LastRecord.StartMigrates(codec, Abs(), dim, encoding);
      GetOrCreate(0);
      ok := index.StartMigration(dim, encoding);
    }

    /** Adds a vector to the shadow only. */
    method VMigrateAdd(id: string, vec: Vector) returns (ok: bool)
      requires Valid()
      modifies Repr()
      ensures Valid() && fresh(Repr() - old(Repr()))
      ensures Abs() == Step(codec, old(Abs()), Op.ShadowAdd(id, vec))
      ensures ok <==> !Refuses(old(Abs()), Op.ShadowAdd(id, vec))
      ensures ok <==> Shadow(old(Abs())).Some? && 0 < |id| <= 512 && 0 < |vec| <= 4096 && |vec| == Shadow(old(Abs())).value.dim
      ensures ok ==> Shadow(old(Abs())).Some?
      ensures ok ==> var t := Shadow(old(Abs())).value; Shadow(Abs()) == Some(t.(rows := t.rows[id := (codec.encode)(t.encoding, vec)]))
      ensures Live(Abs()) == Live(old(Abs())) && (!ok ==> Abs() == old(Abs()))
    {
      hide VectorTable.Valid, TableOf, CodecOk, RowSize, PutAll;
      if index == null {
        return false;
      }
      ok := index.InsertShadowVector(id, vec);
    }

    /** Promotes the shadow. */
    method VMigrateSwap() returns (ok: bool)
      requires Valid()
      modifies Repr()
      ensures Valid() && fresh(Repr() - old(Repr()))
      ensures Abs() == Step(codec, old(Abs()), Op.Swap)
      ensures ok <==> !Refuses(old(Abs()), Op.Swap)
      ensures ok <==> old(Abs()).Present? && (Shadow(old(Abs())).Some? ==> Shadow(old(Abs())).value.rows != map[])
      ensures ok && Shadow(old(Abs())).Some? ==> Live(Abs()) == Shadow(old(Abs())) && Shadow(Abs()).None?
      ensures !ok || Shadow(old(Abs())).None? ==> Abs() == old(Abs())
    {
      hide VectorTable.Valid, TableOf, CodecOk, RowSize, PutAll;
      if index == null {
        return false;
      }
      ok := index.SwapMigration();
    }

    /** Drops the shadow. */
    method VMigrateCancel() returns (ok: bool)
      requires Valid()
      modifies Repr()
      ensures Valid() && fresh(Repr() - old(Repr()))
      ensures Abs() == Step(codec, old(Abs()), Op.Cancel)
      ensures ok <==> !Refuses(old(Abs()), Op.Cancel)
      ensures ok <==> old(Abs()).Present?
      ensures Live(Abs()) == Live(old(Abs())) && Shadow(Abs()).None?
    {
      hide VectorTable.Valid, TableOf, CodecOk, RowSize, PutAll;
      if index == null {
        return false;
      }
      index.CancelMigration();
      return true;
    }

    /** Carries out one record of the log; recovery also refuses an empty batch. */
    method Apply(op: Op) returns (ok: bool)
      requires Valid()
      modifies Repr()
      ensures Valid() && fresh(Repr() - old(Repr()))
      ensures Abs() == Step(codec, old(Abs()), op)
      ensures ok <==> !Refuses(old(Abs()), op)
    {
      hide VectorTable.Valid, TableOf, CodecOk, Step;
      match op
      case Add(id, vec) => ok := VAdd(id, vec);
      case AddBatch(dim, ids, vecs) =>
        ok := VAddBatch(dim, ids, vecs);
        ok := ok && ids != [];
      case Del(id) =>
        var _ := VDel(id);
        ok := true;
      case Compact =>
        var _ := VCompact();
        ok := true;
      case Start(dim, encoding) => ok := VMigrateStart(dim, encoding);
      case ShadowAdd(id, vec) => ok := VMigrateAdd(id, vec);
      case Swap => ok := VMigrateSwap();
      case Cancel => ok := VMigrateCancel();
    }

    /** Carries out commands one after the other, refused or not. */
    method Replay(log: seq<Op>)
      requires Valid()
      modifies Repr()
      ensures Valid() && fresh(Repr() - old(Repr()))
      ensures Abs() == Run(codec, old(Abs()), log)
      ensures Shadow(old(Abs())).None? ==> LastRecord.HoldsLast(codec, old(Abs()), log, Abs())
    {
      hide VectorTable.Valid, TableOf, CodecOk, Step, Refuses, LastRecord.HoldsLast;
      if Shadow(Abs()).None? {
        LastRecord.RunHoldsLast(codec, Abs(), log);
      }
      assert log[..0] == [];
      for i := 0 to |log|
        invariant Valid() && fresh(Repr() - old(Repr()))
        invariant Abs() == Run(codec, old(Abs()), log[..i])
      {
        RunSnoc(codec, old(Abs()), log, i);
        var _ := Apply(log[i]);
      }
      assert log[..|log|] == log;
    }

    /** Recovery: replays the log and stops at the first record that is refused. */
    method Recover(log: seq<Op>) returns (ok: bool)
      requires Valid()
      modifies Repr()
      ensures Valid() && fresh(Repr() - old(Repr()))
      ensures ok <==> AcceptsAll(codec, old(Abs()), log)
      ensures ok ==> Abs() == Run(codec, old(Abs()), log)
    {
      hide VectorTable.Valid, TableOf, CodecOk, Step, Refuses, Run;
      assert log[..0] == [];
      RunNothing(codec, Abs());
      for i := 0 to |log|
        invariant Valid() && fresh(Repr() - old(Repr()))
        invariant Abs() == Run(codec, old(Abs()), log[..i])
        invariant forall k {:trigger log[k]} :: 0 <= k < i ==> !Refuses(Run(codec, old(Abs()), log[..k]), log[k])
      {
        RunSnoc(codec, old(Abs()), log, i);
        var taken := Apply(log[i]);
        if !taken {
          assert Refuses(Run(codec, old(Abs()), log[..i]), log[i]);
          return false;
        }
      }
      assert log[..|log|] == log;
      return true;
    }

    /** After `done` commands of a log the process dies and loses the shadow.
        Recovery gets through exactly when no vector added before the log's
        first promotion has another dimension than the index has at the crash,
        and then the live table is that of a run without a crash. */
    method RunCrashRecover(log: seq<Op>, done: nat) returns (ok: bool)
      requires Valid() && Shadow(Abs()).None?
      requires done <= |log|
      modifies Repr()
      ensures Valid()
      ensures ok ==> Live(Abs()) == Live(Run(codec, old(Abs()), log))
      ensures AcceptsAll(codec, old(Abs()), log) ==>
                (ok <==> !AddsOtherDim(codec, old(Abs()), Crash(Run(codec, old(Abs()), log[..done])), log))
    {
      hide VectorTable.Valid, TableOf, CodecOk, Run, AcceptsAll, AddsOtherDim, MayCrashInto;
      ghost var t := Crash(Run(codec, Abs(), log[..done]));
      CrashIsOne(codec, Abs(), log, done);
      CrashReplay(codec, Abs(), log, done, t);
      if AcceptsAll(codec, Abs(), log) {
        ReplayTakenIff(codec, Abs(), log, done, t);
      }
      Replay(log[..done]);
      if index != null {
        index.shadow, index.isMigrating := null, false;
      }
      ok := Recover(log);
    }
  }

  lemma RunNothing(codec: Codec, s: Store)
    ensures Run(codec, s, []) == s
  {
  }

  /** The ids of a batch that have no row yet. */
  method NewIds(idMap: map<string, nat>, ids: seq<string>) returns (unknown: set<string>)
    ensures unknown == set id | id in ids && id !in idMap
  {
    unknown := {};
    for i := 0 to |ids|
      invariant unknown == set id | id in ids[..i] && id !in idMap
    {
      assert ids[..i + 1] == ids[..i] + [ids[i]];
      if ids[i] !in idMap {
        unknown := unknown + {ids[i]};
      }
    }
    assert ids[..|ids|] == ids;
  }

  lemma ReservedIds(c: Columns, ids: seq<string>, newIds: set<string>)
    requires VectorTable.Valid(c)
    requires newIds == set id | id in ids && id !in c.idMap
    ensures |c.idMap.Keys + newIds| == |c.idList| + |newIds|
    ensures forall i :: 0 <= i < |ids| ==> ids[i] in c.idMap.Keys + newIds
  {
    assert |c.idMap.Keys| == |c.idList|;
    assert c.idMap.Keys !! newIds;
  }

  lemma BatchDims(index: VectorIndex, ids: seq<string>, vecs: seq<Vector>)
    requires index.Valid() && ValidBatch(index.dim, ids, vecs)
    ensures forall i :: 0 <= i < |vecs| ==> |vecs[i]| == index.Contents().dim
  {
  }

  lemma EmptyBatch(codec: Codec, t: Table, ids: seq<string>, vecs: seq<Vector>)
    requires ids == [] && vecs == []
    ensures PutAll(codec, t, ids, vecs) == t
  {
  }

  /** A batch never needs more rows than were reserved for it. */
  lemma RoomForOne(c: Columns, id: string, known: set<string>, limit: nat)
    requires VectorTable.Valid(c)
    requires c.idMap.Keys <= known && |known| == limit && id in known
    requires limit * Width(c) <= |c.mmap|
    ensures id !in c.idMap ==> (|c.idList| + 1) * Width(c) <= |c.mmap|
  {
    if id !in c.idMap {
      var more := c.idMap.Keys + {id};
      assert known == more + (known - more);
      assert |more| <= |known|;
      RowsBelow(|c.idList| + 1, limit, Width(c));
    }
  }

  lemma RowsBelow(a: nat, b: nat, width: nat)
    requires a <= b
    ensures a * width <= b * width
  {
  }

  /** The map from ids to their positions. */
  method IndexIds(ids: seq<string>) returns (idMap: map<string, nat>)
    requires forall i, j :: 0 <= i < j < |ids| ==> ids[i] != ids[j]
    ensures Inverse(idMap, ids)
  {
    idMap := map[];
    for r := 0 to |ids|
      invariant Inverse(idMap, ids[..r])
    {
      assert ids[..r + 1] == ids[..r] + [ids[r]];
      assert ids[r] !in idMap by {
        assert forall id :: id in idMap ==> ids[idMap[id]] == id;
      }
      AppendedInverse(idMap, ids[..r], ids[r]);
      idMap := idMap[ids[r] := r];
    }
    assert ids[..|ids|] == ids;
  }

  /** The array begins with the given rows. */
  ghost predicate Holds(mmap: seq<bv8>, width: nat, rows: seq<Row>)
  {
    forall k :: 0 <= k < |rows| ==> HoldsRow(mmap, width, rows, k)
  }

  predicate HoldsRow(mmap: seq<bv8>, width: nat, rows: seq<Row>, k: nat)
    requires k < |rows|
  {
    (k + 1) * width <= |mmap| && RowAt(mmap, width, k) == rows[k]
  }

  /** Writes the rows to the front of the array. */
  method MoveUp(start: seq<bv8>, width: nat, capacity: nat, rows: seq<Row>) returns (mmap: seq<bv8>)
    requires capacity * width <= |start| && |rows| <= capacity
    requires forall k :: 0 <= k < |rows| ==> |rows[k]| == width
    ensures |mmap| == |start|
    ensures |rows| * width <= |mmap|
    ensures Holds(mmap, width, rows)
  {
    hide WithRow, Holds;
    mmap := start;
    RowsBelow(|rows|, capacity, width);
    HoldsNothing(mmap, width, rows[..0]);
    for k := 0 to |rows|
      invariant |mmap| == |start|
      invariant Holds(mmap, width, rows[..k])
    {
      RowsBelow(k + 1, capacity, width);
      HoldsStep(mmap, width, rows, k);
      mmap := WithRow(mmap, width, k, rows[k]);
    }
    assert rows[..|rows|] == rows;
  }

  lemma HoldsNothing(mmap: seq<bv8>, width: nat, rows: seq<Row>)
    requires rows == []
    ensures Holds(mmap, width, rows)
  {
  }

  lemma HoldsStep(mmap: seq<bv8>, width: nat, rows: seq<Row>, k: nat)
    requires k < |rows| && |rows[k]| == width && (k + 1) * width <= |mmap|
    requires Holds(mmap, width, rows[..k])
    ensures Holds(WithRow(mmap, width, k, rows[k]), width, rows[..k + 1])
  {
    hide WithRow, RowAt;
    var after, done := WithRow(mmap, width, k, rows[k]), rows[..k + 1];
    forall j | 0 <= j < |done|
      ensures HoldsRow(after, width, done, j)
    {
      RowsBelow(j + 1, k + 1, width);
      WithRowAt(mmap, width, k, rows[k], j);
      assert j < k ==> HoldsRow(mmap, width, rows[..k], j);
    }
  }

  lemma NothingKept(ids: seq<string>, gens: seq<nat>, rows: seq<Row>, dead: seq<bool>)
    requires |ids| == |gens| == |rows| == |dead| == 0
    ensures Kept(ids, dead) == [] && Kept(gens, dead) == [] && Kept(rows, dead) == [] && Living(dead) == 0
  {
  }

  lemma RowsAt(c: Columns, r: nat)
    requires VectorTable.Valid(c) && r < |c.idList| && (r + 1) * Width(c) <= |c.mmap|
    ensures AllRows(c)[r] == RowAt(c.mmap, Width(c), r)
  {
  }

  lemma NothingDead(c: Columns)
    requires VectorTable.Valid(c) && Living(c.tombstones) == |c.idList|
    ensures Kept(c.idList, c.tombstones) == c.idList
    ensures Kept(c.generations, c.tombstones) == c.generations
    ensures AllFalse(c.tombstones)
  {
    AllLiving(c.idList, c.tombstones);
    AllLiving(c.generations, c.tombstones);
  }

  lemma {:induction false} AllLiving<T>(xs: seq<T>, dead: seq<bool>)
    requires |xs| == |dead| && Living(dead) == |xs|
    ensures Kept(xs, dead) == xs && AllFalse(dead)
  {
    if xs != [] {
      var n := |xs| - 1;
      KeptLength(xs[..n], dead[..n]);
      AllLiving(xs[..n], dead[..n]);
      assert xs == xs[..n] + [xs[n]] && dead == dead[..n] + [dead[n]];
    }
  }

  lemma StillFits(c: Columns, d: Columns)
    requires VectorTable.Valid(c)
    requires d.dim == c.dim && d.encoding == c.encoding && |d.mmap| == |c.mmap|
    requires |d.idList| <= |c.idList| && |d.tombstones| == |d.generations| == |d.idList|
    requires Inverse(d.idMap, d.idList)
    ensures VectorTable.Valid(d)
  {
    RowsBelow(|d.idList|, |c.idList|, Width(c));
  }

  lemma RowsMoved(c: Columns, d: Columns, rows: seq<Row>)
    requires VectorTable.Valid(c) && VectorTable.Valid(d)
    requires Width(c) == Width(d) && |rows| == |d.idList|
    requires Holds(d.mmap, Width(d), rows)
    ensures AllRows(d) == rows
  {
    hide RowAt, Inverse, AllRows;
    forall k | 0 <= k < |rows|
      ensures AllRows(d)[k] == rows[k]
    {
      assert HoldsRow(d.mmap, Width(d), rows, k);
      RowsAt(d, k);
    }
  }

  lemma MadeCompact(c: Columns, d: Columns, rows: seq<Row>)
    requires VectorTable.Valid(c)
    requires d.dim == c.dim && d.encoding == c.encoding && |d.mmap| == |c.mmap|
    requires d.idList == Kept(c.idList, c.tombstones) && d.generations == Kept(c.generations, c.tombstones)
    requires |d.idList| == |d.generations| == |d.tombstones| == |rows| <= |c.idList|
    requires AllFalse(d.tombstones) && Inverse(d.idMap, d.idList)
    requires rows == Kept(AllRows(c), c.tombstones)
    requires Width(d) > 0 && Holds(d.mmap, Width(d), rows)
    ensures VectorTable.Valid(d) && IsCompacted(c, d)
  {
    hide Inverse, Kept, AllRows, RowAt, Holds;
    StillFits(c, d);
    RowsMoved(c, d, rows);
  }

  lemma TableShape(c: Columns)
    requires VectorTable.Valid(c)
    ensures TableOf(c).dim == c.dim && TableOf(c).encoding == c.encoding
  {
  }
}
