/**
 * A vector index with its eight graphs (internal/engine/vector.go): new rows
 * are inserted into the graph of their shard, compaction and opening rebuild
 * all graphs, and a search merges what the graphs find.
 */
module VectorGraphs {
  import opened Options
  import opened LayerSearch
  import opened Sorting
  import opened HnswGraph
  import opened HnswShards
  import opened ShardMerge
  import opened MigrationLog
  import opened VectorIndexing
  import VectorTable
  import LastRecord

  /** The stored rows always fit the mapped file. */
  lemma AllStored(index: VectorIndex)
    requires index.Valid()
    ensures RowSize(index.dim, index.encoding) > 0
    ensures Stored(index.count, RowSize(index.dim, index.encoding), |index.mmap|) == index.count
  {
    RowsThatFit(index.count, RowSize(index.dim, index.encoding), |index.mmap|);
  }

  /** Inserts the rows of one shard among a range of new rows. */
  method FillShard(graph: Graph, shard: nat, sim: (int, int) -> real, level: int -> int, lo: nat, hi: nat, scratch: SearchScratch)
    requires shard < SHARDS && lo <= hi && HoldsShare(graph, lo, shard)
    requires forall row :: 0 <= level(row) <= MAX_LEVEL
    requires scratch.Valid()
    modifies graph, scratch
    ensures scratch.Valid()
    ensures HoldsShare(graph, hi, shard)
    ensures KeepsOrder(sim, old(graph.nodes), graph.nodes)
  {
    hide HoldsShare, Ordered, NoRepeats, SearchScratch.Valid, NoRow;
    for row := lo to hi
      invariant scratch.Valid() && HoldsShare(graph, row, shard)
      invariant KeepsOrder(sim, old(graph.nodes), graph.nodes)
    {
      if row % SHARDS == shard {
        AddRow(graph, shard, sim, row, level(row), scratch);
      } else {
        OnlyRow(row, shard);
        OtherRows(graph, row, row + 1, shard);
      }
    }
  }

  lemma OnlyRow(row: nat, shard: nat)
    requires row % SHARDS != shard
    ensures NoRow(row, row + 1, shard)
  {
  }

  // ---- The best of a sorted list ----

  ghost predicate Descending(list: seq<Scored>)
  {
    forall i, j :: 0 <= i < j < |list| ==> list[i].score >= list[j].score
  }

  /** The rows picked so far from the first `i` of a descending list. */
  ghost predicate Picked(score: int -> real, min: Option<real>, list: seq<Scored>, i: nat, rows: seq<Scored>)
    requires i <= |list|
  {
    && WellScored(score, rows) && Descending(rows)
    && (forall a, b :: 0 <= a < b < |rows| ==> rows[a].id != rows[b].id)
    && (forall x, j :: x in rows && i <= j < |list| ==> x.score >= list[j].score)
    && Ids(rows) == set id | id in Ids(list[..i]) && Good(score, min, id)
  }

  lemma PickedNone(score: int -> real, min: Option<real>, list: seq<Scored>)
    ensures Picked(score, min, list, 0, [])
  {
  }

  lemma PickedSkip(score: int -> real, min: Option<real>, list: seq<Scored>, i: nat, rows: seq<Scored>)
    requires i < |list| && Picked(score, min, list, i, rows)
    requires list[i].id in Ids(list[..i]) || !Good(score, min, list[i].id)
    ensures Picked(score, min, list, i + 1, rows)
  {
    assert list[..i + 1] == list[..i] + [list[i]];
    assert Ids(list[..i + 1]) == Ids(list[..i]) + {list[i].id};
  }

  lemma PickedMore(score: int -> real, min: Option<real>, list: seq<Scored>, i: nat, rows: seq<Scored>)
    requires i < |list| && Descending(list) && WellScored(score, list) && Picked(score, min, list, i, rows)
    requires list[i].id !in Ids(list[..i]) && Good(score, min, list[i].id)
    ensures Picked(score, min, list, i + 1, rows + [list[i]])
  {
    var more := rows + [list[i]];
    assert list[..i + 1] == list[..i] + [list[i]];
    assert Ids(list[..i + 1]) == Ids(list[..i]) + {list[i].id};
    assert Ids(more) == Ids(rows) + {list[i].id};
    assert list[i] in list;
    forall a | 0 <= a < |rows|
      ensures rows[a].id != list[i].id
    {
      assert rows[a].id in Ids(rows);
    }
  }

  lemma PickedIsTopK(score: int -> real, min: Option<real>, list: seq<Scored>, i: nat, k: int, rows: seq<Scored>)
    requires i <= |list| && WellScored(score, list) && Picked(score, min, list, i, rows)
    requires |rows| <= k && (|rows| == k || i == |list|)
    ensures TopK(score, GoodFor(score, min), Ids(list), k, rows)
  {
    assert list == list[..i] + list[i..];
    assert Ids(list) == Ids(list[..i]) + Ids(list[i..]);
    forall id | id in Ids(list) && Good(score, min, id) && id !in Ids(rows)
      ensures |rows| == k && forall x :: x in rows ==> score(id) <= x.score
    {
      assert id in Ids(list[i..]);
      var j :| 0 <= j < |list[i..]| && list[i..][j].id == id;
      assert list[i + j] in list && list[i + j].id == id;
    }
  }

  /** Walks down a sorted list and keeps the first `k` good rows, each once. */
  method PickBest(score: int -> real, min: Option<real>, list: seq<Scored>, k: int) returns (rows: seq<Scored>)
    requires k > 0 && WellScored(score, list) && Descending(list)
    ensures TopK(score, GoodFor(score, min), Ids(list), k, rows)
  {
    hide TopK, Picked, Ids, Descending;
    rows := [];
    var seen: set<int> := {};
    PickedNone(score, min, list);
    NoIds(list);
    for i := 0 to |list|
      invariant |rows| < k && seen == Ids(list[..i])
      invariant Picked(score, min, list, i, rows)
    {
      IdsMore(list, i);
      if list[i].id in seen {
        PickedSkip(score, min, list, i, rows);
        continue;
      }
      seen := seen + {list[i].id};
      ListScored(score, list, i);
      if min.Some? && list[i].score < min.value {
        PickedSkip(score, min, list, i, rows);
        continue;
      }
      PickedMore(score, min, list, i, rows);
      rows := rows + [list[i]];
      if |rows| >= k {
        PickedIsTopK(score, min, list, i + 1, k, rows);
        return;
      }
    }
    PickedIsTopK(score, min, list, |list|, k, rows);
  }

  lemma NoIds(list: seq<Scored>)
    ensures Ids(list[..0]) == {}
  {
  }

  lemma IdsMore(list: seq<Scored>, i: nat)
    requires i < |list|
    ensures Ids(list[..i + 1]) == Ids(list[..i]) + {list[i].id}
  {
    assert list[..i + 1] == list[..i] + [list[i]];
  }

  lemma ListScored(score: int -> real, list: seq<Scored>, i: nat)
    requires i < |list| && WellScored(score, list)
    ensures list[i].score == score(list[i].id)
  {
    assert list[i] in list;
  }

  /** Scores the rows found anew and sorts them, best first. */
  method Rescore(exact: int -> real, found: seq<Scored>) returns (list: seq<Scored>)
    ensures WellScored(exact, list) && Descending(list) && Ids(list) == Ids(found)
  {
    var scored := seq(|found|, i requires 0 <= i < |found| => Scored(found[i].id, exact(found[i].id)));
    assert Ids(scored) == Ids(found) by {
      forall id | id in Ids(found)
        ensures id in Ids(scored)
      {
        var i :| 0 <= i < |found| && found[i].id == id;
        assert scored[i] in scored;
      }
    }
    list := SortBy(Best, scored);
    MultisetIn(list, scored);
  }

  /** The rows a search may return. */
  function Accepting(idList: seq<string>, tombstones: seq<bool>, exclude: string, filter: string -> bool): int -> bool
  {
    row =>
      && 0 <= row < |idList| && row < |tombstones| && !tombstones[row]
      && (exclude == "" || idList[row] != exclude) && filter(idList[row])
  }

  /** What is known of the rows a shard's search kept. */
  ghost predicate ShardPool(graph: Graph, ef: int, k: int, pool: set<int>)
    reads graph
  {
    if graph.size == 0 then pool == {}
    else pool <= graph.nodes.Keys && exists entry :: entry in graph.nodes && PoolFrom(graph.nodes, entry, SearchBreadth(ef, graph.efSearch, k), pool)
  }

  ghost predicate PoolFrom(nodes: map<int, Node>, entry: int, breadth: int, pool: set<int>)
  {
    |ReachSet(nodes, 0, {entry})| <= breadth ==> pool == ReachSet(nodes, 0, {entry})
  }

  datatype Hit = Hit(id: string, score: real)

  class ShardedIndex {
    const index: VectorIndex
    var graphs: seq<Graph>

    /** The graphs hold exactly the rows of the index, deleted ones included. */
    ghost predicate Valid()
      reads this, index, graphs
    {
      index.Valid() && HoldShares(graphs, index.count)
    }

    constructor (index: VectorIndex, sim: (int, int) -> real, level: int -> int, scratch: SearchScratch)
      requires index.Valid() && scratch.Valid()
      requires forall row :: 0 <= level(row) <= MAX_LEVEL
      modifies scratch
      ensures this.index == index && Valid() && scratch.Valid() && fresh(graphs)
      ensures ShardsValid(graphs, index.count)
    {
      this.index := index;
      graphs := [];
      new;
      Rebuild(sim, level, scratch);
    }

    method Rebuild(sim: (int, int) -> real, level: int -> int, scratch: SearchScratch)
      requires index.Valid() && scratch.Valid()
      requires forall row :: 0 <= level(row) <= MAX_LEVEL
      modifies `graphs, scratch
      ensures Valid() && scratch.Valid() && fresh(graphs)
      ensures ShardsValid(graphs, index.count)
      ensures forall s :: 0 <= s < SHARDS ==> Ordered(sim, graphs[s].nodes)
    {
      hide HoldsShare, Ordered, SearchScratch.Valid, Stored, VectorTable.Valid, CodecOk;
      AllStored(index);
      graphs := RebuildGraph(sim, level, index.count, RowSize(index.dim, index.encoding), |index.mmap|, scratch);
      SharesAreValid(graphs, index.count);
    }

    /** Inserts the rows that the index has gained, shard by shard. */
    method InsertRows(lo: nat, sim: (int, int) -> real, level: int -> int, scratch: SearchScratch)
      requires index.Valid() && lo <= index.count && HoldShares(graphs, lo) && scratch.Valid()
      requires forall row :: 0 <= level(row) <= MAX_LEVEL
      modifies graphs, scratch
      ensures Valid() && scratch.Valid()
      ensures ShardsValid(graphs, index.count)
      ensures forall s :: 0 <= s < SHARDS ==> KeepsOrder(sim, old(graphs[s].nodes), graphs[s].nodes)
    {
      hide HoldsShare, KeepsOrder, SearchScratch.Valid, VectorTable.Valid, CodecOk;
      var shard := 0;
      while shard < SHARDS
        invariant 0 <= shard <= SHARDS && scratch.Valid()
        invariant forall s :: 0 <= s < shard ==> HoldsShare(graphs[s], index.count, s)
        invariant forall s :: 0 <= s < shard ==> KeepsOrder(sim, old(graphs[s].nodes), graphs[s].nodes)
        invariant forall s :: shard <= s < SHARDS ==> HoldsShare(graphs[s], lo, s) && graphs[s].nodes == old(graphs[s].nodes)
      {
        FillShard(graphs[shard], shard, sim, level, lo, index.count, scratch);
        shard := shard + 1;
      }
      SharesAreValid(graphs, index.count);
    }

    /** Adds one vector; a new row goes into the graph of its shard. */
    method Add(id: string, vec: Vector, sim: (int, int) -> real, level: int -> int, scratch: SearchScratch) returns (ok: bool)
      requires Valid() && scratch.Valid()
      requires forall row :: 0 <= level(row) <= MAX_LEVEL
      modifies index, graphs, scratch
      ensures Valid() && scratch.Valid() && ShardsValid(graphs, index.count)
      ensures ok <==> ValidVector(id, vec) && |vec| == old(index.dim)
      ensures index.Contents() == if ok then Put(index.codec, old(index.Contents()), id, vec) else old(index.Contents())
      ensures forall s :: 0 <= s < SHARDS ==> KeepsOrder(sim, old(graphs[s].nodes), graphs[s].nodes)
    {
      hide HoldsShare, KeepsOrder, SearchScratch.Valid, VectorTable.Valid, CodecOk, VectorTable.TableOf, Put;
      var before := index.count;
      ok := index.Add(id, vec);
      InsertRows(before, sim, level, scratch);
    }

    /** Adds a batch; its new rows go into the graphs of their shards. */
    method AddBatch(dim: int, ids: seq<string>, vecs: seq<Vector>, sim: (int, int) -> real, level: int -> int, scratch: SearchScratch)
      returns (ok: bool)
      requires Valid() && scratch.Valid()
      requires forall row :: 0 <= level(row) <= MAX_LEVEL
      modifies index, graphs, scratch
      ensures Valid() && scratch.Valid() && ShardsValid(graphs, index.count)
      ensures ok <==> ValidBatch(dim, ids, vecs) && dim == old(index.dim)
      ensures index.Contents() == if ok then PutAll(index.codec, old(index.Contents()), ids, vecs) else old(index.Contents())
      ensures forall s :: 0 <= s < SHARDS ==> KeepsOrder(sim, old(graphs[s].nodes), graphs[s].nodes)
    {
      hide HoldsShare, KeepsOrder, SearchScratch.Valid, VectorTable.Valid, CodecOk, VectorTable.TableOf, PutAll;
      var before := index.count;
      ok := index.AddBatch(dim, ids, vecs);
      InsertRows(before, sim, level, scratch);
    }

    /** Deletes one vector; its row stays in the graphs for navigation. */
    method Del(id: string) returns (deleted: bool)
      requires Valid()
      modifies index
      ensures Valid() && ShardsValid(graphs, index.count)
      ensures deleted <==> id in old(index.Contents()).rows
      ensures index.Contents() == old(index.Contents()).(rows := old(index.Contents()).rows - {id})
    {
      hide HoldsShare, VectorTable.Valid, CodecOk, VectorTable.TableOf;
      deleted := index.Del(id);
      SharesAreValid(graphs, index.count);
    }

    /** Drops the dead rows and rebuilds the graphs if there were any. */
    method Compact(sim: (int, int) -> real, level: int -> int, scratch: SearchScratch) returns (removed: nat)
      requires Valid() && scratch.Valid()
      requires forall row :: 0 <= level(row) <= MAX_LEVEL
      modifies this, index, scratch
      ensures Valid() && scratch.Valid() && ShardsValid(graphs, index.count)
      ensures index.Contents() == old(index.Contents()) && VectorTable.AllFalse(index.tombstones)
      ensures index.count == old(index.count) - removed
      ensures removed > 0 ==> forall s :: 0 <= s < SHARDS ==> Ordered(sim, graphs[s].nodes)
      ensures removed == 0 ==> graphs == old(graphs)
      ensures removed > 0 ==> fresh(graphs)
    {
      hide HoldsShare, Ordered, SearchScratch.Valid, VectorTable.Valid, CodecOk, VectorTable.TableOf, VectorTable.AllFalse;
      removed := index.Compact();
      if removed == 0 {
        SharesAreValid(graphs, index.count);
      } else {
        Rebuild(sim, level, scratch);
      }
    }

    /** The ids of the picked rows. */
    method Name(rows: seq<Scored>) returns (hits: seq<Hit>)
      requires forall x :: x in rows ==> 0 <= x.id < |index.idList|
      ensures Names(index.idList, rows, hits)
    {
      hits := [];
      for i := 0 to |rows|
        invariant |hits| == i
        invariant forall j :: 0 <= j < i ==> 0 <= rows[j].id < |index.idList| && hits[j] == Hit(index.idList[rows[j].id], rows[j].score)
      {
        assert rows[i] in rows;
        hits := hits + [Hit(index.idList[rows[i].id], rows[i].score)];
      }
    }

    /** Asks every shard for its best accepted rows. */
    method AskShards(score: int -> real, retrieve: int, accept: int -> bool, ef: int, scratch: SearchScratch)
      returns (parts: seq<seq<Scored>>, ghost pools: seq<set<int>>)
      requires Valid() && scratch.Valid() && retrieve > 0
      modifies scratch
      ensures scratch.Valid() && |parts| == SHARDS
      ensures PartsOk(score, accept, pools, parts, retrieve)
      ensures forall s :: 0 <= s < SHARDS ==> ShardPool(graphs[s], ef, retrieve, pools[s])
    {
      hide TopK, ShardPool, SearchScratch.Valid, HoldsShare, VectorTable.Valid, CodecOk;
      parts, pools := [], [];
      while |parts| < SHARDS
        invariant scratch.Valid() && |parts| == |pools| <= SHARDS
        invariant forall s :: 0 <= s < |parts| ==> TopK(score, accept, pools[s], retrieve, parts[s])
        invariant forall s :: 0 <= s < |parts| ==> ShardPool(graphs[s], ef, retrieve, pools[s])
      {
        var part;
        ghost var pool;
        part, pool := AskShard(graphs[|parts|], |parts|, index.count, score, retrieve, accept, ef, scratch);
        parts, pools := parts + [part], pools + [pool];
      }
    }

    /** Asks the shards, scores what they found anew and picks the best `k`. */
    method FindRows(score: int -> real, exact: int -> real, retrieve: int, k: int, min: Option<real>, accept: int -> bool,
                    ef: int, scratch: SearchScratch)
      returns (rows: seq<Scored>, ghost parts: seq<seq<Scored>>, ghost pools: seq<set<int>>)
      requires Valid() && scratch.Valid() && retrieve > 0 && k > 0
      modifies scratch
      ensures scratch.Valid()
      ensures PartsOk(score, accept, pools, parts, retrieve)
      ensures |pools| == SHARDS && forall s :: 0 <= s < SHARDS ==> ShardPool(graphs[s], ef, retrieve, pools[s])
      ensures TopK(exact, GoodFor(exact, min), Ids(Concat(parts)), k, rows)
      ensures Fits(accept, pools, retrieve) || (retrieve >= k && forall id :: score(id) == exact(id)) ==>
                TopK(exact, Wanted(exact, accept, min), UnionOf(pools), k, rows)
      ensures forall x :: x in rows ==> accept(x.id)
    {
      hide TopK, ShardPool, SearchScratch.Valid, HoldsShare, VectorTable.Valid, CodecOk, Ids, WellScored, Descending, GoodFor, PartsOk, Fits, Wanted;
      var found;
      found, pools := AskShards(score, retrieve, accept, ef, scratch);
      parts := found;
      PartsAndPools(score, accept, pools, parts, retrieve);
      var list := Rescore(exact, Concat(found));
      rows := PickBest(exact, min, list, k);
      forall x | x in rows
        ensures accept(x.id)
      {
        RowAccepted(score, accept, pools, parts, retrieve, exact, min, k, rows, x);
      }
      if Fits(accept, pools, retrieve) {
        RescoredTopK(score, exact, accept, min, pools, parts, retrieve, k, rows);
      } else if retrieve >= k && forall id :: score(id) == exact(id) {
        SameScores(score, exact, accept, pools, parts, retrieve);
        MergedTopK(exact, accept, min, pools, parts, retrieve, k, rows);
      }
    }

    /**
     * A search.  Every shard is asked for its best accepted rows by the fast
     * score; those are scored anew, and the best `k` with at least the minimum
     * score are returned, best first.  They are the best `k` of all rows that the
     * shards considered if no shard has more accepted rows than it is asked for,
     * or if both scores are the same and each shard is asked for at least `k`.
     */
    method Search(queryDim: int, score: int -> real, exact: int -> real, k: int, min: Option<real>, exclude: string,
                  filter: string -> bool, ef: int, scratch: SearchScratch)
      returns (ok: bool, hits: seq<Hit>, ghost rows: seq<Scored>, ghost parts: seq<seq<Scored>>, ghost pools: seq<set<int>>)
      requires Valid() && scratch.Valid()
      modifies scratch
      ensures scratch.Valid()
      ensures ok <==> index.count == 0 || queryDim == index.dim
      ensures !ok || index.count == 0 || k <= 0 ==> hits == []
      ensures forall h :: h in hits ==> h.id in index.Contents().rows && filter(h.id) && (exclude == "" || h.id != exclude)
      ensures ok && index.count > 0 && k > 0 ==>
                var accept := Accepting(index.idList, index.tombstones, exclude, filter);
                var retrieve := Retrieve(k, min.Some? || exclude != "");
                && PartsOk(score, accept, pools, parts, retrieve)
                && |pools| == SHARDS && (forall s :: 0 <= s < SHARDS ==> ShardPool(graphs[s], ef, retrieve, pools[s]))
                && Disjoint(pools)
                && TopK(exact, GoodFor(exact, min), Ids(Concat(parts)), k, rows)
                && (Fits(accept, pools, retrieve) || (retrieve >= k && forall id :: score(id) == exact(id)) ==>
                      TopK(exact, Wanted(exact, accept, min), UnionOf(pools), k, rows))
                && (Fits(accept, pools, retrieve) && |hits| < k ==>
                      forall id :: id in UnionOf(pools) && accept(id) && (min.None? || exact(id) >= min.value) ==> id in Ids(rows))
                && (forall x :: x in rows ==> accept(x.id))
                && |hits| == |rows|
                && (forall i :: 0 <= i < |hits| ==> 0 <= rows[i].id < |index.idList| && hits[i] == Hit(index.idList[rows[i].id], exact(rows[i].id)))
      ensures forall h :: h in hits && min.Some? ==> h.score >= min.value
    {
      hide TopK, ShardPool, SearchScratch.Valid, HoldsShare, VectorTable.Valid, CodecOk, Ids, GoodFor, PartsOk, Accepting, Concat, Names, Fits, Wanted, Disjoint;
      ok, hits, rows, parts, pools := true, [], [], [], [];
      if index.count == 0 {
        return;
      }
      if queryDim != index.dim {
        ok := false;
        return;
      }
      if k <= 0 {
        return;
      }
      var accept := Accepting(index.idList, index.tombstones, exclude, filter);
      var retrieve := Retrieve(k, min.Some? || exclude != "");
      var found;
      found, parts, pools := FindRows(score, exact, retrieve, k, min, accept, ef, scratch);
      rows := found;
      PoolsDisjoint(graphs, index.count, ef, retrieve, pools);
      AcceptedInRange(index.idList, index.tombstones, exclude, filter, found);
      hits := Name(found);
      HitsAreLive(index, exclude, filter, found, hits);
      HitsAreScored(index.idList, exact, min, Ids(Concat(parts)), k, found, hits);
      if Fits(accept, pools, retrieve) {
        NothingMissing(exact, accept, min, UnionOf(pools), k, found);
      }
    }

    /** Carries out a command other than those of a migration. */
    method Apply(op: Op, sim: (int, int) -> real, level: int -> int, scratch: SearchScratch)
      requires Valid() && scratch.Valid() && IsPlain(op)
      requires forall row :: 0 <= level(row) <= MAX_LEVEL
      modifies this, index, graphs, scratch
      ensures Valid() && scratch.Valid()
      ensures forall i :: 0 <= i < |graphs| ==> graphs[i] in old(graphs) || fresh(graphs[i])
      ensures Present(index.Contents(), None) == Step(index.codec, Present(old(index.Contents()), None), op)
    {
      hide HoldsShare, KeepsOrder, Ordered, SearchScratch.Valid, VectorTable.Valid, CodecOk, VectorTable.TableOf, Put, PutAll, ShardsValid, VectorTable.AllFalse;
      SameShape(index);
      match op
      case Add(id, vec) =>
        AddStep(index.codec, Present(index.Contents(), None), id, vec);
        var _ := Add(id, vec, sim, level, scratch);
      case AddBatch(dim, ids, vecs) => var _ := AddBatch(dim, ids, vecs, sim, level, scratch);
      case Del(id) => var _ := Del(id);
      case Compact => var _ := Compact(sim, level, scratch);
    }

    /** Carries out commands one after the other; `sims` are the similarities at each of them. */
    method Replay(log: seq<Op>, sims: nat -> (int, int) -> real, level: int -> int, scratch: SearchScratch)
      requires Valid() && scratch.Valid() && forall op :: op in log ==> IsPlain(op)
      requires forall row :: 0 <= level(row) <= MAX_LEVEL
      modifies this, index, graphs, scratch
      ensures Valid() && scratch.Valid()
      ensures Present(index.Contents(), None) == Run(index.codec, Present(old(index.Contents()), None), log)
    {
      hide HoldsShare, SearchScratch.Valid, VectorTable.Valid, CodecOk, VectorTable.TableOf, Step;
      assert log[..0] == [];
      for i := 0 to |log|
        invariant Valid() && scratch.Valid()
        invariant forall g :: 0 <= g < |graphs| ==> graphs[g] in old(graphs) || fresh(graphs[g])
        invariant Present(index.Contents(), None) == Run(index.codec, Present(old(index.Contents()), None), log[..i])
      {
        RunSnoc(index.codec, Present(old(index.Contents()), None), log, i);
        Apply(log[i], sims(i), level, scratch);
      }
      assert log[..|log|] == log;
    }

    /**
     * A search after any commands returns an id only if the last command taken
     * that names it adds it, or if none names it and it was there before: from
     * its delete until it is added again, no search returns it.
     */
    method SearchAfter(log: seq<Op>, sims: nat -> (int, int) -> real, level: int -> int, queryDim: int, score: int -> real,
                       exact: int -> real, k: int, min: Option<real>, exclude: string, filter: string -> bool, ef: int, scratch: SearchScratch)
      returns (hits: seq<Hit>)
      requires Valid() && scratch.Valid() && forall op :: op in log ==> IsPlain(op)
      requires forall row :: 0 <= level(row) <= MAX_LEVEL
      modifies this, index, graphs, scratch
      ensures forall h :: h in hits ==>
                match LastRecord.LiveSource(index.codec, Present(old(index.Contents()), None), log, h.id)
                case Initial => h.id in old(index.Contents()).rows
                case Nowhere => false
                case Record(i) => !log[i].Del?
    {
      hide HoldsShare, SearchScratch.Valid, VectorTable.Valid, CodecOk, VectorTable.TableOf, Run, LastRecord.LiveSource, ShardPool, TopK, PartsOk;
      ghost var s := Present(index.Contents(), None);
      Replay(log, sims, level, scratch);
      var ok, found, rows, parts, pools := Search(queryDim, score, exact, k, min, exclude, filter, ef, scratch);
      hits := found;
      forall h | h in hits
        ensures match LastRecord.LiveSource(index.codec, s, log, h.id)
                case Initial => h.id in s.live.rows
                case Nowhere => false
                case Record(i) => !log[i].Del?
      {
        LiveHasSource(index.codec, s, log, h.id);
      }
    }
  }

  predicate IsPlain(op: Op)
  {
    op.Add? || op.AddBatch? || op.Del? || op.Compact?
  }

  lemma LiveHasSource(codec: Codec, s: Store, log: seq<Op>, id: string)
    requires s.Present? && s.shadow.None? && Lookup(Run(codec, s, log), id).Some?
    ensures match LastRecord.LiveSource(codec, s, log, id)
            case Initial => id in s.live.rows
            case Nowhere => false
            case Record(i) => !log[i].Del?
  {
    hide Run, LastRecord.LiveSource;
    LastRecord.RowOfLastRecord(codec, s, log, id);
  }

  /** A row is accepted exactly when its id is live and neither filtered out nor excluded. */
  lemma AcceptedIff(index: VectorIndex, exclude: string, filter: string -> bool, row: int)
    requires index.Valid()
    ensures Accepting(index.idList, index.tombstones, exclude, filter)(row) <==>
              && 0 <= row < index.count && index.idList[row] in index.Contents().rows
              && (exclude == "" || index.idList[row] != exclude) && filter(index.idList[row])
  {
  }

  lemma HitsAreScored(idList: seq<string>, exact: int -> real, min: Option<real>, pool: set<int>, k: int, rows: seq<Scored>, hits: seq<Hit>)
    requires TopK(exact, GoodFor(exact, min), pool, k, rows) && Names(idList, rows, hits)
    ensures |hits| == |rows|
    ensures forall i :: 0 <= i < |hits| ==> 0 <= rows[i].id < |idList| && hits[i] == Hit(idList[rows[i].id], exact(rows[i].id))
    ensures forall h :: h in hits && min.Some? ==> h.score >= min.value
  {
    forall i | 0 <= i < |hits|
      ensures hits[i].score == exact(rows[i].id) && (min.Some? ==> hits[i].score >= min.value)
    {
      assert rows[i] in rows;
      assert rows[i].id in Ids(rows);
    }
  }

  /** An answer of fewer than `k` rows has all rows that are wanted. */
  lemma NothingMissing(exact: int -> real, accept: int -> bool, min: Option<real>, pool: set<int>, k: int, rows: seq<Scored>)
    requires TopK(exact, Wanted(exact, accept, min), pool, k, rows)
    ensures |rows| < k ==> forall id :: id in pool && accept(id) && (min.None? || exact(id) >= min.value) ==> id in Ids(rows)
  {
  }

  lemma HitsAreLive(index: VectorIndex, exclude: string, filter: string -> bool, rows: seq<Scored>, hits: seq<Hit>)
    requires index.Valid() && Names(index.idList, rows, hits)
    requires forall x :: x in rows ==> Accepting(index.idList, index.tombstones, exclude, filter)(x.id)
    ensures forall h :: h in hits ==> h.id in index.Contents().rows && filter(h.id) && (exclude == "" || h.id != exclude)
  {
    hide VectorTable.Valid, CodecOk, VectorTable.TableOf, Accepting;
    forall h | h in hits
      ensures h.id in index.Contents().rows && filter(h.id) && (exclude == "" || h.id != exclude)
    {
      var i :| 0 <= i < |hits| && hits[i] == h;
      assert rows[i] in rows;
      AcceptedIff(index, exclude, filter, rows[i].id);
    }
  }

  /** Row number `row` is in graph `row` modulo 8, and in no other. */
  lemma RowsSpreadOut(sharded: ShardedIndex)
    requires sharded.Valid()
    ensures |sharded.graphs| == 8
    ensures forall s, row :: 0 <= s < 8 ==> (row in sharded.graphs[s].nodes <==> 0 <= row < sharded.index.count && row % 8 == s)
  {
    hide VectorTable.Valid, CodecOk, NodesOk;
    forall s, row | 0 <= s < 8
      ensures row in sharded.graphs[s].nodes <==> 0 <= row < sharded.index.count && row % 8 == s
    {
      assert HoldsShare(sharded.graphs[s], sharded.index.count, s);
    }
  }

  lemma SameScores(score: int -> real, exact: int -> real, accept: int -> bool, pools: seq<set<int>>, parts: seq<seq<Scored>>, retrieve: int)
    requires PartsOk(score, accept, pools, parts, retrieve) && forall id :: score(id) == exact(id)
    ensures PartsOk(exact, accept, pools, parts, retrieve)
  {
    hide Ids;
    forall s | 0 <= s < |parts|
      ensures TopK(exact, accept, pools[s], retrieve, parts[s])
    {
      assert TopK(score, accept, pools[s], retrieve, parts[s]);
    }
  }

  /** Shards consider rows of their own only. */
  lemma PoolsDisjoint(graphs: seq<Graph>, count: nat, ef: int, k: int, pools: seq<set<int>>)
    requires HoldShares(graphs, count) && |pools| == SHARDS
    requires forall s :: 0 <= s < SHARDS ==> ShardPool(graphs[s], ef, k, pools[s])
    ensures Disjoint(pools)
  {
    hide PoolFrom, NodesOk, EntryOnTop, ReachSet;
    forall s, t | 0 <= s < t < |pools|
      ensures pools[s] !! pools[t]
    {
      assert ShardPool(graphs[s], ef, k, pools[s]) && ShardPool(graphs[t], ef, k, pools[t]);
      OwnRows(graphs[s], count, s, ef, k, pools[s]);
      OwnRows(graphs[t], count, t, ef, k, pools[t]);
    }
  }

  lemma OwnRows(graph: Graph, count: nat, shard: nat, ef: int, k: int, pool: set<int>)
    requires HoldsShare(graph, count, shard) && ShardPool(graph, ef, k, pool)
    ensures forall id :: id in pool ==> id % SHARDS == shard
  {
  }

  lemma AcceptedInRange(idList: seq<string>, tombstones: seq<bool>, exclude: string, filter: string -> bool, rows: seq<Scored>)
    requires forall x :: x in rows ==> Accepting(idList, tombstones, exclude, filter)(x.id)
    ensures forall x :: x in rows ==> 0 <= x.id < |idList|
  {
  }

  /** Each hit is the id of its row with the row's score. */
  predicate Names(idList: seq<string>, rows: seq<Scored>, hits: seq<Hit>)
  {
    && |hits| == |rows|
    && forall i :: 0 <= i < |rows| ==> 0 <= rows[i].id < |idList| && hits[i] == Hit(idList[rows[i].id], rows[i].score)
  }

  method AskShard(graph: Graph, shard: nat, ghost count: nat, score: int -> real, retrieve: int, accept: int -> bool, ef: int, scratch: SearchScratch)
    returns (part: seq<Scored>, ghost pool: set<int>)
    requires HoldsShare(graph, count, shard) && scratch.Valid() && retrieve > 0
    modifies scratch
    ensures scratch.Valid()
    ensures TopK(score, accept, pool, retrieve, part) && ShardPool(graph, ef, retrieve, pool)
  {
    hide TopK, NodesOk, ReachSet, BestOf, SearchScratch.Valid, SearchScratch.Marked;
    ghost var entry;
    part, entry, pool := graph.Search(score, retrieve, accept, ef, scratch);
    if graph.size == 0 {
      pool := {};
      NothingFound(score, accept, retrieve);
    } else {
      assert PoolFrom(graph.nodes, entry, SearchBreadth(ef, graph.efSearch, retrieve), pool);
    }
  }

  lemma NothingFound(score: int -> real, accept: int -> bool, k: int)
    requires k > 0
    ensures TopK(score, accept, {}, k, [])
  {
  }

  lemma RowAccepted(score: int -> real, accept: int -> bool, pools: seq<set<int>>, parts: seq<seq<Scored>>, retrieve: int,
                    exact: int -> real, min: Option<real>, k: int, rows: seq<Scored>, x: Scored)
    requires PartsOk(score, accept, pools, parts, retrieve)
    requires TopK(exact, GoodFor(exact, min), Ids(Concat(parts)), k, rows) && x in rows
    ensures accept(x.id)
  {
    hide Concat;
    assert x.id in Ids(rows);
    var s := InSomePart(parts, x.id);
    assert TopK(score, accept, pools[s], retrieve, parts[s]);
  }
}
