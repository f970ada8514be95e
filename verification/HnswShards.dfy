/**
 * The rows of an index are spread over eight graphs by row number
 * (internal/engine/vector.go); after a crash or a compaction the graphs are
 * rebuilt from the stored rows.
 */
module HnswShards {
  import opened LayerSearch
  import opened HnswGraph

  const SHARDS: nat := 8

  function ShardExpectedSize(count: nat, shard: nat): nat
  {
    if count <= shard then 0 else (count - shard + SHARDS - 1) / SHARDS
  }

  ghost function TotalExpected(count: nat, shards: nat): nat
  {
    if shards == 0 then 0 else TotalExpected(count, shards - 1) + ShardExpectedSize(count, shards - 1)
  }

  /** The expected sizes of the eight shards add up to the number of rows. */
  lemma ExpectedSizesAddUp(count: nat)
    ensures TotalExpected(count, SHARDS) == count
  {
    TotalSoFar(count, SHARDS);
  }

  /** Every shard holds a full share; the first ones hold one row more. */
  lemma ShareOfShard(count: nat, shard: nat)
    requires shard < SHARDS
    ensures ShardExpectedSize(count, shard) == count / SHARDS + (if shard < count % SHARDS then 1 else 0)
  {
  }

  lemma {:induction false} TotalSoFar(count: nat, shards: nat)
    requires shards <= SHARDS
    ensures TotalExpected(count, shards)
         == shards * (count / SHARDS) + (if shards < count % SHARDS then shards else count % SHARDS)
  {
    if shards > 0 {
      TotalSoFar(count, shards - 1);
      ShareOfShard(count, shards - 1);
      var q := count / SHARDS;
      assert shards * q == (shards - 1) * q + q;
    }
  }

  ghost function TotalSize(graphs: seq<Graph>): nat
    reads graphs
  {
    if graphs == [] then 0 else TotalSize(graphs[..|graphs| - 1]) + graphs[|graphs| - 1].size
  }

  /** The check loaded shards must pass before they are used. */
  ghost predicate ShardsValid(graphs: seq<Graph>, count: nat)
    reads graphs
  {
    && |graphs| == SHARDS
    && (forall s :: 0 <= s < |graphs| ==> graphs[s].Validate(ShardExpectedSize(count, s)))
    && TotalSize(graphs) == count
  }

  lemma {:induction false} SizesAddUp(graphs: seq<Graph>, count: nat)
    requires forall s :: 0 <= s < |graphs| ==> graphs[s].size == ShardExpectedSize(count, s)
    ensures TotalSize(graphs) == TotalExpected(count, |graphs|)
  {
    if graphs != [] {
      SizesAddUp(graphs[..|graphs| - 1], count);
    }
  }

  /** Rows that fit the mapped file. */
  function Stored(count: nat, rowSize: nat, mapped: nat): nat
    requires rowSize > 0
  {
    if count <= mapped / rowSize then count else mapped / rowSize
  }

  lemma RowsThatFit(rows: nat, rowSize: nat, mapped: nat)
    requires rowSize > 0
    ensures rows * rowSize <= mapped <==> rows <= mapped / rowSize
  {
    var q := mapped / rowSize;
    assert mapped == q * rowSize + mapped % rowSize;
    if rows <= q {
      MulMono(rows, q, rowSize);
    } else {
      MulMono(q + 1, rows, rowSize);
      MulMono(q, q, rowSize);
    }
  }

  /** The bounds test made before a row is reinserted. */
  predicate RowFits(row: nat, rowSize: nat, mapped: nat)
  {
    row * rowSize + rowSize <= mapped
  }

  lemma FitsIffStored(row: nat, count: nat, rowSize: nat, mapped: nat)
    requires rowSize > 0 && row < count
    ensures RowFits(row, rowSize, mapped) <==> row < Stored(count, rowSize, mapped)
  {
    RowsThatFit(row + 1, rowSize, mapped);
    MulMono(row, row, rowSize);
  }

  lemma StoredBelow(count: nat, rowSize: nat, mapped: nat)
    requires rowSize > 0
    ensures Stored(count, rowSize, mapped) <= count
  {
  }

  lemma MulMono(a: nat, b: nat, c: nat)
    requires a <= b
    ensures a * c <= b * c
    ensures (a + 1) * c == a * c + c
  {
  }

  // ---- One shard ----

  /** The rows below `count` that belong to a shard. */
  ghost function ShardRows(count: nat, shard: nat): set<int>
  {
    set row | 0 <= row < count && row % SHARDS == shard
  }

  /** The graph passes the check for its share of the first `count` rows and
      holds exactly these. */
  ghost predicate HoldsShare(graph: Graph, count: nat, shard: nat)
    reads graph
  {
    && graph.Validate(ShardExpectedSize(count, shard)) && graph.TopEntry()
    && graph.nodes.Keys == ShardRows(count, shard)
  }

  lemma NextRow(row: nat, shard: nat)
    requires shard < SHARDS
    ensures ShardExpectedSize(row + 1, shard) == ShardExpectedSize(row, shard) + (if row % SHARDS == shard then 1 else 0)
    ensures ShardRows(row + 1, shard) == ShardRows(row, shard) + (if row % SHARDS == shard then {row} else {})
  {
  }

  /** No row in this range belongs to the shard. */
  ghost predicate NoRow(lo: nat, hi: nat, shard: nat)
  {
    forall row {:trigger row % SHARDS} :: lo <= row < hi ==> row % SHARDS != shard
  }

  lemma NoRowBefore(shard: nat)
    requires shard < SHARDS
    ensures NoRow(0, shard, shard)
  {
  }

  lemma NoRowAfter(row: nat, shard: nat)
    requires row % SHARDS == shard
    ensures NoRow(row + 1, row + SHARDS, shard) && (row + SHARDS) % SHARDS == shard
  {
  }

  lemma NoRowPrefix(lo: nat, mid: nat, hi: nat, shard: nat)
    requires NoRow(lo, hi, shard) && mid <= hi
    ensures NoRow(lo, mid, shard)
  {
  }

  /** Rows of other shards change nothing. */
  lemma {:induction false} SameShare(lo: nat, hi: nat, shard: nat)
    requires shard < SHARDS && lo <= hi
    requires NoRow(lo, hi, shard)
    ensures ShardExpectedSize(hi, shard) == ShardExpectedSize(lo, shard)
    ensures ShardRows(hi, shard) == ShardRows(lo, shard)
    decreases hi
  {
    hide ShardExpectedSize, ShardRows;
    if lo < hi {
      SameShare(lo, hi - 1, shard);
      NextRow(hi - 1, shard);
      assert (hi - 1) % SHARDS != shard;
    }
  }

  lemma OtherRows(graph: Graph, lo: nat, hi: nat, shard: nat)
    requires shard < SHARDS && lo <= hi && HoldsShare(graph, lo, shard)
    requires NoRow(lo, hi, shard)
    ensures HoldsShare(graph, hi, shard)
  {
    SameShare(lo, hi, shard);
  }

  lemma NoRowsYet(graph: Graph, shard: nat)
    requires shard < SHARDS && graph.Validate(0) && graph.TopEntry() && graph.nodes == map[]
    ensures HoldsShare(graph, 0, shard)
  {
    assert ShardRows(0, shard) == {};
  }

  /** Inserts the next row if it belongs to the shard. */
  method AddRow(graph: Graph, shard: nat, sim: (int, int) -> real, row: nat, level: int, scratch: SearchScratch)
    requires HoldsShare(graph, row, shard) && shard < SHARDS && row % SHARDS == shard
    requires 0 <= level <= MAX_LEVEL
    requires scratch.Valid()
    modifies graph, scratch
    ensures scratch.Valid()
    ensures HoldsShare(graph, row + 1, shard)
    ensures KeepsOrder(sim, old(graph.nodes), graph.nodes)
  {
    hide Linking, KeepsOrder, EntryOnTop, NodesOk, SearchScratch.Valid, ShardExpectedSize, ShardRows;
    NextRow(row, shard);
    assert row !in graph.nodes by {
      RowNotYet(row, shard);
    }
    ghost var start := graph.Insert(sim, row, level, scratch);
    LinkingParts(sim, old(graph.nodes), graph.nodes, row, level, if old(graph.maxLayer) < level then old(graph.maxLayer) else level, -1);
  }

  lemma RowNotYet(row: nat, shard: nat)
    ensures row !in ShardRows(row, shard)
  {
  }

  /** Reinserts the rows of one shard. */
  method BuildShard(sim: (int, int) -> real, level: int -> int, count: nat, rowSize: nat, mapped: nat, shard: nat, scratch: SearchScratch)
    returns (graph: Graph)
    requires rowSize > 0 && shard < SHARDS
    requires forall row :: 0 <= level(row) <= MAX_LEVEL
    requires scratch.Valid()
    modifies scratch
    ensures scratch.Valid()
    ensures fresh(graph)
    ensures HoldsShare(graph, Stored(count, rowSize, mapped), shard) && Ordered(sim, graph.nodes)
  {
    hide HoldsShare, Ordered, RowFits, Stored, NoRow, SearchScratch.Valid;
    graph := new Graph();
    NoRowsYet(graph, shard);
    NothingOrdered(sim, graph.nodes);
    ghost var stored, done := Stored(count, rowSize, mapped), 0;
    StoredBelow(count, rowSize, mapped);
    var row := shard;
    NoRowBefore(shard);
    while row < count
      invariant scratch.Valid() && fresh(graph)
      invariant Ordered(sim, graph.nodes)
      invariant row % SHARDS == shard && 0 <= done <= stored && done <= row && NoRow(done, row, shard)
      invariant HoldsShare(graph, done, shard)
    {
      FitsIffStored(row, count, rowSize, mapped);
      if !RowFits(row, rowSize, mapped) {
        NoRowPrefix(done, stored, row, shard);
        OtherRows(graph, done, stored, shard);
        return;
      }
      OtherRows(graph, done, row, shard);
      AddRow(graph, shard, sim, row, level(row), scratch);
      NoRowAfter(row, shard);
      done := row + 1;
      row := row + SHARDS;
    }
    NoRowPrefix(done, stored, row, shard);
    OtherRows(graph, done, stored, shard);
  }

  lemma NothingOrdered(sim: (int, int) -> real, nodes: map<int, Node>)
    requires nodes == map[]
    ensures Ordered(sim, nodes)
  {
  }

  // ---- All shards ----

  /** Eight graphs, each with its share of the first `count` rows. */
  ghost predicate HoldShares(graphs: seq<Graph>, count: nat)
    reads graphs
  {
    && |graphs| == SHARDS
    && (forall s :: 0 <= s < SHARDS ==> HoldsShare(graphs[s], count, s))
    && (forall s, t :: 0 <= s < t < SHARDS ==> graphs[s] != graphs[t])
  }

  /** Such graphs pass the check on loaded shards. */
  lemma SharesAreValid(graphs: seq<Graph>, count: nat)
    requires HoldShares(graphs, count)
    ensures ShardsValid(graphs, count)
  {
    SizesAddUp(graphs, count);
    ExpectedSizesAddUp(count);
  }

  /** Rebuilds all graphs.  They hold as many rows as the file holds; that is
      all rows unless the file is too short. */
  method RebuildGraph(sim: (int, int) -> real, level: int -> int, count: nat, rowSize: nat, mapped: nat, scratch: SearchScratch)
    returns (graphs: seq<Graph>)
    requires rowSize > 0
    requires forall row :: 0 <= level(row) <= MAX_LEVEL
    requires scratch.Valid()
    modifies scratch
    ensures scratch.Valid() && fresh(graphs)
    ensures HoldShares(graphs, Stored(count, rowSize, mapped))
    ensures forall s :: 0 <= s < SHARDS ==> Ordered(sim, graphs[s].nodes)
    ensures ShardsValid(graphs, count) <==> count * rowSize <= mapped
  {
    hide Ordered, HoldsShare, ShardExpectedSize, SearchScratch.Valid, Stored;
    graphs := [];
    ghost var stored := Stored(count, rowSize, mapped);
    while |graphs| < SHARDS
      invariant scratch.Valid()
      invariant |graphs| <= SHARDS && fresh(graphs)
      invariant forall s :: 0 <= s < |graphs| ==> HoldsShare(graphs[s], stored, s)
      invariant forall s :: 0 <= s < |graphs| ==> Ordered(sim, graphs[s].nodes)
      invariant forall s, t :: 0 <= s < t < |graphs| ==> graphs[s] != graphs[t]
    {
      var graph := BuildShard(sim, level, count, rowSize, mapped, |graphs|, scratch);
      graphs := graphs + [graph];
    }
    ValidIffStored(graphs, count, rowSize, mapped);
  }

  lemma ValidIffStored(graphs: seq<Graph>, count: nat, rowSize: nat, mapped: nat)
    requires rowSize > 0 && HoldShares(graphs, Stored(count, rowSize, mapped))
    ensures ShardsValid(graphs, count) <==> count * rowSize <= mapped
  {
    hide HoldsShare;
    SharesAreValid(graphs, Stored(count, rowSize, mapped));
    RowsThatFit(count, rowSize, mapped);
  }
}
