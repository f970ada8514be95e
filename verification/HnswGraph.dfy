/**
 * The layered proximity graph of one shard (internal/engine/hnsw.go) and the
 * structural check that guards loaded graphs (internal/engine/hnsw_persist.go).
 * `sim` is an arbitrary similarity between rows.
 */
module HnswGraph {
  import opened LayerSearch

  const M: nat := 16
  const M0: nat := 32
  const EF_CONSTRUCT: nat := 200
  const DEFAULT_EF_SEARCH: nat := 80
  const MAX_LEVEL: nat := 64

  /** Out-degree a node is given when it is inserted. */
  function Limit(lc: int): nat
  {
    if lc == 0 then M0 else M
  }

  /** Length to which a list of reverse links is pruned. */
  function ReverseLimit(lc: int): nat
  {
    if lc == 0 then M0 * 2 else M
  }

  // ---- The structural check ----

  ghost predicate EdgeOk(nodes: map<int, Node>, id: int, lc: int, n: int)
  {
    n in nodes && nodes[n].layer >= lc && n != id
  }

  ghost predicate NodeOk(nodes: map<int, Node>, id: int)
    requires id in nodes
  {
    var node := nodes[id];
    && 0 <= node.layer <= MAX_LEVEL
    && (forall lc :: lc in node.edges ==>
          && 0 <= lc <= node.layer
          && |node.edges[lc]| <= 2 * Limit(lc))
    && (forall lc, n :: lc in node.edges && n in node.edges[lc] ==> EdgeOk(nodes, id, lc, n))
  }

  ghost predicate NodesOk(nodes: map<int, Node>)
  {
    forall id :: id in nodes ==> NodeOk(nodes, id)
  }

  /** The check a graph must pass before it is searched. */
  ghost predicate PassesCheck(nodes: map<int, Node>, entryPoint: int, size: nat, expectedSize: nat)
  {
    && size == expectedSize
    && |nodes| == expectedSize
    && (expectedSize == 0 ==> entryPoint == -1)
    && (expectedSize != 0 ==> entryPoint in nodes && NodesOk(nodes))
  }

  /** The entry point lives on the top layer. */
  ghost predicate EntryOnTop(nodes: map<int, Node>, entryPoint: int, maxLayer: int)
  {
    && maxLayer >= -1
    && (nodes == map[] ==> maxLayer == -1)
    && (nodes != map[] ==> entryPoint in nodes && nodes[entryPoint].layer == maxLayer)
    && (forall id :: id in nodes ==> 0 <= id && nodes[id].layer <= maxLayer)
  }

  // ---- Adjacency lists ----

  ghost predicate Distinct(edges: seq<int>)
  {
    forall i, j :: 0 <= i < j < |edges| ==> edges[i] != edges[j]
  }

  /** A list without repetitions, most similar to its owner first. */
  ghost predicate Closest(sim: (int, int) -> real, owner: int, edges: seq<int>)
  {
    forall i, j :: 0 <= i < j < |edges| ==> edges[i] != edges[j] && sim(owner, edges[i]) >= sim(owner, edges[j])
  }

  ghost predicate NoRepeats(nodes: map<int, Node>)
  {
    forall id, lc :: id in nodes && lc in nodes[id].edges ==> Distinct(nodes[id].edges[lc])
  }

  ghost predicate Ordered(sim: (int, int) -> real, nodes: map<int, Node>)
  {
    forall id, lc :: id in nodes && lc in nodes[id].edges ==> Closest(sim, id, nodes[id].edges[lc])
  }

  /** Lists that were duplicate-free stay so, and lists that were in order stay
      so.  They are out of order once a row they mention has been overwritten. */
  ghost predicate KeepsOrder(sim: (int, int) -> real, before: map<int, Node>, after: map<int, Node>)
  {
    (NoRepeats(before) ==> NoRepeats(after)) && (Ordered(sim, before) ==> Ordered(sim, after))
  }

  /** The first position whose neighbour is no more similar than `candidate`,
      if the list is in order. */
  method SearchPosition(sim: (int, int) -> real, owner: int, edges: seq<int>, candidate: int) returns (position: nat)
    ensures position <= |edges|
    ensures Closest(sim, owner, edges) ==> Splits(sim, owner, edges, candidate, position)
  {
    var lo, hi := 0, |edges|;
    while lo < hi
      invariant 0 <= lo <= hi <= |edges|
      invariant Closest(sim, owner, edges) ==> forall i :: 0 <= i < lo ==> sim(owner, edges[i]) > sim(owner, candidate)
      invariant Closest(sim, owner, edges) ==> forall i :: hi <= i < |edges| ==> sim(owner, edges[i]) <= sim(owner, candidate)
    {
      var mid := (lo + hi) / 2;
      if sim(owner, edges[mid]) <= sim(owner, candidate) {
        hi := mid;
      } else {
        lo := mid + 1;
      }
    }
    position := lo;
  }

  ghost predicate Splits(sim: (int, int) -> real, owner: int, edges: seq<int>, candidate: int, position: nat)
    requires position <= |edges|
  {
    && (forall i :: 0 <= i < position ==> sim(owner, edges[i]) > sim(owner, candidate))
    && (forall i :: position <= i < |edges| ==> sim(owner, edges[i]) <= sim(owner, candidate))
  }

  /** Either linked, or crowded out by strictly more similar neighbours. */
  ghost predicate LinkedOrCrowdedOut(sim: (int, int) -> real, owner: int, edges: seq<int>, candidate: int, limit: nat)
  {
    candidate in edges || (|edges| >= limit && forall x :: x in edges ==> sim(owner, x) > sim(owner, candidate))
  }

  /** What an insertion into an ordered list promises. */
  ghost predicate InsertsInOrder(sim: (int, int) -> real, owner: int, edges: seq<int>, candidate: int, limit: nat, r: seq<int>)
  {
    && Closest(sim, owner, r)
    && (candidate != owner ==> LinkedOrCrowdedOut(sim, owner, r, candidate, limit))
    && (forall x, y :: x in edges && x !in r && y in r ==> sim(owner, x) <= sim(owner, y))
  }

  /** Adds `candidate` to the list of `owner` and prunes the list to `limit`. */
  method InsertNeighbor(sim: (int, int) -> real, owner: int, edges: seq<int>, candidate: int, limit: nat) returns (r: seq<int>)
    ensures candidate == owner ==> r == edges
    ensures |r| <= |edges| || |r| <= limit
    ensures forall x :: x in r ==> x in edges || x == candidate
    ensures (exists x :: x in edges && x !in r) ==> |r| >= limit
    ensures Distinct(edges) ==> Distinct(r)
    ensures Closest(sim, owner, edges) ==> InsertsInOrder(sim, owner, edges, candidate, limit, r)
  {
    hide Closest, Distinct, Splits, LinkedOrCrowdedOut;
    if candidate == owner || candidate in edges {
      AlreadyLinked(sim, owner, edges, candidate, limit);
      return edges;
    }
    var position := SearchPosition(sim, owner, edges, candidate);
    if |edges| >= limit && position == |edges| {
      if Closest(sim, owner, edges) {
        CrowdedOut(sim, owner, edges, candidate, limit);
      }
      return edges;
    }
    var full := edges[..position] + [candidate] + edges[position..];
    r := if |full| > limit then full[..limit] else full;
    InsertedHolds(edges, candidate, position, full, r);
    if Closest(sim, owner, edges) {
      InsertedIsClosest(sim, owner, edges, candidate, position, full);
      CutKeepsClosest(sim, owner, full, r);
      CutKeepsBest(sim, owner, edges, candidate, position, full, limit, r);
    }
  }

  lemma AlreadyLinked(sim: (int, int) -> real, owner: int, edges: seq<int>, candidate: int, limit: nat)
    requires candidate == owner || candidate in edges
    ensures Closest(sim, owner, edges) ==> InsertsInOrder(sim, owner, edges, candidate, limit, edges)
  {
  }

  lemma CrowdedOut(sim: (int, int) -> real, owner: int, edges: seq<int>, candidate: int, limit: nat)
    requires Closest(sim, owner, edges) && |edges| >= limit && Splits(sim, owner, edges, candidate, |edges|)
    ensures InsertsInOrder(sim, owner, edges, candidate, limit, edges)
  {
  }

  lemma InsertedHolds(edges: seq<int>, candidate: int, position: nat, full: seq<int>, r: seq<int>)
    requires candidate !in edges && position <= |edges|
    requires full == edges[..position] + [candidate] + edges[position..] && r <= full
    ensures forall x :: x in full <==> x in edges || x == candidate
    ensures forall x :: x in r ==> x in edges || x == candidate
    ensures Distinct(edges) ==> Distinct(r)
  {
    forall x | x in edges
      ensures x in full
    {
      var i :| 0 <= i < |edges| && edges[i] == x;
      assert full[if i < position then i else i + 1] == x;
    }
    assert full[position] == candidate;
    assert forall k :: 0 <= k < |r| ==> r[k] == full[k];
    assert forall k :: 0 <= k < |full| ==> full[k] == if k < position then edges[k] else if k == position then candidate else edges[k - 1];
  }

  lemma InsertedIsClosest(sim: (int, int) -> real, owner: int, edges: seq<int>, candidate: int, position: nat, full: seq<int>)
    requires Closest(sim, owner, edges)
    requires candidate !in edges
    requires position <= |edges| && Splits(sim, owner, edges, candidate, position)
    requires full == edges[..position] + [candidate] + edges[position..]
    ensures Closest(sim, owner, full)
  {
    assert forall k :: 0 <= k < |full| ==> full[k] == if k < position then edges[k] else if k == position then candidate else edges[k - 1];
  }

  lemma CutKeepsClosest(sim: (int, int) -> real, owner: int, full: seq<int>, r: seq<int>)
    requires Closest(sim, owner, full)
    requires r <= full
    ensures Closest(sim, owner, r)
    ensures forall x, y :: x in full && x !in r && y in r ==> sim(owner, x) <= sim(owner, y)
  {
    forall x, y | x in full && x !in r && y in r
      ensures sim(owner, x) <= sim(owner, y)
    {
      var rest := full[|r|..];
      assert full == r + rest;
      var i :| 0 <= i < |rest| && rest[i] == x;
      var j :| 0 <= j < |r| && r[j] == y;
      assert full[j] == y && full[|r| + i] == x;
    }
  }

  lemma CutKeepsBest(sim: (int, int) -> real, owner: int, edges: seq<int>, candidate: int, position: nat, full: seq<int>, limit: nat, r: seq<int>)
    requires position <= |edges| && Splits(sim, owner, edges, candidate, position)
    requires full == edges[..position] + [candidate] + edges[position..]
    requires r == if |full| > limit then full[..limit] else full
    ensures LinkedOrCrowdedOut(sim, owner, r, candidate, limit)
  {
    if position < |r| {
      assert r[position] == candidate;
    } else {
      assert r == edges[..|r|];
    }
  }

  /** Rows behind position `i` of a sorted result score no better than those taken. */
  lemma LeftOverScoresLess(score: int -> real, queryRow: int, candidates: seq<Scored>, i: nat, result: seq<int>)
    requires i < |candidates|
    requires WellScored(score, candidates)
    requires forall x, j :: x in result && i <= j < |candidates| ==> score(x) >= candidates[j].score
    requires forall j :: 0 <= j < i && candidates[j].id != queryRow ==> candidates[j].id in result
    ensures forall x, y :: x in Ids(candidates) && x != queryRow && x !in result && y in result ==> score(x) <= score(y)
  {
    forall x, y | x in Ids(candidates) && x != queryRow && x !in result && y in result
      ensures score(x) <= score(y)
    {
      var j :| 0 <= j < |candidates| && candidates[j].id == x;
    }
  }

  /** Without repetitions, best score first. */
  ghost predicate Ranked(score: int -> real, rows: seq<int>)
  {
    forall i, j :: 0 <= i < j < |rows| ==> rows[i] != rows[j] && score(rows[i]) >= score(rows[j])
  }

  lemma RankedAppend(score: int -> real, rows: seq<int>, x: int)
    requires Ranked(score, rows)
    requires x !in rows && forall y :: y in rows ==> score(y) >= score(x)
    ensures Ranked(score, rows + [x])
  {
  }

  /** The first `limit` distinct rows of a search result, without the row itself. */
  method SelectClosest(score: int -> real, queryRow: int, candidates: seq<Scored>, limit: nat) returns (result: seq<int>)
    requires limit >= 1
    requires WellScored(score, candidates)
    requires forall i, j :: 0 <= i < j < |candidates| ==> candidates[i].score >= candidates[j].score
    ensures |result| <= limit
    ensures Ranked(score, result)
    ensures forall x :: x in result ==> x in Ids(candidates) && x != queryRow
    ensures forall x :: x in Ids(candidates) && x != queryRow && x !in result ==> |result| == limit
    ensures forall x, y :: x in Ids(candidates) && x != queryRow && x !in result && y in result ==> score(x) <= score(y)
    ensures |candidates| > 0 && candidates[0].id != queryRow ==> |result| > 0 && result[0] == candidates[0].id
  {
    hide Ids, Ranked;
    result := [];
    assert Ranked(score, result) by {
      RankedEmpty(score);
    }
    for i := 0 to |candidates|
      invariant |result| < limit
      invariant Ranked(score, result)
      invariant forall x :: x in result ==> x in Ids(candidates) && x != queryRow
      invariant forall x, j :: x in result && i <= j < |candidates| ==> score(x) >= candidates[j].score
      invariant forall j :: 0 <= j < i && candidates[j].id != queryRow ==> candidates[j].id in result
      invariant i > 0 && candidates[0].id != queryRow ==> |result| > 0 && result[0] == candidates[0].id
      invariant i == 0 ==> result == []
    {
      var candidate := candidates[i];
      if candidate.id != queryRow && candidate.id !in result {
        assert candidate in candidates;
        IdAt(candidates, i);
        RankedAppend(score, result, candidate.id);
        result := result + [candidate.id];
        if |result| == limit {
          LeftOverScoresLess(score, queryRow, candidates, i, result);
          return;
        }
      }
    }
    AllTaken(queryRow, candidates, result);
  }

  lemma RankedEmpty(score: int -> real)
    ensures Ranked(score, [])
  {
  }

  lemma IdAt(candidates: seq<Scored>, i: nat)
    requires i < |candidates|
    ensures candidates[i].id in Ids(candidates)
  {
    assert candidates[i] in candidates;
  }

  lemma AllTaken(queryRow: int, candidates: seq<Scored>, result: seq<int>)
    requires forall j :: 0 <= j < |candidates| && candidates[j].id != queryRow ==> candidates[j].id in result
    ensures forall x :: x in Ids(candidates) && x != queryRow ==> x in result
  {
  }

  // ---- Linking a new row on one layer ----

  /** No edge of layer `lc` leads to `row`. */
  ghost predicate Unlinked(nodes: map<int, Node>, lc: int, row: int)
  {
    forall id :: id in nodes ==> row !in Edges(nodes, lc, id)
  }

  /** Everything a search on layer `lc` can meet lives on that layer, and a row
      that no edge leads to is not met. */
  lemma ReachStaysOnLayer(nodes: map<int, Node>, lc: int, entries: set<int>, row: int)
    requires NodesOk(nodes) && Unlinked(nodes, lc, row)
    requires forall id :: id in entries ==> id in nodes && nodes[id].layer >= lc && id != row
    ensures forall id :: id in ReachSet(nodes, lc, entries) ==> id in nodes && nodes[id].layer >= lc && id != row
  {
    var onLayer := set id | id in nodes && nodes[id].layer >= lc && id != row;
    forall id | id in onLayer
      ensures Expanded(nodes, lc, onLayer, id)
    {
      forall n | n in Edges(nodes, lc, id) && n >= 0
        ensures n in onLayer
      {
        assert NodeOk(nodes, id);
        assert EdgeOk(nodes, id, lc, n);
      }
    }
    ClosedHoldsReachable(nodes, lc, entries, onLayer);
  }

  /** `after` differs from `before` in edges of layer `lc` only, and other
      nodes than `row` gained no neighbour but `row`. */
  ghost predicate OnlyLinks(before: map<int, Node>, after: map<int, Node>, row: int, lc: int)
  {
    && after.Keys == before.Keys
    && (forall id :: id in before ==> after[id].layer == before[id].layer)
    && (forall id, l :: id in before && l != lc ==> Edges(after, l, id) == Edges(before, l, id))
    && (forall id, x :: id in before && id != row && x in Edges(after, lc, id) ==> x in Edges(before, lc, id) || x == row)
  }

  ghost function WithEdges(nodes: map<int, Node>, id: int, lc: int, edges: seq<int>): map<int, Node>
    requires id in nodes
  {
    nodes[id := nodes[id].(edges := nodes[id].edges[lc := edges])]
  }

  /** Replacing one list by a good one keeps the graph good. */
  lemma WithEdgesOk(sim: (int, int) -> real, nodes: map<int, Node>, id: int, lc: int, edges: seq<int>)
    requires NodesOk(nodes)
    requires id in nodes && 0 <= lc <= nodes[id].layer
    requires |edges| <= 2 * Limit(lc)
    requires forall n :: n in edges ==> EdgeOk(nodes, id, lc, n)
    ensures NodesOk(WithEdges(nodes, id, lc, edges))
    ensures NoRepeats(nodes) && Distinct(edges) ==> NoRepeats(WithEdges(nodes, id, lc, edges))
    ensures Ordered(sim, nodes) && Closest(sim, id, edges) ==> Ordered(sim, WithEdges(nodes, id, lc, edges))
    ensures Edges(WithEdges(nodes, id, lc, edges), lc, id) == edges
    ensures forall other, l :: other != id || l != lc ==> Edges(WithEdges(nodes, id, lc, edges), l, other) == Edges(nodes, l, other)
  {
    hide Closest, Distinct;
    var after := WithEdges(nodes, id, lc, edges);
    forall other | other in after
      ensures NodeOk(after, other)
    {
      assert NodeOk(nodes, other);
      forall l, n | l in after[other].edges && n in after[other].edges[l]
        ensures EdgeOk(after, other, l, n)
      {
        if other != id || l != lc {
          assert EdgeOk(nodes, other, l, n);
        }
      }
    }
  }

  /** Every row that `row` links to links back, unless it is crowded out of a
      list of 64 rows on the base layer, or of 16 above it. */
  ghost predicate LinksBack(sim: (int, int) -> real, nodes: map<int, Node>, row: int, lc: int, edges: seq<int>)
  {
    forall n :: n in edges ==> LinkedOrCrowdedOut(sim, n, Edges(nodes, lc, n), row, if lc == 0 then 64 else 16)
  }

  /** A list lost rows only if it is full, and then its farthest ones if it was in order. */
  ghost predicate LosesFarthest(sim: (int, int) -> real, owner: int, was: seq<int>, now: seq<int>, limit: nat, ordered: bool)
  {
    forall x :: x in was && x !in now ==> |now| >= limit && (ordered ==> forall y :: y in now ==> sim(owner, x) <= sim(owner, y))
  }

  /** What linking `row` costs the other rows on a layer. */
  ghost predicate LosesLittle(sim: (int, int) -> real, before: map<int, Node>, after: map<int, Node>, row: int, lc: int)
  {
    forall id :: id in before && id != row ==>
      LosesFarthest(sim, id, Edges(before, lc, id), Edges(after, lc, id), if lc == 0 then 64 else 16, Ordered(sim, before))
  }

  lemma LosesNothing(sim: (int, int) -> real, owner: int, edges: seq<int>, limit: nat, ordered: bool)
    ensures LosesFarthest(sim, owner, edges, edges, limit, ordered)
  {
  }

  /** Gives `row` its neighbours on layer `lc` and adds `row` to theirs. */
  method Link(sim: (int, int) -> real, start: map<int, Node>, row: int, lc: int, edges: seq<int>) returns (nodes: map<int, Node>)
    requires NodesOk(start)
    requires row in start && 0 <= lc <= start[row].layer
    requires |edges| <= Limit(lc)
    requires forall n :: n in edges ==> EdgeOk(start, row, lc, n)
    requires Closest(sim, row, edges)
    ensures NodesOk(nodes) && KeepsOrder(sim, start, nodes)
    ensures OnlyLinks(start, nodes, row, lc)
    ensures Edges(nodes, lc, row) == edges
    ensures Ordered(sim, start) ==> LinksBack(sim, nodes, row, lc, edges)
    ensures LosesLittle(sim, start, nodes, row, lc)
  {
    hide NodesOk, Ordered, NoRepeats, Closest, LinkedOrCrowdedOut, Distinct, LosesFarthest;
    ClosestDistinct(sim, row, edges);
    nodes := start[row := start[row].(edges := start[row].edges[lc := edges])];
    WithEdgesOk(sim, start, row, lc, edges);
    for i := 0 to |edges|
      invariant NodesOk(nodes) && KeepsOrder(sim, start, nodes)
      invariant OnlyLinks(start, nodes, row, lc)
      invariant Edges(nodes, lc, row) == edges
      invariant Ordered(sim, start) ==> forall n :: n in edges[..i] ==> LinkedOrCrowdedOut(sim, n, Edges(nodes, lc, n), row, ReverseLimit(lc))
      invariant forall id :: id in start && id != row && id !in edges[..i] ==> Edges(nodes, lc, id) == Edges(start, lc, id)
      invariant forall id :: id in edges[..i] ==> LosesFarthest(sim, id, Edges(start, lc, id), Edges(nodes, lc, id), ReverseLimit(lc), Ordered(sim, start))
    {
      var n := edges[i];
      assert edges[..i + 1] == edges[..i] + [n];
      NotYet(edges, i);
      assert EdgeOk(start, row, lc, n);
      EdgesOk(sim, nodes, n, lc);
      var reverse := InsertNeighbor(sim, n, Edges(nodes, lc, n), row, ReverseLimit(lc));
      WithEdgesOk(sim, nodes, n, lc, reverse);
      InsertLoses(sim, n, Edges(start, lc, n), row, ReverseLimit(lc), reverse, Ordered(sim, start));
      nodes := nodes[n := nodes[n].(edges := nodes[n].edges[lc := reverse])];
    }
    assert edges[..|edges|] == edges;
    forall id | id in start && id != row
      ensures LosesFarthest(sim, id, Edges(start, lc, id), Edges(nodes, lc, id), ReverseLimit(lc), Ordered(sim, start))
    {
      if id !in edges {
        LosesNothing(sim, id, Edges(start, lc, id), ReverseLimit(lc), Ordered(sim, start));
      }
    }
  }

  lemma NotYet(edges: seq<int>, i: nat)
    requires i < |edges| && Distinct(edges)
    ensures edges[i] !in edges[..i]
  {
  }

  lemma InsertLoses(sim: (int, int) -> real, owner: int, edges: seq<int>, candidate: int, limit: nat, r: seq<int>, ordered: bool)
    requires (exists x :: x in edges && x !in r) ==> |r| >= limit
    requires ordered ==> InsertsInOrder(sim, owner, edges, candidate, limit, r)
    ensures LosesFarthest(sim, owner, edges, r, limit, ordered)
  {
  }

  lemma ClosestDistinct(sim: (int, int) -> real, owner: int, edges: seq<int>)
    requires Closest(sim, owner, edges)
    ensures Distinct(edges)
  {
  }

  lemma EdgesOk(sim: (int, int) -> real, nodes: map<int, Node>, id: int, lc: int)
    requires NodesOk(nodes)
    requires id in nodes
    ensures NoRepeats(nodes) ==> Distinct(Edges(nodes, lc, id))
    ensures Ordered(sim, nodes) ==> Closest(sim, id, Edges(nodes, lc, id))
    ensures |Edges(nodes, lc, id)| <= 2 * Limit(lc)
    ensures forall n :: n in Edges(nodes, lc, id) ==> EdgeOk(nodes, id, lc, n)
  {
    assert NodeOk(nodes, id);
  }

  // ---- Which rows are chosen ----

  /** Similarity to one row. */
  function Toward(sim: (int, int) -> real, row: int): int -> real
  {
    x => sim(row, x)
  }

  /** What a search of layer `lc` from `entry` keeps: the best `ef` of the rows it
      scored, all of them reachable, with the neighbours of those kept scored. */
  ghost predicate Keeps(nodes: map<int, Node>, score: int -> real, ef: nat, lc: int, entry: int, pool: set<int>)
  {
    exists scored :: {entry} <= scored <= ReachSet(nodes, lc, {entry}) && BestOf(nodes, score, ef, lc, scored, pool)
  }

  /** The rows of `pool` most similar to `row`, most similar first. */
  ghost predicate NearestOf(sim: (int, int) -> real, row: int, pool: set<int>, limit: nat, edges: seq<int>)
  {
    && |edges| <= limit && Ranked(Toward(sim, row), edges)
    && (forall x :: x in edges ==> x in pool)
    && (forall x :: x in pool && x !in edges ==> |edges| == limit)
    && (forall x, y :: x in pool && x !in edges && y in edges ==> sim(row, x) <= sim(row, y))
  }

  /** The neighbours of a new row on a layer: the 32 nearest of 200 kept on the
      base layer, the 16 nearest of 16 above it. */
  ghost predicate ChosenAt(sim: (int, int) -> real, before: map<int, Node>, row: int, lc: int, entry: int, edges: seq<int>)
  {
    exists pool :: ChosenFrom(sim, before, row, lc, entry, pool, edges)
  }

  ghost predicate ChosenFrom(sim: (int, int) -> real, before: map<int, Node>, row: int, lc: int, entry: int, pool: set<int>, edges: seq<int>)
  {
    && Keeps(before, Toward(sim, row), if lc == 0 then 200 else 16, lc, entry, pool)
    && NearestOf(sim, row, pool, if lc == 0 then 32 else 16, edges)
  }

  /** While no more rows can be reached than a search keeps, a new row is linked
      to the nearest of all of them. */
  lemma LinksToNearest(sim: (int, int) -> real, before: map<int, Node>, row: int, lc: int, entry: int, edges: seq<int>)
    requires ChosenAt(sim, before, row, lc, entry, edges)
    requires |ReachSet(before, lc, {entry})| <= if lc == 0 then 200 else 16
    ensures NearestOf(sim, row, ReachSet(before, lc, {entry}), if lc == 0 then 32 else 16, edges)
  {
    hide ReachSet, BestOf, NearestOf;
    var ef := if lc == 0 then 200 else 16;
    var pool :| ChosenFrom(sim, before, row, lc, entry, pool, edges);
    var scored :| {entry} <= scored <= ReachSet(before, lc, {entry}) && BestOf(before, Toward(sim, row), ef, lc, scored, pool);
    SearchIsExhaustive(before, Toward(sim, row), ef, lc, {entry}, scored, pool);
  }

  /** No neighbour on the layer is better. */
  ghost predicate LocalBest(nodes: map<int, Node>, score: int -> real, lc: int, id: int)
  {
    forall n :: n in Edges(nodes, lc, id) && n >= 0 ==> score(n) <= score(id)
  }

  /** On layer `lc` both graphs have the same edges. */
  ghost predicate SameLayer(a: map<int, Node>, b: map<int, Node>, lc: int)
  {
    forall id :: Edges(a, lc, id) == Edges(b, lc, id)
  }

  lemma SameReach(a: map<int, Node>, b: map<int, Node>, lc: int, entries: set<int>)
    requires SameLayer(a, b, lc)
    ensures ReachSet(a, lc, entries) <= ReachSet(b, lc, entries)
  {
    hide ReachSet;
    var s := ReachSet(b, lc, entries);
    forall id | id in entries && id >= 0
      ensures id in s
    {
      EntryReachable(b, lc, entries, id);
    }
    forall id | id in s
      ensures Expanded(a, lc, s, id)
    {
      forall n | n in Edges(a, lc, id) && n >= 0
        ensures n in s
      {
        NeighbourReachable(b, lc, entries, id, n);
      }
    }
    ClosedHoldsReachable(a, lc, entries, s);
  }

  lemma KeepsSame(a: map<int, Node>, b: map<int, Node>, score: int -> real, ef: nat, lc: int, entry: int, pool: set<int>)
    requires SameLayer(a, b, lc) && Keeps(a, score, ef, lc, entry, pool)
    ensures Keeps(b, score, ef, lc, entry, pool)
  {
    hide ReachSet;
    SameReach(a, b, lc, {entry});
    var scored :| {entry} <= scored <= ReachSet(a, lc, {entry}) && BestOf(a, score, ef, lc, scored, pool);
    forall x | x in pool
      ensures Expanded(b, lc, scored, x)
    {
      assert Expanded(a, lc, scored, x);
    }
    assert BestOf(b, score, ef, lc, scored, pool);
  }

  /** Layers down to `lc` are untouched; on those between, `row` has the rows
      chosen from its entry there: `start` on layer `top`, and below it the
      nearest row of the layer above. */
  ghost predicate Choosing(sim: (int, int) -> real, before: map<int, Node>, nodes: map<int, Node>, row: int, top: int, lc: int, start: int)
  {
    && (forall l {:trigger SameLayer(nodes, before, l)} :: l <= lc ==> SameLayer(nodes, before, l))
    && (forall l {:trigger LosesLittle(sim, before, nodes, row, l)} :: LosesLittle(sim, before, nodes, row, l))
    && (forall l {:trigger Edges(nodes, l, row)} :: lc < l <= top ==> ChosenOn(sim, before, nodes, row, top, l, start))
  }

  ghost predicate ChosenOn(sim: (int, int) -> real, before: map<int, Node>, nodes: map<int, Node>, row: int, top: int, l: int, start: int)
  {
    if l == top then ChosenAt(sim, before, row, l, start, Edges(nodes, l, row))
    else Edges(nodes, l + 1, row) != [] && ChosenAt(sim, before, row, l, Edges(nodes, l + 1, row)[0], Edges(nodes, l, row))
  }

  lemma ChoosingStart(sim: (int, int) -> real, before: map<int, Node>, row: int, level: int, attached: map<int, Node>, top: int, start: int)
    requires row !in before && attached == before[row := Node(level, map[])]
    ensures Choosing(sim, before, attached, row, top, top, start)
  {
    hide Ordered, LosesFarthest;
    forall l
      ensures SameLayer(attached, before, l)
    {
    }
    forall l
      ensures LosesLittle(sim, before, attached, row, l)
    {
      AllLose(sim, before, attached, row, l);
    }
  }

  lemma AllLose(sim: (int, int) -> real, before: map<int, Node>, nodes: map<int, Node>, row: int, l: int)
    requires forall id :: id in before && id != row ==> Edges(nodes, l, id) == Edges(before, l, id)
    ensures LosesLittle(sim, before, nodes, row, l)
  {
    hide Ordered, LosesFarthest;
    forall id | id in before && id != row
      ensures LosesFarthest(sim, id, Edges(before, l, id), Edges(nodes, l, id), if l == 0 then 64 else 16, Ordered(sim, before))
    {
      LosesNothing(sim, id, Edges(before, l, id), if l == 0 then 64 else 16, Ordered(sim, before));
    }
  }

  lemma ChoosingStep(sim: (int, int) -> real, before: map<int, Node>, nodes: map<int, Node>, row: int, top: int, lc: int, start: int, entry: int,
                     pool: set<int>, edges: seq<int>, linked: map<int, Node>)
    requires row !in before && 0 <= lc <= top && nodes.Keys == before.Keys + {row}
    requires Choosing(sim, before, nodes, row, top, lc, start)
    requires OnlyLinks(nodes, linked, row, lc) && Edges(linked, lc, row) == edges && LosesLittle(sim, nodes, linked, row, lc)
    requires Ordered(sim, before) ==> Ordered(sim, nodes)
    requires Keeps(nodes, Toward(sim, row), if lc == 0 then 200 else 16, lc, entry, pool)
    requires NearestOf(sim, row, pool, if lc == 0 then 32 else 16, edges)
    requires if lc == top then entry == start else Edges(nodes, lc + 1, row) != [] && entry == Edges(nodes, lc + 1, row)[0]
    ensures Choosing(sim, before, linked, row, top, lc - 1, start)
  {
    hide Ordered, Keeps, NearestOf;
    assert SameLayer(nodes, before, lc);
    KeepsSame(nodes, before, Toward(sim, row), if lc == 0 then 200 else 16, lc, entry, pool);
    assert ChosenFrom(sim, before, row, lc, entry, pool, edges);
    forall l | l < lc
      ensures SameLayer(linked, before, l)
    {
      assert SameLayer(nodes, before, l);
      OtherLayer(nodes, linked, row, lc, l);
    }
    forall l | lc - 1 < l <= top
      ensures ChosenOn(sim, before, linked, row, top, l, start)
    {
      assert l > lc ==> Edges(linked, l, row) == Edges(nodes, l, row) && ChosenOn(sim, before, nodes, row, top, l, start);
      assert l < top ==> Edges(linked, l + 1, row) == Edges(nodes, l + 1, row);
    }
    forall l
      ensures LosesLittle(sim, before, linked, row, l)
    {
      LosesOn(sim, before, nodes, linked, row, lc, l);
    }
  }

  lemma OtherLayer(nodes: map<int, Node>, linked: map<int, Node>, row: int, lc: int, l: int)
    requires OnlyLinks(nodes, linked, row, lc) && l != lc
    ensures SameLayer(linked, nodes, l)
  {
  }

  lemma LosesOn(sim: (int, int) -> real, before: map<int, Node>, nodes: map<int, Node>, linked: map<int, Node>, row: int, lc: int, l: int)
    requires row !in before && nodes.Keys == before.Keys + {row}
    requires SameLayer(nodes, before, lc) && LosesLittle(sim, before, nodes, row, l)
    requires OnlyLinks(nodes, linked, row, lc) && LosesLittle(sim, nodes, linked, row, lc)
    requires Ordered(sim, before) ==> Ordered(sim, nodes)
    ensures LosesLittle(sim, before, linked, row, l)
  {
    hide Ordered;
    forall id | id in before && id != row
      ensures LosesFarthest(sim, id, Edges(before, l, id), Edges(linked, l, id), if l == 0 then 64 else 16, Ordered(sim, before))
    {
      if l == lc {
        assert Edges(nodes, lc, id) == Edges(before, lc, id);
        assert LosesFarthest(sim, id, Edges(nodes, lc, id), Edges(linked, lc, id), if lc == 0 then 64 else 16, Ordered(sim, nodes));
      } else {
        assert Edges(linked, l, id) == Edges(nodes, l, id);
      }
    }
  }

  // ---- The graph ----

  /** Searches layer `lc` for the rows nearest to `row` that are linked there. */
  method Neighbours(sim: (int, int) -> real, nodes: map<int, Node>, row: int, entry: int, ef: nat, lc: int, scratch: SearchScratch)
    returns (found: seq<Scored>, ghost pool: set<int>)
    requires ef >= 1
    requires scratch.Valid()
    requires NodesOk(nodes) && Unlinked(nodes, lc, row)
    requires entry in nodes && entry >= 0 && entry != row && nodes[entry].layer >= lc
    modifies scratch
    ensures scratch.Valid()
    ensures |found| > 0
    ensures WellScored(Toward(sim, row), found)
    ensures Keeps(nodes, Toward(sim, row), ef, lc, entry, pool) && Ids(found) == pool
    ensures forall i, j :: 0 <= i < j < |found| ==> found[i].id != found[j].id && found[i].score >= found[j].score
    ensures forall id :: id in Ids(found) ==> id in nodes && nodes[id].layer >= lc && id != row
  {
    hide NodesOk, Unlinked, ReachSet, IsPath, Expanded, SearchScratch.Valid, SearchScratch.Marked;
    scratch.Reset(|nodes| + 1);
    ghost var entries := Usable(nodes, [entry]);
    assert entries == {entry};
    ReachStaysOnLayer(nodes, lc, entries, row);
    found, pool := SearchLayer(nodes, Toward(sim, row), [entry], ef, lc, _ => true, scratch);
    NonEmptyBest(nodes, Toward(sim, row), ef, lc, scratch.Marked(), pool, entry);
    assert Ids(found) == pool;
    assert found == [] ==> Ids(found) == {};
  }

  lemma NonEmptyBest(nodes: map<int, Node>, score: int -> real, ef: nat, lc: int, scored: set<int>, best: set<int>, entry: int)
    requires ef >= 1 && entry in scored
    requires BestOf(nodes, score, ef, lc, scored, best)
    ensures best != {} && best <= scored
  {
  }

  /** Greedy descent from the top layer to the layer above `level`. */
  method Descend(sim: (int, int) -> real, nodes: map<int, Node>, row: int, start: int, maxLayer: int, level: int, scratch: SearchScratch)
    returns (ep: int)
    requires scratch.Valid()
    requires NodesOk(nodes) && forall lc {:trigger Unlinked(nodes, lc, row)} :: Unlinked(nodes, lc, row)
    requires forall id :: id in nodes ==> id >= 0
    requires start in nodes && start != row && nodes[start].layer >= maxLayer
    modifies scratch
    ensures scratch.Valid()
    ensures ep in nodes && ep != row
    ensures nodes[ep].layer >= if maxLayer < level then maxLayer else level
    ensures if maxLayer <= level then ep == start else LocalBest(nodes, Toward(sim, row), level + 1, ep)
  {
    hide NodesOk, Unlinked, Keeps, LocalBest, SearchScratch.Valid, SearchScratch.Marked;
    ep := start;
    var lc := maxLayer;
    while lc > level
      invariant scratch.Valid()
      invariant lc == maxLayer || lc >= level
      invariant ep in nodes && ep != row && nodes[ep].layer >= lc
      invariant if lc == maxLayer then ep == start else LocalBest(nodes, Toward(sim, row), lc + 1, ep)
    {
      assert Unlinked(nodes, lc, row);
      var found;
      ghost var pool;
      found, pool := Neighbours(sim, nodes, row, ep, 1, lc, scratch);
      IdAt(found, 0);
      KeptIsLocalBest(nodes, Toward(sim, row), lc, ep, pool, found[0].id);
      ep := found[0].id;
      lc := lc - 1;
    }
  }

  /** A search that keeps one row ends at a local best. */
  lemma KeptIsLocalBest(nodes: map<int, Node>, score: int -> real, lc: int, entry: int, pool: set<int>, id: int)
    requires Keeps(nodes, score, 1, lc, entry, pool) && id in pool
    ensures LocalBest(nodes, score, lc, id)
  {
    hide ReachSet;
    var scored :| {entry} <= scored <= ReachSet(nodes, lc, {entry}) && BestOf(nodes, score, 1, lc, scored, pool);
    OneElement(pool, id);
    assert Expanded(nodes, lc, scored, id);
  }

  lemma OneElement(s: set<int>, x: int)
    requires |s| <= 1 && x in s
    ensures s == {x}
  {
    assert |s - {x}| == 0;
  }

  /** The state of the graph while `row`, attached to `before`, is being linked
      from layer `top` down; layers above `lc` are done. */
  ghost predicate Linking(sim: (int, int) -> real, before: map<int, Node>, nodes: map<int, Node>, row: int, level: int, top: int, lc: int)
  {
    && NodesOk(nodes) && KeepsOrder(sim, before, nodes)
    && nodes.Keys == before.Keys + {row}
    && nodes[row].layer == level
    && (forall id :: id in before ==> id >= 0 && nodes[id].layer == before[id].layer)
    && (forall l {:trigger Unlinked(nodes, l, row)} :: l <= lc ==> Unlinked(nodes, l, row))
    && GrewOnlyBy(before, nodes, row)
    && (forall l {:trigger Edges(nodes, l, row)} :: lc < l <= top ==>
          Edges(nodes, l, row) != [] && (Ordered(sim, before) ==> LinksBack(sim, nodes, row, l, Edges(nodes, l, row))))
    && (forall l {:trigger Edges(nodes, l, row)} :: l > top ==> Edges(nodes, l, row) == [])
  }

  /** Lists of nodes other than `row` gained at most `row`. */
  ghost predicate GrewOnlyBy(before: map<int, Node>, after: map<int, Node>, row: int)
  {
    forall id, lc, x :: id in before && x in Edges(after, lc, id) ==> x in Edges(before, lc, id) || x == row
  }

  lemma AttachOk(sim: (int, int) -> real, nodes: map<int, Node>, row: int, level: int, attached: map<int, Node>, top: int)
    requires NodesOk(nodes)
    requires forall id :: id in nodes ==> id >= 0
    requires row !in nodes && 0 <= level <= MAX_LEVEL
    requires attached == nodes[row := Node(level, map[])]
    ensures Linking(sim, nodes, attached, row, level, top, top)
    ensures forall lc {:trigger Unlinked(attached, lc, row)} :: Unlinked(attached, lc, row)
  {
    forall id | id in attached
      ensures NodeOk(attached, id)
    {
      if id != row {
        assert NodeOk(nodes, id);
        forall lc, n | lc in attached[id].edges && n in attached[id].edges[lc]
          ensures EdgeOk(attached, id, lc, n)
        {
          assert EdgeOk(nodes, id, lc, n);
        }
      }
    }
    forall lc
      ensures Unlinked(attached, lc, row)
    {
      forall id | id in attached
        ensures row !in Edges(attached, lc, id)
      {
        if id != row {
          assert NodeOk(nodes, id);
          assert forall n :: n in Edges(nodes, lc, id) ==> EdgeOk(nodes, id, lc, n);
        }
      }
    }
  }

  /** Linking layer `lc` is one step of the way down. */
  lemma LinkingStep(sim: (int, int) -> real, before: map<int, Node>, nodes: map<int, Node>, row: int, level: int, top: int, lc: int,
                    edges: seq<int>, linked: map<int, Node>)
    requires row !in before && lc <= top
    requires Linking(sim, before, nodes, row, level, top, lc)
    requires NodesOk(linked) && KeepsOrder(sim, nodes, linked)
    requires OnlyLinks(nodes, linked, row, lc)
    requires Edges(linked, lc, row) == edges && edges != []
    requires Ordered(sim, nodes) ==> LinksBack(sim, linked, row, lc, edges)
    ensures Linking(sim, before, linked, row, level, top, lc - 1)
  {
    hide NodesOk, Ordered, NoRepeats, LinkedOrCrowdedOut;
    forall l | l < lc
      ensures Unlinked(linked, l, row)
    {
      assert Unlinked(nodes, l, row);
      forall id | id in linked
        ensures row !in Edges(linked, l, id)
      {
        assert Edges(linked, l, id) == Edges(nodes, l, id);
      }
    }
    forall l | lc < l <= top
      ensures Edges(linked, l, row) != [] && (Ordered(sim, before) ==> LinksBack(sim, linked, row, l, Edges(linked, l, row)))
    {
      assert Edges(linked, l, row) == Edges(nodes, l, row);
      forall n | n in Edges(linked, l, row) && Ordered(sim, before)
        ensures LinkedOrCrowdedOut(sim, n, Edges(linked, l, n), row, ReverseLimit(l))
      {
        assert Edges(linked, l, n) == Edges(nodes, l, n);
      }
    }
    forall l | l > top
      ensures Edges(linked, l, row) == []
    {
      assert Edges(linked, l, row) == Edges(nodes, l, row);
    }
    forall id, l, x | id in before && x in Edges(linked, l, id)
      ensures x in Edges(before, l, id) || x == row
    {
      if l != lc {
        assert Edges(linked, l, id) == Edges(nodes, l, id);
      }
    }
  }

  /** Links `row` on layers `top` down to 0. */
  method LinkLayers(sim: (int, int) -> real, ghost before: map<int, Node>, attached: map<int, Node>, row: int, level: int, start: int, top: int,
                    scratch: SearchScratch)
    returns (nodes: map<int, Node>)
    requires scratch.Valid()
    requires row !in before && -1 <= top <= level
    requires Linking(sim, before, attached, row, level, top, top)
    requires Choosing(sim, before, attached, row, top, top, start)
    requires start in before && before[start].layer >= top
    modifies scratch
    ensures scratch.Valid()
    ensures Linking(sim, before, nodes, row, level, top, -1)
    ensures Choosing(sim, before, nodes, row, top, -1, start)
  {
    hide NodesOk, KeepsOrder, Ordered, Unlinked, LinksBack, OnlyLinks, GrewOnlyBy, Choosing, Keeps, NearestOf, LosesLittle,
         SearchScratch.Valid, SearchScratch.Marked;
    nodes := attached;
    var ep, lc := start, top;
    while lc >= 0
      invariant scratch.Valid()
      invariant -1 <= lc <= top
      invariant Linking(sim, before, nodes, row, level, top, lc)
      invariant ep in before && before[ep].layer >= lc
      invariant Choosing(sim, before, nodes, row, top, lc, start)
      invariant if lc == top then ep == start else Edges(nodes, lc + 1, row) != [] && ep == Edges(nodes, lc + 1, row)[0]
    {
      assert Unlinked(nodes, lc, row);
      var found;
      ghost var pool;
      found, pool := Neighbours(sim, nodes, row, ep, if lc > 0 then 16 else EF_CONSTRUCT, lc, scratch);
      var edges := SelectClosest(Toward(sim, row), row, found, Limit(lc));
      IdAt(found, 0);
      Selected(sim, row, pool, Limit(lc), edges);
      var linked := Link(sim, nodes, row, lc, edges);
      LinkingStep(sim, before, nodes, row, level, top, lc, edges, linked);
      OrderKept(sim, before, nodes);
      ChoosingStep(sim, before, nodes, row, top, lc, start, ep, pool, edges, linked);
      nodes := linked;
      ep := found[0].id;
      lc := lc - 1;
    }
  }

  lemma OrderKept(sim: (int, int) -> real, before: map<int, Node>, nodes: map<int, Node>)
    requires KeepsOrder(sim, before, nodes)
    ensures Ordered(sim, before) ==> Ordered(sim, nodes)
  {
  }

  lemma Selected(sim: (int, int) -> real, row: int, pool: set<int>, limit: nat, edges: seq<int>)
    requires row !in pool && |edges| <= limit && Ranked(Toward(sim, row), edges)
    requires forall x :: x in edges ==> x in pool && x != row
    requires forall x :: x in pool && x != row && x !in edges ==> |edges| == limit
    requires forall x, y :: x in pool && x != row && x !in edges && y in edges ==> Toward(sim, row)(x) <= Toward(sim, row)(y)
    ensures NearestOf(sim, row, pool, limit, edges) && Closest(sim, row, edges)
  {
    forall x, y | x in pool && x !in edges && y in edges
      ensures sim(row, x) <= sim(row, y)
    {
      assert Toward(sim, row)(x) <= Toward(sim, row)(y);
    }
    forall i, j | 0 <= i < j < |edges|
      ensures edges[i] != edges[j] && sim(row, edges[i]) >= sim(row, edges[j])
    {
      assert Toward(sim, row)(edges[i]) >= Toward(sim, row)(edges[j]);
    }
  }

  /** Gives `row` empty lists on the layers above the old top layer. */
  method AddEmptyLayers(sim: (int, int) -> real, start: map<int, Node>, row: int, from: int, to: int) returns (nodes: map<int, Node>)
    requires NodesOk(start)
    requires row in start && 0 <= from && to <= start[row].layer
    ensures NodesOk(nodes) && KeepsOrder(sim, start, nodes)
    ensures nodes.Keys == start.Keys
    ensures forall id :: id in start ==> nodes[id].layer == start[id].layer
    ensures forall id, lc :: Edges(nodes, lc, id) == Edges(start, lc, id)
  {
    hide NodesOk, Ordered, NoRepeats;
    nodes := start;
    var lc := from;
    while lc <= to
      invariant from <= lc
      invariant NodesOk(nodes) && KeepsOrder(sim, start, nodes)
      invariant nodes.Keys == start.Keys
      invariant forall id :: id in start ==> nodes[id].layer == start[id].layer
      invariant forall id, l :: Edges(nodes, l, id) == Edges(start, l, id)
    {
      if lc !in nodes[row].edges {
        WithEdgesOk(sim, nodes, row, lc, []);
        nodes := nodes[row := nodes[row].(edges := nodes[row].edges[lc := []])];
      }
      lc := lc + 1;
    }
  }

  class Graph {
    var nodes: map<int, Node>
    var entryPoint: int
    var maxLayer: int
    var size: nat
    var efSearch: int

    ghost predicate Validate(expectedSize: nat)
      reads this
    {
      PassesCheck(nodes, entryPoint, size, expectedSize)
    }

    ghost predicate TopEntry()
      reads this
    {
      EntryOnTop(nodes, entryPoint, maxLayer)
    }

    constructor ()
      ensures Validate(0) && TopEntry() && nodes == map[]
    {
      nodes, entryPoint, maxLayer, size, efSearch := map[], -1, -1, 0, DEFAULT_EF_SEARCH;
    }

    /** The `k` rows nearest to the query among those the search on layer 0
        keeps; exact when the search has room for all rows reachable there. */
    method Search(score: int -> real, k: int, filter: int -> bool, requestedEf: int, scratch: SearchScratch)
      returns (results: seq<Scored>, ghost entry: int, ghost pool: set<int>)
      requires Validate(size) && forall id :: id in nodes ==> id >= 0
      requires scratch.Valid()
      modifies scratch
      ensures scratch.Valid()
      ensures size == 0 || k <= 0 ==> results == []
      ensures size > 0 && k > 0 ==> entry in nodes && TopK(score, filter, pool, k, results) && pool <= nodes.Keys
      ensures size > 0 && k > 0 ==> BestOf(nodes, score, SearchBreadth(requestedEf, efSearch, k), 0, scratch.Marked(), pool)
      ensures size > 0 && k > 0 ==> if maxLayer <= 0 then entry == entryPoint else LocalBest(nodes, score, 1, entry)
      ensures size > 0 && k > 0 && |ReachSet(nodes, 0, {entry})| <= SearchBreadth(requestedEf, efSearch, k) ==>
                pool == ReachSet(nodes, 0, {entry})
      ensures size > 0 && k > 0 && FitsBreadth(|ReachSet(nodes, 0, {entry})|, requestedEf, efSearch, k) ==>
                pool == ReachSet(nodes, 0, {entry})
    {
      hide TopK, BestOf, ReachSet, NodesOk, LocalBest, Keeps, SearchScratch.Valid, SearchScratch.Marked;
      results, entry, pool := [], -1, {};
      if size == 0 || k <= 0 {
        return;
      }
      var ep := entryPoint;
      var lc := maxLayer;
      while lc > 0
        invariant scratch.Valid()
        invariant ep in nodes
        invariant if lc == maxLayer then ep == entryPoint else 0 <= lc < maxLayer && LocalBest(nodes, score, lc + 1, ep)
      {
        scratch.Reset(|nodes| + 1);
        ghost var best;
        var found;
        found, best := SearchLayer(nodes, score, [ep], 1, lc, _ => true, scratch);
        assert Usable(nodes, [ep]) == {ep};
        NonEmptyBest(nodes, score, 1, lc, scratch.Marked(), best, ep);
        assert Ids(found) == best;
        assert found == [] ==> Ids(found) == {};
        assert Keeps(nodes, score, 1, lc, ep, best) by {
          KeepsIf(nodes, score, 1, lc, ep, scratch.Marked(), best);
        }
        if |found| > 0 {
          IdAt(found, 0);
          FoundInGraph(nodes, score, 1, lc, ep, scratch.Marked(), best, found[0].id);
          KeptIsLocalBest(nodes, score, lc, ep, best, found[0].id);
          ep := found[0].id;
        }
        lc := lc - 1;
      }
      scratch.Reset(|nodes| + 1);
      entry := ep;
      assert Usable(nodes, [ep]) == {ep};
      results, pool := SearchLayer(nodes, score, [ep], SearchBreadth(requestedEf, efSearch, k), 0, filter, scratch);
      forall id | id in pool
        ensures id in nodes
      {
        FoundInGraph(nodes, score, SearchBreadth(requestedEf, efSearch, k), 0, ep, scratch.Marked(), pool, id);
      }
      CutIsTopK(score, filter, pool, k, results, if |results| > k then results[..k] else results);
      if |results| > k {
        results := results[..k];
      }
    }

    /** Inserts a row on layers 0 to `level`. */
    method Insert(sim: (int, int) -> real, row: int, level: int, scratch: SearchScratch) returns (ghost start: int)
      requires Validate(size) && TopEntry()
      requires 0 <= row && row !in nodes
      requires 0 <= level <= MAX_LEVEL
      requires scratch.Valid()
      modifies this, scratch
      ensures scratch.Valid()
      ensures Validate(old(size) + 1) && TopEntry()
      ensures maxLayer == if level > old(maxLayer) then level else old(maxLayer)
      ensures Linking(sim, old(nodes), nodes, row, level, if old(maxLayer) < level then old(maxLayer) else level, -1)
      ensures Choosing(sim, old(nodes), nodes, row, if old(maxLayer) < level then old(maxLayer) else level, -1, start)
      ensures old(size) > 0 ==> Descends(sim, old(nodes), row, old(entryPoint), old(maxLayer), level, start)
    {
      hide Linking, Ordered, EntryOnTop, PassesCheck, Choosing, Descends, SearchScratch.Valid, SearchScratch.Marked;
      CheckParts(sim, nodes, entryPoint, maxLayer, size);
      var linked;
      if size == 0 {
        linked := nodes[row := Node(level, map[])];
        FirstRow(sim, nodes, row, level);
        start := -1;
        ChoosingStart(sim, nodes, row, level, linked, -1, start);
      } else {
        linked, start := AttachAndLink(sim, nodes, entryPoint, maxLayer, row, level, scratch);
      }
      InsertKeepsCheck(sim, nodes, linked, entryPoint, maxLayer, size, row, level);
      if level > maxLayer {
        maxLayer, entryPoint := level, row;
      }
      nodes, size := linked, size + 1;
    }
  }

  /** The best `k` rows of `pool` that pass the filter, best first. */
  ghost predicate TopK(score: int -> real, filter: int -> bool, pool: set<int>, k: int, results: seq<Scored>)
  {
    && WellScored(score, results)
    && |results| <= k
    && (forall i, j :: 0 <= i < j < |results| ==> results[i].id != results[j].id && results[i].score >= results[j].score)
    && (forall id :: id in Ids(results) ==> id in pool && filter(id))
    && (forall id :: id in pool && filter(id) && id !in Ids(results) ==> |results| == k)
    && (forall id, x :: id in pool && filter(id) && id !in Ids(results) && x in results ==> score(id) <= x.score)
  }

  /** Cutting a sorted, filtered result to `k` rows. */
  lemma CutIsTopK(score: int -> real, filter: int -> bool, pool: set<int>, k: int, found: seq<Scored>, results: seq<Scored>)
    requires k > 0
    requires WellScored(score, found)
    requires Ids(found) == set id | id in pool && filter(id)
    requires forall i, j :: 0 <= i < j < |found| ==> found[i].id != found[j].id && found[i].score >= found[j].score
    requires results == if |found| > k then found[..k] else found
    ensures TopK(score, filter, pool, k, results)
  {
    forall id, x | id in pool && filter(id) && id !in Ids(results) && x in results
      ensures score(id) <= x.score
    {
      assert id in Ids(found);
      var i :| 0 <= i < |found| && found[i].id == id;
      var j :| 0 <= j < |results| && results[j] == x;
      IdAtUnless(results, i, id);
      assert found[j] == x;
    }
    forall id | id in Ids(results)
      ensures id in pool && filter(id)
    {
      var j :| 0 <= j < |results| && results[j].id == id;
      IdAt(found, j);
    }
  }

  lemma KeepsIf(nodes: map<int, Node>, score: int -> real, ef: nat, lc: int, entry: int, scored: set<int>, pool: set<int>)
    requires {entry} <= scored <= ReachSet(nodes, lc, {entry}) && BestOf(nodes, score, ef, lc, scored, pool)
    ensures Keeps(nodes, score, ef, lc, entry, pool)
  {
  }

  lemma IdAtUnless(results: seq<Scored>, i: nat, id: int)
    requires id !in Ids(results)
    ensures i >= |results| || results[i].id != id
  {
    if i < |results| {
      IdAt(results, i);
    }
  }

  /** So many rows fit the breadth asked for, or else configured, or else 80; or
      they are no more than the rows wanted. */
  predicate FitsBreadth(rows: nat, requested: int, configured: int, k: int)
  {
    rows <= (if requested > 0 then requested else if configured > 0 then configured else 80) || rows <= k
  }

  /** Breadth of the search on layer 0. */
  function SearchBreadth(requested: int, configured: int, k: int): int
  {
    var ef := if requested > 0 then requested else if configured > 0 then configured else DEFAULT_EF_SEARCH;
    if k > ef then k else ef
  }

  lemma CheckParts(sim: (int, int) -> real, nodes: map<int, Node>, entryPoint: int, maxLayer: int, size: nat)
    requires PassesCheck(nodes, entryPoint, size, size) && EntryOnTop(nodes, entryPoint, maxLayer)
    ensures NodesOk(nodes) && maxLayer >= -1
    ensures forall id :: id in nodes ==> id >= 0
    ensures if size == 0 then nodes == map[] && maxLayer == -1 else entryPoint in nodes && nodes[entryPoint].layer == maxLayer
  {
    if size == 0 {
      EmptyOk(nodes);
    }
  }

  lemma InsertKeepsCheck(sim: (int, int) -> real, before: map<int, Node>, after: map<int, Node>, entryPoint: int, maxLayer: int, size: nat,
                         row: int, level: int)
    requires PassesCheck(before, entryPoint, size, size) && EntryOnTop(before, entryPoint, maxLayer)
    requires 0 <= row && row !in before && level >= 0
    requires Linking(sim, before, after, row, level, if maxLayer < level then maxLayer else level, -1)
    ensures PassesCheck(after, if level > maxLayer then row else entryPoint, size + 1, size + 1)
    ensures EntryOnTop(after, if level > maxLayer then row else entryPoint, if level > maxLayer then level else maxLayer)
  {
    hide Linking, NodesOk, Ordered;
    LinkingParts(sim, before, after, row, level, if maxLayer < level then maxLayer else level, -1);
    if size == 0 {
      EmptyOk(before);
    }
    assert row in after;
  }

  /** Attaches a row to a non-empty graph and links it on all its layers. */
  method AttachAndLink(sim: (int, int) -> real, before: map<int, Node>, entryPoint: int, maxLayer: int, row: int, level: int,
                       scratch: SearchScratch)
    returns (nodes: map<int, Node>, ghost start: int)
    requires scratch.Valid()
    requires NodesOk(before)
    requires forall id :: id in before ==> id >= 0
    requires entryPoint in before && before[entryPoint].layer == maxLayer >= -1
    requires 0 <= row && row !in before
    requires 0 <= level <= MAX_LEVEL
    modifies scratch
    ensures scratch.Valid()
    ensures Linking(sim, before, nodes, row, level, if maxLayer < level then maxLayer else level, -1)
    ensures Choosing(sim, before, nodes, row, if maxLayer < level then maxLayer else level, -1, start)
    ensures Descends(sim, before, row, entryPoint, maxLayer, level, start)
  {
    hide Linking, NodesOk, Ordered, Unlinked, Choosing, LocalBest, SearchScratch.Valid, SearchScratch.Marked;
    var top := if maxLayer < level then maxLayer else level;
    nodes := before[row := Node(level, map[])];
    AttachOk(sim, before, row, level, nodes, top);
    LinkingParts(sim, before, nodes, row, level, top, top);
    var ep := Descend(sim, nodes, row, entryPoint, maxLayer, level, scratch);
    start := ep;
    ChoosingStart(sim, before, row, level, nodes, top, ep);
    SameLocalBest(before, nodes, Toward(sim, row), row, level, ep);
    nodes := LinkLayers(sim, before, nodes, row, level, ep, top, scratch);
    LinkingParts(sim, before, nodes, row, level, top, -1);
    if level > maxLayer {
      var extended := AddEmptyLayers(sim, nodes, row, maxLayer + 1, level);
      SameEdges(sim, before, nodes, extended, row, level, top);
      SameChoosing(sim, before, nodes, extended, row, top, ep);
      nodes := extended;
    }
  }

  /** Where linking starts: at the entry point, or where the way down through the
      layers above could not get closer. */
  ghost predicate Descends(sim: (int, int) -> real, before: map<int, Node>, row: int, entryPoint: int, maxLayer: int, level: int, start: int)
  {
    && start in before
    && if maxLayer <= level then start == entryPoint else LocalBest(before, Toward(sim, row), level + 1, start)
  }

  lemma SameLocalBest(before: map<int, Node>, attached: map<int, Node>, score: int -> real, row: int, level: int, ep: int)
    requires row !in before && attached == before[row := Node(level, map[])]
    ensures LocalBest(attached, score, level + 1, ep) <==> LocalBest(before, score, level + 1, ep)
  {
    assert Edges(attached, level + 1, ep) == Edges(before, level + 1, ep);
  }

  lemma SameChoosing(sim: (int, int) -> real, before: map<int, Node>, nodes: map<int, Node>, after: map<int, Node>, row: int, top: int, start: int)
    requires Choosing(sim, before, nodes, row, top, -1, start)
    requires forall id, lc :: Edges(after, lc, id) == Edges(nodes, lc, id)
    ensures Choosing(sim, before, after, row, top, -1, start)
  {
    hide ChosenAt, LosesFarthest, Ordered;
    forall l | l <= -1
      ensures SameLayer(after, before, l)
    {
      assert SameLayer(nodes, before, l);
    }
    forall l
      ensures LosesLittle(sim, before, after, row, l)
    {
      assert LosesLittle(sim, before, nodes, row, l);
    }
    forall l | -1 < l <= top
      ensures ChosenOn(sim, before, after, row, top, l, start)
    {
      assert Edges(nodes, l, row) == Edges(after, l, row) && ChosenOn(sim, before, nodes, row, top, l, start);
    }
  }

  lemma FirstRow(sim: (int, int) -> real, nodes: map<int, Node>, row: int, level: int)
    requires nodes == map[] && 0 <= level <= MAX_LEVEL
    ensures Linking(sim, nodes, nodes[row := Node(level, map[])], row, level, -1, -1)
    ensures NodesOk(nodes[row := Node(level, map[])]) && |nodes[row := Node(level, map[])]| == 1
  {
    AttachOk(sim, nodes, row, level, nodes[row := Node(level, map[])], -1);
  }

  lemma EmptyOk(nodes: map<int, Node>)
    requires |nodes| == 0
    ensures NodesOk(nodes) && nodes == map[]
  {
  }

  lemma LinkingParts(sim: (int, int) -> real, before: map<int, Node>, nodes: map<int, Node>, row: int, level: int, top: int, lc: int)
    requires Linking(sim, before, nodes, row, level, top, lc)
    requires row !in before
    ensures NodesOk(nodes) && KeepsOrder(sim, before, nodes)
    ensures nodes.Keys == before.Keys + {row} && |nodes| == |before| + 1
    ensures nodes[row].layer == level
    ensures forall id :: id in before ==> nodes[id].layer == before[id].layer
  {
    assert |nodes.Keys| == |before.Keys| + 1;
  }

  lemma SameEdges(sim: (int, int) -> real, before: map<int, Node>, nodes: map<int, Node>, after: map<int, Node>, row: int, level: int, top: int)
    requires Linking(sim, before, nodes, row, level, top, -1)
    requires NodesOk(after) && KeepsOrder(sim, nodes, after)
    requires after.Keys == nodes.Keys
    requires forall id :: id in nodes ==> after[id].layer == nodes[id].layer
    requires forall id, lc :: Edges(after, lc, id) == Edges(nodes, lc, id)
    ensures Linking(sim, before, after, row, level, top, -1)
  {
    hide NodesOk, Ordered, LinkedOrCrowdedOut;
    forall l | l <= -1
      ensures Unlinked(after, l, row)
    {
      assert Unlinked(nodes, l, row);
    }
    forall l | -1 < l <= top
      ensures Ordered(sim, before) ==> LinksBack(sim, after, row, l, Edges(after, l, row))
    {
      assert Ordered(sim, before) ==> LinksBack(sim, nodes, row, l, Edges(nodes, l, row));
    }
  }

  /** A search that starts inside a checked graph stays inside it. */
  lemma FoundInGraph(nodes: map<int, Node>, score: int -> real, ef: int, lc: int, entry: int, scored: set<int>, best: set<int>, id: int)
    requires NodesOk(nodes) && entry in nodes && entry >= 0
    requires ef >= 1 && BestOf(nodes, score, ef, lc, scored, best)
    requires scored <= ReachSet(nodes, lc, Usable(nodes, [entry]))
    requires id in best
    ensures id in nodes
  {
    var inside := nodes.Keys;
    forall n | n in inside
      ensures Expanded(nodes, lc, inside, n)
    {
      assert NodeOk(nodes, n);
      assert forall m :: m in Edges(nodes, lc, n) ==> EdgeOk(nodes, n, lc, m);
    }
    ClosedHoldsReachable(nodes, lc, Usable(nodes, [entry]), inside);
  }
}
