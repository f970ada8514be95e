/**
 * The stored form of a table (internal/engine/vector.go): parallel columns, a
 * map from id to row number, and one flat byte array in which every row has the
 * same width.
 */
module VectorTable {
  import opened MigrationLog

  datatype Columns = Columns(
    dim: int,
    encoding: Encoding,
    idMap: map<string, nat>,
    idList: seq<string>,
    tombstones: seq<bool>,
    generations: seq<nat>,
    mmap: seq<bv8>)

  // ---- Fixed-width rows in a byte array ----

  /** Row `r` of the array. */
  function RowAt(mmap: seq<bv8>, width: nat, r: nat): (row: Row)
    requires (r + 1) * width <= |mmap|
    ensures |row| == width
  {
    RowBounds(width, r, r, |mmap|);
    mmap[r * width..r * width + width]
  }

  /** The array after row `r` has been overwritten. */
  function WithRow(mmap: seq<bv8>, width: nat, r: nat, row: Row): (m: seq<bv8>)
    requires (r + 1) * width <= |mmap| && |row| == width
    ensures |m| == |mmap|
  {
    RowBounds(width, r, r, |mmap|);
    mmap[..r * width] + row + mmap[r * width + width..]
  }

  lemma RowBounds(width: nat, r: nat, last: nat, size: nat)
    requires r <= last && (last + 1) * width <= size
    ensures 0 <= r * width && (r + 1) * width == r * width + width <= size
    ensures r < last ==> (r + 1) * width <= last * width
  {
    assert (r + 1) * width <= (last + 1) * width;
  }

  /** Overwriting a row changes that row and no other. */
  lemma WithRowAt(mmap: seq<bv8>, width: nat, r: nat, row: Row, other: nat)
    requires (r + 1) * width <= |mmap| && |row| == width
    requires (other + 1) * width <= |mmap|
    ensures RowAt(WithRow(mmap, width, r, row), width, other) == if other == r then row else RowAt(mmap, width, other)
  {
    RowBounds(width, r, r, |mmap|);
    RowBounds(width, other, other, |mmap|);
    var m, at := WithRow(mmap, width, r, row), other * width;
    if other < r {
      RowBounds(width, other, r, |mmap|);
      assert forall k :: at <= k < at + width ==> m[k] == mmap[k];
    } else if r < other {
      RowBounds(width, r, other, |mmap|);
      assert forall k :: at <= k < at + width ==> m[k] == mmap[k];
    }
    assert RowAt(m, width, other) == m[at..at + width];
  }

  /** Growing the array keeps its rows. */
  lemma GrownRowAt(mmap: seq<bv8>, width: nat, more: seq<bv8>, r: nat)
    requires (r + 1) * width <= |mmap|
    ensures (r + 1) * width <= |mmap + more|
    ensures RowAt(mmap + more, width, r) == RowAt(mmap, width, r)
  {
    RowBounds(width, r, r, |mmap|);
  }

  // ---- Columns ----

  function Width(c: Columns): int
  {
    RowSize(c.dim, c.encoding)
  }

  /** The map and the list of ids are inverse to each other. */
  ghost predicate Inverse(idMap: map<string, nat>, idList: seq<string>)
  {
    && (forall r :: 0 <= r < |idList| ==> idList[r] in idMap && idMap[idList[r]] == r)
    && (forall id :: id in idMap ==> idMap[id] < |idList| && idList[idMap[id]] == id)
    && |idMap| == |idList|
  }

  ghost predicate Valid(c: Columns)
  {
    && Width(c) > 0
    && |c.idList| == |c.tombstones| == |c.generations|
    && |c.idList| * Width(c) <= |c.mmap|
    && Inverse(c.idMap, c.idList)
  }

  /** Row `r` is inside the byte array. */
  lemma RowFits(c: Columns, r: nat)
    requires Valid(c) && r < |c.idList|
    ensures (r + 1) * Width(c) <= |c.mmap|
  {
    RowBounds(Width(c), r, |c.idList| - 1, |c.mmap|);
  }

  ghost predicate IsLive(c: Columns, id: string)
    requires Valid(c)
  {
    id in c.idMap && !c.tombstones[c.idMap[id]]
  }

  ghost function RowOf(c: Columns, id: string): Row
    requires Valid(c) && id in c.idMap
  {
    RowFits(c, c.idMap[id]);
    RowAt(c.mmap, Width(c), c.idMap[id])
  }

  /** The table that the columns stand for. */
  ghost function TableOf(c: Columns): Table
    requires Valid(c)
  {
    Table(c.dim, c.encoding, map id | id in c.idMap && IsLive(c, id) :: RowOf(c, id))
  }

  /** A generation is odd exactly while its row is live. */
  ghost predicate OddWhileLive(c: Columns)
    requires |c.tombstones| == |c.generations|
  {
    forall r :: 0 <= r < |c.generations| ==> (c.generations[r] % 2 == 1 <==> !c.tombstones[r])
  }

  // ---- Adding ----

  /** Columns after a new id got the next row. */
  function Appended(c: Columns, id: string, row: Row): Columns
    requires (|c.idList| + 1) * Width(c) <= |c.mmap| && |row| == Width(c)
  {
    c.(idMap := c.idMap[id := |c.idList|],
       idList := c.idList + [id],
       tombstones := c.tombstones + [false],
       generations := c.generations + [1],
       mmap := WithRow(c.mmap, Width(c), |c.idList|, row))
  }

  /** Columns after the row of a known id was overwritten; `gen` is its new generation. */
  function Overwritten(c: Columns, r: nat, row: Row, gen: nat): Columns
    requires r < |c.tombstones| && r < |c.generations|
    requires (r + 1) * Width(c) <= |c.mmap| && |row| == Width(c)
  {
    c.(tombstones := c.tombstones[r := false],
       generations := c.generations[r := gen],
       mmap := WithRow(c.mmap, Width(c), r, row))
  }

  lemma AppendedValid(c: Columns, id: string, row: Row)
    requires Valid(c) && id !in c.idMap
    requires (|c.idList| + 1) * Width(c) <= |c.mmap| && |row| == Width(c)
    ensures Valid(Appended(c, id, row))
    ensures OddWhileLive(c) ==> OddWhileLive(Appended(c, id, row))
  {
    hide Inverse, WithRow;
    AppendedInverse(c.idMap, c.idList, id);
  }

  lemma AppendedRow(c: Columns, id: string, row: Row, x: string)
    requires Valid(c) && id !in c.idMap
    requires (|c.idList| + 1) * Width(c) <= |c.mmap| && |row| == Width(c)
    requires Valid(Appended(c, id, row))
    requires x == id || x in c.idMap
    ensures RowOf(Appended(c, id, row), x) == if x == id then row else RowOf(c, x)
    ensures IsLive(Appended(c, id, row), x) <==> x == id || IsLive(c, x)
  {
    hide RowAt, WithRow;
    var d := Appended(c, id, row);
    RowFits(d, d.idMap[x]);
    if x != id {
      RowFits(c, c.idMap[x]);
    }
    WithRowAt(c.mmap, Width(c), |c.idList|, row, d.idMap[x]);
  }

  lemma AppendedTable(c: Columns, id: string, row: Row)
    requires Valid(c) && id !in c.idMap
    requires (|c.idList| + 1) * Width(c) <= |c.mmap| && |row| == Width(c)
    ensures Valid(Appended(c, id, row))
    ensures TableOf(Appended(c, id, row)) == TableOf(c).(rows := TableOf(c).rows[id := row])
    ensures OddWhileLive(c) ==> OddWhileLive(Appended(c, id, row))
  {
    hide RowOf, Valid, WithRow, IsLive;
    AppendedValid(c, id, row);
    var d := Appended(c, id, row);
    assert forall x :: x in d.idMap <==> x == id || x in c.idMap;
    forall x | x in d.idMap
      ensures RowOf(d, x) == if x == id then row else RowOf(c, x)
      ensures IsLive(d, x) <==> x == id || IsLive(c, x)
    {
      AppendedRow(c, id, row, x);
    }
    assert TableOf(d).rows == TableOf(c).rows[id := row];
  }

  lemma AppendedInverse(idMap: map<string, nat>, idList: seq<string>, id: string)
    requires Inverse(idMap, idList) && id !in idMap
    ensures Inverse(idMap[id := |idList|], idList + [id])
  {
    assert idMap[id := |idList|].Keys == idMap.Keys + {id};
  }

  /** Two ids never share a row. */
  lemma DistinctRows(c: Columns, x: string, y: string)
    requires Valid(c) && x in c.idMap && y in c.idMap
    ensures c.idMap[x] < |c.idList|
    ensures c.idMap[x] == c.idMap[y] <==> x == y
  {
    assert c.idList[c.idMap[x]] == x && c.idList[c.idMap[y]] == y;
  }

  lemma OverwrittenRow(c: Columns, id: string, row: Row, gen: nat, x: string)
    requires Valid(c) && id in c.idMap && |row| == Width(c)
    requires (c.idMap[id] + 1) * Width(c) <= |c.mmap|
    requires x in c.idMap
    requires Valid(Overwritten(c, c.idMap[id], row, gen))
    ensures RowOf(Overwritten(c, c.idMap[id], row, gen), x) == if x == id then row else RowOf(c, x)
    ensures IsLive(Overwritten(c, c.idMap[id], row, gen), x) <==> x == id || IsLive(c, x)
  {
    hide RowAt, WithRow;
    RowFits(c, c.idMap[x]);
    DistinctRows(c, x, id);
    WithRowAt(c.mmap, Width(c), c.idMap[id], row, c.idMap[x]);
  }

  lemma OverwrittenTable(c: Columns, id: string, row: Row, gen: nat)
    requires Valid(c) && id in c.idMap && |row| == Width(c)
    requires (c.idMap[id] + 1) * Width(c) <= |c.mmap|
    ensures Valid(Overwritten(c, c.idMap[id], row, gen))
    ensures TableOf(Overwritten(c, c.idMap[id], row, gen)) == TableOf(c).(rows := TableOf(c).rows[id := row])
    ensures OddWhileLive(c) && gen % 2 == 1 ==> OddWhileLive(Overwritten(c, c.idMap[id], row, gen))
  {
    hide RowOf, Inverse, WithRow, IsLive;
    DistinctRows(c, id, id);
    var d := Overwritten(c, c.idMap[id], row, gen);
    assert Valid(d);
    forall x | x in d.idMap
      ensures RowOf(d, x) == if x == id then row else RowOf(c, x)
      ensures IsLive(d, x) <==> x == id || IsLive(c, x)
    {
      OverwrittenRow(c, id, row, gen, x);
    }
    assert TableOf(d).rows == TableOf(c).rows[id := row];
  }

  lemma GrownTable(c: Columns, more: seq<bv8>)
    requires Valid(c)
    ensures Valid(c.(mmap := c.mmap + more))
    ensures TableOf(c.(mmap := c.mmap + more)) == TableOf(c)
  {
    var d := c.(mmap := c.mmap + more);
    forall x | x in d.idMap
      ensures RowOf(d, x) == RowOf(c, x)
    {
      RowFits(c, c.idMap[x]);
      GrownRowAt(c.mmap, Width(c), more, c.idMap[x]);
    }
    assert TableOf(d).rows == TableOf(c).rows;
  }

  // ---- Deleting ----

  function Deleted(c: Columns, r: nat): Columns
    requires r < |c.tombstones| && r < |c.generations|
  {
    c.(tombstones := c.tombstones[r := true], generations := c.generations[r := c.generations[r] + 1])
  }

  lemma DeletedRow(c: Columns, id: string, x: string)
    requires Valid(c) && IsLive(c, id) && x in c.idMap
    requires Valid(Deleted(c, c.idMap[id]))
    ensures RowOf(Deleted(c, c.idMap[id]), x) == RowOf(c, x)
    ensures IsLive(Deleted(c, c.idMap[id]), x) <==> x != id && IsLive(c, x)
  {
    DistinctRows(c, x, id);
  }

  lemma DeletedTable(c: Columns, id: string)
    requires Valid(c) && IsLive(c, id)
    ensures Valid(Deleted(c, c.idMap[id]))
    ensures TableOf(Deleted(c, c.idMap[id])) == TableOf(c).(rows := TableOf(c).rows - {id})
    ensures OddWhileLive(c) ==> OddWhileLive(Deleted(c, c.idMap[id]))
  {
    hide Inverse, RowOf, IsLive;
    assert id in c.idMap by {
      LiveInMap(c, id);
    }
    DistinctRows(c, id, id);
    var d := Deleted(c, c.idMap[id]);
    assert Valid(d);
    DeletedOdd(c, id);
    forall x | x in d.idMap
      ensures RowOf(d, x) == RowOf(c, x)
      ensures IsLive(d, x) <==> x != id && IsLive(c, x)
    {
      DeletedRow(c, id, x);
    }
    assert TableOf(d).rows == TableOf(c).rows - {id};
  }

  lemma LiveInMap(c: Columns, id: string)
    requires Valid(c) && IsLive(c, id)
    ensures id in c.idMap
  {
  }

  lemma DeletedOdd(c: Columns, id: string)
    requires Valid(c) && IsLive(c, id)
    ensures OddWhileLive(c) ==> OddWhileLive(Deleted(c, c.idMap[id]))
  {
  }

  // ---- Compacting ----

  /** The elements whose mark is not set, in order. */
  ghost function Kept<T>(xs: seq<T>, dead: seq<bool>): seq<T>
    requires |xs| == |dead|
  {
    if xs == [] then []
    else Kept(xs[..|xs| - 1], dead[..|xs| - 1]) + (if dead[|xs| - 1] then [] else [xs[|xs| - 1]])
  }

  /** Number of marks that are not set. */
  ghost function Living(dead: seq<bool>): nat
  {
    if dead == [] then 0 else Living(dead[..|dead| - 1]) + (if dead[|dead| - 1] then 0 else 1)
  }

  lemma {:induction false} KeptLength<T>(xs: seq<T>, dead: seq<bool>)
    requires |xs| == |dead|
    ensures |Kept(xs, dead)| == Living(dead) <= |xs|
  {
    if xs != [] {
      KeptLength(xs[..|xs| - 1], dead[..|xs| - 1]);
    }
  }

  lemma KeptSnoc<T>(xs: seq<T>, dead: seq<bool>, r: nat)
    requires |xs| == |dead| && r < |xs|
    ensures Kept(xs[..r + 1], dead[..r + 1]) == Kept(xs[..r], dead[..r]) + (if dead[r] then [] else [xs[r]])
    ensures Living(dead[..r + 1]) == Living(dead[..r]) + (if dead[r] then 0 else 1)
  {
    assert xs[..r + 1][..r] == xs[..r] && dead[..r + 1][..r] == dead[..r];
  }

  lemma {:induction false} KeptIsMember<T>(xs: seq<T>, dead: seq<bool>, x: T)
    requires |xs| == |dead| && x in Kept(xs, dead)
    ensures x in xs
  {
    var n := |xs| - 1;
    assert xs == xs[..n] + [xs[n]];
    if x in Kept(xs[..n], dead[..n]) {
      KeptIsMember(xs[..n], dead[..n], x);
    }
  }

  /** A living element ends up at the position given by the number of living
      elements before it. */
  lemma {:induction false} KeptAt<T>(xs: seq<T>, dead: seq<bool>, r: nat)
    requires |xs| == |dead| && r < |xs| && !dead[r]
    ensures Living(dead[..r]) < |Kept(xs, dead)| && Kept(xs, dead)[Living(dead[..r])] == xs[r]
  {
    var n := |xs| - 1;
    KeptLength(xs[..n], dead[..n]);
    if r == n {
    } else {
      KeptAt(xs[..n], dead[..n], r);
      assert dead[..n][..r] == dead[..r];
    }
  }

  /** Every position of the result comes from a living element. */
  lemma {:induction false} KeptFrom(dead: seq<bool>, k: nat) returns (r: nat)
    requires k < Living(dead)
    ensures r < |dead| && !dead[r] && Living(dead[..r]) == k
  {
    var n := |dead| - 1;
    if k == Living(dead[..n]) {
      r := n;
    } else {
      r := KeptFrom(dead[..n], k);
      assert dead[..n][..r] == dead[..r];
    }
  }

  ghost function AllRows(c: Columns): (rows: seq<Row>)
    requires Valid(c)
    ensures |rows| == |c.idList|
  {
    seq(|c.idList|, r requires 0 <= r < |c.idList| => RowFits(c, r); RowAt(c.mmap, Width(c), r))
  }

  lemma KeptWidths(c: Columns)
    requires Valid(c)
    ensures forall k :: 0 <= k < |Kept(AllRows(c), c.tombstones)| ==> |Kept(AllRows(c), c.tombstones)[k]| == Width(c)
  {
    var kept := Kept(AllRows(c), c.tombstones);
    forall k | 0 <= k < |kept|
      ensures |kept[k]| == Width(c)
    {
      KeptIsMember(AllRows(c), c.tombstones, kept[k]);
    }
  }

  ghost predicate AllFalse(s: seq<bool>)
  {
    forall i :: 0 <= i < |s| ==> !s[i]
  }

  /** `d` holds the living rows of `c`, in their order, and nothing else. */
  ghost predicate IsCompacted(c: Columns, d: Columns)
    requires Valid(c)
  {
    && d.dim == c.dim && d.encoding == c.encoding
    && d.idList == Kept(c.idList, c.tombstones)
    && d.generations == Kept(c.generations, c.tombstones)
    && |d.tombstones| == |d.idList| && AllFalse(d.tombstones)
    && Valid(d)
    && AllRows(d) == Kept(AllRows(c), c.tombstones)
  }

  lemma CompactedRow(c: Columns, d: Columns, id: string)
    requires Valid(c) && IsCompacted(c, d)
    ensures id in d.idMap <==> id in c.idMap && IsLive(c, id)
    ensures id in d.idMap ==> IsLive(d, id) && RowOf(d, id) == RowOf(c, id)
  {
    hide RowAt, Kept;
    KeptLength(c.idList, c.tombstones);
    if id in c.idMap && IsLive(c, id) {
      var r := c.idMap[id];
      KeptAt(c.idList, c.tombstones, r);
      KeptAt(AllRows(c), c.tombstones, r);
      var k := Living(c.tombstones[..r]);
      assert d.idList[k] == id;
      assert AllRows(d)[k] == AllRows(c)[r];
    }
    if id in d.idMap {
      KeptIsMember(c.idList, c.tombstones, id);
      var k := d.idMap[id];
      var r := KeptFrom(c.tombstones, k);
      KeptAt(c.idList, c.tombstones, r);
      assert c.idList[r] == id;
    }
  }

  /** Compacting changes neither the table nor the parity of generations. */
  lemma CompactedTable(c: Columns, d: Columns)
    requires Valid(c) && IsCompacted(c, d)
    ensures TableOf(d) == TableOf(c)
    ensures OddWhileLive(c) ==> OddWhileLive(d)
  {
    hide RowOf, Kept, AllRows;
    forall id
      ensures id in d.idMap <==> id in c.idMap && IsLive(c, id)
      ensures id in d.idMap ==> IsLive(d, id) && RowOf(d, id) == RowOf(c, id)
    {
      CompactedRow(c, d, id);
    }
    assert TableOf(d).rows == TableOf(c).rows;
    if OddWhileLive(c) {
      CompactedOdd(c, d);
    }
  }

  lemma CompactedOdd(c: Columns, d: Columns)
    requires Valid(c) && IsCompacted(c, d) && OddWhileLive(c)
    ensures OddWhileLive(d)
  {
    hide Kept, AllRows, Inverse;
    KeptLength(c.generations, c.tombstones);
    forall k | 0 <= k < |d.generations|
      ensures d.generations[k] % 2 == 1
    {
      var r := KeptFrom(c.tombstones, k);
      KeptAt(c.generations, c.tombstones, r);
    }
  }

  /** The ids that are left are still distinct. */
  lemma KeptDistinct(c: Columns)
    requires Valid(c)
    ensures forall i, j :: 0 <= i < j < |Kept(c.idList, c.tombstones)| ==>
              Kept(c.idList, c.tombstones)[i] != Kept(c.idList, c.tombstones)[j]
  {
    var kept := Kept(c.idList, c.tombstones);
    KeptLength(c.idList, c.tombstones);
    forall i, j | 0 <= i < j < |kept|
      ensures kept[i] != kept[j]
    {
      var r := KeptFrom(c.tombstones, i);
      var r' := KeptFrom(c.tombstones, j);
      KeptAt(c.idList, c.tombstones, r);
      KeptAt(c.idList, c.tombstones, r');
      assert c.idMap[c.idList[r]] == r && c.idMap[c.idList[r']] == r';
    }
  }
}
