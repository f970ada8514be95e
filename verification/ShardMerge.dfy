/**
 * Merging what eight shards find (internal/engine/vector.go).  Each shard
 * returns its best rows by a fast score; the answer is ranked by a final score.
 * For SQ8 rows the two differ: shards compare with the quantized query.
 */
module ShardMerge {
  import opened Options
  import opened Sets
  import opened LayerSearch
  import opened HnswGraph
  import opened HnswShards

  /** How many rows are asked of each shard; bounded if rows may be dropped afterwards. */
  function Retrieve(k: int, dropping: bool): int
  {
    var r := if k < 10 then 10 else k;
    if !dropping then r
    else
      var eight := if r < k * 8 then k * 8 else r;
      var some := if eight < 32 then 32 else eight;
      if some > 256 then 256 else some
  }

  /** At least `k` rows are asked of each shard unless rows may be dropped and `k` is over 256. */
  lemma RetrieveCovers(k: int, dropping: bool)
    ensures Retrieve(k, dropping) >= k <==> !dropping || k <= 256
  {
  }

  /** Each shard is asked for ten rows or `k` and, where rows may be dropped, for
      eight times `k` between 32 and 256. */
  lemma RetrieveIs(k: int)
    requires k > 0
    ensures Retrieve(k, false) == if k < 10 then 10 else k
    ensures Retrieve(k, true) == if k <= 4 then 32 else if k >= 32 then 256 else 8 * k
  {
  }

  ghost function UnionOf(pools: seq<set<int>>): set<int>
  {
    set s, id | 0 <= s < |pools| && id in pools[s] :: id
  }

  function Concat(parts: seq<seq<Scored>>): seq<Scored>
  {
    if parts == [] then [] else Concat(parts[..|parts| - 1]) + parts[|parts| - 1]
  }

  lemma {:induction false} ConcatHolds(parts: seq<seq<Scored>>, x: Scored)
    ensures x in Concat(parts) <==> exists s :: 0 <= s < |parts| && x in parts[s]
  {
    if parts != [] {
      var n := |parts| - 1;
      ConcatHolds(parts[..n], x);
      if x in Concat(parts[..n]) {
        var s :| 0 <= s < n && x in parts[..n][s];
        assert x in parts[s];
      }
      if s :| 0 <= s < n && x in parts[s] {
        assert x in parts[..n][s];
      }
    }
  }

  /** At least the asked-for score. */
  predicate Good(score: int -> real, min: Option<real>, id: int)
  {
    min.None? || score(id) >= min.value
  }

  function GoodFor(score: int -> real, min: Option<real>): int -> bool
  {
    id => Good(score, min, id)
  }

  /** The rows a search asks for. */
  function Wanted(score: int -> real, accept: int -> bool, min: Option<real>): int -> bool
  {
    id => accept(id) && Good(score, min, id)
  }

  /** What one shard contributed: the best `retrieve` accepted rows of its pool. */
  ghost predicate PartsOk(score: int -> real, accept: int -> bool, pools: seq<set<int>>, parts: seq<seq<Scored>>, retrieve: int)
  {
    |parts| == |pools| && forall s :: 0 <= s < |parts| ==> TopK(score, accept, pools[s], retrieve, parts[s])
  }

  lemma InSomePart(parts: seq<seq<Scored>>, id: int) returns (s: nat)
    requires id in Ids(Concat(parts))
    ensures s < |parts| && id in Ids(parts[s])
  {
    var x :| x in Concat(parts) && x.id == id;
    ConcatHolds(parts, x);
    s :| 0 <= s < |parts| && x in parts[s];
  }

  lemma FromPart(parts: seq<seq<Scored>>, s: nat, id: int)
    requires s < |parts| && id in Ids(parts[s])
    ensures id in Ids(Concat(parts))
  {
    var x :| x in parts[s] && x.id == id;
    ConcatHolds(parts, x);
  }

  lemma ManyIds(score: int -> real, accept: int -> bool, pool: set<int>, k: int, part: seq<Scored>)
    requires TopK(score, accept, pool, k, part)
    ensures |Ids(part)| == |part|
  {
    DistinctIds(part);
  }

  lemma {:induction false} DistinctIds(part: seq<Scored>)
    requires forall i, j :: 0 <= i < j < |part| ==> part[i].id != part[j].id
    ensures |Ids(part)| == |part|
  {
    if part != [] {
      var n := |part| - 1;
      DistinctIds(part[..n]);
      assert part == part[..n] + [part[n]];
      assert Ids(part) == Ids(part[..n]) + {part[n].id};
    }
  }

  /** A row left out by its shard is beaten by enough rows that were brought in. */
  lemma LeftOutBeaten(score: int -> real, accept: int -> bool, min: Option<real>, pools: seq<set<int>>, parts: seq<seq<Scored>>,
                      retrieve: int, k: int, results: seq<Scored>, s: nat, id: int)
    requires retrieve >= k && PartsOk(score, accept, pools, parts, retrieve)
    requires TopK(score, GoodFor(score, min), Ids(Concat(parts)), k, results)
    requires s < |pools| && id in pools[s] && accept(id) && Good(score, min, id) && id !in Ids(parts[s])
    ensures |results| == k && forall x :: x in results ==> score(id) <= x.score
  {
    hide Concat, Ids;
    var part, top := parts[s], Ids(parts[s]);
    assert TopK(score, accept, pools[s], retrieve, part);
    ManyIds(score, accept, pools[s], retrieve, part);
    ManyIds(score, GoodFor(score, min), Ids(Concat(parts)), k, results);
    forall y | y in top
      ensures score(y) >= score(id) && Good(score, min, y) && y in Ids(Concat(parts))
    {
      FromPart(parts, s, y);
      IdScored(score, part, y);
    }
    if exists y :: y in top && y !in Ids(results) {
      var y :| y in top && y !in Ids(results);
      assert score(y) >= score(id);
    } else {
      assert top <= Ids(results);
      SubsetCard(top, Ids(results));
      assert top == Ids(results);
      forall x | x in results
        ensures score(id) <= x.score
      {
        ScoredId(score, results, x);
      }
    }
  }

  lemma IdScored(score: int -> real, part: seq<Scored>, id: int)
    requires WellScored(score, part) && id in Ids(part)
    ensures exists x :: x in part && x.id == id && x.score == score(id)
  {
    var x :| x in part && x.id == id;
  }

  lemma ScoredId(score: int -> real, part: seq<Scored>, x: Scored)
    requires WellScored(score, part) && x in part
    ensures x.id in Ids(part) && x.score == score(x.id)
  {
  }

  /** Found and ranked by one score, and asked for at least `k` rows each, the
      shards' answers hold the best `k` of all pools. */
  lemma MergedTopK(score: int -> real, accept: int -> bool, min: Option<real>, pools: seq<set<int>>, parts: seq<seq<Scored>>,
                   retrieve: int, k: int, results: seq<Scored>)
    requires retrieve >= k && PartsOk(score, accept, pools, parts, retrieve)
    requires TopK(score, GoodFor(score, min), Ids(Concat(parts)), k, results)
    ensures TopK(score, Wanted(score, accept, min), UnionOf(pools), k, results)
  {
    hide Concat, Ids;
    forall id | id in Ids(results)
      ensures id in UnionOf(pools) && accept(id) && Good(score, min, id)
    {
      var s := InSomePart(parts, id);
      assert TopK(score, accept, pools[s], retrieve, parts[s]);
    }
    forall id | id in UnionOf(pools) && accept(id) && Good(score, min, id) && id !in Ids(results)
      ensures |results| == k && forall x :: x in results ==> score(id) <= x.score
    {
      var s :| 0 <= s < |pools| && id in pools[s];
      if id in Ids(parts[s]) {
        FromPart(parts, s, id);
      } else {
        LeftOutBeaten(score, accept, min, pools, parts, retrieve, k, results, s, id);
      }
    }
  }

  // ---- Two scores ----

  ghost function Accepted(accept: int -> bool, pool: set<int>): set<int>
  {
    set id | id in pool && accept(id)
  }

  /** No shard has to hold back an accepted row. */
  ghost predicate Fits(accept: int -> bool, pools: seq<set<int>>, retrieve: int)
  {
    forall s :: 0 <= s < |pools| ==> |Accepted(accept, pools[s])| <= retrieve
  }

  lemma PartInside(score: int -> real, accept: int -> bool, pool: set<int>, k: int, part: seq<Scored>)
    requires TopK(score, accept, pool, k, part)
    ensures Ids(part) <= Accepted(accept, pool) && |Ids(part)| == |part| <= k
  {
    ManyIds(score, accept, pool, k, part);
  }

  /** A shard that is asked for enough returns every accepted row. */
  lemma PartIsAll(score: int -> real, accept: int -> bool, pool: set<int>, retrieve: int, part: seq<Scored>)
    requires TopK(score, accept, pool, retrieve, part) && |Accepted(accept, pool)| <= retrieve
    ensures Ids(part) == Accepted(accept, pool)
  {
    PartInside(score, accept, pool, retrieve, part);
    SubsetCard(Ids(part), Accepted(accept, pool));
    if Ids(part) != Accepted(accept, pool) {
      var id := Missing(Ids(part), Accepted(accept, pool));
    }
  }

  /** Whatever the two scores, the answer is the best `k` by the final one if no
      shard has to hold back an accepted row. */
  lemma RescoredTopK(fast: int -> real, exact: int -> real, accept: int -> bool, min: Option<real>, pools: seq<set<int>>,
                     parts: seq<seq<Scored>>, retrieve: int, k: int, rows: seq<Scored>)
    requires PartsOk(fast, accept, pools, parts, retrieve) && Fits(accept, pools, retrieve)
    requires TopK(exact, GoodFor(exact, min), Ids(Concat(parts)), k, rows)
    ensures TopK(exact, Wanted(exact, accept, min), UnionOf(pools), k, rows)
  {
    hide Concat, Ids;
    forall id
      ensures id in Ids(Concat(parts)) <==> id in UnionOf(pools) && accept(id)
    {
      AllComeIn(fast, accept, pools, parts, retrieve, id);
    }
  }

  lemma AllComeIn(fast: int -> real, accept: int -> bool, pools: seq<set<int>>, parts: seq<seq<Scored>>, retrieve: int, id: int)
    requires PartsOk(fast, accept, pools, parts, retrieve) && Fits(accept, pools, retrieve)
    ensures id in Ids(Concat(parts)) <==> id in UnionOf(pools) && accept(id)
  {
    hide Concat, Ids, TopK;
    if id in Ids(Concat(parts)) {
      var s := InSomePart(parts, id);
      PartIsAll(fast, accept, pools[s], retrieve, parts[s]);
    }
    if id in UnionOf(pools) && accept(id) {
      var s :| 0 <= s < |pools| && id in pools[s];
      PartIsAll(fast, accept, pools[s], retrieve, parts[s]);
      FromPart(parts, s, id);
    }
  }

  // ---- Every pool has a best part ----

  lemma BestAccepted(score: int -> real, rows: set<int>) returns (m: int)
    requires rows != {}
    ensures m in rows && forall id :: id in rows ==> score(id) <= score(m)
    decreases |rows|
  {
    var x := Missing({}, rows);
    var rest := rows - {x};
    if rest == {} {
      assert rows == {x};
      m := x;
    } else {
      var y := BestAccepted(score, rest);
      m := if score(x) >= score(y) then x else y;
    }
  }

  lemma {:induction false} TopKExists(score: int -> real, accept: int -> bool, pool: set<int>, k: nat) returns (part: seq<Scored>)
    ensures TopK(score, accept, pool, k, part)
    decreases |pool|
  {
    var rows := Accepted(accept, pool);
    if k == 0 || rows == {} {
      part := [];
      NoneTop(score, accept, pool, k);
    } else {
      var m := BestAccepted(score, rows);
      var rest := TopKExists(score, accept, pool - {m}, k - 1);
      part := [Scored(m, score(m))] + rest;
      OneMoreTop(score, accept, pool, k, m, rest);
    }
  }

  lemma NoneTop(score: int -> real, accept: int -> bool, pool: set<int>, k: nat)
    requires k == 0 || Accepted(accept, pool) == {}
    ensures TopK(score, accept, pool, k, [])
  {
    forall id | id in pool && accept(id)
      ensures k == 0
    {
      assert id in Accepted(accept, pool);
    }
  }

  lemma IdsFirst(x: Scored, rest: seq<Scored>)
    ensures Ids([x] + rest) == {x.id} + Ids(rest)
  {
    assert ([x] + rest)[0] == x;
    assert forall y :: y in [x] + rest <==> y == x || y in rest;
  }

  lemma RestBelow(score: int -> real, accept: int -> bool, pool: set<int>, k: int, m: int, rest: seq<Scored>)
    requires m in pool && accept(m) && (forall id :: id in Accepted(accept, pool) ==> score(id) <= score(m))
    requires TopK(score, accept, pool - {m}, k, rest)
    ensures forall i :: 0 <= i < |rest| ==> rest[i].id != m && rest[i].score <= score(m)
  {
    hide Ids;
    forall i | 0 <= i < |rest|
      ensures rest[i].id != m && rest[i].score <= score(m)
    {
      ScoredId(score, rest, rest[i]);
      assert rest[i].id in Accepted(accept, pool);
    }
  }

  lemma OneMoreTop(score: int -> real, accept: int -> bool, pool: set<int>, k: nat, m: int, rest: seq<Scored>)
    requires k > 0 && m in pool && accept(m) && (forall id :: id in Accepted(accept, pool) ==> score(id) <= score(m))
    requires TopK(score, accept, pool - {m}, k - 1, rest)
    ensures TopK(score, accept, pool, k, [Scored(m, score(m))] + rest)
  {
    hide Ids;
    var part := [Scored(m, score(m))] + rest;
    IdsFirst(Scored(m, score(m)), rest);
    RestBelow(score, accept, pool, k - 1, m, rest);
    assert forall i :: 0 < i < |part| ==> part[i] == rest[i - 1];
    assert forall x :: x in part ==> x == Scored(m, score(m)) || x in rest;
    forall id | id in pool && accept(id) && id !in Ids(part)
      ensures |part| == k && score(id) <= score(m) && forall x :: x in rest ==> score(id) <= x.score
    {
      assert id in pool - {m} && id !in Ids(rest);
      assert id in Accepted(accept, pool);
    }
  }

  lemma {:induction false} PartsExist(score: int -> real, accept: int -> bool, pools: seq<set<int>>, retrieve: nat) returns (parts: seq<seq<Scored>>)
    ensures PartsOk(score, accept, pools, parts, retrieve)
  {
    hide TopK;
    parts := [];
    for s := 0 to |pools|
      invariant |parts| == s
      invariant forall t :: 0 <= t < s ==> TopK(score, accept, pools[t], retrieve, parts[t])
    {
      var part := TopKExists(score, accept, pools[s], retrieve);
      parts := parts + [part];
    }
  }

  // ---- The exact conditions ----

  ghost predicate Disjoint(pools: seq<set<int>>)
  {
    forall s, t :: 0 <= s < t < |pools| ==> pools[s] !! pools[t]
  }

  /** Whatever the two scores, the answer is the best `k` of all pools by the final one. */
  ghost predicate AlwaysBest(accept: int -> bool, min: Option<real>, pools: seq<set<int>>, retrieve: int, k: int)
  {
    forall fast: int -> real, exact: int -> real, parts, rows ::
      PartsOk(fast, accept, pools, parts, retrieve) && TopK(exact, GoodFor(exact, min), Ids(Concat(parts)), k, rows) ==>
        TopK(exact, Wanted(exact, accept, min), UnionOf(pools), k, rows)
  }

  /** The same when one score both finds and ranks. */
  ghost predicate AlwaysBestByOne(accept: int -> bool, min: Option<real>, pools: seq<set<int>>, retrieve: int, k: int)
  {
    forall score: int -> real, parts, rows ::
      PartsOk(score, accept, pools, parts, retrieve) && TopK(score, GoodFor(score, min), Ids(Concat(parts)), k, rows) ==>
        TopK(score, Wanted(score, accept, min), UnionOf(pools), k, rows)
  }

  function Floor(min: Option<real>): real
  {
    if min.None? then 0.0 else min.value
  }

  /** One row below all others. */
  function Dip(x: int): int -> real
  {
    id => if id == x then 0.0 else 1.0
  }

  /** The given rows above all others, and all rows good. */
  function Raised(min: Option<real>, rows: set<int>): int -> real
  {
    id => if id in rows then Floor(min) + 1.0 else Floor(min)
  }

  /** The row with the worst score is held back by a shard that has too many. */
  lemma HeldBack(x: int, accept: int -> bool, pool: set<int>, retrieve: int, part: seq<Scored>)
    requires TopK(Dip(x), accept, pool, retrieve, part) && |Accepted(accept, pool)| > retrieve
    ensures x !in Ids(part)
  {
    PartInside(Dip(x), accept, pool, retrieve, part);
    var y := Larger(Ids(part), Accepted(accept, pool));
    if x in Ids(part) {
      IdScored(Dip(x), part, x);
    }
  }

  /** A row missing from its shard's part is missing from all parts. */
  lemma MissingFromAll(score: int -> real, accept: int -> bool, pools: seq<set<int>>, parts: seq<seq<Scored>>, retrieve: int, s: nat, x: int)
    requires PartsOk(score, accept, pools, parts, retrieve) && Disjoint(pools)
    requires s < |pools| && x in pools[s] && x !in Ids(parts[s])
    ensures x !in Ids(Concat(parts))
  {
    hide Concat, Ids, TopK;
    forall t | 0 <= t < |parts|
      ensures x !in Ids(parts[t])
    {
      PartInside(score, accept, pools[t], retrieve, parts[t]);
    }
    InNoPart(parts, x);
  }

  lemma InNoPart(parts: seq<seq<Scored>>, x: int)
    requires forall t :: 0 <= t < |parts| ==> x !in Ids(parts[t])
    ensures x !in Ids(Concat(parts))
  {
    hide Concat, Ids;
    if x in Ids(Concat(parts)) {
      var t := InSomePart(parts, x);
    }
  }

  /** An answer without the best wanted row is wrong. */
  lemma LacksBest(score: int -> real, wanted: int -> bool, pool: set<int>, k: int, rows: seq<Scored>, x: int)
    requires k > 0 && x in pool && wanted(x) && x !in Ids(rows)
    requires forall r :: r in rows ==> r.score < score(x)
    ensures !TopK(score, wanted, pool, k, rows)
  {
    if |rows| == k {
      assert rows[0] in rows;
    }
  }

  lemma TooManyMisses(accept: int -> bool, min: Option<real>, pools: seq<set<int>>, retrieve: nat, k: int, s: nat)
    requires k > 0 && Disjoint(pools) && s < |pools| && |Accepted(accept, pools[s])| > retrieve
    ensures !AlwaysBest(accept, min, pools, retrieve, k)
  {
    hide TopK, Concat, Ids;
    var x := Larger({}, Accepted(accept, pools[s]));
    var fast, exact := Dip(x), Raised(min, {x});
    var parts := PartsExist(fast, accept, pools, retrieve);
    HeldBack(x, accept, pools[s], retrieve, parts[s]);
    MissingFromAll(fast, accept, pools, parts, retrieve, s, x);
    var rows := TopKExists(exact, GoodFor(exact, min), Ids(Concat(parts)), k);
    AnswerLacks(exact, min, Ids(Concat(parts)), k, rows, x);
    LacksBest(exact, Wanted(exact, accept, min), UnionOf(pools), k, rows, x);
  }

  lemma AnswerLacks(exact: int -> real, min: Option<real>, found: set<int>, k: int, rows: seq<Scored>, x: int)
    requires exact == Raised(min, {x}) && x !in found && TopK(exact, GoodFor(exact, min), found, k, rows)
    ensures x !in Ids(rows) && forall r :: r in rows ==> r.score < exact(x)
  {
    forall r | r in rows
      ensures r.score < exact(x)
    {
      ScoredId(exact, rows, r);
    }
  }

  /** The answer is the best `k` by the final score, whatever the two scores,
      exactly when no shard has more accepted rows than it is asked for. */
  lemma TwoScoresIff(accept: int -> bool, min: Option<real>, pools: seq<set<int>>, retrieve: nat, k: int)
    requires k > 0 && Disjoint(pools)
    ensures AlwaysBest(accept, min, pools, retrieve, k) <==> Fits(accept, pools, retrieve)
  {
    hide TopK, Concat, Ids;
    if Fits(accept, pools, retrieve) {
      forall fast: int -> real, exact: int -> real, parts, rows |
          PartsOk(fast, accept, pools, parts, retrieve) && TopK(exact, GoodFor(exact, min), Ids(Concat(parts)), k, rows)
        ensures TopK(exact, Wanted(exact, accept, min), UnionOf(pools), k, rows)
      {
        RescoredTopK(fast, exact, accept, min, pools, parts, retrieve, k, rows);
      }
    } else {
      var s :| 0 <= s < |pools| && |Accepted(accept, pools[s])| > retrieve;
      TooManyMisses(accept, min, pools, retrieve, k, s);
    }
  }

  /** With one shard's rows above all others an answer without one of them needs `k` of them. */
  lemma FewerThanAsked(accept: int -> bool, min: Option<real>, pools: seq<set<int>>, retrieve: nat, k: int, s: nat)
    requires k > retrieve && Disjoint(pools) && s < |pools| && |Accepted(accept, pools[s])| > retrieve
    ensures !AlwaysBestByOne(accept, min, pools, retrieve, k)
  {
    hide TopK, Concat, Ids;
    var score := Raised(min, pools[s]);
    var parts := PartsExist(score, accept, pools, retrieve);
    PartInside(score, accept, pools[s], retrieve, parts[s]);
    var y := Larger(Ids(parts[s]), Accepted(accept, pools[s]));
    MissingFromAll(score, accept, pools, parts, retrieve, s, y);
    var rows := TopKExists(score, GoodFor(score, min), Ids(Concat(parts)), k);
    if TopK(score, Wanted(score, accept, min), UnionOf(pools), k, rows) {
      FullOfRaised(score, accept, min, pools, parts, retrieve, k, rows, s, y);
      PartInside(score, GoodFor(score, min), Ids(Concat(parts)), k, rows);
      SubsetCard(Ids(rows), Ids(parts[s]));
    }
  }

  lemma FullOfRaised(score: int -> real, accept: int -> bool, min: Option<real>, pools: seq<set<int>>, parts: seq<seq<Scored>>,
                     retrieve: nat, k: int, rows: seq<Scored>, s: nat, y: int)
    requires s < |pools| && score == Raised(min, pools[s]) && Disjoint(pools)
    requires PartsOk(score, accept, pools, parts, retrieve)
    requires y in pools[s] && accept(y) && y !in Ids(Concat(parts))
    requires TopK(score, GoodFor(score, min), Ids(Concat(parts)), k, rows)
    requires TopK(score, Wanted(score, accept, min), UnionOf(pools), k, rows)
    ensures |rows| == k && Ids(rows) <= Ids(parts[s])
  {
    hide Concat, Ids, TopK, Raised, UnionOf, Disjoint, PartsOk;
    InUnion(pools, s, y);
    assert |parts| == |pools| by {
      PartsAndPools(score, accept, pools, parts, retrieve);
    }
    LeftOutOf(score, GoodFor(score, min), Ids(Concat(parts)), k, rows, y);
    RaisedWanted(accept, min, pools[s], y);
    AllAbove(score, Wanted(score, accept, min), UnionOf(pools), k, rows, y);
    forall id | id in Ids(rows)
      ensures id in Ids(parts[s])
    {
      FoundIn(score, GoodFor(score, min), Ids(Concat(parts)), k, rows, id);
      AllAbove(score, Wanted(score, accept, min), UnionOf(pools), k, rows, y);
      RaisedOnly(min, pools[s], y, id);
      if id !in Ids(parts[s]) {
        MissingFromAll(score, accept, pools, parts, retrieve, s, id);
      }
    }
  }

  lemma InUnion(pools: seq<set<int>>, s: nat, y: int)
    requires s < |pools| && y in pools[s]
    ensures y in UnionOf(pools)
  {
  }

  lemma PartsAndPools(score: int -> real, accept: int -> bool, pools: seq<set<int>>, parts: seq<seq<Scored>>, retrieve: int)
    requires PartsOk(score, accept, pools, parts, retrieve)
    ensures |parts| == |pools|
  {
  }

  lemma FoundIn(score: int -> real, filter: int -> bool, pool: set<int>, k: int, rows: seq<Scored>, id: int)
    requires TopK(score, filter, pool, k, rows) && id in Ids(rows)
    ensures id in pool
  {
  }

  lemma LeftOutOf(score: int -> real, filter: int -> bool, pool: set<int>, k: int, rows: seq<Scored>, y: int)
    requires TopK(score, filter, pool, k, rows) && y !in pool
    ensures y !in Ids(rows)
  {
  }

  /** An answer that lacks a wanted row is full of rows scored at least as high. */
  lemma AllAbove(score: int -> real, filter: int -> bool, pool: set<int>, k: int, rows: seq<Scored>, y: int)
    requires TopK(score, filter, pool, k, rows) && y in pool && filter(y) && y !in Ids(rows)
    ensures |rows| == k && forall id :: id in Ids(rows) ==> score(y) <= score(id)
  {
    forall id | id in Ids(rows)
      ensures score(y) <= score(id)
    {
      IdScored(score, rows, id);
    }
  }

  lemma RaisedWanted(accept: int -> bool, min: Option<real>, pool: set<int>, y: int)
    requires y in pool && accept(y)
    ensures Wanted(Raised(min, pool), accept, min)(y)
  {
  }

  lemma RaisedOnly(min: Option<real>, pool: set<int>, y: int, id: int)
    requires y in pool && Raised(min, pool)(y) <= Raised(min, pool)(id)
    ensures id in pool
  {
  }

  /** With one score the answer is the best `k`, whatever the score, exactly when
      each shard is asked for at least `k` rows or has no more than it is asked for. */
  lemma OneScoreIff(accept: int -> bool, min: Option<real>, pools: seq<set<int>>, retrieve: nat, k: int)
    requires k > 0 && Disjoint(pools)
    ensures AlwaysBestByOne(accept, min, pools, retrieve, k) <==> retrieve >= k || Fits(accept, pools, retrieve)
  {
    hide TopK, Concat, Ids;
    if retrieve >= k || Fits(accept, pools, retrieve) {
      forall score: int -> real, parts, rows |
          PartsOk(score, accept, pools, parts, retrieve) && TopK(score, GoodFor(score, min), Ids(Concat(parts)), k, rows)
        ensures TopK(score, Wanted(score, accept, min), UnionOf(pools), k, rows)
      {
        if retrieve >= k {
          MergedTopK(score, accept, min, pools, parts, retrieve, k, rows);
        } else {
          RescoredTopK(score, score, accept, min, pools, parts, retrieve, k, rows);
        }
      }
    } else {
      var s :| 0 <= s < |pools| && |Accepted(accept, pools[s])| > retrieve;
      FewerThanAsked(accept, min, pools, retrieve, k, s);
    }
  }

  // ---- Eight shards that miss a row ----

  predicate Anything(id: int) { true }

  function Numbers(n: nat): set<int>
  {
    if n == 0 then {} else Numbers(n - 1) + {n - 1}
  }

  lemma {:induction false} NumbersCount(n: nat)
    ensures |Numbers(n)| == n && forall i :: i in Numbers(n) <==> 0 <= i < n
  {
    if n > 0 {
      NumbersCount(n - 1);
    }
  }

  /** All rows are in the first shard. */
  function InFirstShard(rows: set<int>): seq<set<int>>
  {
    [rows, {}, {}, {}, {}, {}, {}, {}]
  }

  lemma FirstShardOver(n: nat, retrieve: nat)
    requires n > retrieve
    ensures var pools := InFirstShard(Numbers(n));
            |pools| == SHARDS && Disjoint(pools) && !Fits(Anything, pools, retrieve)
  {
    var pools := InFirstShard(Numbers(n));
    NumbersCount(n);
    assert Accepted(Anything, pools[0]) == Numbers(n);
    assert |Accepted(Anything, pools[0])| > retrieve;
  }

  /** With nothing dropped and any `k`, ranking by a second score can miss a row
      that its shard held back. */
  lemma RescoringMisses(k: int)
    requires k > 0
    ensures var retrieve := Retrieve(k, false);
            retrieve > 0 && !AlwaysBest(Anything, None, InFirstShard(Numbers(retrieve + 1)), retrieve, k)
  {
    hide Numbers, InFirstShard, AlwaysBest, Fits;
    var retrieve := Retrieve(k, false);
    FirstShardOver(retrieve + 1, retrieve);
    TwoScoresIff(Anything, None, InFirstShard(Numbers(retrieve + 1)), retrieve, k);
  }

  /** With a minimum score and `k` over 256 even one score can miss a row. */
  lemma CappedMisses(k: int, min: real)
    requires k > 256
    ensures Retrieve(k, true) == 256 && !AlwaysBestByOne(Anything, Some(min), InFirstShard(Numbers(257)), 256, k)
  {
    hide Numbers, InFirstShard, AlwaysBestByOne, Fits;
    FirstShardOver(257, 256);
    OneScoreIff(Anything, Some(min), InFirstShard(Numbers(257)), 256, k);
  }
}
