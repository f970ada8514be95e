/**
 * Greedy best-first search over one layer of the proximity graph
 * (internal/engine/hnsw.go): the stamped visited array, the two heaps and the
 * search loop.  Scores are real numbers given by an arbitrary function of the
 * row, so nothing here depends on which similarity is used.
 */
module LayerSearch {
  import opened BinaryHeap
  import opened Sets
  import opened Sorting

  /** A graph node: the highest layer it lives on and its edges per layer. */
  datatype Node = Node(layer: int, edges: map<int, seq<int>>)

  /** A row together with its score. */
  datatype Scored = Scored(id: int, score: real)

  const STAMP_LIMIT: nat := 0x1_0000_0000

  function Edges(nodes: map<int, Node>, lc: int, id: int): seq<int>
  {
    if id in nodes && lc in nodes[id].edges then nodes[id].edges[lc] else []
  }

  // ---- Reachability on one layer ----

  /** `p` leads from an entry point over edges of layer `lc`.  Negative ids are
      never followed. */
  ghost predicate IsPath(nodes: map<int, Node>, lc: int, entries: set<int>, p: seq<int>)
  {
    && |p| > 0
    && p[0] in entries
    && (forall i :: 0 <= i < |p| ==> p[i] >= 0)
    && (forall i {:trigger p[i]} :: 0 < i < |p| ==> p[i] in Edges(nodes, lc, p[i - 1]))
  }

  ghost predicate Reachable(nodes: map<int, Node>, lc: int, entries: set<int>, id: int)
  {
    exists p :: IsPath(nodes, lc, entries, p) && p[|p| - 1] == id
  }

  /** Every row an edge of the layer or an entry point names. */
  ghost function Universe(nodes: map<int, Node>, lc: int, entries: set<int>): set<int>
  {
    entries + set id, n | id in nodes.Keys && n in Edges(nodes, lc, id) :: n
  }

  ghost function ReachSet(nodes: map<int, Node>, lc: int, entries: set<int>): set<int>
  {
    set id | id in Universe(nodes, lc, entries) && Reachable(nodes, lc, entries, id)
  }

  /** All usable neighbours of `id` are in `s`. */
  ghost predicate Expanded(nodes: map<int, Node>, lc: int, s: set<int>, id: int)
  {
    forall n :: n in Edges(nodes, lc, id) && n >= 0 ==> n in s
  }

  lemma EntryReachable(nodes: map<int, Node>, lc: int, entries: set<int>, id: int)
    requires id in entries && id >= 0
    ensures id in ReachSet(nodes, lc, entries)
  {
    assert IsPath(nodes, lc, entries, [id]);
    assert [id][|[id]| - 1] == id;
  }

  lemma NeighbourReachable(nodes: map<int, Node>, lc: int, entries: set<int>, id: int, n: int)
    requires id in ReachSet(nodes, lc, entries)
    requires n in Edges(nodes, lc, id) && n >= 0
    ensures n in ReachSet(nodes, lc, entries)
  {
    var p :| IsPath(nodes, lc, entries, p) && p[|p| - 1] == id;
    var q := p + [n];
    assert IsPath(nodes, lc, entries, q);
    assert q[|q| - 1] == n;
  }

  /** A set that holds the entry points and all neighbours of its members holds
      everything reachable. */
  lemma {:induction false} ClosedHoldsPath(nodes: map<int, Node>, lc: int, entries: set<int>, s: set<int>, p: seq<int>)
    requires forall id :: id in entries && id >= 0 ==> id in s
    requires forall id :: id in s ==> Expanded(nodes, lc, s, id)
    requires IsPath(nodes, lc, entries, p)
    ensures p[|p| - 1] in s
  {
    if |p| > 1 {
      var q := p[..|p| - 1];
      assert forall i :: 0 <= i < |q| ==> q[i] == p[i];
      ClosedHoldsPath(nodes, lc, entries, s, q);
      assert Expanded(nodes, lc, s, q[|q| - 1]);
    }
  }

  lemma ClosedHoldsReachable(nodes: map<int, Node>, lc: int, entries: set<int>, s: set<int>)
    requires forall id :: id in entries && id >= 0 ==> id in s
    requires forall id :: id in s ==> Expanded(nodes, lc, s, id)
    ensures ReachSet(nodes, lc, entries) <= s
  {
    forall id | id in ReachSet(nodes, lc, entries)
      ensures id in s
    {
      var p :| IsPath(nodes, lc, entries, p) && p[|p| - 1] == id;
      ClosedHoldsPath(nodes, lc, entries, s, p);
    }
  }

  // ---- Heaps of scored rows ----

  ghost function Ids(h: seq<Scored>): set<int>
  {
    set x | x in h :: x.id
  }

  ghost predicate WellScored(score: int -> real, h: seq<Scored>)
  {
    forall x :: x in h ==> x.score == score(x.id)
  }

  ghost predicate NoDup(h: seq<Scored>)
  {
    forall x :: x in h ==> multiset(h)[x] == 1
  }

  function Worst(x: Scored): real { x.score }
  function Best(x: Scored): real { -x.score }

  /** `nearest` keeps the best of the scored rows `s`: whatever it lacks scores
      no better than anything it holds, and it lacks something only when it
      holds at least `ef` rows. */
  ghost predicate KeepsBest(score: int -> real, ef: nat, s: set<int>, nearest: seq<Scored>)
  {
    && WellScored(score, nearest)
    && NoDup(nearest)
    && Ids(nearest) <= s
    && (forall id :: id in s && id !in Ids(nearest) ==> |nearest| >= ef)
    && (forall id, x :: id in s && id !in Ids(nearest) && x in nearest ==> score(id) <= x.score)
  }

  lemma MultisetIn<T>(a: seq<T>, b: seq<T>)
    requires multiset(a) == multiset(b)
    ensures |a| == |b|
    ensures forall x :: x in a <==> x in b
  {
    assert forall x :: x in a <==> x in multiset(a);
    assert forall x :: x in b <==> x in multiset(b);
    assert |multiset(a)| == |a| && |multiset(b)| == |b|;
  }

  /** What pushing one row does to the contents of a heap. */
  lemma AfterPush(h: seq<Scored>, x: Scored, r: seq<Scored>)
    requires multiset(r) == multiset(h) + multiset{x}
    ensures |r| == |h| + 1
    ensures forall y :: y in r <==> y in h || y == x
    ensures Ids(r) == Ids(h) + {x.id}
    ensures NoDup(h) && x !in h ==> NoDup(r)
    ensures NoDup(r) ==> NoDup(h) && x !in h
  {
    MultisetIn(r, h + [x]);
    assert forall y :: y in multiset(h) <==> y in h;
    assert forall y :: multiset(r)[y] == multiset(h)[y] + (if y == x then 1 else 0);
    if NoDup(r) {
      assert x in r;
    }
  }

  lemma {:induction false} IdsCount(score: int -> real, h: seq<Scored>)
    requires WellScored(score, h) && NoDup(h)
    ensures |Ids(h)| == |h|
    ensures forall i, j :: 0 <= i < j < |h| ==> h[i].id != h[j].id
  {
    if |h| > 0 {
      var g, x := h[..|h| - 1], h[|h| - 1];
      assert h == g + [x];
      AfterPush(g, x, h);
      IdsCount(score, g);
      assert x.id !in Ids(g) by {
        assert forall y :: y in g && y.id == x.id ==> y == x;
      }
      assert Ids(h) == Ids(g) + {x.id};
    }
  }

  lemma RootBelowAll(h: seq<Scored>)
    requires IsHeap(Worst, h)
    ensures forall x :: x in h ==> h[0].score <= x.score
  {
    forall x | x in h
      ensures h[0].score <= x.score
    {
      var i :| 0 <= i < |h| && h[i] == x;
      RootIsLeast(Worst, h, i);
    }
  }

  /** Adding a row that beats the worst kept row, or for which there is room. */
  lemma PushKeepsBest(score: int -> real, ef: nat, s: set<int>, nearest: seq<Scored>, id: int, r: seq<Scored>)
    requires KeepsBest(score, ef, s, nearest) && IsHeap(Worst, nearest)
    requires id !in s
    requires |nearest| < ef || (|nearest| > 0 && score(id) > nearest[0].score)
    requires multiset(r) == multiset(nearest) + multiset{Scored(id, score(id))}
    ensures KeepsBest(score, ef, s + {id}, r)
  {
    var added := Scored(id, score(id));
    assert added in nearest ==> added.id in Ids(nearest);
    AfterPush(nearest, added, r);
    RootBelowAll(nearest);
    forall other, x | other in s + {id} && other !in Ids(r) && x in r
      ensures score(other) <= x.score
    {
      assert other in s && other !in Ids(nearest);
      if x == added {
        assert nearest[0] in nearest;
      }
    }
  }

  /** Dropping the worst of too many kept rows. */
  lemma DropKeepsBest(score: int -> real, ef: nat, s: set<int>, full: seq<Scored>, x: Scored, r: seq<Scored>)
    requires KeepsBest(score, ef, s, full)
    requires |full| > ef
    requires multiset(full) == multiset(r) + multiset{x}
    requires forall y :: y in full ==> x.score <= y.score
    ensures KeepsBest(score, ef, s, r)
  {
    AfterPush(r, x, full);
  }

  /** A row that does not beat any of `ef` kept rows. */
  lemma RejectKeepsBest(score: int -> real, ef: nat, s: set<int>, nearest: seq<Scored>, id: int)
    requires KeepsBest(score, ef, s, nearest) && IsHeap(Worst, nearest)
    requires |nearest| >= ef >= 1 && score(id) <= nearest[0].score
    ensures KeepsBest(score, ef, s + {id}, nearest)
  {
    RootBelowAll(nearest);
  }

  /** What holds of the two heaps whenever `s` is the set of scored rows. */
  ghost predicate Searching(score: int -> real, ef: nat, s: set<int>, candidates: seq<Scored>, nearest: seq<Scored>)
  {
    && KeepsBest(score, ef, s, nearest)
    && IsHeap(Worst, nearest)
    && IsHeap(Best, candidates)
    && WellScored(score, candidates)
    && Ids(candidates) <= s
  }

  /** Every kept row is still a candidate, or is pending, or has had all its
      neighbours scored. */
  ghost predicate Frontier(nodes: map<int, Node>, lc: int, s: set<int>, candidates: seq<Scored>, nearest: seq<Scored>, pending: set<int>)
  {
    forall x :: x in nearest ==> x in candidates || x.id in pending || Expanded(nodes, lc, s, x.id)
  }

  /** The frontier survives scoring more rows. */
  lemma FrontierStep(nodes: map<int, Node>, lc: int, s: set<int>, candidates: seq<Scored>, nearest: seq<Scored>, pending: set<int>,
                     s': set<int>, candidates': seq<Scored>, nearest': seq<Scored>)
    requires Frontier(nodes, lc, s, candidates, nearest, pending)
    requires s <= s'
    requires forall x :: x in candidates ==> x in candidates'
    requires forall x :: x in nearest' ==> x in nearest || x in candidates'
    ensures Frontier(nodes, lc, s', candidates', nearest', pending)
  {
    forall x | x in nearest' && x in nearest && Expanded(nodes, lc, s, x.id)
      ensures Expanded(nodes, lc, s', x.id)
    {
    }
  }

  /** Once its neighbours are scored, the current row is like any other. */
  lemma FrontierDone(nodes: map<int, Node>, lc: int, s: set<int>, candidates: seq<Scored>, nearest: seq<Scored>, current: int)
    requires Frontier(nodes, lc, s, candidates, nearest, {current})
    requires Expanded(nodes, lc, s, current)
    ensures Frontier(nodes, lc, s, candidates, nearest, {})
  {
  }

  /** A row is offered to the kept rows exactly as the search loop does. */
  method Offer(score: int -> real, ef: nat, ghost s: set<int>, candidates: seq<Scored>, nearest: seq<Scored>, id: int)
    returns (candidates': seq<Scored>, nearest': seq<Scored>)
    requires ef >= 1
    requires id !in s
    requires Searching(score, ef, s, candidates, nearest) && |nearest| <= ef
    ensures Searching(score, ef, s + {id}, candidates', nearest') && |nearest'| <= ef
    ensures forall x :: x in candidates ==> x in candidates'
    ensures forall x :: x in nearest' ==> x in nearest || x in candidates'
  {
    hide KeepsBest, IsHeap, NoDup;
    candidates', nearest' := candidates, nearest;
    var nScore := score(id);
    if |nearest| < ef || nScore > nearest[0].score {
      var candidate := Scored(id, nScore);
      candidates' := Push(Best, candidates, candidate);
      AfterPush(candidates, candidate, candidates');
      nearest' := Push(Worst, nearest, candidate);
      AfterPush(nearest, candidate, nearest');
      PushKeepsBest(score, ef, s, nearest, id, nearest');
      if |nearest'| > ef {
        ghost var full := nearest';
        var dropped;
        dropped, nearest' := Pop(Worst, nearest');
        AfterPush(nearest', dropped, full);
        DropKeepsBest(score, ef, s + {id}, full, dropped, nearest');
      }
    } else {
      RejectKeepsBest(score, ef, s, nearest, id);
    }
  }

  // ---- The search ----

  /** Per-search working memory, taken from a pool and reused. */
  class SearchScratch {
    var stamp: nat          // 32-bit counter
    var visited: seq<nat>   // stamp of the last search that marked the row
    var candidates: seq<Scored>
    var nearest: seq<Scored>

    /** No row carries a stamp from the future. */
    ghost predicate Valid()
      reads `stamp, `visited
    {
      stamp < STAMP_LIMIT && forall i :: 0 <= i < |visited| ==> visited[i] <= stamp
    }

    /** Rows marked since the last reset. */
    ghost function Marked(): set<int>
      reads `stamp, `visited
    {
      set i | 0 <= i < |visited| && visited[i] == stamp
    }

    constructor ()
      ensures Valid()
    {
      stamp, visited, candidates, nearest := 0, [], [], [];
    }

    /** Forgets all marks in constant time; when the counter wraps round, the
        stamps are erased so that no stamp of an earlier search can match. */
    method Reset(size: int)
      requires Valid()
      modifies this
      ensures Valid() && stamp >= 1
      ensures Marked() == {} && candidates == [] && nearest == []
    {
      stamp := (stamp + 1) % STAMP_LIMIT;
      if stamp == 0 {
        visited := seq(|visited|, _ => 0);
        stamp := 1;
      }
      var wanted := if size < 1 then 1 else size;
      if |visited| < wanted {
        visited := seq(wanted, _ => 0);
      }
      candidates, nearest := [], [];
    }

    /** Marks a row and reports whether it was marked before.  Negative rows
        count as marked. */
    method Mark(id: int) returns (seen: bool)
      requires Valid() && stamp >= 1
      modifies this`visited
      ensures Valid()
      ensures seen <==> id < 0 || id in old(Marked())
      ensures Marked() == old(Marked()) + (if id < 0 then {} else {id})
    {
      if id < 0 {
        return true;
      }
      if id >= |visited| {
        var n := if |visited| < 16 then 16 else |visited|;
        while n <= id
          invariant n >= |visited| && n >= 16
        {
          n := n * 2;
        }
        visited := visited + seq(n - |visited|, _ => 0);
        assert Marked() == old(Marked());
      }
      if visited[id] == stamp {
        return true;
      }
      visited := visited[id := stamp];
      return false;
    }
  }

  /** Scores the neighbours of one candidate. */
  method Expand(nodes: map<int, Node>, score: int -> real, ef: nat, lc: int, ghost entries: set<int>, current: int, scratch: SearchScratch)
    requires ef >= 1
    requires scratch.Valid() && scratch.stamp >= 1
    requires Searching(score, ef, scratch.Marked(), scratch.candidates, scratch.nearest) && |scratch.nearest| <= ef
    requires Frontier(nodes, lc, scratch.Marked(), scratch.candidates, scratch.nearest, {current})
    requires scratch.Marked() <= ReachSet(nodes, lc, entries)
    requires current in scratch.Marked()
    modifies scratch
    ensures scratch.Valid() && scratch.stamp >= 1
    ensures Searching(score, ef, scratch.Marked(), scratch.candidates, scratch.nearest) && |scratch.nearest| <= ef
    ensures Frontier(nodes, lc, scratch.Marked(), scratch.candidates, scratch.nearest, {})
    ensures scratch.Marked() <= ReachSet(nodes, lc, entries)
    ensures old(scratch.Marked()) <= scratch.Marked()
    ensures scratch.Marked() == old(scratch.Marked()) ==> scratch.candidates == old(scratch.candidates)
  {
    hide Searching, Frontier, ReachSet, SearchScratch.Marked, SearchScratch.Valid;
    var edges := Edges(nodes, lc, current);
    for i := 0 to |edges|
      invariant scratch.Valid() && scratch.stamp >= 1
      invariant Searching(score, ef, scratch.Marked(), scratch.candidates, scratch.nearest) && |scratch.nearest| <= ef
      invariant Frontier(nodes, lc, scratch.Marked(), scratch.candidates, scratch.nearest, {current})
      invariant scratch.Marked() <= ReachSet(nodes, lc, entries)
      invariant old(scratch.Marked()) <= scratch.Marked()
      invariant scratch.Marked() == old(scratch.Marked()) ==> scratch.candidates == old(scratch.candidates)
      invariant forall j :: 0 <= j < i && edges[j] >= 0 ==> edges[j] in scratch.Marked()
    {
      var n := edges[i];
      ghost var s := scratch.Marked();
      var seen := scratch.Mark(n);
      assert scratch.Marked() == if seen then s else s + {n};
      if !seen {
        NeighbourReachable(nodes, lc, entries, current, n);
        var candidates, nearest := Offer(score, ef, s, scratch.candidates, scratch.nearest, n);
        FrontierStep(nodes, lc, s, scratch.candidates, scratch.nearest, {current}, s + {n}, candidates, nearest);
        scratch.candidates, scratch.nearest := candidates, nearest;
      }
    }
    FrontierDone(nodes, lc, scratch.Marked(), scratch.candidates, scratch.nearest, current);
  }

  /** Non-negative entry points that are in the graph. */
  ghost function Usable(nodes: map<int, Node>, entryPoints: seq<int>): set<int>
  {
    set id | id in entryPoints && id in nodes && id >= 0
  }

  lemma UsableStep(nodes: map<int, Node>, entryPoints: seq<int>, i: nat)
    requires i < |entryPoints|
    ensures Usable(nodes, entryPoints[..i + 1])
         == Usable(nodes, entryPoints[..i]) + (if entryPoints[i] in nodes && entryPoints[i] >= 0 then {entryPoints[i]} else {})
  {
    assert entryPoints[..i + 1] == entryPoints[..i] + [entryPoints[i]];
  }

  /** Puts the entry points on both heaps. */
  method Seed(nodes: map<int, Node>, score: int -> real, ef: nat, entryPoints: seq<int>, scratch: SearchScratch)
    requires scratch.Valid() && scratch.stamp >= 1
    requires scratch.Marked() == {} && scratch.candidates == [] && scratch.nearest == []
    modifies scratch
    ensures scratch.Valid() && scratch.stamp >= 1
    ensures scratch.Marked() == Usable(nodes, entryPoints)
    ensures Searching(score, ef, scratch.Marked(), scratch.candidates, scratch.nearest)
    ensures forall x :: x in scratch.nearest ==> x in scratch.candidates
  {
    hide KeepsBest, IsHeap, NoDup, Usable, SearchScratch.Marked, SearchScratch.Valid;
    EmptySearching(score, ef);
    assert scratch.Marked() == Usable(nodes, entryPoints[..0]) by {
      EmptyUsable(nodes, entryPoints[..0]);
    }
    for i := 0 to |entryPoints|
      invariant scratch.Valid() && scratch.stamp >= 1
      invariant scratch.Marked() == Usable(nodes, entryPoints[..i])
      invariant Searching(score, ef, scratch.Marked(), scratch.candidates, scratch.nearest)
      invariant forall x :: x in scratch.nearest ==> x in scratch.candidates
      invariant scratch.Marked() <= Ids(scratch.nearest)
    {
      var id := entryPoints[i];
      UsableStep(nodes, entryPoints, i);
      ghost var s := scratch.Marked();
      if id in nodes {
        var seen := scratch.Mark(id);
        assert scratch.Marked() == if seen then s else s + {id};
        if !seen {
          var candidate := Scored(id, score(id));
          var candidates := Push(Best, scratch.candidates, candidate);
          AfterPush(scratch.candidates, candidate, candidates);
          var nearest := Push(Worst, scratch.nearest, candidate);
          AfterPush(scratch.nearest, candidate, nearest);
          PushEntryKeepsBest(score, ef, s, scratch.nearest, id, nearest);
          scratch.candidates, scratch.nearest := candidates, nearest;
        }
      }
    }
    assert entryPoints[..|entryPoints|] == entryPoints;
  }

  lemma EmptyUsable(nodes: map<int, Node>, entryPoints: seq<int>)
    requires entryPoints == []
    ensures Usable(nodes, entryPoints) == {}
  {
  }

  /** Trims the kept rows to `ef`. */
  method Trim(score: int -> real, ef: nat, ghost s: set<int>, candidates: seq<Scored>, start: seq<Scored>) returns (nearest: seq<Scored>)
    requires Searching(score, ef, s, candidates, start)
    ensures Searching(score, ef, s, candidates, nearest) && |nearest| <= ef
    ensures forall x :: x in nearest ==> x in start
  {
    hide KeepsBest, IsHeap, NoDup, Ids;
    nearest := start;
    while |nearest| > ef
      invariant Searching(score, ef, s, candidates, nearest)
      invariant forall x :: x in nearest ==> x in start
      decreases |nearest|
    {
      ghost var full := nearest;
      var dropped;
      dropped, nearest := Pop(Worst, nearest);
      AfterPush(nearest, dropped, full);
      DropKeepsBest(score, ef, s, full, dropped, nearest);
    }
  }

  lemma EmptySearching(score: int -> real, ef: nat)
    ensures Searching(score, ef, {}, [], [])
  {
  }

  /** Nothing is missing while the entry points are pushed. */
  lemma PushEntryKeepsBest(score: int -> real, ef: nat, s: set<int>, nearest: seq<Scored>, id: int, r: seq<Scored>)
    requires KeepsBest(score, ef, s, nearest) && s <= Ids(nearest)
    requires id !in s
    requires multiset(r) == multiset(nearest) + multiset{Scored(id, score(id))}
    ensures KeepsBest(score, ef, s + {id}, r)
  {
    var added := Scored(id, score(id));
    assert added in nearest ==> added.id in Ids(nearest);
    AfterPush(nearest, added, r);
  }

  /** When the best remaining candidate is worse than every kept row, or no
      candidate remains, the neighbours of all kept rows have been scored. */
  lemma SearchEnds(nodes: map<int, Node>, score: int -> real, lc: int, s: set<int>, candidates: seq<Scored>, nearest: seq<Scored>, c: Scored)
    requires Frontier(nodes, lc, s, candidates, nearest, {c.id})
    requires IsHeap(Worst, nearest) && WellScored(score, nearest)
    requires |nearest| > 0 && c.score == score(c.id) < nearest[0].score
    requires forall x :: x in candidates ==> x.score <= c.score
    ensures forall x :: x in nearest ==> Expanded(nodes, lc, s, x.id)
  {
    RootBelowAll(nearest);
  }

  /** The rows the search keeps, before filtering: the best `ef` of the rows it
      scored, with all their neighbours scored. */
  ghost predicate BestOf(nodes: map<int, Node>, score: int -> real, ef: nat, lc: int, scored: set<int>, best: set<int>)
  {
    && best <= scored
    && |best| == (if |scored| < ef then |scored| else ef)
    && (forall b, s :: b in best && s in scored && s !in best ==> score(s) <= score(b))
    && (forall b :: b in best ==> Expanded(nodes, lc, scored, b))
  }

  lemma KeptAreBest(nodes: map<int, Node>, score: int -> real, ef: nat, lc: int, s: set<int>, nearest: seq<Scored>)
    requires KeepsBest(score, ef, s, nearest) && |nearest| <= ef
    requires forall x :: x in nearest ==> Expanded(nodes, lc, s, x.id)
    ensures BestOf(nodes, score, ef, lc, s, Ids(nearest))
  {
    IdsCount(score, nearest);
    var best := Ids(nearest);
    SubsetCard(best, s);
    if best != s {
      var id := Missing(best, s);
    }
  }

  /** With room for every reachable row the search is exhaustive. */
  lemma SearchIsExhaustive(nodes: map<int, Node>, score: int -> real, ef: nat, lc: int, entries: set<int>, scored: set<int>, best: set<int>)
    requires BestOf(nodes, score, ef, lc, scored, best)
    requires entries <= scored <= ReachSet(nodes, lc, entries)
    requires |ReachSet(nodes, lc, entries)| <= ef
    ensures best == ReachSet(nodes, lc, entries)
  {
    SubsetCard(scored, ReachSet(nodes, lc, entries));
    SubsetCard(best, scored);
    ClosedHoldsReachable(nodes, lc, entries, scored);
  }

  /** Empties the kept rows, applies the filter and sorts the rest. */
  method Drain(score: int -> real, filter: int -> bool, start: seq<Scored>) returns (found: seq<Scored>)
    requires IsHeap(Worst, start) && WellScored(score, start) && NoDup(start)
    ensures WellScored(score, found)
    ensures Ids(found) == set id | id in Ids(start) && filter(id)
    ensures forall i, j :: 0 <= i < j < |found| ==> found[i].id != found[j].id && found[i].score >= found[j].score
  {
    hide IsHeap;
    var nearest, results := start, [];
    while |nearest| > 0
      invariant IsHeap(Worst, nearest) && WellScored(score, nearest) && NoDup(nearest)
      invariant WellScored(score, results) && NoDup(results)
      invariant Ids(results) !! Ids(nearest)
      invariant Ids(results) <= Ids(start) && Ids(nearest) <= Ids(start)
      invariant forall id :: id in Ids(start) ==> id in Ids(nearest) || (id in Ids(results) <==> filter(id))
      decreases |nearest|
    {
      ghost var before := nearest;
      var candidate;
      candidate, nearest := Pop(Worst, nearest);
      AfterPush(nearest, candidate, before);
      if filter(candidate.id) {
        assert multiset(results + [candidate]) == multiset(results) + multiset{candidate};
        assert candidate in results ==> candidate.id in Ids(results);
        AfterPush(results, candidate, results + [candidate]);
        results := results + [candidate];
      }
    }
    found := SortBy(Best, results);
    MultisetIn(found, results);
    IdsCount(score, found);
  }

  /** Pops candidates, best first, until the rest cannot improve on the kept rows. */
  method Explore(nodes: map<int, Node>, score: int -> real, ef: nat, lc: int, ghost entries: set<int>, scratch: SearchScratch)
    requires ef >= 1
    requires scratch.Valid() && scratch.stamp >= 1
    requires Searching(score, ef, scratch.Marked(), scratch.candidates, scratch.nearest) && |scratch.nearest| <= ef
    requires Frontier(nodes, lc, scratch.Marked(), scratch.candidates, scratch.nearest, {})
    requires scratch.Marked() <= ReachSet(nodes, lc, entries)
    modifies scratch
    ensures scratch.Valid()
    ensures old(scratch.Marked()) <= scratch.Marked() <= ReachSet(nodes, lc, entries)
    ensures Searching(score, ef, scratch.Marked(), scratch.candidates, scratch.nearest) && |scratch.nearest| <= ef
    ensures forall x :: x in scratch.nearest ==> Expanded(nodes, lc, scratch.Marked(), x.id)
  {
    hide Searching, Frontier, Expanded, ReachSet, IsHeap, KeepsBest, NoDup, SearchScratch.Marked, SearchScratch.Valid;
    ghost var reach := ReachSet(nodes, lc, entries);
    while |scratch.candidates| > 0
      invariant scratch.Valid() && scratch.stamp >= 1
      invariant Searching(score, ef, scratch.Marked(), scratch.candidates, scratch.nearest) && |scratch.nearest| <= ef
      invariant Frontier(nodes, lc, scratch.Marked(), scratch.candidates, scratch.nearest, {})
      invariant old(scratch.Marked()) <= scratch.Marked() <= reach
      decreases reach - scratch.Marked(), |scratch.candidates|
    {
      ghost var before := scratch.candidates;
      SearchingParts(score, ef, scratch.Marked(), before, scratch.nearest);
      var c, rest := Pop(Best, scratch.candidates);
      AfterPush(rest, c, before);
      SearchingPop(score, ef, scratch.Marked(), before, scratch.nearest, c, rest);
      FrontierPop(nodes, lc, scratch.Marked(), before, scratch.nearest, c, rest);
      scratch.candidates := rest;
      if |scratch.nearest| >= ef && c.score < scratch.nearest[0].score {
        SearchEnds(nodes, score, lc, scratch.Marked(), rest, scratch.nearest, c);
        return;
      }
      Expand(nodes, score, ef, lc, entries, c.id, scratch);
    }
    FrontierEmpty(nodes, lc, scratch.Marked(), scratch.candidates, scratch.nearest);
  }

  /**
   * Best-first search from the entry points over one layer.  Afterwards the
   * marked rows are exactly the rows that were scored.
   */
  method SearchLayer(nodes: map<int, Node>, score: int -> real, entryPoints: seq<int>, wanted: int, lc: int,
                     filter: int -> bool, scratch: SearchScratch)
    returns (found: seq<Scored>, ghost best: set<int>)
    requires scratch.Valid() && scratch.stamp >= 1
    requires scratch.Marked() == {} && scratch.candidates == [] && scratch.nearest == []
    modifies scratch
    ensures scratch.Valid()
    ensures Usable(nodes, entryPoints) <= scratch.Marked() <= ReachSet(nodes, lc, Usable(nodes, entryPoints))
    ensures BestOf(nodes, score, if wanted < 1 then 1 else wanted, lc, scratch.Marked(), best)
    ensures |ReachSet(nodes, lc, Usable(nodes, entryPoints))| <= wanted ==> best == ReachSet(nodes, lc, Usable(nodes, entryPoints))
    ensures WellScored(score, found)
    ensures Ids(found) == set id | id in best && filter(id)
    ensures forall i, j :: 0 <= i < j < |found| ==> found[i].id != found[j].id && found[i].score >= found[j].score
  {
    hide Searching, Frontier, Expanded, ReachSet, Usable, IsHeap, KeepsBest, NoDup, BestOf, SearchScratch.Marked, SearchScratch.Valid;
    var ef := if wanted < 1 then 1 else wanted;
    ghost var entries := Usable(nodes, entryPoints);
    Seed(nodes, score, ef, entryPoints, scratch);
    scratch.nearest := Trim(score, ef, entries, scratch.candidates, scratch.nearest);
    FrontierStart(nodes, lc, entries, scratch.candidates, scratch.nearest);
    EntriesReachable(nodes, lc, entryPoints);
    Explore(nodes, score, ef, lc, entries, scratch);
    SearchingParts(score, ef, scratch.Marked(), scratch.candidates, scratch.nearest);
    KeptAreBest(nodes, score, ef, lc, scratch.Marked(), scratch.nearest);
    best := Ids(scratch.nearest);
    if |ReachSet(nodes, lc, entries)| <= wanted {
      SearchIsExhaustive(nodes, score, ef, lc, entries, scratch.Marked(), best);
    }
    found := Drain(score, filter, scratch.nearest);
  }

  lemma EntriesReachable(nodes: map<int, Node>, lc: int, entryPoints: seq<int>)
    ensures Usable(nodes, entryPoints) <= ReachSet(nodes, lc, Usable(nodes, entryPoints))
  {
    var entries := Usable(nodes, entryPoints);
    forall id | id in entries
      ensures id in ReachSet(nodes, lc, entries)
    {
      EntryReachable(nodes, lc, entries, id);
    }
  }

  lemma SearchingParts(score: int -> real, ef: nat, s: set<int>, candidates: seq<Scored>, nearest: seq<Scored>)
    requires Searching(score, ef, s, candidates, nearest)
    ensures IsHeap(Best, candidates) && IsHeap(Worst, nearest)
    ensures KeepsBest(score, ef, s, nearest) && WellScored(score, nearest) && NoDup(nearest)
  {
  }

  lemma SearchingPop(score: int -> real, ef: nat, s: set<int>, candidates: seq<Scored>, nearest: seq<Scored>, c: Scored, rest: seq<Scored>)
    requires Searching(score, ef, s, candidates, nearest)
    requires IsHeap(Best, rest)
    requires forall x :: x in candidates <==> x in rest || x == c
    ensures Searching(score, ef, s, rest, nearest)
    ensures c.id in s && c.score == score(c.id)
  {
  }

  lemma FrontierStart(nodes: map<int, Node>, lc: int, s: set<int>, candidates: seq<Scored>, nearest: seq<Scored>)
    requires forall x :: x in nearest ==> x in candidates
    ensures Frontier(nodes, lc, s, candidates, nearest, {})
  {
  }

  lemma FrontierPop(nodes: map<int, Node>, lc: int, s: set<int>, candidates: seq<Scored>, nearest: seq<Scored>, c: Scored, rest: seq<Scored>)
    requires Frontier(nodes, lc, s, candidates, nearest, {})
    requires forall x :: x in candidates <==> x in rest || x == c
    ensures Frontier(nodes, lc, s, rest, nearest, {c.id})
  {
  }

  lemma FrontierEmpty(nodes: map<int, Node>, lc: int, s: set<int>, candidates: seq<Scored>, nearest: seq<Scored>)
    requires Frontier(nodes, lc, s, candidates, nearest, {})
    requires candidates == []
    ensures forall x :: x in nearest ==> Expanded(nodes, lc, s, x.id)
  {
  }
}
