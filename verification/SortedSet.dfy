/** The sorted set: a score per member and a slice of all pairs kept in order. */
module SortedSet {

  datatype Pair = Pair(member: string, score: real)

  // ---- The order of pairs ----

  predicate Less(a: string, b: string)
  {
    b != [] && (a == [] || a[0] < b[0] || (a[0] == b[0] && Less(a[1..], b[1..])))
  }

  lemma {:induction false} LessIsTotal(a: string, b: string)
    ensures a == b || Less(a, b) || Less(b, a)
  {
    if a != [] && b != [] && a[0] == b[0] {
      LessIsTotal(a[1..], b[1..]);
      assert a == [a[0]] + a[1..] && b == [b[0]] + b[1..];
    }
  }

  lemma {:induction false} LessIsTransitive(a: string, b: string, c: string)
    requires Less(a, b) && Less(b, c)
    ensures Less(a, c)
  {
    if a != [] && a[0] == b[0] == c[0] {
      LessIsTransitive(a[1..], b[1..], c[1..]);
    }
  }

  lemma {:induction false} LessIsIrreflexive(a: string)
    ensures !Less(a, a)
  {
    if a != [] {
      LessIsIrreflexive(a[1..]);
    }
  }

  predicate Before(p: Pair, q: Pair)
  {
    p.score < q.score || (p.score == q.score && Less(p.member, q.member))
  }

  lemma BeforeIsTotal(p: Pair, q: Pair)
    ensures p == q || Before(p, q) || Before(q, p)
  {
    LessIsTotal(p.member, q.member);
  }

  lemma BeforeIsTransitive(p: Pair, q: Pair, r: Pair)
    requires Before(p, q) && Before(q, r)
    ensures Before(p, r)
  {
    if p.score == q.score == r.score {
      LessIsTransitive(p.member, q.member, r.member);
    }
  }

  lemma BeforeIsIrreflexive(p: Pair)
    ensures !Before(p, p)
  {
    LessIsIrreflexive(p.member);
  }

  predicate Ordered(s: seq<Pair>)
  {
    forall i, j :: 0 <= i < j < |s| ==> Before(s[i], s[j])
  }

  /** `a` is a proper prefix of `b`, or smaller at the first difference. */
  predicate Precedes(a: string, b: string, i: nat)
  {
    && i <= |a| && i < |b| && a[..i] == b[..i]
    && (i == |a| || a[i] < b[i])
  }

  lemma {:induction false} LessIff(a: string, b: string)
    ensures Less(a, b) <==> exists i :: Precedes(a, b, i)
  {
    if b != [] && a != [] && a[0] == b[0] {
      LessIff(a[1..], b[1..]);
      if Less(a, b) {
        var i: nat :| Precedes(a[1..], b[1..], i);
        assert a[..i + 1] == [a[0]] + a[1..][..i] && b[..i + 1] == [b[0]] + b[1..][..i];
        assert Precedes(a, b, i + 1);
      }
      if i: nat :| Precedes(a, b, i) {
        assert i > 0;
        assert a[1..][..i - 1] == a[..i][1..] && b[1..][..i - 1] == b[..i][1..];
        assert Precedes(a[1..], b[1..], i - 1);
      }
    } else if b != [] && (a == [] || a[0] < b[0]) {
      assert Precedes(a, b, 0);
    } else if i: nat :| Precedes(a, b, i) {
      assert false;
    }
  }

  /** Pairs are in order exactly when scores do not fall and equal scores are
      sorted by member. */
  lemma OrderedIff(s: seq<Pair>)
    ensures Ordered(s) <==> forall i, j :: 0 <= i < j < |s| ==>
              s[i].score < s[j].score || (s[i].score == s[j].score && exists k :: Precedes(s[i].member, s[j].member, k))
  {
    hide Less, Precedes;
    forall i, j | 0 <= i < j < |s|
      ensures Less(s[i].member, s[j].member) <==> exists k :: Precedes(s[i].member, s[j].member, k)
    {
      LessIff(s[i].member, s[j].member);
    }
  }

  // ---- The slice and the score map ----

  /** `s` lists exactly the pairs of `scores`. */
  predicate Lists(s: seq<Pair>, scores: map<string, real>)
  {
    && (forall i :: 0 <= i < |s| ==> s[i].member in scores && scores[s[i].member] == s[i].score)
    && (forall m :: m in scores ==> Pair(m, scores[m]) in s)
  }

  /** The members whose pair comes before `p`. */
  function Smaller(scores: map<string, real>, p: Pair): set<string>
  {
    set m | m in scores && Before(Pair(m, scores[m]), p)
  }

  function MembersOf(s: seq<Pair>): set<string>
  {
    set i | 0 <= i < |s| :: s[i].member
  }

  predicate OncePerMember(s: seq<Pair>)
  {
    forall i, j :: 0 <= i < j < |s| ==> s[i].member != s[j].member
  }

  lemma {:induction false} CountMembers(s: seq<Pair>)
    requires OncePerMember(s)
    ensures |MembersOf(s)| == |s|
  {
    if s != [] {
      var t, last := s[..|s| - 1], s[|s| - 1].member;
      CountMembers(t);
      assert last !in MembersOf(t);
      assert MembersOf(s) == MembersOf(t) + {last};
    }
  }

  lemma OrderedOncePerMember(s: seq<Pair>, scores: map<string, real>)
    requires Ordered(s) && Lists(s, scores)
    ensures OncePerMember(s)
  {
    forall i, j | 0 <= i < j < |s|
      ensures s[i].member != s[j].member
    {
      if s[i].member == s[j].member {
        BeforeIsIrreflexive(s[i]);
        assert false;
      }
    }
  }

  lemma Find(s: seq<Pair>, scores: map<string, real>, m: string) returns (j: nat)
    requires Lists(s, scores) && m in scores
    ensures j < |s| && s[j] == Pair(m, scores[m])
  {
    j :| 0 <= j < |s| && s[j] == Pair(m, scores[m]);
  }

  lemma BeforeMeansEarlier(s: seq<Pair>, j: nat, k: nat)
    requires Ordered(s) && j < |s| && k < |s| && Before(s[j], s[k])
    ensures j < k
  {
    if k < j {
      BeforeIsTransitive(s[j], s[k], s[j]);
    }
    BeforeIsIrreflexive(s[j]);
  }

  /** A pair's position is the number of smaller pairs. */
  lemma PositionIsRank(s: seq<Pair>, scores: map<string, real>, k: nat)
    requires Ordered(s) && Lists(s, scores) && k < |s|
    ensures |Smaller(scores, s[k])| == k
  {
    hide Less;
    OrderedOncePerMember(s, scores);
    CountMembers(s[..k]);
    forall m | m in Smaller(scores, s[k])
      ensures m in MembersOf(s[..k])
    {
      var j := Find(s, scores, m);
      BeforeMeansEarlier(s, j, k);
      assert s[..k][j].member == m;
    }
    assert MembersOf(s[..k]) == Smaller(scores, s[k]);
  }

  /** The score map alone decides the slice, whatever order the updates came in. */
  lemma OneOrder(s: seq<Pair>, t: seq<Pair>, scores: map<string, real>)
    requires Ordered(s) && Lists(s, scores) && Ordered(t) && Lists(t, scores)
    ensures s == t
  {
    if s != [] {
      SameAt(s, t, scores, |s| - 1);
    }
    if t != [] {
      SameAt(t, s, scores, |t| - 1);
    }
    forall k | 0 <= k < |s|
      ensures s[k] == t[k]
    {
      SameAt(s, t, scores, k);
    }
  }

  lemma SameAt(s: seq<Pair>, t: seq<Pair>, scores: map<string, real>, k: nat)
    requires Ordered(s) && Lists(s, scores) && Ordered(t) && Lists(t, scores) && k < |s|
    ensures k < |t| && s[k] == t[k]
  {
    var j := Find(t, scores, s[k].member);
    PositionIsRank(s, scores, k);
    PositionIsRank(t, scores, j);
  }

  // ---- Insertion and removal at the searched position ----

  /** `i` splits `s` into the pairs before `p` and the others. */
  predicate SplitsAt(s: seq<Pair>, p: Pair, i: int)
  {
    && 0 <= i <= |s|
    && (forall j :: 0 <= j < i ==> Before(s[j], p))
    && (forall j :: i <= j < |s| ==> !Before(s[j], p))
  }

  /** The search finds the first pair that is not before the one sought. */
  method Search(s: seq<Pair>, member: string, score: real) returns (i: nat)
    requires Ordered(s)
    ensures SplitsAt(s, Pair(member, score), i)
  {
    var p := Pair(member, score);
    i := 0;
    var hi := |s|;
    while i < hi
      invariant 0 <= i <= hi <= |s|
      invariant forall j :: 0 <= j < i ==> Before(s[j], p)
      invariant forall j :: hi <= j < |s| ==> !Before(s[j], p)
    {
      var h := (i + hi) / 2;
      var atOrAfter := if s[h].score != score then s[h].score > score else !Less(s[h].member, member);
      if !atOrAfter {
        BeforeAll(s, p, h);
        i := h + 1;
      } else {
        AfterAll(s, p, h);
        hi := h;
      }
    }
  }

  lemma BeforeAll(s: seq<Pair>, p: Pair, h: nat)
    requires Ordered(s) && h < |s| && Before(s[h], p)
    ensures forall j :: 0 <= j <= h ==> Before(s[j], p)
  {
    forall j | 0 <= j < h
      ensures Before(s[j], p)
    {
      BeforeIsTransitive(s[j], s[h], p);
    }
  }

  lemma AfterAll(s: seq<Pair>, p: Pair, h: nat)
    requires Ordered(s) && h < |s| && !Before(s[h], p)
    ensures forall j :: h <= j < |s| ==> !Before(s[j], p)
  {
    forall j | h < j < |s|
      ensures !Before(s[j], p)
    {
      if Before(s[j], p) {
        BeforeIsTransitive(s[h], s[j], p);
      }
    }
  }

  function Inserted(s: seq<Pair>, i: nat, p: Pair): seq<Pair>
    requires i <= |s|
  {
    s[..i] + [p] + s[i..]
  }

  function Removed(s: seq<Pair>, i: nat): seq<Pair>
    requires i < |s|
  {
    s[..i] + s[i + 1..]
  }

  lemma InsertedOrdered(s: seq<Pair>, i: nat, p: Pair)
    requires Ordered(s) && SplitsAt(s, p, i) && p !in s
    ensures Ordered(Inserted(s, i, p))
  {
    var t := Inserted(s, i, p);
    forall j | i <= j < |s|
      ensures Before(p, s[j])
    {
      BeforeIsTotal(p, s[j]);
    }
    assert forall j :: 0 <= j < |t| ==> t[j] == if j < i then s[j] else if j == i then p else s[j - 1];
  }

  lemma InsertedLists(s: seq<Pair>, i: nat, p: Pair, scores: map<string, real>)
    requires Lists(s, scores) && i <= |s| && p.member !in scores
    ensures Lists(Inserted(s, i, p), scores[p.member := p.score])
  {
    hide Lists;
    var t, more := Inserted(s, i, p), scores[p.member := p.score];
    forall j | 0 <= j < |t|
      ensures t[j].member in more && more[t[j].member] == t[j].score
    {
      if j != i {
        var was := if j < i then j else j - 1;
        assert t[j] == s[was];
        ListedAt(s, scores, was);
      }
    }
    forall m | m in more
      ensures Pair(m, more[m]) in t
    {
      if m == p.member {
        assert t[i] == p;
      } else {
        var j := Find(s, scores, m);
        assert t[if j < i then j else j + 1] == s[j];
      }
    }
    ListsIf(t, more);
  }

  lemma ListedAt(s: seq<Pair>, scores: map<string, real>, i: nat)
    requires Lists(s, scores) && i < |s|
    ensures s[i].member in scores && scores[s[i].member] == s[i].score
  {
  }

  lemma ListsIf(s: seq<Pair>, scores: map<string, real>)
    requires forall i :: 0 <= i < |s| ==> s[i].member in scores && scores[s[i].member] == s[i].score
    requires forall m :: m in scores ==> Pair(m, scores[m]) in s
    ensures Lists(s, scores)
  {
  }

  lemma RemovedOrdered(s: seq<Pair>, i: nat)
    requires Ordered(s) && i < |s|
    ensures Ordered(Removed(s, i))
  {
    var t := Removed(s, i);
    assert forall j :: 0 <= j < |t| ==> t[j] == if j < i then s[j] else s[j + 1];
  }

  lemma RemovedLists(s: seq<Pair>, i: nat, scores: map<string, real>)
    requires OncePerMember(s) && Lists(s, scores) && i < |s|
    ensures Lists(Removed(s, i), scores - {s[i].member})
  {
    hide Lists;
    var t, rest := Removed(s, i), scores - {s[i].member};
    forall j | 0 <= j < |t|
      ensures t[j].member in rest && rest[t[j].member] == t[j].score
    {
      var was := if j < i then j else j + 1;
      assert t[j] == s[was];
      ListedAt(s, scores, was);
    }
    forall m | m in rest
      ensures Pair(m, rest[m]) in t
    {
      var j := Find(s, scores, m);
      assert t[if j < i then j else j - 1] == s[j];
    }
    ListsIf(t, rest);
  }

  /** The search for a listed pair stops on it. */
  lemma SearchHits(s: seq<Pair>, p: Pair, i: nat)
    requires Ordered(s) && SplitsAt(s, p, i) && p in s
    ensures i < |s| && s[i] == p
  {
    var j :| 0 <= j < |s| && s[j] == p;
    BeforeIsIrreflexive(p);
    Ascends(s, i, j);
  }

  lemma Ascends(s: seq<Pair>, i: nat, j: nat)
    requires Ordered(s) && i <= j < |s|
    ensures i < j ==> Before(s[i], s[j])
  {
  }

  // ---- The sorted set ----

  class ZSet {
    var scores: map<string, real>
    var sorted: seq<Pair>

    ghost predicate Valid()
      reads this
    {
      Ordered(sorted) && Lists(sorted, scores)
    }

    constructor ()
      ensures Valid() && scores == map[]
    {
      scores := map[];
      sorted := [];
    }

    /** Places a new member; the slice then lists one pair more. */
    method InsertSorted(member: string, score: real, ghost listed: map<string, real>)
      requires Ordered(sorted) && Lists(sorted, listed) && member !in listed
      modifies `sorted
      ensures Ordered(sorted) && Lists(sorted, listed[member := score])
    {
      var i := Search(sorted, member, score);
      InsertedOrdered(sorted, i, Pair(member, score));
      InsertedLists(sorted, i, Pair(member, score), listed);
      sorted := sorted[..i] + [Pair(member, score)] + sorted[i..];
    }

    /** Given the listed score the search always finds the member. */
    method RemoveSorted(member: string, score: real, ghost listed: map<string, real>)
      requires Ordered(sorted) && Lists(sorted, listed)
      requires member in listed && listed[member] == score
      modifies `sorted
      ensures Ordered(sorted) && Lists(sorted, listed - {member})
    {
      var i := Search(sorted, member, score);
      SearchHits(sorted, Pair(member, score), i);
      OrderedOncePerMember(sorted, listed);
      RemovedOrdered(sorted, i);
      RemovedLists(sorted, i, listed);
      if i < |sorted| && sorted[i].member == member {
        sorted := sorted[..i] + sorted[i + 1..];
      }
    }

    /** Sets one score, moving the member's pair if it had one. */
    method Put(member: string, score: real)
      requires Valid()
      modifies this
      ensures Valid() && scores == old(scores)[member := score]
    {
      ghost var listed := scores;
      if member in scores {
        RemoveSorted(member, scores[member], listed);
        listed := listed - {member};
      }
      scores := scores[member := score];
      InsertSorted(member, score, listed);
      assert listed[member := score] == scores;
    }

    /** Any order of the given members leaves the same set. */
    method ZAdd(members: map<string, real>) returns (added: nat)
      requires Valid()
      modifies this
      ensures Valid() && scores == old(scores) + members
      ensures added == |members.Keys - old(scores).Keys|
    {
      hide Valid, Merged, New;
      added := 0;
      var rest := members.Keys;
      ghost var done: set<string> := {};
      MergedNone(scores, members);
      while rest != {}
        invariant Valid() && done + rest == members.Keys && done !! rest
        invariant scores == Merged(old(scores), members, done)
        invariant added == New(old(scores), done)
        decreases |rest|
      {
        var member :| member in rest;
        MergedMore(old(scores), members, done, member);
        NewMore(old(scores), done, member);
        if member !in scores {
          added := added + 1;
        }
        Put(member, members[member]);
        rest := rest - {member};
        done := done + {member};
      }
      assert done == members.Keys;
      MergedAll(old(scores), members);
    }

    method ZRem(members: seq<string>) returns (removed: nat)
      requires Valid()
      modifies this
      ensures Valid() && scores == old(scores) - (set m | m in members)
      ensures removed == |old(scores).Keys * (set m | m in members)|
    {
      hide Ordered, Lists, Without, Held;
      removed := 0;
      ghost var gone: set<string> := {};
      WithoutNone(scores);
      for k := 0 to |members|
        invariant Valid() && gone == (set m | m in members[..k])
        invariant scores == Without(old(scores), gone)
        invariant removed == Held(old(scores), gone)
      {
        var member := members[k];
        assert members[..k + 1] == members[..k] + [member];
        WithoutMore(old(scores), gone, member);
        gone := gone + {member};
        if member in scores {
          var score := scores[member];
          ghost var listed := scores;
          scores := scores - {member};
          RemoveSorted(member, score, listed);
          removed := removed + 1;
        }
      }
      assert members[..|members|] == members;
      WithoutIs(old(scores), gone);
    }

    method ZIncrBy(member: string, delta: real) returns (score: real)
      requires Valid()
      modifies this
      ensures Valid() && scores == old(scores)[member := score]
      ensures score == delta + if member in old(scores) then old(scores)[member] else 0.0
    {
      score := if member in scores then scores[member] else 0.0;
      score := score + delta;
      Put(member, score);
    }

    /** The rank is the number of pairs before the member's. */
    method ZRank(member: string) returns (rank: nat, found: bool)
      requires Valid()
      ensures found <==> member in scores
      ensures found ==> rank == |Smaller(scores, Pair(member, scores[member]))| < |scores|
      ensures !found ==> rank == 0
    {
      AsManyPairs(sorted, scores);
      for i := 0 to |sorted|
        invariant forall j :: 0 <= j < i ==> sorted[j].member != member
      {
        if sorted[i].member == member {
          PositionIsRank(sorted, scores, i);
          ListedAt(sorted, scores, i);
          return i, true;
        }
      }
      NotListed(sorted, scores, member);
      return 0, false;
    }

    /** The reverse rank counts the pairs after the member's. */
    method ZRevRank(member: string) returns (rank: nat, found: bool)
      requires Valid()
      ensures found <==> member in scores
      ensures found ==> rank + 1 + |Smaller(scores, Pair(member, scores[member]))| == |scores|
    {
      AsManyPairs(sorted, scores);
      rank, found := ZRank(member);
      if found {
        rank := |sorted| - 1 - rank;
      }
    }

    /** Returns, in order, exactly the pairs ranked from `start` to `stop`,
        negative bounds counting from the end. */
    method ZRange(start: int, stop: int) returns (r: seq<Pair>)
      requires Valid()
      ensures Ordered(r)
      ensures forall p :: p in r <==>
                && p.member in scores && scores[p.member] == p.score
                && (if start < 0 then |scores| + start else start) <= |Smaller(scores, p)|
                && |Smaller(scores, p)| <= (if stop < 0 then |scores| + stop else stop)
    {
      hide Ordered, Lists, IsRanked, Smaller;
      AsManyPairs(sorted, scores);
      var n := |sorted|;
      var lo := if start < 0 then n + start else start;
      var hi := if stop < 0 then n + stop else stop;
      if lo < 0 {
        lo := 0;
      }
      if hi >= n {
        hi := n - 1;
      }
      if lo > hi {
        RanksBelow(sorted, scores);
        NoPairs();
        return [];
      }
      r := sorted[lo..hi + 1];
      SliceIsRanked(sorted, scores, lo, hi + 1);
      RanksBelow(sorted, scores);
    }

    /** Returns, in order, exactly the pairs scored between the bounds. */
    method ZRangeByScore(min: real, max: real) returns (r: seq<Pair>)
      requires Valid()
      ensures Ordered(r)
      ensures forall p :: p in r <==> p.member in scores && scores[p.member] == p.score && min <= p.score <= max
    {
      hide Ordered, Lists;
      r := [];
      assert sorted[..0] == [];
      for i := 0 to |sorted|
        invariant r == Between(sorted[..i], min, max)
      {
        assert sorted[..i + 1][..i] == sorted[..i];
        if sorted[i].score >= min && sorted[i].score <= max {
          r := r + [sorted[i]];
        }
      }
      assert sorted[..|sorted|] == sorted;
      BetweenOrdered(sorted, min, max);
      ListedIff(sorted, scores);
    }
  }

  function Between(s: seq<Pair>, min: real, max: real): (r: seq<Pair>)
    ensures forall p :: p in r <==> p in s && min <= p.score <= max
  {
    if s == [] then [] else
    var last := s[|s| - 1];
    assert s == s[..|s| - 1] + [last];
    Between(s[..|s| - 1], min, max) + if min <= last.score <= max then [last] else []
  }

  lemma {:induction false} BetweenOrdered(s: seq<Pair>, min: real, max: real)
    requires Ordered(s)
    ensures Ordered(Between(s, min, max))
  {
    if s != [] {
      var t := s[..|s| - 1];
      BetweenOrdered(t, min, max);
      forall p | p in Between(t, min, max)
        ensures Before(p, s[|s| - 1])
      {
        assert p in t;
      }
    }
  }

  lemma ListedIff(s: seq<Pair>, scores: map<string, real>)
    requires Lists(s, scores)
    ensures forall p :: p in s <==> p.member in scores && scores[p.member] == p.score
  {
  }

  /** `scores` with the scores of `done` already set. */
  ghost function Merged(scores: map<string, real>, members: map<string, real>, done: set<string>): map<string, real>
    requires done <= members.Keys
  {
    map m | m in scores.Keys + done :: if m in done then members[m] else scores[m]
  }

  lemma MergedNone(scores: map<string, real>, members: map<string, real>)
    ensures Merged(scores, members, {}) == scores && New(scores, {}) == 0
  {
  }

  lemma MergedAll(scores: map<string, real>, members: map<string, real>)
    ensures Merged(scores, members, members.Keys) == scores + members
    ensures New(scores, members.Keys) == |members.Keys - scores.Keys|
  {
  }

  lemma MergedMore(scores: map<string, real>, members: map<string, real>, done: set<string>, m: string)
    requires done <= members.Keys && m in members && m !in done
    ensures Merged(scores, members, done)[m := members[m]] == Merged(scores, members, done + {m})
    ensures m in Merged(scores, members, done) <==> m in scores
  {
  }

  function New(scores: map<string, real>, done: set<string>): nat
  {
    |done - scores.Keys|
  }

  lemma NewMore(scores: map<string, real>, done: set<string>, m: string)
    requires m !in done
    ensures New(scores, done + {m}) == New(scores, done) + if m in scores then 0 else 1
  {
    assert (done + {m}) - scores.Keys == (done - scores.Keys) + if m in scores then {} else {m};
  }

  function Without(scores: map<string, real>, gone: set<string>): map<string, real>
  {
    scores - gone
  }

  function Held(scores: map<string, real>, gone: set<string>): nat
  {
    |scores.Keys * gone|
  }

  lemma WithoutNone(scores: map<string, real>)
    ensures Without(scores, {}) == scores && Held(scores, {}) == 0
  {
  }

  lemma WithoutIs(scores: map<string, real>, gone: set<string>)
    ensures Without(scores, gone) == scores - gone && Held(scores, gone) == |scores.Keys * gone|
  {
  }

  lemma WithoutMore(scores: map<string, real>, gone: set<string>, m: string)
    ensures var left := Without(scores, gone);
            && Without(scores, gone + {m}) == (if m in left then left - {m} else left)
            && Held(scores, gone + {m}) == Held(scores, gone) + if m in left then 1 else 0
  {
    assert scores.Keys * (gone + {m}) == scores.Keys * gone + if m in scores - gone then {m} else {};
  }

  lemma NotListed(s: seq<Pair>, scores: map<string, real>, m: string)
    requires Lists(s, scores) && forall j :: 0 <= j < |s| ==> s[j].member != m
    ensures m !in scores
  {
    if m in scores {
      var j := Find(s, scores, m);
    }
  }

  lemma AsManyPairs(s: seq<Pair>, scores: map<string, real>)
    requires Ordered(s) && Lists(s, scores)
    ensures |s| == |scores|
  {
    OrderedOncePerMember(s, scores);
    CountMembers(s);
    forall m
      ensures m in MembersOf(s) <==> m in scores
    {
      if m in scores {
        var j :| 0 <= j < |s| && s[j] == Pair(m, scores[m]);
        assert s[j].member == m;
      }
    }
    assert MembersOf(s) == scores.Keys;
  }

  predicate IsRanked(scores: map<string, real>, p: Pair, rank: int)
  {
    && p.member in scores && scores[p.member] == p.score
    && |Smaller(scores, p)| == rank
  }

  lemma RankedAt(s: seq<Pair>, scores: map<string, real>, k: nat)
    requires Ordered(s) && Lists(s, scores) && k < |s|
    ensures IsRanked(scores, s[k], k)
  {
    PositionIsRank(s, scores, k);
    ListedAt(s, scores, k);
  }

  lemma NoPairs()
    ensures Ordered([])
  {
  }

  /** Every pair of the score map has a rank below its size. */
  lemma RanksBelow(s: seq<Pair>, scores: map<string, real>)
    requires Ordered(s) && Lists(s, scores)
    ensures forall p: Pair :: p.member in scores && scores[p.member] == p.score ==> |Smaller(scores, p)| < |scores|
  {
    hide Ordered, Lists, Smaller;
    AsManyPairs(s, scores);
    forall p: Pair | p.member in scores && scores[p.member] == p.score
      ensures |Smaller(scores, p)| < |scores|
    {
      var k := Find(s, scores, p.member);
      RankedAt(s, scores, k);
    }
  }

  /** A slice of the ordered pairs holds exactly the pairs with these ranks. */
  lemma SliceIsRanked(s: seq<Pair>, scores: map<string, real>, lo: nat, hi: nat)
    requires Ordered(s) && Lists(s, scores) && lo <= hi <= |s|
    ensures Ordered(s[lo..hi])
    ensures forall p :: p in s[lo..hi] <==> p.member in scores && scores[p.member] == p.score && lo <= |Smaller(scores, p)| < hi
  {
    hide Lists, Smaller;
    var r := s[lo..hi];
    forall p | p in r
      ensures p.member in scores && scores[p.member] == p.score && lo <= |Smaller(scores, p)| < hi
    {
      var k :| 0 <= k < |r| && r[k] == p;
      RankedAt(s, scores, lo + k);
    }
    forall p: Pair | p.member in scores && scores[p.member] == p.score && lo <= |Smaller(scores, p)| < hi
      ensures p in r
    {
      var k := Find(s, scores, p.member);
      RankedAt(s, scores, k);
      assert r[k - lo] == p;
    }
  }
}
