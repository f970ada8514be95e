/**
 * The sharded key-value store with its lazily invalidated deadline heaps
 * (internal/engine/kv.go).  Times are nanoseconds given by the caller.
 */
module KeyExpiry {
  import opened Options
  import opened BinaryHeap
  import opened Sets

  /** A stored value; `expiresAt` 0 means that it never expires. */
  datatype Entry<V> = Entry(value: V, expiresAt: int, version: nat)

  datatype ExpiryItem = ExpiryItem(key: string, deadline: int, version: nat)

  datatype Shard<V> = Shard(data: map<string, Entry<V>>, expiries: seq<ExpiryItem>)

  const SECOND: int := 1_000_000_000

  function Deadline(item: ExpiryItem): real
  {
    item.deadline as real
  }

  predicate IsExpired<V>(e: Entry<V>, now: int)
  {
    e.expiresAt != 0 && now > e.expiresAt
  }

  /** The reaper's notion of an entry that is over. */
  predicate Due<V>(e: Entry<V>, now: int)
  {
    0 < e.expiresAt <= now
  }

  /** Entries that the reaper can find: the heap holds their item. */
  ghost predicate Scheduled<V>(s: Shard<V>, k: string)
    requires k in s.data
  {
    ExpiryItem(k, s.data[k].expiresAt, s.data[k].version) in s.expiries
  }

  // ---- One shard ----

  ghost predicate ShardOrdered<V>(s: Shard<V>)
  {
    IsHeap(Deadline, s.expiries)
  }

  ghost predicate AllScheduled<V>(s: Shard<V>)
  {
    forall k :: k in s.data && s.data[k].expiresAt > 0 ==> Scheduled(s, k)
  }

  /** The keys that reaping at `now` would remove. */
  ghost function Reapable<V>(s: Shard<V>, now: int): set<string>
  {
    set k | k in s.data && Due(s.data[k], now) && Scheduled(s, k)
  }

  lemma ItemsOf(h: seq<ExpiryItem>, r: seq<ExpiryItem>, x: ExpiryItem)
    requires multiset(h) == multiset(r) + multiset{x}
    ensures |h| == |r| + 1
    ensures forall y :: y in h <==> y in r || y == x
  {
    assert forall y :: y in h <==> y in multiset(h);
    assert forall y :: y in r <==> y in multiset(r);
    assert |multiset(h)| == |h| && |multiset(r)| == |r|;
  }

  /** The entry an item was made for is still there, unchanged. */
  predicate Hits<V>(s: Shard<V>, item: ExpiryItem)
  {
    item.key in s.data && s.data[item.key].version == item.version && s.data[item.key].expiresAt == item.deadline
  }

  /** Popping an item removes the entry it was made for, or nothing. */
  lemma PopStep<V>(s: Shard<V>, item: ExpiryItem, rest: seq<ExpiryItem>, now: int, s': Shard<V>)
    requires forall y :: y in s.expiries <==> y in rest || y == item
    requires 0 < item.deadline <= now
    requires s' == Shard(if Hits(s, item) then s.data - {item.key} else s.data, rest)
    ensures Reapable(s', now) == Reapable(s, now) - (if Hits(s, item) then {item.key} else {})
    ensures Hits(s, item) ==> item.key in Reapable(s, now)
    ensures AllScheduled(s) ==> AllScheduled(s')
  {
    if AllScheduled(s) {
      forall k | k in s'.data && s'.data[k].expiresAt > 0
        ensures Scheduled(s', k)
      {
        assert Scheduled(s, k);
      }
    }
  }

  /** When the earliest deadline is still to come, nothing can be reaped. */
  lemma NothingDue<V>(s: Shard<V>, now: int)
    requires ShardOrdered(s)
    requires |s.expiries| > 0 ==> s.expiries[0].deadline > now
    ensures Reapable(s, now) == {}
  {
    forall k | k in s.data && Due(s.data[k], now)
      ensures !Scheduled(s, k)
    {
      forall i | 0 <= i < |s.expiries|
        ensures s.expiries[i].deadline > now
      {
        RootIsLeast(Deadline, s.expiries, i);
      }
    }
  }

  ghost predicate PositiveDeadlines<V>(s: Shard<V>)
  {
    forall item :: item in s.expiries ==> item.deadline > 0
  }

  /** A shard after reaping: some entries and items are gone. */
  ghost predicate ReapedFrom<V>(s: Shard<V>, start: Shard<V>, removed: set<string>)
  {
    && ShardOrdered(s) && PositiveDeadlines(s)
    && (forall item :: item in s.expiries ==> item in start.expiries)
    && s.data == start.data - removed
    && (AllScheduled(start) ==> AllScheduled(s))
  }

  /** Reaps one shard; `count` keys were reaped before and `limit` is the most
      that may be reaped, if it is positive. */
  method ReapShard<V>(start: Shard<V>, now: int, limit: int, count: nat) returns (s: Shard<V>, total: nat, ghost removed: set<string>)
    requires ShardOrdered(start) && PositiveDeadlines(start)
    requires limit <= 0 || count <= limit
    ensures ReapedFrom(s, start, removed)
    ensures removed <= Reapable(start, now)
    ensures total == count + |removed|
    ensures limit <= 0 || total <= limit
    ensures limit <= 0 || total < limit ==> removed == Reapable(start, now)
  {
    hide IsHeap, Reapable, AllScheduled;
    s, total, removed := start, count, {};
    assert start.data - {} == start.data;
    while |s.expiries| > 0 && (limit <= 0 || total < limit)
      invariant ShardOrdered(s) && PositiveDeadlines(s)
      invariant forall item :: item in s.expiries ==> item in start.expiries
      invariant s.data == start.data - removed
      invariant total == count + |removed|
      invariant limit <= 0 || total <= limit
      invariant removed <= Reapable(start, now)
      invariant Reapable(s, now) == Reapable(start, now) - removed
      invariant AllScheduled(start) ==> AllScheduled(s)
      decreases |s.expiries|
    {
      if s.expiries[0].deadline > now {
        break;
      }
      var item, rest := Pop(Deadline, s.expiries);
      ItemsOf(s.expiries, rest, item);
      if Hits(s, item) {
        PopStep(s, item, rest, now, Shard(s.data - {item.key}, rest));
        assert item.key !in removed;
        removed := removed + {item.key};
        s := Shard(s.data - {item.key}, rest);
        assert s.data == start.data - removed;
        total := total + 1;
      } else {
        PopStep(s, item, rest, now, Shard(s.data, rest));
        s := Shard(s.data, rest);
      }
    }
    if limit <= 0 || total < limit {
      NothingDue(s, now);
      assert removed == Reapable(start, now);
    }
  }

  // ---- The store ----

  ghost function ReapableIn<V>(shards: seq<Shard<V>>, now: int): set<string>
  {
    if shards == [] then {} else ReapableIn(shards[..|shards| - 1], now) + Reapable(shards[|shards| - 1], now)
  }

  lemma {:induction false} ReapableMember<V>(shards: seq<Shard<V>>, now: int, k: string)
    ensures k in ReapableIn(shards, now) <==> exists i :: 0 <= i < |shards| && k in Reapable(shards[i], now)
  {
    if shards != [] {
      var n := |shards| - 1;
      ReapableMember(shards[..n], now, k);
      if exists i :: 0 <= i < |shards| && k in Reapable(shards[i], now) {
        var i :| 0 <= i < |shards| && k in Reapable(shards[i], now);
        if i < n {
          assert shards[..n][i] == shards[i];
        }
      }
    }
  }

  /** A shard of the store: its keys belong to it, its heap is in order, and
      versions are no higher than the store's counter. */
  ghost predicate ShardOk<V>(s: Shard<V>, index: nat, shardOf: string -> nat, version: nat)
  {
    && ShardOrdered(s) && PositiveDeadlines(s)
    && (forall k :: k in s.data ==> shardOf(k) == index && s.data[k].version <= version)
    && (forall item :: item in s.expiries ==> item.version <= version)
  }

  lemma PutOk<V>(s: Shard<V>, index: nat, shardOf: string -> nat, version: nat, key: string, e: Entry<V>, expiries: seq<ExpiryItem>)
    requires ShardOk(s, index, shardOf, version)
    requires shardOf(key) == index && e.version == version + 1
    requires IsHeap(Deadline, expiries)
    requires if e.expiresAt > 0 then multiset(expiries) == multiset(s.expiries) + multiset{ExpiryItem(key, e.expiresAt, e.version)}
             else expiries == s.expiries
    ensures ShardOk(Shard(s.data[key := e], expiries), index, shardOf, version + 1)
    ensures AllScheduled(s) ==> AllScheduled(Shard(s.data[key := e], expiries))
  {
    hide IsHeap;
    if e.expiresAt > 0 {
      ItemsOf(expiries, s.expiries, ExpiryItem(key, e.expiresAt, e.version));
    }
    var s' := Shard(s.data[key := e], expiries);
    if AllScheduled(s) {
      forall k | k in s'.data && s'.data[k].expiresAt > 0
        ensures Scheduled(s', k)
      {
        if k != key {
          assert Scheduled(s, k);
        }
      }
    }
  }

  /** A new version without a new item: everything else stays scheduled, and
      the entry itself is unscheduled. */
  lemma BumpedOk<V>(s: Shard<V>, index: nat, shardOf: string -> nat, version: nat, key: string, e: Entry<V>)
    requires ShardOk(s, index, shardOf, version) && shardOf(key) == index && e.version == version + 1
    ensures var t := s.(data := s.data[key := e]);
            && key in t.data && ShardOk(t, index, shardOf, version + 1) && !Scheduled(t, key)
            && (AllScheduled(s) ==> (AllScheduled(t) <==> e.expiresAt <= 0))
  {
    hide IsHeap;
    var t := s.(data := s.data[key := e]);
    assert !Scheduled(t, key);
    if AllScheduled(s) && e.expiresAt <= 0 {
      forall k | k in t.data && t.data[k].expiresAt > 0
        ensures Scheduled(t, k)
      {
        assert Scheduled(s, k);
      }
    }
  }

  lemma LaterVersion<V>(s: Shard<V>, index: nat, shardOf: string -> nat, version: nat)
    requires ShardOk(s, index, shardOf, version)
    ensures ShardOk(s, index, shardOf, version + 1)
  {
  }

  ghost predicate Apart<V>(shards: seq<Shard<V>>)
  {
    forall i, j, k :: 0 <= i < j < |shards| && k in shards[i].data ==> k !in shards[j].data
  }

  lemma ReapableGrows<V>(shards: seq<Shard<V>>, now: int, i: nat)
    requires i < |shards|
    ensures ReapableIn(shards[..i + 1], now) == ReapableIn(shards[..i], now) + Reapable(shards[i], now)
    ensures ReapableIn(shards[..i + 1], now) <= ReapableIn(shards, now)
  {
    assert shards[..i + 1][..i] == shards[..i];
    forall k | k in ReapableIn(shards[..i + 1], now)
      ensures k in ReapableIn(shards, now)
    {
      ReapableMember(shards[..i + 1], now, k);
      var j :| 0 <= j < i + 1 && k in Reapable(shards[..i + 1][j], now);
      assert shards[..i + 1][j] == shards[j];
      ReapableMember(shards, now, k);
    }
  }

  lemma ReapableElsewhere<V>(shards: seq<Shard<V>>, now: int, i: nat, j: nat)
    requires Apart(shards) && i <= j < |shards|
    ensures ReapableIn(shards[..i], now) !! shards[j].data.Keys
  {
    forall k | k in ReapableIn(shards[..i], now)
      ensures k !in shards[j].data
    {
      ReapableMember(shards[..i], now, k);
      var l :| 0 <= l < i && k in Reapable(shards[..i][l], now);
      assert shards[..i][l] == shards[l];
    }
  }

  lemma NotReaped<V>(s: Shard<V>)
    requires ShardOrdered(s) && PositiveDeadlines(s)
    ensures ReapedFrom(s, s, {})
  {
    assert s.data - {} == s.data;
  }

  lemma ReapedHere<V>(s: Shard<V>, start: Shard<V>, removed: set<string>, more: set<string>)
    requires removed !! start.data.Keys && ReapedFrom(s, start, more)
    ensures ReapedFrom(s, start, removed + more)
  {
    assert start.data - more == start.data - (removed + more);
  }

  lemma ReapedElsewhere<V>(s: Shard<V>, start: Shard<V>, removed: set<string>, more: set<string>)
    requires more !! start.data.Keys && ReapedFrom(s, start, removed)
    ensures ReapedFrom(s, start, removed + more)
  {
    assert start.data - removed == start.data - (removed + more);
  }

  /** Reaps shard after shard until the limit is reached. */
  method ReapAll<V>(start: seq<Shard<V>>, now: int, limit: int) returns (shards: seq<Shard<V>>, count: nat, ghost removed: set<string>)
    requires Apart(start)
    requires forall i :: 0 <= i < |start| ==> ShardOrdered(start[i]) && PositiveDeadlines(start[i])
    ensures |shards| == |start|
    ensures forall i :: 0 <= i < |start| ==> ReapedFrom(shards[i], start[i], removed)
    ensures count == |removed|
    ensures removed <= ReapableIn(start, now)
    ensures limit <= 0 ==> removed == ReapableIn(start, now)
    ensures limit > 0 ==> count == if |ReapableIn(start, now)| < limit then |ReapableIn(start, now)| else limit
  {
    hide ShardOrdered, AllScheduled, ReapableIn, Reapable, PositiveDeadlines, ReapedFrom;
    shards, count, removed := start, 0, {};
    NoneYet(start[..0], now);
    forall j | 0 <= j < |start|
      ensures ReapedFrom(start[j], start[j], {})
    {
      NotReaped(start[j]);
    }
    for i := 0 to |start|
      invariant |shards| == |start|
      invariant forall j :: 0 <= j < |start| ==> ReapedFrom(shards[j], start[j], removed)
      invariant forall j :: i <= j < |start| ==> shards[j] == start[j]
      invariant count == |removed|
      invariant removed <= ReapableIn(start[..i], now)
      invariant limit <= 0 || count < limit || i == 0
      invariant limit <= 0 || count < limit ==> removed == ReapableIn(start[..i], now)
      invariant limit > 0 && i == 0 ==> count == 0
    {
      ReapableGrows(start, now, i);
      ReapableElsewhere(start, now, i, i);
      var s, total;
      ghost var more;
      s, total, more := ReapShard(shards[i], now, limit, count);
      ReapableInside(start[i], now);
      assert removed !! more && removed !! start[i].data.Keys;
      forall j | 0 <= j < |start|
        ensures ReapedFrom(if j == i then s else shards[j], start[j], removed + more)
      {
        Disjoint(start, i, j, now, more);
        if j == i {
          ReapedHere(s, start[i], removed, more);
        } else {
          ReapedElsewhere(shards[j], start[j], removed, more);
        }
      }
      shards := shards[i := s];
      removed := removed + more;
      count := total;
      if limit > 0 && count >= limit {
        SubsetCard(removed, ReapableIn(start, now));
        return;
      }
    }
    assert start[..|start|] == start;
  }

  lemma NoneYet<V>(shards: seq<Shard<V>>, now: int)
    requires shards == []
    ensures ReapableIn(shards, now) == {}
  {
  }

  lemma ReapableInside<V>(s: Shard<V>, now: int)
    ensures Reapable(s, now) <= s.data.Keys
  {
  }

  lemma Disjoint<V>(shards: seq<Shard<V>>, i: nat, j: nat, now: int, more: set<string>)
    requires Apart(shards) && i < |shards| && j < |shards|
    requires more <= Reapable(shards[i], now)
    ensures i != j ==> more !! shards[j].data.Keys
  {
  }

  class KVStore<V> {
    const shardOf: string -> nat
    var shards: seq<Shard<V>>
    var version: nat

    /** Every key has its shard, and every shard is in order. */
    ghost predicate Structure()
      reads this
    {
      && (forall k :: shardOf(k) < |shards|)
      && (forall i :: 0 <= i < |shards| ==> ShardOk(shards[i], i, shardOf, version))
    }

    /** Every deadline is in a heap. */
    ghost predicate Complete()
      reads this
    {
      forall i :: 0 <= i < |shards| ==> AllScheduled(shards[i])
    }

    /** What the store holds under a key, expired or not. */
    ghost function Find(k: string): Option<Entry<V>>
      reads this
      requires Structure()
    {
      var s := shards[shardOf(k)];
      if k in s.data then Some(s.data[k]) else None
    }

    constructor (n: nat, shardOf: string -> nat)
      requires forall k :: shardOf(k) < n
      ensures Structure() && Complete()
      ensures forall k :: Find(k) == None
    {
      this.shardOf := shardOf;
      shards := seq(n, _ => Shard(map[], []));
      version := 0;
    }

    /** Stores an entry under the next version and schedules its deadline. */
    method Put(key: string, value: V, deadline: int)
      requires Structure() && deadline >= 0
      modifies this
      ensures Structure()
      ensures old(Complete()) ==> Complete()
      ensures version == old(version) + 1
      ensures forall k :: Find(k) == if k == key then Some(Entry(value, deadline, version)) else old(Find(k))
    {
      hide IsHeap, AllScheduled;
      var s := shardOf(key);
      var e := Entry(value, deadline, version + 1);
      var expiries := shards[s].expiries;
      if deadline > 0 {
        expiries := Push(Deadline, expiries, ExpiryItem(key, deadline, version + 1));
      }
      PutOk(shards[s], s, shardOf, version, key, e, expiries);
      shards := shards[s := Shard(shards[s].data[key := e], expiries)];
      version := version + 1;
    }

    method Set(key: string, value: V, ttl: int, now: int)
      requires Structure() && now > 0
      modifies this
      ensures Structure()
      ensures old(Complete()) ==> Complete()
      ensures version == old(version) + 1
      ensures forall k :: Find(k) == if k == key then Some(Entry(value, if ttl > 0 then now + ttl else 0, version)) else old(Find(k))
    {
      Put(key, value, if ttl > 0 then now + ttl else 0);
    }

    method Get(key: string, now: int) returns (e: Option<Entry<V>>)
      requires Structure()
      ensures e == if Find(key).Some? && (Find(key).value.expiresAt == 0 || now <= Find(key).value.expiresAt) then Find(key) else None
    {
      var s := shards[shardOf(key)];
      if key !in s.data || IsExpired(s.data[key], now) {
        return None;
      }
      return Some(s.data[key]);
    }

    method DeleteKey(key: string) returns (deleted: bool)
      requires Structure()
      modifies this
      ensures Structure() && version == old(version)
      ensures old(Complete()) ==> Complete()
      ensures deleted == old(Find(key)).Some?
      ensures forall k :: Find(k) == if k == key then None else old(Find(k))
    {
      hide IsHeap;
      var s := shardOf(key);
      deleted := key in shards[s].data;
      ghost var before := shards[s];
      shards := shards[s := shards[s].(data := shards[s].data - {key})];
      KeepsSchedule(before, shards[s]);
    }

    method Expire(key: string, seconds: int, now: int) returns (ok: bool)
      requires Structure() && now > 0
      modifies this
      ensures Structure()
      ensures old(Complete()) ==> Complete()
      ensures ok == (old(Find(key)).Some? && !IsExpired(old(Find(key)).value, now))
      ensures !ok ==> forall k :: Find(k) == old(Find(k))
      ensures ok && seconds <= 0 ==> forall k :: Find(k) == if k == key then None else old(Find(k))
      ensures ok && seconds > 0 ==>
                forall k :: Find(k) == if k == key then Some(Entry(old(Find(key)).value.value, now + seconds * 1_000_000_000, version)) else old(Find(k))
    {
      var s := shards[shardOf(key)];
      if key !in s.data || IsExpired(s.data[key], now) {
        return false;
      }
      if seconds <= 0 {
        var _ := DeleteKey(key);
      } else {
        Put(key, s.data[key].value, now + seconds * SECOND);
      }
      return true;
    }

    /** Clears the deadline; the heap item stays behind and no longer matches. */
    method Persist(key: string, now: int) returns (ok: bool)
      requires Structure()
      modifies this
      ensures Structure() && version == old(version)
      ensures old(Complete()) ==> Complete()
      ensures ok == (old(Find(key)).Some? && !IsExpired(old(Find(key)).value, now) && old(Find(key)).value.expiresAt != 0)
      ensures forall k :: Find(k) ==
                if ok && k == key then Some(old(Find(key)).value.(expiresAt := 0)) else old(Find(k))
    {
      hide IsHeap;
      var i := shardOf(key);
      var s := shards[i];
      if key !in s.data || IsExpired(s.data[key], now) || s.data[key].expiresAt == 0 {
        return false;
      }
      shards := shards[i := s.(data := s.data[key := s.data[key].(expiresAt := 0)])];
      KeepsSchedule(s, shards[i]);
      return true;
    }

    /** Moves an entry to another key with what is left of its time to live. */
    method Rename(key: string, newKey: string, now: int, later: int, latest: int) returns (ok: bool)
      requires Structure() && 0 < now <= later <= latest
      modifies this
      ensures Structure()
      ensures old(Complete()) ==> Complete()
      ensures var e := old(Find(key));
              var found := e.Some? && !IsExpired(e.value, now);
              && (ok <==> found && (e.value.expiresAt <= 0 || e.value.expiresAt > later))
              && (!found ==> forall k :: Find(k) == old(Find(k)))
              && (found && !ok ==> forall k :: Find(k) == if k == key then None else old(Find(k)))
              && (ok ==>
                    var deadline := if e.value.expiresAt > 0 then latest + (e.value.expiresAt - later) else 0;
                    Find(newKey) == Some(Entry(e.value.value, deadline, version)))
              && (ok ==> forall k :: k != newKey ==> Find(k) == if k == key then None else old(Find(k)))
    {
      var e := Get(key, now);
      if e.None? {
        return false;
      }
      var _ := DeleteKey(key);
      var ttl := 0;
      if e.value.expiresAt > 0 {
        ttl := e.value.expiresAt - later;
        if ttl <= 0 {
          return false;
        }
      }
      Set(newKey, e.value.value, ttl, latest);
      return true;
    }

    /** Drops all entries; the heaps keep their items. */
    method FlushAll()
      requires Structure()
      modifies this
      ensures Structure() && Complete() && version == old(version)
      ensures forall k :: Find(k) == None
    {
      hide IsHeap;
      for i := 0 to |shards|
        invariant |shards| == old(|shards|) && version == old(version)
        invariant Structure()
        invariant forall j :: 0 <= j < i ==> shards[j].data == map[]
      {
        shards := shards[i := shards[i].(data := map[])];
      }
    }

    /** Increments in place: the version moves on, but no heap item is pushed.
        `bump` gives the incremented value, or none for a value that is no
        integer.  An entry with a deadline is from then on invisible to the
        reaper; any other increment leaves reaping exact. */
    method Incr(key: string, bump: V -> Option<V>, first: V, now: int) returns (ok: bool)
      requires Structure()
      modifies this
      ensures Structure()
      ensures var e := old(Find(key));
              var live := e.Some? && !IsExpired(e.value, now);
              && (ok <==> live ==> bump(e.value.value).Some?)
              && (!ok ==> Find(key) == e && version == old(version))
              && (ok && live ==> Find(key) == Some(Entry(bump(e.value.value).value, e.value.expiresAt, version)))
              && (ok && live ==> !Scheduled(shards[shardOf(key)], key))
              && (!live ==> Find(key) == Some(Entry(first, 0, version)))
              && (old(Complete()) ==> (Complete() <==> !(ok && live && e.value.expiresAt > 0)))
      ensures forall k :: k != key ==> Find(k) == old(Find(k))
    {
      hide ShardOk, AllScheduled, Complete, Scheduled;
      var s := shards[shardOf(key)];
      if key !in s.data || IsExpired(s.data[key], now) {
        Overwrite(key, first, 0);
        return true;
      }
      var value := bump(s.data[key].value);
      if value.None? {
        return false;
      }
      Overwrite(key, value.value, s.data[key].expiresAt);
      return true;
    }

    /** Gives a key a value and a new version without scheduling its deadline. */
    method Overwrite(key: string, value: V, deadline: int)
      requires Structure()
      modifies this
      ensures Structure() && version == old(version) + 1
      ensures forall k :: Find(k) == if k == key then Some(Entry(value, deadline, version)) else old(Find(k))
      ensures key in shards[shardOf(key)].data && !Scheduled(shards[shardOf(key)], key)
      ensures old(Complete()) ==> (Complete() <==> deadline <= 0)
    {
      hide ShardOk, AllScheduled, Scheduled;
      var i := shardOf(key);
      var s := shards[i];
      var t := s.(data := s.data[key := Entry(value, deadline, version + 1)]);
      BumpedOk(s, i, shardOf, version, key, Entry(value, deadline, version + 1));
      forall j | 0 <= j < |shards|
        ensures ShardOk(shards[j], j, shardOf, version + 1)
      {
        LaterVersion(shards[j], j, shardOf, version);
      }
      version := version + 1;
      shards := shards[i := t];
      if old(Complete()) {
        assert AllScheduled(shards[i]) <==> deadline <= 0;
        assert forall j :: 0 <= j < |shards| && j != i ==> shards[j] == old(shards)[j];
      }
    }

    /**
     * The reaper.  It removes only keys that are due and whose item is in a
     * heap; with no limit it removes all of them, with a limit it removes as
     * many of them as the limit allows.
     */
    method DeleteExpiredLimit(limit: int, now: int) returns (count: nat, ghost removed: set<string>)
      requires Structure()
      modifies this
      ensures Structure() && version == old(version)
      ensures old(Complete()) ==> Complete()
      ensures forall k :: Find(k) == if k in removed then None else old(Find(k))
      ensures count == |removed|
      ensures removed <= old(ReapableIn(shards, now))
      ensures limit <= 0 ==> removed == old(ReapableIn(shards, now))
      ensures limit > 0 ==> count == if old(|ReapableIn(shards, now)|) < limit then old(|ReapableIn(shards, now)|) else limit
    {
      hide ShardOrdered, AllScheduled, ReapableIn;
      var reaped;
      reaped, count, removed := ReapAll(shards, now, limit);
      shards := reaped;
    }
  }

  /** A key is removed by an unlimited reap exactly when it is due and its item
      is in the heap of its shard. */
  lemma ReapsIff<V>(kv: KVStore<V>, now: int, k: string)
    requires kv.Structure()
    ensures k in ReapableIn(kv.shards, now) <==>
              kv.Find(k).Some? && 0 < kv.Find(k).value.expiresAt <= now && Scheduled(kv.shards[kv.shardOf(k)], k)
  {
    ReapableMember(kv.shards, now, k);
    if k in ReapableIn(kv.shards, now) {
      var i :| 0 <= i < |kv.shards| && k in Reapable(kv.shards[i], now);
      assert ShardOk(kv.shards[i], i, kv.shardOf, kv.version);
    }
  }

  /** While every deadline is scheduled, due is all it takes. */
  lemma ReapsExactlyTheDue<V>(kv: KVStore<V>, now: int)
    requires kv.Structure() && kv.Complete()
    ensures forall k :: k in ReapableIn(kv.shards, now) <==> kv.Find(k).Some? && 0 < kv.Find(k).value.expiresAt <= now
  {
    forall k
      ensures k in ReapableIn(kv.shards, now) <==> kv.Find(k).Some? && 0 < kv.Find(k).value.expiresAt <= now
    {
      ReapsIff(kv, now, k);
      assert AllScheduled(kv.shards[kv.shardOf(k)]);
    }
  }

  /** Reaping is exact at every moment exactly when every deadline is scheduled. */
  lemma ExactIffComplete<V>(kv: KVStore<V>)
    requires kv.Structure()
    ensures (forall now, k :: k in ReapableIn(kv.shards, now) <==> kv.Find(k).Some? && 0 < kv.Find(k).value.expiresAt <= now) <==> kv.Complete()
  {
    hide ReapableIn, ShardOk;
    if kv.Complete() {
      forall now, k
        ensures k in ReapableIn(kv.shards, now) <==> kv.Find(k).Some? && 0 < kv.Find(k).value.expiresAt <= now
      {
        ReapsExactlyTheDue(kv, now);
      }
    } else {
      var k := Unscheduled(kv);
      ReapsIff(kv, kv.Find(k).value.expiresAt, k);
    }
  }

  /** At its deadline, and at no other moment, a key is answered and reaped. */
  lemma AnsweredAndReaped<V>(kv: KVStore<V>, now: int, k: string)
    requires kv.Structure() && kv.Complete()
    requires kv.Find(k).Some?
    ensures k in ReapableIn(kv.shards, now) && !IsExpired(kv.Find(k).value, now) <==> 0 < kv.Find(k).value.expiresAt == now
  {
    hide ReapableIn, ShardOk, AllScheduled;
    ReapsExactlyTheDue(kv, now);
  }

  lemma Unscheduled<V>(kv: KVStore<V>) returns (k: string)
    requires kv.Structure() && !kv.Complete()
    ensures kv.Find(k).Some? && kv.Find(k).value.expiresAt > 0 && !Scheduled(kv.shards[kv.shardOf(k)], k)
  {
    var i :| 0 <= i < |kv.shards| && !AllScheduled(kv.shards[i]);
    k :| k in kv.shards[i].data && kv.shards[i].data[k].expiresAt > 0 && !Scheduled(kv.shards[i], k);
    assert ShardOk(kv.shards[i], i, kv.shardOf, kv.version);
  }

  lemma KeepsSchedule<V>(s: Shard<V>, s': Shard<V>)
    requires s'.expiries == s.expiries
    requires forall k :: k in s'.data ==> k in s.data && (s'.data[k] == s.data[k] || s'.data[k].expiresAt == 0)
    ensures AllScheduled(s) ==> AllScheduled(s')
  {
    if AllScheduled(s) {
      forall k | k in s'.data && s'.data[k].expiresAt > 0
        ensures Scheduled(s', k)
      {
        assert Scheduled(s, k);
      }
    }
  }
}
