/** When the ports of all tenants and of all kinds are held once. */
module PlacementPorts {
  import opened Placement

  datatype Kind = Http | Resp | Repl

  function Port(t: Tenant, kind: Kind): int
  {
    match kind
    case Http => t.http
    case Resp => t.resp
    case Repl => t.repl
  }

  /** Two places for a port, of any tenants and kinds, hold the same one; 0 is no port. */
  predicate Clash(ts: Tenants, i: string, a: Kind, j: string, b: Kind)
    requires i in ts && j in ts
  {
    (i != j || a != b) && Port(ts[i], a) == Port(ts[j], b) != 0
  }

  ghost predicate PortsApart(ts: Tenants)
  {
    forall i, a, j, b :: i in ts && j in ts ==> !Clash(ts, i, a, j, b)
  }

  ghost predicate HoldsPort(ts: Tenants, port: int)
  {
    exists i, a :: i in ts && Port(ts[i], a) == port
  }

  // ---- What a provision hands out ----

  /** The counter from which ports of a kind are taken. */
  function Next(s: State, kind: Kind): int
  {
    match kind
    case Http => s.nextHttp
    case Resp => s.nextResp
    case Repl => s.nextRepl
  }

  /** A provision with `count` replicas hands out this port of this kind. */
  predicate HandsOut(s: State, count: nat, kind: Kind, port: int)
  {
    (kind == Repl ==> count > 0) && Next(s, kind) <= port <= Next(s, kind) + count
  }

  /** The provision would hand out a port that is held, or one port for two uses. */
  ghost predicate TakesHeldPort(s: State, op: Op)
  {
    && op.Provision? && op.ready && Accepts(s, op.id, op.name, op.count)
    && Overlaps(s, op.count)
  }

  ghost predicate Overlaps(s: State, count: nat)
  {
    || (exists a, port :: HandsOut(s, count, a, port) && HoldsPort(s.tenants, port))
    || (exists a, b, port :: a != b && HandsOut(s, count, a, port) && HandsOut(s, count, b, port))
  }

  /** New tenant number `n` of a provision sits `n` above each counter. */
  predicate PlacedAt(s: State, count: nat, t: Tenant, n: int)
  {
    t.http == s.nextHttp + n && t.resp == s.nextResp + n && t.repl == (if count > 0 then s.nextRepl + n else 0)
  }

  predicate Distinct(ids: seq<string>)
  {
    forall m, n :: 0 <= m < n < |ids| ==> ids[m] != ids[n]
  }

  predicate PlacedInOrder(s: State, us: Tenants, ids: seq<string>)
  {
    forall n :: 0 <= n < |ids| ==> ids[n] in us && PlacedAt(s, |ids| - 1, us[ids[n]], n)
  }

  /** `us` is the tenants of `s` and those named by `ids`, placed in this order. */
  predicate AddsInOrder(s: State, us: Tenants, ids: seq<string>)
  {
    |ids| > 0 && AddsOnDefaults(s.tenants, us, Among(ids)) && Distinct(ids) && PlacedInOrder(s, us, ids)
  }

  lemma {:induction false} ReplicaPorts(s: State, id: string, n: nat)
    requires n <= MAX_REPLICAS && forall k :: 1 <= k <= n ==> ReplicaId(id, k) !in s.tenants
    ensures var t := WithReplicas(s, id, n);
            && t.nextHttp == s.nextHttp + n && t.nextResp == s.nextResp + n && t.nextRepl == s.nextRepl + n
            && (forall x :: x in s.tenants ==> x in t.tenants)
            && forall k :: 1 <= k <= n ==>
                 ReplicaId(id, k) in t.tenants && PlacedAt(s, 1, t.tenants[ReplicaId(id, k)], k - 1)
  {
    if n > 0 {
      hide ReplicaId;
      ReplicaPorts(s, id, n - 1);
      forall k | 1 <= k < n
        ensures ReplicaId(id, k) != ReplicaId(id, n)
      {
        ReplicaIdsDiffer(id, k, n);
      }
    }
  }

  lemma NewIdsDiffer(id: string, count: nat, m: nat, n: nat)
    requires count <= MAX_REPLICAS && m < n <= count
    ensures NewIds(id, count)[m] != NewIds(id, count)[n]
  {
    if m == 0 {
      ReplicaIdsDiffer(id, n, n);
    } else {
      ReplicaIdsDiffer(id, m, n);
    }
  }

  lemma NewIdsDistinct(id: string, count: nat)
    requires count <= MAX_REPLICAS
    ensures Distinct(NewIds(id, count)) && Among(NewIds(id, count)) == FirstReplicas(id, count) + {id}
  {
    hide ReplicaId;
    NewIdsAre(id, count);
    forall m, n | 0 <= m < n < |NewIds(id, count)|
      ensures NewIds(id, count)[m] != NewIds(id, count)[n]
    {
      NewIdsDiffer(id, count, m, n);
    }
  }

  lemma ReplicasFresh(s: State, id: string, name: string, count: nat)
    requires Accepts(s, id, name, count)
    ensures forall k :: 1 <= k <= count ==> ReplicaId(id, k) !in WithPrimary(s, id, count).tenants
  {
    hide ReplicaIds;
    forall k | 1 <= k <= count
      ensures ReplicaId(id, k) !in WithPrimary(s, id, count).tenants
    {
      ReplicaIdsDiffer(id, k, k);
    }
  }

  lemma PlacedAfterPrimary(s: State, id: string, count: nat, t: Tenant, n: int)
    requires 0 < n <= count <= MAX_REPLICAS && PlacedAt(WithPrimary(s, id, count), 1, t, n - 1)
    ensures PlacedAt(s, count, t, n)
  {
  }

  lemma PrimaryPlaced(s: State, id: string, name: string, count: nat)
    requires Accepts(s, id, name, count)
    ensures var us := Provisioned(s, id, count).tenants; id in us && PlacedAt(s, count, us[id], 0)
  {
    hide ReplicaIds, FirstReplicas, WithReplicas;
    ProvisionJoins(s, id, name, count);
    assert Provisioned(s, id, count).tenants[id] == WithPrimary(s, id, count).tenants[id];
  }

  lemma ProvisionPlaces(s: State, id: string, name: string, count: nat)
    requires Accepts(s, id, name, count)
    ensures AddsInOrder(s, Provisioned(s, id, count).tenants, NewIds(id, count))
  {
    hide FirstReplicas, ReplicaId, AddsOnDefaults, Distinct, PlacedAt, WithReplicas, WithPrimary, ValidId;
    var ids, us, ps := NewIds(id, count), Provisioned(s, id, count).tenants, WithPrimary(s, id, count);
    ProvisionAdds(s, id, name, count);
    NewIdsDistinct(id, count);
    ReplicasFresh(s, id, name, count);
    ReplicaPorts(ps, id, count);
    PrimaryPlaced(s, id, name, count);
    forall n | 0 <= n < |ids|
      ensures ids[n] in us && PlacedAt(s, count, us[ids[n]], n)
    {
      if n > 0 {
        assert ids[n] == ReplicaId(id, n);
        PlacedAfterPrimary(s, id, count, us[ReplicaId(id, n)], n);
      }
    }
  }

  // ---- The condition for one provision ----

  /** A port of a new tenant is one that the provision hands out, or none. */
  lemma NewPort(s: State, us: Tenants, ids: seq<string>, n: nat, a: Kind)
    requires AddsInOrder(s, us, ids) && n < |ids|
    ensures Port(us[ids[n]], a) == 0 || HandsOut(s, |ids| - 1, a, Port(us[ids[n]], a))
    ensures (a == Repl ==> |ids| > 1) ==> Port(us[ids[n]], a) == Next(s, a) + n
  {
  }

  lemma IndexOf(ids: seq<string>, x: string) returns (n: nat)
    requires x in ids
    ensures n < |ids| && ids[n] == x
  {
    n :| 0 <= n < |ids| && ids[n] == x;
  }

  lemma CountersPositive(s: State, kind: Kind)
    requires PortsOk(s)
    ensures Next(s, kind) > 0
  {
  }

  lemma NoClashOldNew(s: State, us: Tenants, ids: seq<string>, i: string, a: Kind, n: nat, b: Kind)
    requires AddsInOrder(s, us, ids) && !Overlaps(s, |ids| - 1) && i in s.tenants && n < |ids|
    ensures !Clash(us, i, a, ids[n], b) && !Clash(us, ids[n], b, i, a)
  {
    NewPort(s, us, ids, n, b);
    var port := Port(us[ids[n]], b);
    if Port(us[i], a) == port {
      assert HoldsPort(s.tenants, port);
      assert port == 0;
    }
  }

  lemma NoClashNewNew(s: State, us: Tenants, ids: seq<string>, m: nat, a: Kind, n: nat, b: Kind)
    requires AddsInOrder(s, us, ids) && !Overlaps(s, |ids| - 1) && m < |ids| && n < |ids|
    ensures !Clash(us, ids[m], a, ids[n], b)
  {
    NewPort(s, us, ids, m, a);
    NewPort(s, us, ids, n, b);
    if a == b {
      assert m == n || Port(us[ids[m]], a) == 0 || Port(us[ids[m]], a) != Port(us[ids[n]], b);
    } else if Port(us[ids[m]], a) == Port(us[ids[n]], b) {
      assert Port(us[ids[m]], a) == 0;
    }
  }

  lemma ApartIfNoOverlap(s: State, us: Tenants, ids: seq<string>)
    requires PortsApart(s.tenants) && AddsInOrder(s, us, ids) && !Overlaps(s, |ids| - 1)
    ensures PortsApart(us)
  {
    hide Overlaps, Clash;
    forall i, a, j, b | i in us && j in us
      ensures !Clash(us, i, a, j, b)
    {
      if i in s.tenants && j in s.tenants {
        SameClash(s.tenants, us, i, a, j, b);
      } else if i in s.tenants {
        var n := IndexOf(ids, j);
        NoClashOldNew(s, us, ids, i, a, n, b);
      } else if j in s.tenants {
        var n := IndexOf(ids, i);
        NoClashOldNew(s, us, ids, j, b, n, a);
      } else {
        var m := IndexOf(ids, i);
        var n := IndexOf(ids, j);
        NoClashNewNew(s, us, ids, m, a, n, b);
      }
    }
  }

  lemma SameClash(ts: Tenants, us: Tenants, i: string, a: Kind, j: string, b: Kind)
    requires i in ts && j in ts && i in us && j in us && us[i] == ts[i] && us[j] == ts[j]
    ensures Clash(us, i, a, j, b) <==> Clash(ts, i, a, j, b)
  {
  }

  lemma ClashIfOverlap(s: State, us: Tenants, ids: seq<string>)
    requires PortsOk(s) && AddsInOrder(s, us, ids) && Overlaps(s, |ids| - 1)
    ensures !PortsApart(us)
  {
    hide PortsOk;
    var count := |ids| - 1;
    if a, port :| HandsOut(s, count, a, port) && HoldsPort(s.tenants, port) {
      var i, b :| i in s.tenants && Port(s.tenants[i], b) == port;
      var n := port - Next(s, a);
      CountersPositive(s, a);
      NewPort(s, us, ids, n, a);
      assert Clash(us, ids[n], a, i, b);
    } else {
      var a, b, port :| a != b && HandsOut(s, count, a, port) && HandsOut(s, count, b, port);
      var m, n := port - Next(s, a), port - Next(s, b);
      CountersPositive(s, a);
      NewPort(s, us, ids, m, a);
      NewPort(s, us, ids, n, b);
      assert Clash(us, ids[m], a, ids[n], b);
    }
  }

  // ---- The condition for one step, and for a run ----

  lemma SamePortsApart(ts: Tenants, us: Tenants)
    requires PortsApart(ts) && us.Keys <= ts.Keys && forall x :: x in us ==> SamePlace(ts[x], us[x])
    ensures PortsApart(us)
  {
    forall i, a, j, b | i in us && j in us
      ensures !Clash(us, i, a, j, b)
    {
      assert !Clash(ts, i, a, j, b);
      assert SamePlace(ts[i], us[i]) && SamePlace(ts[j], us[j]);
    }
  }

  lemma SwappedApart(ts: Tenants, p: string, r: string)
    requires PortsApart(ts) && p in ts && r in ts
    ensures PortsApart(Swapped(ts, p, r))
  {
    var us := Swapped(ts, p, r);
    forall i, a, j, b | i in us && j in us
      ensures !Clash(us, i, a, j, b)
    {
      var from := (x: string) => if x == p then r else if x == r then p else x;
      assert !Clash(ts, from(i), a, from(j), b);
    }
  }

  lemma OtherPorts(s: State, op: Op)
    requires PortsApart(s.tenants) && !op.Provision?
    ensures PortsApart(Step(s, op).tenants)
  {
    hide PortsApart, Started, EnginesAfter, Swapped, Doomed, Dropping, Among;
    match op
    case Start(id, quota, outcome) => StartedTenants(s, id, quota, outcome);
    case Hibernate(id, saved) => SamePortsApart(s.tenants, Step(s, op).tenants);
    case Wake(id, onlyHibernated, saved, quota, outcome) =>
      if id in s.tenants {
        StartedTenants(s.(tenants := Marked(s.tenants, id, false)), id, quota, outcome);
        SamePortsApart(s.tenants, Step(s, op).tenants);
      }
    case Promote(id) =>
      if CanPromote(s, id) {
        SwappedApart(s.tenants, s.tenants[id].replicaOf, id);
      }
    case Delete(id, failAt) => SamePortsApart(s.tenants, Step(s, op).tenants);
  }

  /** A step keeps all ports apart exactly unless it provisions onto held or overlapping ports. */
  lemma StepPorts(s: State, op: Op)
    requires PortsOk(s) && PortsApart(s.tenants)
    ensures PortsApart(Step(s, op).tenants) <==> !TakesHeldPort(s, op)
  {
    hide PortsOk, PortsApart, Provisioned, Overlaps, AddsInOrder, NewIds;
    if op.Provision? {
      if op.ready && Accepts(s, op.id, op.name, op.count) {
        var us, ids := Provisioned(s, op.id, op.count).tenants, NewIds(op.id, op.count);
        ProvisionPlaces(s, op.id, op.name, op.count);
        NewIdsCount(op.id, op.count);
        if Overlaps(s, op.count) {
          ClashIfOverlap(s, us, ids);
        } else {
          ApartIfNoOverlap(s, us, ids);
        }
      }
    } else {
      OtherPorts(s, op);
    }
  }

  lemma NewIdsCount(id: string, count: nat)
    requires count <= MAX_REPLICAS
    ensures |NewIds(id, count)| == count + 1
  {
  }

  ghost predicate PortsAlwaysApart(s: State, ops: seq<Op>)
  {
    PortsApart(Run(s, ops).tenants) && (ops == [] || PortsAlwaysApart(s, ops[..|ops| - 1]))
  }

  ghost predicate NeverTakesHeldPort(s: State, ops: seq<Op>)
  {
    ops == [] || (!TakesHeldPort(Run(s, ops[..|ops| - 1]), ops[|ops| - 1]) && NeverTakesHeldPort(s, ops[..|ops| - 1]))
  }

  /** No state of a run holds a port twice, whatever its kind, exactly when no provision took one that was held or handed one out for two uses. */
  lemma {:induction false} RunPorts(budget: int, ops: seq<Op>)
    ensures PortsAlwaysApart(Init(budget), ops) <==> NeverTakesHeldPort(Init(budget), ops)
  {
    if ops != [] {
      hide Step, TakesHeldPort, PortsApart;
      var n := |ops| - 1;
      RunPorts(budget, ops[..n]);
      if PortsAlwaysApart(Init(budget), ops[..n]) {
        LastPortsApart(Init(budget), ops[..n]);
        EveryRunSound(budget, ops[..n]);
        StepPorts(Run(Init(budget), ops[..n]), ops[n]);
      }
    }
  }

  lemma LastPortsApart(s: State, ops: seq<Op>)
    requires PortsAlwaysApart(s, ops)
    ensures PortsApart(Run(s, ops).tenants)
  {
  }

  /** While the counters stay in their own ranges no port is held twice. */
  lemma KindsApart(s: State)
    requires PortsOk(s) && s.nextResp <= FIRST_REPL && s.nextRepl <= FIRST_HTTP
    ensures PortsApart(s.tenants)
  {
    forall i, a, j, b | i in s.tenants && j in s.tenants
      ensures !Clash(s.tenants, i, a, j, b)
    {
      var http, resp, repl := Each(s.tenants, HttpOf), Each(s.tenants, RespOf), Each(s.tenants, ReplOf);
      assert http[i] == s.tenants[i].http && resp[i] == s.tenants[i].resp && repl[i] == s.tenants[i].repl;
      assert http[j] == s.tenants[j].http && resp[j] == s.tenants[j].resp && repl[j] == s.tenants[j].repl;
    }
  }
}
