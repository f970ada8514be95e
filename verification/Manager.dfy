/** The manager, whose methods take the steps of the placement machine. */
module TenantManager {
  import opened Placement

  // ---- What a promotion restarts ----

  predicate HadEngines(s: State, id: string)
    requires CanPromote(s, id)
  {
    s.tenants[id].replicaOf in s.engines || id in s.engines || exists x :: x in Others(s, id) && x in s.engines
  }

  /** What the surroundings answer when a tenant is started. */
  datatype Attempt = Attempt(quota: nat, outcome: Outcome)

  function StartOps(ids: seq<string>, attempts: string -> Attempt): seq<Op>
  {
    seq(|ids|, i requires 0 <= i < |ids| => Start(ids[i], attempts(ids[i]).quota, attempts(ids[i]).outcome))
  }

  /** The tenants a promotion starts, in order; a public tenant that does not come up ends it. */
  ghost function Restarts(s: State, id: string, saved: bool, becomes: bool, attempts: string -> Attempt): seq<string>
  {
    if !CanPromote(s, id) || !saved || !HadEngines(s, id) || (id in s.engines && !becomes) then []
    else
      var p := s.tenants[id].replicaOf;
      var followers := [id] + Present(Dropping(s.tenants[p].replicas, id), s.tenants);
      if id in s.engines then followers
      else if StartSucceeds(Promoted(s, id), p, attempts(p).quota, attempts(p).outcome) then [p] + followers
      else [p]
  }

  /** A promotion fails if the replica cannot take over or the public tenant does not come up. */
  ghost predicate PromotionSucceeds(s: State, id: string, saved: bool, becomes: bool, attempts: string -> Attempt)
  {
    && CanPromote(s, id) && saved
    && (HadEngines(s, id) && id in s.engines ==> becomes)
    && (HadEngines(s, id) && id !in s.engines ==>
          var p := s.tenants[id].replicaOf;
          StartSucceeds(Promoted(s, id), p, attempts(p).quota, attempts(p).outcome))
  }

  /** The replica and its primary have changed places: the public id has the
      replica's directory, ports and engine, everyone else's engine in the group
      is stopped, and nobody outside the group is touched. */
  ghost predicate TakesOver(s: State, t: State, id: string)
  {
    && CanPromote(s, id)
    && var p := s.tenants[id].replicaOf;
       && t.tenants.Keys == s.tenants.Keys
       && (forall x :: x in s.tenants && x != p && x != id ==> t.tenants[x] == s.tenants[x])
       && (p != id ==> Exchanged(s.tenants[p], s.tenants[id], t.tenants[p], t.tenants[id]))
       && (p != id ==> id !in t.engines)
       && (p != id ==> (p in t.engines <==> id in s.engines) && (id in s.engines ==> t.engines[p] == s.engines[id]))
       && (forall x :: x != p && x != id && x in s.tenants[p].replicas ==> x !in t.engines)
       && (forall x :: x != p && x != id && x !in s.tenants[p].replicas ==>
             (x in t.engines <==> x in s.engines) && (x in t.engines ==> t.engines[x] == s.engines[x]))
       && t.quotas == s.quotas
  }

  /** `a` and `b` became `x` and `y`, with each other's directory and ports. */
  predicate Exchanged(a: Tenant, b: Tenant, x: Tenant, y: Tenant)
  {
    && x == Tenant(b.http, b.resp, b.repl, b.dir, a.role, a.replicaOf, a.replicas, a.hibernated)
    && y == Tenant(a.http, a.resp, a.repl, a.dir, b.role, b.replicaOf, b.replicas, b.hibernated)
  }

  lemma PromotionIs(s: State, id: string)
    requires CanPromote(s, id)
    ensures TakesOver(s, Promoted(s, id), id)
  {
  }

  /** Some engine of the replica's group is live. */
  ghost predicate GroupRuns(s: State, id: string)
  {
    CanPromote(s, id) && exists x :: x in s.engines && InGroup(s, id, x)
  }

  predicate InGroup(s: State, id: string, x: string)
    requires CanPromote(s, id)
  {
    x == id || x == s.tenants[id].replicaOf || x in s.tenants[s.tenants[id].replicaOf].replicas
  }

  /** The promotion is possible and saved and, if engines were live, the live
      replica takes over, or the public tenant is admitted and opens. */
  ghost predicate MayTakeOver(s: State, id: string, saved: bool, becomes: bool, attempts: string -> Attempt)
  {
    && CanPromote(s, id) && saved
    && (GroupRuns(s, id) ==>
          if id in s.engines then becomes
          else
            var p := s.tenants[id].replicaOf;
            && !s.tenants[p].hibernated && attempts(p).outcome == Opened
            && (p in s.quotas || s.budget <= 0 || 100 * (SumOf(s.quotas) + attempts(p).quota) <= 70 * s.budget))
  }

  /** A tenant that may run, opens, and has its reservation or needs none. */
  predicate Unhindered(s: State, id: string, outcome: Outcome)
  {
    id in s.tenants && !s.tenants[id].hibernated && outcome == Opened && (id in s.quotas || s.budget <= 0)
  }

  /** The promotion took place and the group was started again: the public tenant
      runs, and so does every member that nothing hinders;
      other tenants' engines and all tenants are as the change of places leaves them. */
  ghost predicate Restarted(s: State, t: State, id: string, attempts: string -> Attempt)
  {
    && CanPromote(s, id)
    && var p, swapped := s.tenants[id].replicaOf, Promoted(s, id);
       && t.tenants == swapped.tenants
       && (p != id ==> p in t.engines)
       && (forall x :: InGroup(s, id, x) && x != p && Unhindered(s, x, attempts(x).outcome) ==> x in t.engines)
       && (forall x :: !InGroup(s, id, x) ==> (x in t.engines <==> x in s.engines) && (x in t.engines ==> t.engines[x] == s.engines[x]))
  }

  lemma SameGroup(s: State, id: string)
    requires CanPromote(s, id)
    ensures GroupRuns(s, id) <==> HadEngines(s, id)
  {
    var p := s.tenants[id].replicaOf;
    if x :| x in Others(s, id) && x in s.engines {
      assert InGroup(s, id, x);
    }
    if x :| x in s.engines && InGroup(s, id, x) && x != p && x != id {
      assert x in Others(s, id);
    }
  }

  lemma SuccessIff(s: State, id: string, saved: bool, becomes: bool, attempts: string -> Attempt)
    ensures PromotionSucceeds(s, id, saved, becomes, attempts) <==> MayTakeOver(s, id, saved, becomes, attempts)
  {
    hide GroupRuns, HadEngines, SumOf;
    if CanPromote(s, id) {
      SameGroup(s, id);
      assert id !in s.engines ==> s.tenants[id].replicaOf !in Promoted(s, id).engines;
    }
  }

  /** Starting tenants one after the other leaves all tenants and the others'
      engines alone, and gets everyone up who needs no admission. */
  ghost predicate StartedAll(s: State, t: State, ids: seq<string>, attempts: string -> Attempt)
  {
    && t.tenants == s.tenants && t.budget == s.budget && s.quotas.Keys <= t.quotas.Keys
    && (forall x :: x in s.engines ==> x in t.engines && t.engines[x] == s.engines[x])
    && (forall x :: x in t.engines && x !in ids ==> x in s.engines)
    && (forall x :: x in ids && Unhindered(s, x, attempts(x).outcome) ==> x in t.engines)
  }

  lemma StartedOne(s: State, t: State, ids: seq<string>, attempts: string -> Attempt, id: string)
    requires StartedAll(s, t, ids, attempts)
    ensures StartedAll(s, Started(t, id, attempts(id).quota, attempts(id).outcome), ids + [id], attempts)
  {
  }

  lemma {:induction false} StartsRun(s: State, ids: seq<string>, attempts: string -> Attempt)
    ensures StartedAll(s, Run(s, StartOps(ids, attempts)), ids, attempts)
  {
    hide Run, StartOps, Started;
    if ids == [] {
      NoStarts(s, attempts);
    } else {
      var n := |ids| - 1;
      hide StartedAll;
      StartsRun(s, ids[..n], attempts);
      RunSplit(s, ids, attempts, n);
      StartedOne(s, Run(s, StartOps(ids[..n], attempts)), ids[..n], attempts, ids[n]);
      assert ids == ids[..n] + [ids[n]] && ids[..n + 1] == ids;
    }
  }

  /** A successful promotion starts the public tenant, unless the replica's engine
      is there already, the old primary and the other replicas. */
  lemma RestartsAll(s: State, id: string, saved: bool, becomes: bool, attempts: string -> Attempt)
    requires PromotionSucceeds(s, id, saved, becomes, attempts) && HadEngines(s, id)
    ensures var ids, p := Restarts(s, id, saved, becomes, attempts), s.tenants[id].replicaOf;
            && |ids| >= 1 && (if id in s.engines then ids[0] == id else |ids| >= 2 && ids[0] == p && ids[1] == id)
            && (forall x :: x in s.tenants && InGroup(s, id, x) && x != p ==> x in ids)
            && (forall x :: x in ids ==> InGroup(s, id, x))
  {
    hide Started, StartSucceeds, Promoted, HadEngines;
  }

  lemma RestartedIf(s: State, t: State, ids: seq<string>, id: string, attempts: string -> Attempt)
    requires CanPromote(s, id) && TakesOver(s, Promoted(s, id), id)
    requires StartedAll(Promoted(s, id), t, ids, attempts)
    requires var p := s.tenants[id].replicaOf;
             && (p != id ==> p in t.engines)
             && (forall x :: x in s.tenants && InGroup(s, id, x) && x != p ==> x in ids)
             && (forall x :: x in ids ==> InGroup(s, id, x))
    ensures Restarted(s, t, id, attempts)
  {
    hide EnginesAfter, Swapped;
    var p, u := s.tenants[id].replicaOf, Promoted(s, id);
    assert u.quotas == s.quotas && u.budget == s.budget;
    forall x | InGroup(s, id, x) && x != p && Unhindered(s, x, attempts(x).outcome)
      ensures x in t.engines
    {
      assert u.tenants[x].hibernated == s.tenants[x].hibernated;
      assert Unhindered(u, x, attempts(x).outcome);
    }
  }

  lemma GroupRestarted(s: State, id: string, saved: bool, becomes: bool, attempts: string -> Attempt)
    requires PromotionSucceeds(s, id, saved, becomes, attempts) && HadEngines(s, id)
    ensures Restarted(s, Run(Promoted(s, id), StartOps(Restarts(s, id, saved, becomes, attempts), attempts)), id, attempts)
  {
    hide Run, Started, HadEngines, StartOps, Promoted, TakesOver, StartedAll, Restarted, InGroup;
    var ids := Restarts(s, id, saved, becomes, attempts);
    RestartsAll(s, id, saved, becomes, attempts);
    StartsRun(Promoted(s, id), ids, attempts);
    PromotionIs(s, id);
    PublicRuns(s, id, saved, becomes, attempts);
    RestartedIf(s, Run(Promoted(s, id), StartOps(ids, attempts)), ids, id, attempts);
  }

  lemma PublicRuns(s: State, id: string, saved: bool, becomes: bool, attempts: string -> Attempt)
    requires PromotionSucceeds(s, id, saved, becomes, attempts) && HadEngines(s, id)
    ensures var p := s.tenants[id].replicaOf;
            p != id ==> p in Run(Promoted(s, id), StartOps(Restarts(s, id, saved, becomes, attempts), attempts)).engines
  {
    hide Run, Started, StartSucceeds, HadEngines, StartOps, StartedAll, Present, Dropping;
    var p, ids := s.tenants[id].replicaOf, Restarts(s, id, saved, becomes, attempts);
    if id !in s.engines {
      FirstRuns(Promoted(s, id), ids, attempts);
    } else if p != id {
      assert p in Promoted(s, id).engines;
      StartsRun(Promoted(s, id), ids, attempts);
      EnginesStay(Promoted(s, id), Run(Promoted(s, id), StartOps(ids, attempts)), ids, attempts, p);
    }
  }

  lemma EnginesStay(s: State, t: State, ids: seq<string>, attempts: string -> Attempt, x: string)
    requires StartedAll(s, t, ids, attempts) && x in s.engines
    ensures x in t.engines
  {
  }

  lemma {:induction false} FirstRuns(s: State, ids: seq<string>, attempts: string -> Attempt)
    requires ids != [] && StartSucceeds(s, ids[0], attempts(ids[0]).quota, attempts(ids[0]).outcome)
    ensures ids[0] in Run(s, StartOps(ids, attempts)).engines
  {
    hide Run, StartOps, Admits;
    var n := |ids| - 1;
    RunSplit(s, ids, attempts, n);
    assert ids[..n + 1] == ids;
    if n == 0 {
      NoStarts(s, attempts);
      assert ids[..0] == [];
    } else {
      FirstRuns(s, ids[..n], attempts);
    }
  }

  /** What a promotion owes and what comes of it, case by case. */
  lemma Outcomes(s: State, id: string, saved: bool, becomes: bool, attempts: string -> Attempt)
    ensures PromotionSucceeds(s, id, saved, becomes, attempts) <==> MayTakeOver(s, id, saved, becomes, attempts)
    ensures CanPromote(s, id) ==> (GroupRuns(s, id) <==> HadEngines(s, id))
    ensures CanPromote(s, id) && PromotionSucceeds(s, id, saved, becomes, attempts) && GroupRuns(s, id) ==>
              Restarted(s, Run(Step(s, Promote(id)), StartOps(Restarts(s, id, saved, becomes, attempts), attempts)), id, attempts)
  {
    hide PromotionSucceeds, MayTakeOver, GroupRuns, HadEngines, Restarted, Run, Restarts, StartOps, Promoted;
    SuccessIff(s, id, saved, becomes, attempts);
    if CanPromote(s, id) {
      SameGroup(s, id);
      if PromotionSucceeds(s, id, saved, becomes, attempts) && HadEngines(s, id) {
        GroupRestarted(s, id, saved, becomes, attempts);
      }
    }
  }

  lemma StartOpsMore(ids: seq<string>, attempts: string -> Attempt, k: nat)
    requires k < |ids|
    ensures StartOps(ids[..k + 1], attempts) == StartOps(ids[..k], attempts) + [Start(ids[k], attempts(ids[k]).quota, attempts(ids[k]).outcome)]
  {
  }

  lemma RunSplit(s: State, ids: seq<string>, attempts: string -> Attempt, k: nat)
    requires k < |ids|
    ensures Run(s, StartOps(ids[..k + 1], attempts)) == Started(Run(s, StartOps(ids[..k], attempts)), ids[k], attempts(ids[k]).quota, attempts(ids[k]).outcome)
  {
    StartOpsMore(ids, attempts, k);
    RunOneMore(s, StartOps(ids[..k], attempts), Start(ids[k], attempts(ids[k]).quota, attempts(ids[k]).outcome));
  }

  lemma {:induction false} RunAppend(s: State, a: seq<string>, b: seq<string>, attempts: string -> Attempt)
    ensures Run(Run(s, StartOps(a, attempts)), StartOps(b, attempts)) == Run(s, StartOps(a + b, attempts))
  {
    hide Run, StartOps, Started;
    if b == [] {
      assert a + b == a;
      NoStarts(Run(s, StartOps(a, attempts)), attempts);
    } else {
      var n := |b| - 1;
      RunAppend(s, a, b[..n], attempts);
      RunSplit(Run(s, StartOps(a, attempts)), b, attempts, n);
      RunSplit(s, a + b, attempts, |a| + n);
      assert b[..n + 1] == b && (a + b)[..|a| + n] == a + b[..n] && (a + b)[..|a| + n + 1] == a + b;
    }
  }

  // ---- The manager ----

  class Manager {
    var tenants: Tenants
    var engines: map<string, Place>
    var quotas: map<string, nat>
    const budget: int
    var nextHttp: int
    var nextResp: int
    var nextRepl: int

    function Now(): State
      reads this
    {
      State(tenants, engines, quotas, budget, nextHttp, nextResp, nextRepl)
    }

    constructor (budget: int)
      ensures Now() == Init(budget) && tenants == map[] && engines == map[] && quotas == map[]
      ensures nextHttp == 8081 && nextResp == 6401 && nextRepl == 7401
    {
      this.budget := budget;
      tenants, engines, quotas := map[], map[], map[];
      nextHttp, nextResp, nextRepl := FIRST_HTTP, FIRST_RESP, FIRST_REPL;
    }

    method Place(id: string, role: Role, of: string, replicas: seq<string>)
      modifies this
      ensures Now() == Placed(old(Now()), id, role, of, replicas)
    {
      var repl := 0;
      if role != Solo {
        repl := nextRepl;
        nextRepl := nextRepl + 1;
      }
      tenants := tenants[id := Tenant(nextHttp, nextResp, repl, DefaultDir(id), role, of, replicas, false)];
      nextHttp := nextHttp + 1;
      nextResp := nextResp + 1;
    }

    /** Refuses exactly the requests that the node cannot take. */
    method CheckProvision(id: string, name: string, count: int) returns (ok: bool)
      ensures ok <==> Accepts(Now(), id, name, count)
      ensures ok <==> id != "" && name != "" && 0 <= count <= 2 && |tenants| + 1 + count <= 100 &&
                      (forall i :: 0 <= i < |id| ==> 'a' <= id[i] <= 'z' || 'A' <= id[i] <= 'Z' || '0' <= id[i] <= '9' || id[i] == '-') &&
                      id !in tenants && (count >= 1 ==> id + "-r1" !in tenants) && (count == 2 ==> id + "-r2" !in tenants)
    {
      AcceptsIff(Now(), id, name, count);
      if id == "" {
        return false;
      }
      for i := 0 to |id|
        invariant forall j :: 0 <= j < i ==> ValidChar(id[j])
      {
        var c := id[i];
        if (c < 'a' || c > 'z') && (c < 'A' || c > 'Z') && (c < '0' || c > '9') && c != '-' {
          assert !ValidChar(id[i]);
          return false;
        }
      }
      if name == "" || count < 0 || count > MAX_REPLICAS || id in tenants {
        return false;
      }
      for n := 1 to count + 1
        invariant forall k :: 1 <= k < n ==> ReplicaId(id, k) !in tenants
      {
        if ReplicaId(id, n) in tenants {
          return false;
        }
      }
      return |tenants| + 1 + count <= MAX_TENANTS;
    }

    /** A failed save is reported, but the tenants stay. */
    method Provision(id: string, name: string, count: int, ready: bool, saved: bool) returns (ok: bool)
      modifies this
      ensures Now() == Step(old(Now()), Op.Provision(id, name, count, ready))
      ensures ok <==> ready && saved && old(Accepts(Now(), id, name, count))
      ensures if ready && old(Accepts(Now(), id, name, count)) then NewTenants(old(Now()), Now(), id, count) else Now() == old(Now())
    {
      hide Placed, Accepts, NewTenants;
      ok := CheckProvision(id, name, count);
      if !ok || !ready {
        return false;
      }
      AcceptsInRange(Now(), id, name, count);
      ProvisionIs(Now(), id, name, count);
      Place(id, if count > 0 then Primary else Solo, "", ReplicaIds(id, count));
      for n := 0 to count
        invariant Now() == WithReplicas(WithPrimary(old(Now()), id, count), id, n)
      {
        Place(ReplicaId(id, n + 1), Replica, id, []);
      }
      return saved;
    }

    method Allocated() returns (sum: nat)
      ensures sum == SumOf(quotas)
    {
      sum := 0;
      var rest := quotas;
      while rest != map[]
        invariant sum + SumOf(rest) == SumOf(quotas)
        decreases |rest|
      {
        var k :| k in rest;
        SumWithout(rest, k);
        sum := sum + rest[k];
        rest := rest - {k};
      }
    }

    /** A tenant has its reservation already, there is no limit, or at most 70%
        of the budget is reserved with the quota. */
    ghost predicate Room(id: string, quota: nat)
      reads this
    {
      id in quotas || budget <= 0 || 100 * (SumOf(quotas) + quota) <= 70 * budget
    }

    method StartTenant(id: string, quota: nat, outcome: Outcome) returns (ok: bool)
      modifies `engines, `quotas
      ensures Now() == Started(old(Now()), id, quota, outcome)
      ensures ok <==> old(StartSucceeds(Now(), id, quota, outcome))
      ensures ok <==> id in tenants && !tenants[id].hibernated && (id in old(engines) || (outcome == Opened && old(Room(id, quota))))
      ensures engines == if ok && id !in old(engines) then old(engines)[id := Placement.Place(tenants[id].dir, tenants[id].http, tenants[id].resp)]
                         else old(engines)
      ensures quotas == if id in tenants && !tenants[id].hibernated && id !in old(engines) && outcome != Unprepared &&
                           id !in old(quotas) && old(Room(id, quota))
                        then old(quotas)[id := quota] else old(quotas)
    {
      hide SumOf;
      if id !in tenants || tenants[id].hibernated {
        return false;
      }
      if id in engines {
        return true;
      }
      if outcome == Unprepared {
        return false;
      }
      if id !in quotas {
        var reserved := Allocated();
        if budget > 0 && reserved + quota > budget * 70 / 100 {
          return false;
        }
        quotas := quotas[id := quota];
      }
      if outcome == NotOpened {
        return false;
      }
      engines := engines[id := PlaceOf(tenants[id])];
      return true;
    }

    method HibernateTenant(id: string, saved: bool) returns (ok: bool)
      modifies `tenants, `engines
      ensures Now() == Step(old(Now()), Hibernate(id, saved))
      ensures ok <==> saved && id in old(tenants) && old(tenants)[id].role != Replica
      ensures ok ==> tenants == old(tenants)[id := old(tenants)[id].(hibernated := true)] && engines == old(engines) - {id}
      ensures !ok ==> engines == old(engines) &&
                      tenants == if id in old(tenants) && old(tenants)[id].role != Replica
                                 then old(tenants)[id := old(tenants)[id].(hibernated := false)] else old(tenants)
    {
      if id !in tenants || tenants[id].role == Replica {
        return false;
      }
      var live := engines;
      tenants := Marked(tenants, id, true);
      engines := engines - {id};
      if !saved {
        tenants := Marked(tenants, id, false);
        engines := live;
        assert tenants == Marked(old(tenants), id, false);
        return false;
      }
      return true;
    }

    method WakeTenant(id: string, onlyHibernated: bool, saved: bool, quota: nat, outcome: Outcome) returns (ok: bool)
      modifies `tenants, `engines, `quotas
      ensures Now() == Step(old(Now()), Wake(id, onlyHibernated, saved, quota, outcome))
      ensures ok <==> id in old(tenants) && (onlyHibernated ==> old(tenants)[id].hibernated) && saved &&
                      StartSucceeds(old(Now()).(tenants := Marked(old(tenants), id, false)), id, quota, outcome)
      ensures ok ==> id in engines && id in tenants && !tenants[id].hibernated
      ensures tenants == if id in old(tenants) && (onlyHibernated ==> old(tenants)[id].hibernated)
                         then old(tenants)[id := old(tenants)[id].(hibernated := !saved)] else old(tenants)
      ensures engines == if ok && id !in old(engines) then old(engines)[id := Placement.Place(tenants[id].dir, tenants[id].http, tenants[id].resp)]
                         else old(engines)
    {
      hide Started, StartSucceeds;
      if id !in tenants {
        return false;
      }
      if onlyHibernated && !tenants[id].hibernated {
        return false;
      }
      tenants := Marked(tenants, id, false);
      if !saved {
        tenants := Marked(tenants, id, true);
        assert tenants == Marked(old(tenants), id, true);
        return false;
      }
      ok := StartTenant(id, quota, outcome);
    }

    /** The locked section of a promotion. */
    method SwapPlaces(id: string) returns (done: bool)
      modifies `tenants, `engines
      ensures Now() == Step(old(Now()), Promote(id))
      ensures done <==> old(CanPromote(Now(), id))
      ensures done <==> id in old(tenants) && old(tenants)[id].role == Replica && old(tenants)[id].replicaOf != "" && old(tenants)[id].replicaOf in old(tenants)
      ensures if done then TakesOver(old(Now()), Now(), id) else Now() == old(Now())
    {
      hide Swapped, Stopped, TakesOver;
      if CanPromote(Now(), id) {
        PromotionIs(Now(), id);
      }
      if id !in tenants || tenants[id].role != Replica || tenants[id].replicaOf == "" || tenants[id].replicaOf !in tenants {
        return false;
      }
      var p := tenants[id].replicaOf;
      var live := engines;
      engines := engines - {p};
      var listed := tenants[p].replicas;
      StoppedFirst(live, p, id);
      for k := 0 to |listed|
        invariant tenants == old(tenants)
        invariant engines == Stopped(live, p, listed[..k], id)
      {
        StoppedMore(live, p, listed, id, k);
        if listed[k] != id {
          engines := engines - {listed[k]};
        }
      }
      assert listed[..|listed|] == listed;
      StoppedAll(old(Now()), id);
      tenants := Swapped(tenants, p, id);
      if id in live {
        engines := engines[p := live[id]] - {id};
      }
      return true;
    }

    /** A promotion is the swap followed by the starts it owes. */
    method PromoteLocal(id: string, saved: bool, becomes: bool, attempts: string -> Attempt) returns (ok: bool)
      modifies `tenants, `engines, `quotas
      ensures Now() == Run(Step(old(Now()), Promote(id)), StartOps(Restarts(old(Now()), id, saved, becomes, attempts), attempts))
      ensures ok <==> PromotionSucceeds(old(Now()), id, saved, becomes, attempts)
      ensures ok <==> MayTakeOver(old(Now()), id, saved, becomes, attempts)
      ensures old(CanPromote(Now(), id)) && !(ok && GroupRuns(old(Now()), id)) ==> TakesOver(old(Now()), Now().(quotas := old(quotas)), id)
      ensures !old(CanPromote(Now(), id)) ==> Now() == old(Now())
      ensures ok && GroupRuns(old(Now()), id) ==> Restarted(old(Now()), Now(), id, attempts)
    {
      hide Run, Started, StartSucceeds, Promoted, StartOps, Present, Dropping, TakesOver, Room,
           MayTakeOver, Restarted, GroupRuns;
      ghost var s := Now();
      Outcomes(s, id, saved, becomes, attempts);
      var before := Now();
      var done := SwapPlaces(id);
      ghost var t := Now();
      NoStarts(t, attempts);
      if !done || !saved {
        return false;
      }
      var had := HadEngines(before, id);
      var live := id in before.engines;
      if !had {
        return true;
      }
      if live && !becomes {
        return false;
      }
      var p := before.tenants[id].replicaOf;
      var followers := [id] + Present(Dropping(before.tenants[p].replicas, id), before.tenants);
      if !live {
        ok := StartTenant(p, attempts(p).quota, attempts(p).outcome);
        OneStart(t, p, attempts);
        RunAppend(t, [p], followers, attempts);
        if !ok {
          return false;
        }
      }
      StartAll(followers, attempts);
      return true;
    }

    /** Starts tenants in order; what fails to start is only logged. */
    method StartAll(ids: seq<string>, attempts: string -> Attempt)
      modifies `engines, `quotas
      ensures Now() == Run(old(Now()), StartOps(ids, attempts))
    {
      hide Run, Started, StartSucceeds, StartOps, Room;
      NoStarts(Now(), attempts);
      assert ids[..0] == [];
      for k := 0 to |ids|
        invariant Now() == Run(old(Now()), StartOps(ids[..k], attempts))
      {
        RunSplit(old(Now()), ids, attempts, k);
        var started := StartTenant(ids[k], attempts(ids[k]).quota, attempts(ids[k]).outcome);
      }
      assert ids[..|ids|] == ids;
    }

    method RemoveTenant(id: string)
      modifies `tenants, `engines, `quotas
      ensures Now() == Dropped(old(Now()), {id})
    {
      engines := engines - {id};
      quotas := quotas - {id};
      tenants := tenants - {id};
    }

    /** `saved` is the outcome of the save after a replica was unlisted. */
    method DeleteTenant(id: string, failAt: int, saved: bool) returns (ok: bool)
      modifies `tenants, `engines, `quotas
      ensures Now() == Step(old(Now()), Delete(id, failAt))
      ensures ok <==> id in old(tenants) && !Stops(old(Now()), id, failAt) &&
                      (old(tenants)[id].replicaOf != "" && old(tenants)[id].replicaOf in tenants ==> saved)
      ensures id in old(tenants) && !Stops(old(Now()), id, failAt) ==> IsGone(old(Now()), Now(), id)
      ensures id !in old(tenants) ==> Now() == old(Now())
    {
      hide Dropped, Doomed, Present, Dropping, IsGone;
      if id !in tenants {
        return false;
      }
      if !Stops(Now(), id, failAt) {
        DeletionIs(Now(), id, failAt);
      }
      ghost var s := Now();
      var replicaOf := tenants[id].replicaOf;
      var doomed := Doomed(Now(), id);
      DroppedNone(s);
      for k := 0 to |doomed|
        invariant Now() == Dropped(s, Among(doomed[..k]))
        invariant !(0 <= failAt < k)
      {
        DroppedMore(s, doomed, k);
        RemoveTenant(doomed[k]);
        if failAt == k {
          return false;
        }
      }
      assert doomed[..|doomed|] == doomed;
      if replicaOf != "" && replicaOf in tenants {
        tenants := tenants[replicaOf := tenants[replicaOf].(replicas := Dropping(tenants[replicaOf].replicas, id))];
        return saved;
      }
      return true;
    }
  }

  /** A solo tenant, or a primary and its replicas, each on its own directory and
      the next ports, awake and not running. */
  ghost predicate NewTenants(s: State, t: State, id: string, count: int)
  {
    Adds(s, t, id, id + "-r1", id + "-r2", "tenants/" + id, "tenants/" + id + "-r1", "tenants/" + id + "-r2", count)
  }

  /** Tenant `id` on `dir` and, as many as `count`, the replicas `a` on `dirA` and `b` on `dirB`. */
  ghost predicate Adds(s: State, t: State, id: string, a: string, b: string, dir: string, dirA: string, dirB: string, count: int)
  {
    && 0 <= count <= 2
    && t.tenants.Keys == s.tenants.Keys + {id} + (if count >= 1 then {a} else {}) + (if count == 2 then {b} else {})
    && (forall x :: x in s.tenants ==> t.tenants[x] == s.tenants[x])
    && t.tenants[id] == Tenant(s.nextHttp, s.nextResp, if count > 0 then s.nextRepl else 0, dir,
                               if count > 0 then Primary else Solo, "", [a, b][..count], false)
    && (count >= 1 ==> t.tenants[a] == Tenant(s.nextHttp + 1, s.nextResp + 1, s.nextRepl + 1, dirA, Replica, id, [], false))
    && (count == 2 ==> t.tenants[b] == Tenant(s.nextHttp + 2, s.nextResp + 2, s.nextRepl + 2, dirB, Replica, id, [], false))
    && t.nextHttp == s.nextHttp + count + 1 && t.nextResp == s.nextResp + count + 1
    && t.nextRepl == s.nextRepl + (if count > 0 then count + 1 else 0)
    && t.engines == s.engines && t.quotas == s.quotas && t.budget == s.budget
  }

  lemma ReplicaNames(id: string)
    ensures ReplicaId(id, 1) == id + "-r1" && ReplicaId(id, 2) == id + "-r2" && id != id + "-r1" && id != id + "-r2"
    ensures DefaultDir(id) == "tenants/" + id
    ensures DefaultDir(id + "-r1") == "tenants/" + id + "-r1" && DefaultDir(id + "-r2") == "tenants/" + id + "-r2"
  {
    assert |id + "-r1"| == |id| + 3 && |id + "-r2"| == |id| + 3;
  }

  lemma ReplicaList(id: string, count: nat)
    requires count <= 2
    ensures ReplicaIds(id, count) == [id + "-r1", id + "-r2"][..count]
  {
    ReplicaNames(id);
    var ids := ReplicaIds(id, count);
    assert forall k :: 0 <= k < count ==> ids[k] == [id + "-r1", id + "-r2"][k];
  }

  lemma AcceptsIff(s: State, id: string, name: string, count: int)
    ensures Accepts(s, id, name, count) <==>
              && id != "" && name != "" && 0 <= count <= 2 && |s.tenants| + 1 + count <= 100
              && (forall i :: 0 <= i < |id| ==> 'a' <= id[i] <= 'z' || 'A' <= id[i] <= 'Z' || '0' <= id[i] <= '9' || id[i] == '-')
              && id !in s.tenants && (count >= 1 ==> id + "-r1" !in s.tenants) && (count == 2 ==> id + "-r2" !in s.tenants)
  {
    ReplicaNames(id);
    assert count >= 1 && Accepts(s, id, name, count) ==> ReplicaId(id, 1) !in s.tenants;
    assert count == 2 && Accepts(s, id, name, count) ==> ReplicaId(id, 2) !in s.tenants;
  }

  lemma PlacementsAdd(s: State, id: string, a: string, b: string, count: nat)
    requires count <= 2 && id != a && id != b && a != b
    requires id !in s.tenants && (count >= 1 ==> a !in s.tenants) && (count == 2 ==> b !in s.tenants)
    ensures var t := Placed(s, id, if count > 0 then Primary else Solo, "", [a, b][..count]);
            var u := if count > 0 then Placed(t, a, Replica, id, []) else t;
            var v := if count == 2 then Placed(u, b, Replica, id, []) else u;
            Adds(s, v, id, a, b, DefaultDir(id), DefaultDir(a), DefaultDir(b), count)
  {
    hide DefaultDir;
  }

  lemma ReplicasPlaced(s: State, id: string, count: nat)
    requires count <= 2
    ensures var u := if count > 0 then Placed(s, ReplicaId(id, 1), Replica, id, []) else s;
            WithReplicas(s, id, count) == if count == 2 then Placed(u, ReplicaId(id, 2), Replica, id, []) else u
  {
    hide Placed, ReplicaId;
    assert count == 2 ==> WithReplicas(s, id, 1) == Placed(s, ReplicaId(id, 1), Replica, id, []);
  }

  lemma ProvisionIs(s: State, id: string, name: string, count: int)
    requires Accepts(s, id, name, count)
    ensures NewTenants(s, Provisioned(s, id, count), id, count)
  {
    hide Accepts, Placed, ReplicaId, ReplicaIds, DefaultDir, Adds, WithReplicas;
    AcceptsIff(s, id, name, count);
    ReplicaNames(id);
    ReplicaList(id, count);
    assert (id + "-r1")[|id| + 2] != (id + "-r2")[|id| + 2];
    PlacementsAdd(s, id, id + "-r1", id + "-r2", count);
    ReplicasPlaced(WithPrimary(s, id, count), id, count);
  }

  lemma AcceptsInRange(s: State, id: string, name: string, count: int)
    requires Accepts(s, id, name, count)
    ensures 0 <= count <= MAX_REPLICAS
  {
  }

  /** The engines left once the primary's and those of the listed replicas but one are stopped. */
  function Stopped(live: map<string, Place>, p: string, listed: seq<string>, id: string): map<string, Place>
  {
    live - ({p} + Among(Dropping(listed, id)))
  }

  lemma StoppedFirst(live: map<string, Place>, p: string, id: string)
    ensures Stopped(live, p, [], id) == live - {p}
  {
    assert Among(Dropping([], id)) == {};
  }

  lemma StoppedMore(live: map<string, Place>, p: string, listed: seq<string>, id: string, k: nat)
    requires k < |listed|
    ensures var before := Stopped(live, p, listed[..k], id);
            Stopped(live, p, listed[..k + 1], id) == if listed[k] != id then before - {listed[k]} else before
  {
    assert listed[..k + 1] == listed[..k] + [listed[k]];
    assert Among(Dropping(listed[..k + 1], id)) == Among(Dropping(listed[..k], id)) + if listed[k] == id then {} else {listed[k]};
  }

  lemma StoppedAll(s: State, id: string)
    requires CanPromote(s, id)
    ensures var p := s.tenants[id].replicaOf;
            Stopped(s.engines, p, s.tenants[p].replicas, id) == s.engines - ({p} + Others(s, id))
  {
    var p := s.tenants[id].replicaOf;
    assert Others(s, id) == Among(Dropping(s.tenants[p].replicas, id));
  }

  /** The tenant and the replicas it lists are gone with their engines and
      reservations, nobody lists it, and nobody else changed. */
  ghost predicate IsGone(s: State, t: State, id: string)
  {
    && id in s.tenants
    && var gone := (set x | x in s.tenants[id].replicas && x in s.tenants && s.tenants[id].role != Replica) + {id};
       && t.tenants.Keys == s.tenants.Keys - gone
       && t.engines == s.engines - gone && t.quotas == s.quotas - gone
       && (forall x :: x in t.tenants && x != s.tenants[id].replicaOf ==> t.tenants[x] == s.tenants[x])
       && (s.tenants[id].replicaOf != "" && s.tenants[id].replicaOf in t.tenants ==>
             var p := s.tenants[id].replicaOf;
             && t.tenants[p] == s.tenants[p].(replicas := t.tenants[p].replicas)
             && forall x :: x in t.tenants[p].replicas <==> x in s.tenants[p].replicas && x != id)
  }

  lemma DeletionIs(s: State, id: string, failAt: int)
    requires id in s.tenants && !Stops(s, id, failAt)
    ensures IsGone(s, Deleted(s, id, failAt), id)
  {
    assert Among(Doomed(s, id)) == (set x | x in s.tenants[id].replicas && x in s.tenants && s.tenants[id].role != Replica) + {id};
  }

  lemma NoStarts(s: State, attempts: string -> Attempt)
    ensures Run(s, StartOps([], attempts)) == s
  {
    assert StartOps([], attempts) == [];
  }

  lemma OneStart(s: State, p: string, attempts: string -> Attempt)
    ensures Run(s, StartOps([p], attempts)) == Started(s, p, attempts(p).quota, attempts(p).outcome)
  {
    NoStarts(s, attempts);
    RunSplit(s, [p], attempts, 0);
    assert [p][..0] == [] && [p][..1] == [p];
  }

  lemma DroppedNone(s: State)
    ensures Dropped(s, Among([])) == s
  {
    assert Among([]) == {};
  }

  lemma DroppedMore(s: State, ids: seq<string>, k: nat)
    requires k < |ids|
    ensures Dropped(Dropped(s, Among(ids[..k])), {ids[k]}) == Dropped(s, Among(ids[..k + 1]))
  {
    assert Among(ids[..k + 1]) == Among(ids[..k]) + {ids[k]};
  }
}
