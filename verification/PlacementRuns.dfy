/** What runs of the placement machine can and cannot reach. */
module PlacementRuns {
  import opened Placement
  import opened PlacementPorts

  // ---- Hibernated tenants and live engines ----

  /** No hibernated tenant has a live engine. */
  predicate Asleep(s: State)
  {
    forall id :: id in s.engines && id in s.tenants ==> !s.tenants[id].hibernated
  }

  /** A live replica is promoted under a hibernated id, or a wake of a running tenant cannot be saved. */
  predicate LeavesAwake(s: State, op: Op)
  {
    || (op.Promote? && CanPromote(s, op.id) && op.id in s.engines && s.tenants[s.tenants[op.id].replicaOf].hibernated)
    || (op.Wake? && op.id in s.tenants && op.id in s.engines && !op.onlyHibernated && !op.saved)
  }

  lemma PromoteAsleep(s: State, id: string)
    requires Asleep(s) && ShapesOk(s.tenants) && CanPromote(s, id)
    ensures Asleep(Promoted(s, id)) <==> !(id in s.engines && s.tenants[s.tenants[id].replicaOf].hibernated)
  {
    var p, t := s.tenants[id].replicaOf, Promoted(s, id);
    assert ShapeOf(id, s.tenants[id]);
    assert t.tenants[p].hibernated == s.tenants[p].hibernated;
    assert id in s.engines ==> p in t.engines;
    forall x | x in t.engines && x != p
      ensures x in s.engines && (x in t.tenants ==> t.tenants[x].hibernated == s.tenants[x].hibernated)
    {
    }
  }

  lemma StartAsleep(s: State, id: string, quota: nat, outcome: Outcome)
    requires Asleep(s)
    ensures Asleep(Started(s, id, quota, outcome))
  {
  }

  lemma ProvisionAsleep(s: State, id: string, name: string, count: nat)
    requires Asleep(s) && EnginesOk(s) && Accepts(s, id, name, count)
    ensures Asleep(Provisioned(s, id, count))
  {
    hide Accepts, Provisioned;
    ProvisionJoins(s, id, name, count);
    ProvisionAdds(s, id, name, count);
  }

  lemma DeleteAsleep(s: State, id: string, failAt: int)
    requires Asleep(s) && id in s.tenants
    ensures Asleep(Deleted(s, id, failAt))
  {
    hide Doomed, Dropping;
  }

  /** A step lets a hibernated tenant run in exactly two cases. */
  lemma StepAsleep(s: State, op: Op)
    requires Asleep(s) && Sound(s)
    ensures Asleep(Step(s, op)) <==> !LeavesAwake(s, op)
  {
    hide Provisioned, Started, Promoted, Deleted, PortsOk, QuotasOk, ShapesOk, Accepts;
    match op
    case Provision(id, name, count, ready) =>
      if ready && Accepts(s, id, name, count) {
        AcceptsCount(s, id, name, count);
        ProvisionAsleep(s, id, name, count);
      }
    case Start(id, quota, outcome) => StartAsleep(s, id, quota, outcome);
    case Hibernate(id, saved) =>
    case Wake(id, onlyHibernated, saved, quota, outcome) =>
      if id in s.tenants {
        StartAsleep(s.(tenants := Marked(s.tenants, id, false)), id, quota, outcome);
      }
    case Promote(id) =>
      if CanPromote(s, id) {
        PromoteAsleep(s, id);
      }
    case Delete(id, failAt) =>
      if id in s.tenants {
        DeleteAsleep(s, id, failAt);
      }
  }

  ghost predicate AlwaysAsleep(s: State, ops: seq<Op>)
  {
    Asleep(Run(s, ops)) && (ops == [] || AlwaysAsleep(s, ops[..|ops| - 1]))
  }

  ghost predicate NeverLeavesAwake(s: State, ops: seq<Op>)
  {
    ops == [] || (!LeavesAwake(Run(s, ops[..|ops| - 1]), ops[|ops| - 1]) && NeverLeavesAwake(s, ops[..|ops| - 1]))
  }

  /** No hibernated tenant ever runs exactly when none of the two cases occurs in the run. */
  lemma {:induction false} RunAsleep(budget: int, ops: seq<Op>)
    ensures AlwaysAsleep(Init(budget), ops) <==> NeverLeavesAwake(Init(budget), ops)
  {
    if ops != [] {
      hide Step, LeavesAwake, Asleep, Sound;
      var n := |ops| - 1;
      RunAsleep(budget, ops[..n]);
      if AlwaysAsleep(Init(budget), ops[..n]) {
        LastAsleep(Init(budget), ops[..n]);
        EveryRunSound(budget, ops[..n]);
        StepAsleep(Run(Init(budget), ops[..n]), ops[n]);
      }
    }
  }

  lemma LastAsleep(s: State, ops: seq<Op>)
    requires AlwaysAsleep(s, ops)
    ensures Asleep(Run(s, ops))
  {
  }

  lemma AcceptsCount(s: State, id: string, name: string, count: int)
    requires Accepts(s, id, name, count)
    ensures count >= 0
  {
  }

  // ---- Live engines and reserved memory ----

  /** Every live engine has memory reserved under its tenant's id. */
  predicate Covered(s: State)
  {
    s.engines.Keys <= s.quotas.Keys
  }

  /** A live replica takes over a public id that has nothing reserved. */
  predicate Uncovers(s: State, op: Op)
  {
    op.Promote? && CanPromote(s, op.id) && op.id in s.engines && s.tenants[op.id].replicaOf !in s.quotas
  }

  lemma StartCovered(s: State, id: string, quota: nat, outcome: Outcome)
    requires Covered(s)
    ensures Covered(Started(s, id, quota, outcome))
  {
  }

  lemma PromoteCovered(s: State, id: string)
    requires Covered(s) && ShapesOk(s.tenants) && CanPromote(s, id)
    ensures Covered(Promoted(s, id)) <==> !(id in s.engines && s.tenants[id].replicaOf !in s.quotas)
  {
    var p := s.tenants[id].replicaOf;
    assert ShapeOf(id, s.tenants[id]);
    assert id in s.engines ==> p in Promoted(s, id).engines;
  }

  lemma {:induction false} ReplicasCovered(s: State, id: string, n: nat)
    requires n <= MAX_REPLICAS
    ensures WithReplicas(s, id, n).engines == s.engines && WithReplicas(s, id, n).quotas == s.quotas
  {
    if n > 0 {
      ReplicasCovered(s, id, n - 1);
    }
  }

  lemma DeleteCovered(s: State, id: string, failAt: int)
    requires Covered(s) && id in s.tenants
    ensures Covered(Deleted(s, id, failAt))
  {
    hide Doomed, Dropping, Among;
  }

  /** Admission loses sight of an engine in exactly one case. */
  lemma StepCovered(s: State, op: Op)
    requires Covered(s) && Sound(s)
    ensures Covered(Step(s, op)) <==> !Uncovers(s, op)
  {
    hide WithReplicas, Started, Promoted, Deleted, PortsOk, QuotasOk, EnginesOk, ShapesOk, ReplicaId, ReplicaIds;
    match op
    case Provision(id, name, count, ready) =>
      if ready && Accepts(s, id, name, count) {
        ReplicasCovered(WithPrimary(s, id, count), id, count);
      }
    case Start(id, quota, outcome) => StartCovered(s, id, quota, outcome);
    case Hibernate(id, saved) =>
    case Wake(id, onlyHibernated, saved, quota, outcome) =>
      if id in s.tenants {
        StartCovered(s.(tenants := Marked(s.tenants, id, false)), id, quota, outcome);
      }
    case Promote(id) =>
      if CanPromote(s, id) {
        PromoteCovered(s, id);
      }
    case Delete(id, failAt) =>
      if id in s.tenants {
        DeleteCovered(s, id, failAt);
      }
  }

  ghost predicate AlwaysCovered(s: State, ops: seq<Op>)
  {
    Covered(Run(s, ops)) && (ops == [] || AlwaysCovered(s, ops[..|ops| - 1]))
  }

  ghost predicate NeverUncovers(s: State, ops: seq<Op>)
  {
    ops == [] || (!Uncovers(Run(s, ops[..|ops| - 1]), ops[|ops| - 1]) && NeverUncovers(s, ops[..|ops| - 1]))
  }

  /** Every live engine is reserved for throughout a run exactly when no promotion of it escapes admission. */
  lemma {:induction false} RunCovered(budget: int, ops: seq<Op>)
    ensures AlwaysCovered(Init(budget), ops) <==> NeverUncovers(Init(budget), ops)
  {
    if ops != [] {
      hide Step, Uncovers, Covered, Sound;
      var n := |ops| - 1;
      RunCovered(budget, ops[..n]);
      if AlwaysCovered(Init(budget), ops[..n]) {
        LastCovered(Init(budget), ops[..n]);
        EveryRunSound(budget, ops[..n]);
        StepCovered(Run(Init(budget), ops[..n]), ops[n]);
      }
    }
  }

  lemma LastCovered(s: State, ops: seq<Op>)
    requires AlwaysCovered(s, ops)
    ensures Covered(Run(s, ops))
  {
  }

  // ---- A run that shares a directory ----

  lemma ReplicaIdValid(id: string)
    requires ValidId(id)
    ensures ValidId(ReplicaId(id, 1)) && ReplicaId(id, 1) != ""
  {
    var r := ReplicaId(id, 1);
    assert forall i :: 0 <= i < |r| ==> r[i] == if i < |id| then id[i] else if i == |id| then '-' else if i == |id| + 1 then 'r' else '1';
  }

  function SharingRun(id: string, name: string): seq<Op>
  {
    var r := ReplicaId(id, 1);
    [Provision(id, name, 1, true), Promote(r), Delete(r, -1), Provision(r, name, 0, true)]
  }

  lemma RunFour(s: State, a: Op, b: Op, c: Op, d: Op)
    ensures Run(s, [a, b, c, d]) == Step(Step(Step(Step(s, a), b), c), d)
  {
    hide Step;
    RunOneMore(s, [], a);
    RunOneMore(s, [a], b);
    RunOneMore(s, [a, b], c);
    RunOneMore(s, [a, b, c], d);
    assert [] + [a] == [a] && [a] + [b] == [a, b] && [a, b] + [c] == [a, b, c] && [a, b, c] + [d] == [a, b, c, d];
  }

  /** A primary and its one replica. */
  predicate Pair(s: State, id: string, r: string)
  {
    && id != r && s.tenants.Keys == {id, r}
    && CanPromote(s, r) && s.tenants[r].replicaOf == id && s.tenants[id].role == Primary
  }

  lemma PairPromoted(s: State, id: string, r: string)
    requires Pair(s, id, r)
    ensures var t := Step(s, Promote(r));
            && Pair(t, id, r) && t.tenants[id].dir == s.tenants[r].dir && t.tenants[id].hibernated == s.tenants[id].hibernated
            && (r in s.engines ==> id in t.engines) && t.quotas == s.quotas
  {
    hide Others;
  }

  lemma PairDeleted(s: State, id: string, r: string)
    requires Pair(s, id, r)
    ensures var t := Step(s, Delete(r, -1));
            t.tenants.Keys == {id} && t.tenants[id].dir == s.tenants[id].dir
  {
    hide Doomed, Dropping, Among;
    DoomedReplica(s, r);
  }

  lemma OneMore(s: State, id: string, r: string, name: string)
    requires s.tenants.Keys == {id} && r != id && ValidId(r) && name != ""
    ensures var t := Step(s, Provision(r, name, 0, true));
            id in t.tenants && r in t.tenants && t.tenants[id].dir == s.tenants[id].dir && t.tenants[r].dir == DefaultDir(r)
  {
    hide DefaultDir, ReplicaIds;
    assert |s.tenants| == |s.tenants.Keys| == 1;
    assert Accepts(s, r, name, 0);
  }

  /** Promote a replica, delete it, reuse its id: the primary and the newcomer hold one directory. */
  lemma DirectoryShared(budget: int, id: string, name: string)
    requires ValidId(id) && name != ""
    ensures var s, r := Run(Init(budget), SharingRun(id, name)), ReplicaId(id, 1);
            && id != r && id in s.tenants && r in s.tenants && s.tenants[id].dir == s.tenants[r].dir
            && !DirsApart(s)
  {
    hide Step, Run, DefaultDir, ReplicaId, DirsApart, Pair, ValidId;
    var r, s0 := ReplicaId(id, 1), Init(budget);
    ReplicaIdsDiffer(id, 1, 1);
    ReplicaIdValid(id);
    RunFour(s0, Provision(id, name, 1, true), Promote(r), Delete(r, -1), Provision(r, name, 0, true));
    var s1 := AfterProvision(s0, id, name);
    var s2 := Step(s1, Promote(r));
    PairPromoted(s1, id, r);
    PairDeleted(s2, id, r);
    var s3 := Step(s2, Delete(r, -1));
    OneMore(s3, id, r, name);
    SharedNotApart(Step(s3, Provision(r, name, 0, true)), id, r);
  }

  lemma SharedNotApart(s: State, a: string, b: string)
    requires a in s.tenants && b in s.tenants && a != b && s.tenants[a].dir == s.tenants[b].dir
    ensures !DirsApart(s)
  {
    var m := Each(s.tenants, DirOf);
    assert a in m && b in m && m[a] == m[b];
  }

  lemma AfterProvision(s: State, id: string, name: string) returns (t: State)
    requires s.tenants == map[] && ValidId(id) && name != ""
    ensures t == Step(s, Provision(id, name, 1, true)) && Pair(t, id, ReplicaId(id, 1))
    ensures t.tenants[ReplicaId(id, 1)].dir == DefaultDir(ReplicaId(id, 1)) && !t.tenants[ReplicaId(id, 1)].hibernated
    ensures t.engines == s.engines && t.quotas == s.quotas && t.budget == s.budget
  {
    hide DefaultDir;
    ReplicaIdsDiffer(id, 1, 1);
    assert Accepts(s, id, name, 1);
    OneReplica(WithPrimary(s, id, 1), id);
    t := Provisioned(s, id, 1);
  }

  lemma OneReplica(s: State, id: string)
    ensures WithReplicas(s, id, 1) == Placed(s, ReplicaId(id, 1), Replica, id, [])
  {
    assert WithReplicas(s, id, 0) == s;
  }

  // ---- A run that wakes a hibernated tenant ----

  function RousingRun(id: string, name: string, quota: nat): seq<Op>
  {
    var r := ReplicaId(id, 1);
    [Provision(id, name, 1, true), Start(r, quota, Opened), Hibernate(id, true), Promote(r)]
  }

  lemma PairStarted(s: State, id: string, r: string, quota: nat)
    requires Pair(s, id, r) && s.engines == map[] && s.quotas == map[] && !s.tenants[r].hibernated
    requires s.budget <= 0 || quota <= s.budget * 70 / 100
    ensures var t := Step(s, Start(r, quota, Opened));
            Pair(t, id, r) && r in t.engines && t.quotas.Keys == {r}
  {
    hide Pair;
    assert SumOf(s.quotas) == 0;
    assert id != r && r in s.tenants by {
      PairHas(s, id, r);
    }
    SamePair(s, Step(s, Start(r, quota, Opened)), id, r);
  }

  lemma PairHas(s: State, id: string, r: string)
    requires Pair(s, id, r)
    ensures id != r && id in s.tenants && r in s.tenants && s.tenants[id].role == Primary
  {
  }

  lemma SamePair(s: State, t: State, id: string, r: string)
    requires Pair(s, id, r) && t.tenants == s.tenants
    ensures Pair(t, id, r)
  {
  }

  lemma PairHibernated(s: State, id: string, r: string)
    requires Pair(s, id, r)
    ensures var t := Step(s, Hibernate(id, true));
            Pair(t, id, r) && t.tenants[id].hibernated && (r in s.engines ==> r in t.engines) && t.quotas == s.quotas
  {
  }

  /** Promoting a live replica of a hibernated tenant leaves that tenant hibernated, running and without a reservation. */
  lemma HibernatedRuns(budget: int, id: string, name: string, quota: nat)
    requires ValidId(id) && name != "" && (budget <= 0 || quota <= budget * 70 / 100)
    ensures var s := Run(Init(budget), RousingRun(id, name, quota));
            id in s.tenants && s.tenants[id].hibernated && id in s.engines && id !in s.quotas
  {
    hide Step, Run, DefaultDir, ReplicaId, Pair, ValidId;
    var r, s0 := ReplicaId(id, 1), Init(budget);
    RunFour(s0, Provision(id, name, 1, true), Start(r, quota, Opened), Hibernate(id, true), Promote(r));
    var s1 := AfterProvision(s0, id, name);
    PairHas(s1, id, r);
    PairStarted(s1, id, r, quota);
    var s2 := Step(s1, Start(r, quota, Opened));
    PairHibernated(s2, id, r);
    var s3 := Step(s2, Hibernate(id, true));
    PairPromoted(s3, id, r);
    PairHas(Step(s3, Promote(r)), id, r);
  }

  // ---- A run that leaves a running tenant marked hibernated ----

  lemma RunThree(s: State, a: Op, b: Op, c: Op)
    ensures Run(s, [a, b, c]) == Step(Step(Step(s, a), b), c)
  {
    hide Step;
    RunTwo(s, a, b);
    RunOneMore(s, [a, b], c);
    assert [a, b] + [c] == [a, b, c];
  }

  lemma RunTwo(s: State, a: Op, b: Op)
    ensures Run(s, [a, b]) == Step(Step(s, a), b)
  {
    hide Step;
    RunNone(s);
    RunOneMore(s, [], a);
    RunOneMore(s, [a], b);
    assert [] + [a] == [a] && [a] + [b] == [a, b];
  }

  lemma SoloProvisioned(s: State, id: string, name: string)
    requires id !in s.tenants && |s.tenants| < MAX_TENANTS && ValidId(id) && name != ""
    ensures Step(s, Provision(id, name, 0, true)) == Placed(s, id, Solo, "", [])
  {
    assert Accepts(s, id, name, 0);
  }

  /** A wake that cannot be saved marks a running tenant hibernated. */
  lemma UnsavedWakeMarks(budget: int, id: string, name: string, quota: nat)
    requires ValidId(id) && name != "" && (budget <= 0 || quota <= budget * 70 / 100)
    ensures var s := Run(Init(budget), [Provision(id, name, 0, true), Start(id, quota, Opened), Wake(id, false, false, quota, Opened)]);
            id in s.tenants && s.tenants[id].hibernated && id in s.engines && !Asleep(s)
  {
    hide DefaultDir, Run;
    var s0 := Init(budget);
    RunThree(s0, Provision(id, name, 0, true), Start(id, quota, Opened), Wake(id, false, false, quota, Opened));
    SoloProvisioned(s0, id, name);
    var s1 := Placed(s0, id, Solo, "", []);
    assert SumOf(s1.quotas) == 0;
    assert id in Step(s1, Start(id, quota, Opened)).engines;
  }

  // ---- A run that strands a replica ----

  /** A failed delete of a replica leaves its primary listing it. */
  lemma ReplicaStranded(budget: int, id: string, name: string)
    requires ValidId(id) && name != ""
    ensures !Linked(Run(Init(budget), [Provision(id, name, 1, true), Delete(ReplicaId(id, 1), 0)]).tenants)
  {
    hide Step, Run, DefaultDir, ReplicaId, Linked, ShapesOk, Doomed;
    var r, s0 := ReplicaId(id, 1), Init(budget);
    RunTwo(s0, Provision(id, name, 1, true), Delete(r, 0));
    var s1 := AfterProvision(s0, id, name);
    NothingLinked(s0.tenants);
    StepLinks(s0, Provision(id, name, 1, true));
    InitSound(budget);
    StepSound(s0, Provision(id, name, 1, true));
    DoomedReplica(s1, r);
    StepLinks(s1, Delete(r, 0));
  }

  lemma InitSound(budget: int)
    ensures Sound(Init(budget))
  {
    assert SumOf(map[]) == 0;
  }

  lemma NothingLinked(ts: Tenants)
    requires ts == map[]
    ensures Linked(ts) && ShapesOk(ts)
  {
  }

  // ---- A run in which two tenants hold one port ----

  /** A tenant is provisioned and deleted `n` times. */
  function Churn(id: string, name: string, n: nat): seq<Op>
  {
    if n == 0 then [] else Churn(id, name, n - 1) + [Provision(id, name, 0, true)] + [Delete(id, -1)]
  }

  /** The node has room for the tenant and knows nothing of it. */
  predicate Unknown(s: State, id: string)
  {
    id !in s.tenants && id !in s.engines && id !in s.quotas && |s.tenants| < MAX_TENANTS
  }

  /** Only the two counters that every tenant uses have moved. */
  function Advanced(s: State, n: nat): State
  {
    s.(nextHttp := s.nextHttp + n, nextResp := s.nextResp + n)
  }

  lemma SoloDeleted(s: State, id: string)
    requires id in s.tenants && s.tenants[id].role == Solo && s.tenants[id].replicas == [] && s.tenants[id].replicaOf == ""
    ensures Step(s, Delete(id, -1)) == Dropped(s, {id})
  {
    hide Dropped;
    assert Doomed(s, id) == [id];
    assert Among([id]) == {id};
  }

  lemma SoloGone(s: State, id: string)
    requires Unknown(s, id)
    ensures Dropped(Placed(s, id, Solo, "", []), {id}) == Advanced(s, 1)
  {
    hide DefaultDir;
    AddedAndRemoved(s.tenants, id, Placed(s, id, Solo, "", []).tenants[id]);
    RemovedAbsent(s.engines, id);
    RemovedAbsent(s.quotas, id);
  }

  lemma AddedAndRemoved<V>(m: map<string, V>, k: string, v: V)
    requires k !in m
    ensures m[k := v] - {k} == m
  {
  }

  lemma RemovedAbsent<V>(m: map<string, V>, k: string)
    requires k !in m
    ensures m - {k} == m
  {
  }

  lemma ChurnOnce(s: State, id: string, name: string)
    requires Unknown(s, id) && ValidId(id) && name != ""
    ensures Step(Step(s, Provision(id, name, 0, true)), Delete(id, -1)) == Advanced(s, 1)
  {
    hide DefaultDir, ValidId, Step, Dropped, Advanced;
    SoloProvisioned(s, id, name);
    SoloDeleted(Placed(s, id, Solo, "", []), id);
    SoloGone(s, id);
  }

  lemma ChurnMore(s: State, before: seq<Op>, t: State, id: string, name: string, n: nat)
    requires Unknown(t, id) && ValidId(id) && name != "" && Run(s, before) == Advanced(t, n)
    ensures Run(s, before + [Provision(id, name, 0, true)] + [Delete(id, -1)]) == Advanced(t, n + 1)
  {
    hide Step, Run, ValidId;
    RunOneMore(s, before, Provision(id, name, 0, true));
    RunOneMore(s, before + [Provision(id, name, 0, true)], Delete(id, -1));
    ChurnOnce(Advanced(t, n), id, name);
  }

  /** Tenants that come and go use up ports. */
  lemma {:induction false} ChurnRun(s: State, before: seq<Op>, id: string, name: string, n: nat)
    requires Unknown(Run(s, before), id) && ValidId(id) && name != ""
    ensures Run(s, before + Churn(id, name, n)) == Advanced(Run(s, before), n)
  {
    hide Step, Run, ValidId, Unknown;
    if n == 0 {
      assert before + [] == before;
    } else {
      ChurnRun(s, before, id, name, n - 1);
      var c := before + Churn(id, name, n - 1);
      ChurnMore(s, c, Run(s, before), id, name, n - 1);
      assert before + Churn(id, name, n) == c + [Provision(id, name, 0, true)] + [Delete(id, -1)];
    }
  }

  /** A replicated tenant, then 998 tenants that come and go, then one that stays. */
  function PortRun(id: string, other: string, name: string): seq<Op>
  {
    [Provision(id, name, 1, true)] + Churn(other, name, 998) + [Provision(other, name, 0, true)]
  }

  /** The last tenant's RESP port is the first one's replication port. */
  lemma PortShared(budget: int, id: string, other: string, name: string)
    requires ValidId(id) && ValidId(other) && name != "" && other != id && other != ReplicaId(id, 1)
    ensures var s := Run(Init(budget), PortRun(id, other, name));
            && id in s.tenants && other in s.tenants && s.tenants[id].repl == s.tenants[other].resp == FIRST_REPL
            && !PortsApart(s.tenants)
  {
    hide Step, Run, ValidId, Churn, DefaultDir, ReplicaId, Pair, PortsApart;
    var s0, first := Init(budget), [Provision(id, name, 1, true)];
    RunNone(s0);
    RunOneMore(s0, [], Provision(id, name, 1, true));
    assert [] + first == first;
    var s1 := AfterProvision(s0, id, name);
    PairCount(s1, id, ReplicaId(id, 1));
    FirstPorts(s0, id, name);
    ChurnRun(s0, first, other, name, 998);
    RunOneMore(s0, first + Churn(other, name, 998), Provision(other, name, 0, true));
    var s2 := Advanced(s1, 998);
    SoloProvisioned(s2, other, name);
    PortClash(Placed(s2, other, Solo, "", []), id, other);
  }

  lemma PairCount(s: State, id: string, r: string)
    requires Pair(s, id, r)
    ensures s.tenants.Keys == {id, r} && |s.tenants| == 2
  {
    assert |s.tenants| == |s.tenants.Keys|;
  }

  lemma FirstPorts(s: State, id: string, name: string)
    requires s.tenants == map[] && ValidId(id) && name != ""
    ensures var t := Step(s, Provision(id, name, 1, true));
            && id in t.tenants && t.tenants[id].repl == s.nextRepl && t.nextResp == s.nextResp + 2
  {
    hide DefaultDir;
    ReplicaIdsDiffer(id, 1, 1);
    assert Accepts(s, id, name, 1);
    OneReplica(WithPrimary(s, id, 1), id);
  }

  lemma PortClash(s: State, i: string, j: string)
    requires i in s.tenants && j in s.tenants && i != j && s.tenants[i].repl == s.tenants[j].resp != 0
    ensures !PortsApart(s.tenants)
  {
    assert Clash(s.tenants, i, Repl, j, Resp);
  }
}
