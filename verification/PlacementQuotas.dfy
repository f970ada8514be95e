/**
 * Node admission (internal/orchestrator/manager.go): what memory is reserved,
 * told from the starts and wakes of a run alone.
 */
module PlacementQuotas {
  import opened Placement

  datatype Reservation = Reservation(id: string, quota: nat)

  function Total(list: seq<Reservation>): nat
  {
    if list == [] then 0 else Total(list[..|list| - 1]) + list[|list| - 1].quota
  }

  predicate Mentions(list: seq<Reservation>, id: string)
  {
    exists i :: 0 <= i < |list| && list[i].id == id
  }

  /** The reservations of tenants that are still there. */
  function StillThere(list: seq<Reservation>, ids: set<string>): seq<Reservation>
  {
    if list == [] then []
    else
      var last := list[|list| - 1];
      StillThere(list[..|list| - 1], ids) + if last.id in ids then [last] else []
  }

  /** The operation brings its tenant, which has no engine yet, as far as admission. */
  predicate Asks(s: State, op: Op)
  {
    match op
    case Start(id, quota, outcome) => id in s.tenants && !s.tenants[id].hibernated && id !in s.engines && outcome != Unprepared
    case Wake(id, onlyHibernated, saved, quota, outcome) =>
      id in s.tenants && (onlyHibernated ==> s.tenants[id].hibernated) && saved && id !in s.engines && outcome != Unprepared
    case _ => false
  }

  /** What is reserved after a run: each operation that asks for a tenant without
      a reservation reserves its quota if at most 70% of a positive budget is
      reserved then; a reservation goes with its tenant. */
  ghost function Ledger(budget: int, ops: seq<Op>): seq<Reservation>
  {
    if ops == [] then []
    else
      var n := |ops| - 1;
      var before, op := Ledger(budget, ops[..n]), ops[n];
      var kept := StillThere(before, Run(Init(budget), ops).tenants.Keys);
      if Asks(Run(Init(budget), ops[..n]), op) && !Mentions(before, op.id) && (budget <= 0 || 100 * (Total(before) + op.quota) <= 70 * budget)
      then kept + [Reservation(op.id, op.quota)] else kept
  }

  // ---- One step ----

  function Within(m: map<string, nat>, ids: set<string>): map<string, nat>
  {
    map x | x in m && x in ids :: m[x]
  }

  ghost predicate Reserves(s: State, op: Op)
  {
    Asks(s, op) && op.id !in s.quotas && Admits(s, op.id, op.quota)
  }

  lemma StartQuotas(s: State, id: string, quota: nat, outcome: Outcome)
    ensures var t := Started(s, id, quota, outcome);
            && t.tenants == s.tenants
            && t.quotas == if Reserves(s, Start(id, quota, outcome)) then s.quotas[id := quota] else s.quotas
  {
  }

  lemma DeleteQuotas(s: State, id: string, failAt: int)
    requires id in s.tenants && s.quotas.Keys <= s.tenants.Keys
    ensures Deleted(s, id, failAt).quotas == Within(s.quotas, Deleted(s, id, failAt).tenants.Keys)
  {
    hide Doomed, Dropping, Among;
  }

  lemma KeysStay(s: State, op: Op)
    requires !op.Delete?
    ensures s.tenants.Keys <= Step(s, op).tenants.Keys
  {
    hide Accepts, ReplicaIds, Placed;
    if op.Provision? && op.ready && Accepts(s, op.id, op.name, op.count) {
      CountInRange(s, op);
      PlacedKeys(s, op.id, if op.count > 0 then Primary else Solo, "", ReplicaIds(op.id, op.count));
      ReplicaKeys(WithPrimary(s, op.id, op.count), op.id, op.count);
    }
  }

  lemma CountInRange(s: State, op: Op)
    requires op.Provision? && Accepts(s, op.id, op.name, op.count)
    ensures 0 <= op.count <= MAX_REPLICAS
  {
  }

  lemma PlacedKeys(s: State, id: string, role: Role, of: string, replicas: seq<string>)
    ensures s.tenants.Keys <= Placed(s, id, role, of, replicas).tenants.Keys
    ensures Placed(s, id, role, of, replicas).quotas == s.quotas
  {
  }

  lemma {:induction false} ReplicaKeys(s: State, id: string, n: nat)
    requires n <= MAX_REPLICAS
    ensures s.tenants.Keys <= WithReplicas(s, id, n).tenants.Keys
    ensures WithReplicas(s, id, n).quotas == s.quotas
  {
    if n > 0 {
      ReplicaKeys(s, id, n - 1);
    }
  }

  lemma AllWithin(m: map<string, nat>, ids: set<string>)
    requires m.Keys <= ids
    ensures Within(m, ids) == m
  {
  }

  /** A reservation is made of exactly the quota asked for; one that is there is
      left alone as long as its tenant is. */
  lemma StepQuotas(s: State, op: Op)
    requires s.quotas.Keys <= s.tenants.Keys
    ensures var t := Step(s, op);
            var kept := Within(s.quotas, t.tenants.Keys);
            t.quotas == if Reserves(s, op) then kept[op.id := op.quota] else kept
  {
    hide Accepts, Started, Deleted, Promoted, Provisioned, Within, Admits;
    if op.Delete? {
      if op.id in s.tenants {
        DeleteQuotas(s, op.id, op.failAt);
      } else {
        AllWithin(s.quotas, s.tenants.Keys);
      }
    } else {
      KeysStay(s, op);
      AllWithin(s.quotas, Step(s, op).tenants.Keys);
      OtherQuotas(s, op);
    }
  }

  lemma OtherQuotas(s: State, op: Op)
    requires !op.Delete?
    ensures Step(s, op).quotas == if Reserves(s, op) then s.quotas[op.id := op.quota] else s.quotas
  {
    hide Accepts, Started;
    match op
    case Provision(id, name, count, ready) =>
      if ready && Accepts(s, id, name, count) {
        CountInRange(s, op);
        PlacedKeys(s, id, if count > 0 then Primary else Solo, "", ReplicaIds(id, count));
        ReplicaKeys(WithPrimary(s, id, count), id, count);
      }
    case Start(id, quota, outcome) => StartQuotas(s, id, quota, outcome);
    case Wake(id, _, _, quota, outcome) =>
      if id in s.tenants {
        StartQuotas(s.(tenants := Marked(s.tenants, id, false)), id, quota, outcome);
      }
    case _ =>
  }

  // ---- Runs ----

  function MapOf(list: seq<Reservation>): map<string, nat>
  {
    if list == [] then map[] else MapOf(list[..|list| - 1])[list[|list| - 1].id := list[|list| - 1].quota]
  }

  predicate OnceEach(list: seq<Reservation>)
  {
    forall i, j :: 0 <= i < j < |list| ==> list[i].id != list[j].id
  }

  lemma {:induction false} Mentioned(list: seq<Reservation>, id: string)
    ensures Mentions(list, id) <==> id in MapOf(list)
  {
    if list != [] {
      var n := |list| - 1;
      Mentioned(list[..n], id);
      if i :| 0 <= i < n && list[i].id == id {
        assert list[..n][i].id == id;
      }
    }
  }

  /** The list and the map reserve the same. */
  ghost predicate Agrees(list: seq<Reservation>, quotas: map<string, nat>)
  {
    OnceEach(list) && MapOf(list) == quotas
  }

  lemma AgreesMore(list: seq<Reservation>, quotas: map<string, nat>, r: Reservation)
    requires Agrees(list, quotas) && r.id !in quotas
    ensures Agrees(list + [r], quotas[r.id := r.quota])
  {
    assert (list + [r])[..|list|] == list;
    forall i | 0 <= i < |list|
      ensures list[i].id != r.id
    {
      Mentioned(list, list[i].id);
    }
  }

  lemma AgreesLess(list: seq<Reservation>, quotas: map<string, nat>)
    requires Agrees(list, quotas) && list != []
    ensures var last := list[|list| - 1];
            Agrees(list[..|list| - 1], quotas - {last.id}) && last.id in quotas && quotas[last.id] == last.quota
  {
    var n := |list| - 1;
    var last := list[n];
    Mentioned(list[..n], last.id);
    assert !Mentions(list[..n], last.id);
    assert MapOf(list[..n]) == quotas - {last.id};
  }

  lemma {:induction false} AgreesTotal(list: seq<Reservation>, quotas: map<string, nat>)
    requires Agrees(list, quotas)
    ensures Total(list) == SumOf(quotas)
  {
    hide Agrees, SumOf;
    if list == [] {
      NothingReserved(quotas);
    } else {
      var n := |list| - 1;
      AgreesLess(list, quotas);
      AgreesTotal(list[..n], quotas - {list[n].id});
      SumWithout(quotas, list[n].id);
    }
  }

  lemma NothingReserved(quotas: map<string, nat>)
    ensures Agrees([], quotas) ==> SumOf(quotas) == 0
  {
  }

  lemma WithinMore(quotas: map<string, nat>, ids: set<string>, id: string)
    requires id in quotas
    ensures id !in Within(quotas - {id}, ids)
    ensures id in ids ==> Within(quotas - {id}, ids)[id := quotas[id]] == Within(quotas, ids)
    ensures id !in ids ==> Within(quotas - {id}, ids) == Within(quotas, ids)
  {
  }

  lemma KeptMore(list: seq<Reservation>, ids: set<string>)
    requires list != []
    ensures var n := |list| - 1;
            StillThere(list, ids) == if list[n].id in ids then StillThere(list[..n], ids) + [list[n]] else StillThere(list[..n], ids)
  {
  }

  lemma {:induction false} AgreesKept(list: seq<Reservation>, quotas: map<string, nat>, ids: set<string>)
    requires Agrees(list, quotas)
    ensures Agrees(StillThere(list, ids), Within(quotas, ids))
  {
    if list == [] {
      NothingKept(quotas, ids);
    } else {
      hide Agrees, Within, StillThere;
      var n := |list| - 1;
      AgreesLess(list, quotas);
      AgreesKept(list[..n], quotas - {list[n].id}, ids);
      KeptMore(list, ids);
      WithinMore(quotas, ids, list[n].id);
      if list[n].id in ids {
        AgreesMore(StillThere(list[..n], ids), Within(quotas - {list[n].id}, ids), list[n]);
      }
    }
  }

  lemma NothingKept(quotas: map<string, nat>, ids: set<string>)
    requires Agrees([], quotas)
    ensures Agrees(StillThere([], ids), Within(quotas, ids))
  {
  }

  /** Seventy per cent, without rounding. */
  lemma SeventyPercent(sum: int, budget: int)
    ensures sum <= budget * 70 / 100 <==> 100 * sum <= 70 * budget
  {
  }

  lemma SameDecision(s: State, op: Op, list: seq<Reservation>)
    requires Agrees(list, s.quotas)
    ensures Reserves(s, op) <==>
              Asks(s, op) && !Mentions(list, op.id) && (s.budget <= 0 || 100 * (Total(list) + op.quota) <= 70 * s.budget)
  {
    if Asks(s, op) {
      Mentioned(list, op.id);
      AgreesTotal(list, s.quotas);
      SeventyPercent(SumOf(s.quotas) + op.quota, s.budget);
    }
  }

  lemma KeptWithout(m: map<string, nat>, ids: set<string>, id: string)
    ensures id !in m ==> id !in Within(m, ids)
  {
  }

  lemma {:induction false} LedgerAgrees(budget: int, ops: seq<Op>)
    ensures Agrees(Ledger(budget, ops), Run(Init(budget), ops).quotas)
  {
    hide Agrees, Step, Asks, Mentions, Reserves, Within, StillThere, Sound;
    if ops == [] {
      NoneReserved(budget);
    } else {
      var n := |ops| - 1;
      var s, t, before := Run(Init(budget), ops[..n]), Run(Init(budget), ops), Ledger(budget, ops[..n]);
      LedgerAgrees(budget, ops[..n]);
      EveryRunSound(budget, ops[..n]);
      SoundQuotas(s);
      StepQuotas(s, ops[n]);
      SameDecision(s, ops[n], before);
      AgreesKept(before, s.quotas, t.tenants.Keys);
      if Reserves(s, ops[n]) {
        ReservesNew(s, ops[n]);
        KeptWithout(s.quotas, t.tenants.Keys, ops[n].id);
        AgreesMore(StillThere(before, t.tenants.Keys), Within(s.quotas, t.tenants.Keys), Reservation(ops[n].id, ops[n].quota));
      }
    }
  }

  lemma NoneReserved(budget: int)
    ensures Agrees([], Init(budget).quotas)
  {
  }

  lemma SoundQuotas(s: State)
    requires Sound(s)
    ensures s.quotas.Keys <= s.tenants.Keys && (s.budget > 0 ==> 100 * SumOf(s.quotas) <= 70 * s.budget)
  {
    SeventyPercent(SumOf(s.quotas), s.budget);
  }

  lemma ReservesNew(s: State, op: Op)
    requires Reserves(s, op)
    ensures (op.Start? || op.Wake?) && op.id !in s.quotas
  {
  }

  /**
   * In every run the quotas that starts and wakes reserved for tenants still
   * present add up to at most 70% of a positive budget, and they are what the
   * node has on record.
   */
  lemma AdmissionLaw(budget: int, ops: seq<Op>)
    ensures budget > 0 ==> 100 * Total(Ledger(budget, ops)) <= 70 * budget
    ensures OnceEach(Ledger(budget, ops)) && MapOf(Ledger(budget, ops)) == Run(Init(budget), ops).quotas
  {
    hide Sound, Run, Ledger, SumOf, MapOf, OnceEach;
    LedgerAgrees(budget, ops);
    EveryRunSound(budget, ops);
    SoundQuotas(Run(Init(budget), ops));
    AgreesTotal(Ledger(budget, ops), Run(Init(budget), ops).quotas);
  }
}
