/**
 * The node's control plane: which tenants exist, which directory and ports each
 * one holds, which engines are open, and what memory is reserved. Every public
 * operation is one step; runs are arbitrary sequences of steps.
 */
module Placement {

  const MAX_TENANTS := 100
  const MAX_REPLICAS := 2
  const FIRST_HTTP := 8081
  const FIRST_RESP := 6401
  const FIRST_REPL := 7401

  datatype Role = Solo | Primary | Replica

  datatype Tenant = Tenant(
    http: int, resp: int, repl: int, dir: string,
    role: Role, replicaOf: string, replicas: seq<string>, hibernated: bool)

  type Tenants = map<string, Tenant>

  /** What an engine is opened on. */
  datatype Place = Place(dir: string, http: int, resp: int)

  function PlaceOf(t: Tenant): Place
  {
    Place(t.dir, t.http, t.resp)
  }

  /** `engines` maps a tenant id to the place its live engine was opened on. */
  datatype State = State(
    tenants: Tenants, engines: map<string, Place>, quotas: map<string, nat>,
    budget: int, nextHttp: int, nextResp: int, nextRepl: int)

  function Init(budget: int): State
  {
    State(map[], map[], map[], budget, FIRST_HTTP, FIRST_RESP, FIRST_REPL)
  }

  // ---- Provisioning ----

  predicate ValidId(id: string)
  {
    id != "" && forall i :: 0 <= i < |id| ==> ValidChar(id[i])
  }

  predicate ValidChar(c: char)
  {
    'a' <= c <= 'z' || 'A' <= c <= 'Z' || '0' <= c <= '9' || c == '-'
  }

  /** The default directory of an id, below the data root. */
  function DefaultDir(id: string): string
  {
    "tenants/" + id
  }

  function ReplicaId(id: string, n: nat): string
    requires 1 <= n <= MAX_REPLICAS
  {
    id + "-r" + (if n == 1 then "1" else "2")
  }

  function ReplicaIds(id: string, n: nat): (ids: seq<string>)
    requires n <= MAX_REPLICAS
    ensures |ids| == n && forall k :: 0 <= k < n ==> ids[k] == ReplicaId(id, k + 1)
  {
    if n == 0 then [] else ReplicaIds(id, n - 1) + [ReplicaId(id, n)]
  }

  function NewIds(id: string, count: nat): seq<string>
    requires count <= MAX_REPLICAS
  {
    [id] + ReplicaIds(id, count)
  }

  predicate Accepts(s: State, id: string, name: string, count: int)
  {
    && ValidId(id) && name != "" && 0 <= count <= MAX_REPLICAS
    && id !in s.tenants
    && (forall n :: 1 <= n <= count ==> ReplicaId(id, n) !in s.tenants)
    && |s.tenants| + 1 + count <= MAX_TENANTS
  }

  /** One more tenant on its default directory, with the next free ports. */
  function Placed(s: State, id: string, role: Role, of: string, replicas: seq<string>): State
  {
    var t := Tenant(s.nextHttp, s.nextResp, if role == Solo then 0 else s.nextRepl, DefaultDir(id), role, of, replicas, false);
    s.(tenants := s.tenants[id := t], nextHttp := s.nextHttp + 1, nextResp := s.nextResp + 1,
       nextRepl := if role == Solo then s.nextRepl else s.nextRepl + 1)
  }

  function WithPrimary(s: State, id: string, count: nat): State
    requires count <= MAX_REPLICAS
  {
    Placed(s, id, if count > 0 then Primary else Solo, "", ReplicaIds(id, count))
  }

  function WithReplicas(s: State, id: string, n: nat): State
    requires n <= MAX_REPLICAS
  {
    if n == 0 then s else Placed(WithReplicas(s, id, n - 1), ReplicaId(id, n), Replica, id, [])
  }

  function Provisioned(s: State, id: string, count: nat): State
    requires count <= MAX_REPLICAS
  {
    WithReplicas(WithPrimary(s, id, count), id, count)
  }

  // ---- Starting an engine ----

  /** How far a start gets: an early error, an engine that does not open, or success. */
  datatype Outcome = Unprepared | NotOpened | Opened

  ghost function SumOf(m: map<string, nat>): nat
  {
    if m == map[] then 0 else
    var k :| k in m;
    m[k] + SumOf(m - {k})
  }

  ghost predicate Admits(s: State, id: string, quota: nat)
  {
    id in s.quotas || s.budget <= 0 || SumOf(s.quotas) + quota <= s.budget * 70 / 100
  }

  function Reserved(s: State, id: string, quota: nat): State
  {
    if id in s.quotas then s else s.(quotas := s.quotas[id := quota])
  }

  ghost function Started(s: State, id: string, quota: nat, outcome: Outcome): State
  {
    if id !in s.tenants || s.tenants[id].hibernated || id in s.engines || outcome == Unprepared || !Admits(s, id, quota) then s
    else if outcome == NotOpened then Reserved(s, id, quota)
    else Reserved(s, id, quota).(engines := s.engines[id := PlaceOf(s.tenants[id])])
  }

  /** Whether the start leaves the tenant running. */
  ghost predicate StartSucceeds(s: State, id: string, quota: nat, outcome: Outcome)
  {
    id in s.tenants && !s.tenants[id].hibernated && (id in s.engines || (outcome == Opened && Admits(s, id, quota)))
  }

  // ---- Hibernation ----

  function Marked(ts: Tenants, id: string, hibernated: bool): Tenants
    requires id in ts
  {
    ts[id := ts[id].(hibernated := hibernated)]
  }

  // ---- Promotion ----

  predicate CanPromote(s: State, id: string)
  {
    id in s.tenants && s.tenants[id].role == Replica && s.tenants[id].replicaOf != "" && s.tenants[id].replicaOf in s.tenants
  }

  /** The place a tenant holds: its directory and ports. */
  function Moved(t: Tenant, place: Tenant): Tenant
  {
    t.(dir := place.dir, http := place.http, resp := place.resp, repl := place.repl)
  }

  function Swapped(ts: Tenants, p: string, r: string): Tenants
    requires p in ts && r in ts
  {
    ts[p := Moved(ts[p], ts[r])][r := Moved(ts[r], ts[p])]
  }

  function Others(s: State, id: string): set<string>
    requires CanPromote(s, id)
  {
    set rid | rid in s.tenants[s.tenants[id].replicaOf].replicas && rid != id
  }

  function EnginesAfter(s: State, id: string): map<string, Place>
    requires CanPromote(s, id)
  {
    var p := s.tenants[id].replicaOf;
    var left := s.engines - ({p} + Others(s, id));
    if id in s.engines then left[p := s.engines[id]] - {id} else left
  }

  function Promoted(s: State, id: string): State
    requires CanPromote(s, id)
  {
    s.(tenants := Swapped(s.tenants, s.tenants[id].replicaOf, id), engines := EnginesAfter(s, id))
  }

  // ---- Deletion ----

  function Present(ids: seq<string>, ts: Tenants): (r: seq<string>)
    ensures forall x :: x in r <==> x in ids && x in ts
  {
    if ids == [] then [] else
    var rest := Present(ids[..|ids| - 1], ts);
    assert ids == ids[..|ids| - 1] + [ids[|ids| - 1]];
    if ids[|ids| - 1] in ts then rest + [ids[|ids| - 1]] else rest
  }

  function Dropping(ids: seq<string>, id: string): (r: seq<string>)
    ensures forall x :: x in r <==> x in ids && x != id
  {
    if ids == [] then [] else
    var rest := Dropping(ids[..|ids| - 1], id);
    assert ids == ids[..|ids| - 1] + [ids[|ids| - 1]];
    if ids[|ids| - 1] != id then rest + [ids[|ids| - 1]] else rest
  }

  /** The tenants a delete removes, in order: the replicas first. */
  function Doomed(s: State, id: string): (r: seq<string>)
    requires id in s.tenants
    ensures r != [] && r[|r| - 1] == id
  {
    (if s.tenants[id].role == Replica then [] else Present(s.tenants[id].replicas, s.tenants)) + [id]
  }

  function Dropped(s: State, gone: set<string>): State
  {
    s.(tenants := s.tenants - gone, engines := s.engines - gone, quotas := s.quotas - gone)
  }

  function Unlisted(s: State, p: string, id: string): State
  {
    if p in s.tenants then
      s.(tenants := s.tenants[p := s.tenants[p].(replicas := Dropping(s.tenants[p].replicas, id))])
    else s
  }

  /** A delete whose removal number `failAt` reports an error ends right after it. */
  predicate Stops(s: State, id: string, failAt: int)
    requires id in s.tenants
  {
    0 <= failAt < |Doomed(s, id)|
  }

  function Deleted(s: State, id: string, failAt: int): State
    requires id in s.tenants
  {
    var all := Doomed(s, id);
    if Stops(s, id, failAt) then Dropped(s, Among(all[..failAt + 1]))
    else
      var t := Dropped(s, Among(all));
      if s.tenants[id].replicaOf == "" then t else Unlisted(t, s.tenants[id].replicaOf, id)
  }

  function Among(ids: seq<string>): set<string>
  {
    set x | x in ids
  }

  // ---- Steps and runs ----

  datatype Op =
    | Provision(id: string, name: string, count: int, ready: bool)
    | Start(id: string, quota: nat, outcome: Outcome)
    | Hibernate(id: string, saved: bool)
    | Wake(id: string, onlyHibernated: bool, saved: bool, quota: nat, outcome: Outcome)
    | Promote(id: string)
    | Delete(id: string, failAt: int)

  ghost function Step(s: State, op: Op): State
  {
    match op
    case Provision(id, name, count, ready) =>
      if ready && Accepts(s, id, name, count) then Provisioned(s, id, count) else s
    case Start(id, quota, outcome) => Started(s, id, quota, outcome)
    case Hibernate(id, saved) =>
      if id !in s.tenants || s.tenants[id].role == Replica then s
      else if !saved then s.(tenants := Marked(s.tenants, id, false))
      else s.(tenants := Marked(s.tenants, id, true), engines := s.engines - {id})
    case Wake(id, onlyHibernated, saved, quota, outcome) =>
      if id !in s.tenants || (onlyHibernated && !s.tenants[id].hibernated) then s
      else if !saved then s.(tenants := Marked(s.tenants, id, true))
      else Started(s.(tenants := Marked(s.tenants, id, false)), id, quota, outcome)
    case Promote(id) => if CanPromote(s, id) then Promoted(s, id) else s
    case Delete(id, failAt) => if id in s.tenants then Deleted(s, id, failAt) else s
  }

  ghost function Run(s: State, ops: seq<Op>): State
  {
    if ops == [] then s else Step(Run(s, ops[..|ops| - 1]), ops[|ops| - 1])
  }

  lemma RunNone(s: State)
    ensures Run(s, []) == s
  {
  }

  lemma RunOneMore(s: State, ops: seq<Op>, op: Op)
    ensures Run(s, ops + [op]) == Step(Run(s, ops), op)
  {
    assert (ops + [op])[..|ops|] == ops;
  }

  // ---- What no run breaks ----

  /** Two keys share a value only if the value may be shared. */
  predicate Apart<V(==)>(m: map<string, V>, shared: set<V>)
  {
    forall i, j :: i in m && j in m && i != j && m[i] == m[j] ==> m[i] in shared
  }

  /** Ports of one kind: handed out between `lo` and `hi`, to one tenant each. */
  predicate KindOk(m: map<string, int>, lo: int, hi: int, shared: set<int>)
  {
    lo <= hi && Apart(m, shared) && forall i :: i in m ==> m[i] in shared || lo <= m[i] < hi
  }

  function Each<V>(ts: Tenants, f: Tenant -> V): map<string, V>
  {
    map id | id in ts :: f(ts[id])
  }

  function HttpOf(t: Tenant): int { t.http }
  function RespOf(t: Tenant): int { t.resp }
  function ReplOf(t: Tenant): int { t.repl }
  function DirOf(t: Tenant): string { t.dir }

  predicate PortsOk(s: State)
  {
    && KindOk(Each(s.tenants, HttpOf), FIRST_HTTP, s.nextHttp, {})
    && KindOk(Each(s.tenants, RespOf), FIRST_RESP, s.nextResp, {})
    && KindOk(Each(s.tenants, ReplOf), FIRST_REPL, s.nextRepl, {0})
  }

  predicate ShapeOf(id: string, t: Tenant)
  {
    if t.role == Replica then t.replicas == [] && t.replicaOf != "" && t.replicaOf != id else t.replicaOf == ""
  }

  predicate ShapesOk(ts: Tenants)
  {
    forall id :: id in ts ==> ShapeOf(id, ts[id])
  }

  /** Each live engine belongs to a tenant and was opened on its current directory and ports. */
  predicate EnginesOk(s: State)
  {
    forall id :: id in s.engines ==> id in s.tenants && s.engines[id] == PlaceOf(s.tenants[id])
  }

  ghost predicate QuotasOk(s: State)
  {
    s.quotas.Keys <= s.tenants.Keys && (s.budget > 0 ==> SumOf(s.quotas) <= s.budget * 70 / 100)
  }

  ghost predicate Sound(s: State)
  {
    PortsOk(s) && ShapesOk(s.tenants) && EnginesOk(s) && QuotasOk(s) && |s.tenants| <= MAX_TENANTS
  }

  /** No two tenants hold the same directory. */
  predicate DirsApart(s: State)
  {
    Apart(Each(s.tenants, DirOf), {})
  }

  predicate Lists(ts: Tenants, p: string, r: string)
  {
    p in ts && r in ts[p].replicas
  }

  predicate Follows(ts: Tenants, r: string, p: string)
  {
    r in ts && ts[r].role == Replica && ts[r].replicaOf == p
  }

  /** `replicas` and `replicaOf` are inverse. */
  ghost predicate Linked(ts: Tenants)
  {
    forall p, r :: Lists(ts, p, r) <==> Follows(ts, r, p)
  }

  // ---- Maps in which values are held once ----

  lemma ApartMore<V>(m: map<string, V>, k: string, v: V, shared: set<V>)
    requires k !in m && Apart(m, shared)
    ensures Apart(m[k := v], shared) <==> v in shared || v !in m.Values
  {
    var n := m[k := v];
    if v !in shared && v in m.Values {
      var i :| i in m && m[i] == v;
      assert i in n && k in n && n[i] == n[k];
    }
  }

  lemma ApartSwap<V>(m: map<string, V>, a: string, b: string, shared: set<V>)
    requires a in m && b in m && Apart(m, shared)
    ensures Apart(m[a := m[b]][b := m[a]], shared)
  {
  }

  lemma ApartLess<V>(m: map<string, V>, gone: set<string>, shared: set<V>)
    requires Apart(m, shared)
    ensures Apart(m - gone, shared)
  {
  }

  lemma KindMore(m: map<string, int>, lo: int, hi: int, shared: set<int>, k: string)
    requires KindOk(m, lo, hi, shared) && k !in m && hi !in shared
    ensures KindOk(m[k := hi], lo, hi + 1, shared)
  {
    ApartMore(m, k, hi, shared);
    assert hi !in m.Values;
  }

  lemma KindNone(m: map<string, int>, lo: int, hi: int, k: string)
    requires KindOk(m, lo, hi, {0}) && k !in m
    ensures KindOk(m[k := 0], lo, hi, {0})
  {
    ApartMore(m, k, 0, {0});
  }

  lemma KindSwap(m: map<string, int>, lo: int, hi: int, shared: set<int>, a: string, b: string)
    requires KindOk(m, lo, hi, shared) && a in m && b in m
    ensures KindOk(m[a := m[b]][b := m[a]], lo, hi, shared)
  {
    ApartSwap(m, a, b, shared);
  }

  lemma KindLess(m: map<string, int>, lo: int, hi: int, shared: set<int>, gone: set<string>)
    requires KindOk(m, lo, hi, shared)
    ensures KindOk(m - gone, lo, hi, shared)
  {
    ApartLess(m, gone, shared);
  }

  lemma EachPut<V>(ts: Tenants, id: string, t: Tenant, f: Tenant -> V)
    ensures Each(ts[id := t], f) == Each(ts, f)[id := f(t)]
  {
  }

  lemma EachSame<V>(ts: Tenants, us: Tenants, f: Tenant -> V)
    requires us.Keys == ts.Keys && forall id :: id in ts ==> f(us[id]) == f(ts[id])
    ensures Each(us, f) == Each(ts, f)
  {
  }

  lemma EachLess<V>(ts: Tenants, gone: set<string>, f: Tenant -> V)
    ensures Each(ts - gone, f) == Each(ts, f) - gone
  {
  }

  lemma EachSwap<V>(ts: Tenants, p: string, r: string, f: Tenant -> V)
    requires p in ts && r in ts
    requires f(Moved(ts[p], ts[r])) == f(ts[r]) && f(Moved(ts[r], ts[p])) == f(ts[p])
    ensures Each(Swapped(ts, p, r), f) == Each(ts, f)[p := Each(ts, f)[r]][r := Each(ts, f)[p]]
  {
    EachPut(ts, p, Moved(ts[p], ts[r]), f);
    EachPut(ts[p := Moved(ts[p], ts[r])], r, Moved(ts[r], ts[p]), f);
  }

  // ---- Ports ----

  lemma PlacedPorts(s: State, id: string, role: Role, of: string, replicas: seq<string>)
    requires PortsOk(s) && id !in s.tenants
    ensures PortsOk(Placed(s, id, role, of, replicas))
  {
    hide KindOk, Each;
    var t := Placed(s, id, role, of, replicas).tenants[id];
    PlacedKind(s, id, t, HttpOf);
    PlacedKind(s, id, t, RespOf);
    PlacedKind(s, id, t, ReplOf);
    KindMore(Each(s.tenants, HttpOf), FIRST_HTTP, s.nextHttp, {}, id);
    KindMore(Each(s.tenants, RespOf), FIRST_RESP, s.nextResp, {}, id);
    if role == Solo {
      KindNone(Each(s.tenants, ReplOf), FIRST_REPL, s.nextRepl, id);
    } else {
      AboveZero(Each(s.tenants, ReplOf), FIRST_REPL, s.nextRepl);
      KindMore(Each(s.tenants, ReplOf), FIRST_REPL, s.nextRepl, {0}, id);
    }
  }

  lemma AboveZero(m: map<string, int>, lo: int, hi: int)
    requires KindOk(m, lo, hi, {0}) && lo > 0
    ensures hi > 0
  {
  }

  lemma PlacedKind(s: State, id: string, t: Tenant, f: Tenant -> int)
    requires id !in s.tenants
    ensures id !in Each(s.tenants, f) && Each(s.tenants[id := t], f) == Each(s.tenants, f)[id := f(t)]
  {
    EachPut(s.tenants, id, t, f);
  }

  lemma SamePorts(s: State, t: State)
    requires PortsOk(s) && t.tenants.Keys == s.tenants.Keys
    requires t.nextHttp == s.nextHttp && t.nextResp == s.nextResp && t.nextRepl == s.nextRepl
    requires forall id :: id in s.tenants ==> SamePlace(s.tenants[id], t.tenants[id])
    ensures PortsOk(t)
  {
    EachSame(s.tenants, t.tenants, HttpOf);
    EachSame(s.tenants, t.tenants, RespOf);
    EachSame(s.tenants, t.tenants, ReplOf);
  }

  predicate SamePlace(t: Tenant, u: Tenant)
  {
    t.http == u.http && t.resp == u.resp && t.repl == u.repl && t.dir == u.dir
  }

  lemma PromotedPorts(s: State, id: string)
    requires PortsOk(s) && CanPromote(s, id)
    ensures PortsOk(Promoted(s, id))
  {
    hide KindOk;
    var p := s.tenants[id].replicaOf;
    EachSwap(s.tenants, p, id, HttpOf);
    EachSwap(s.tenants, p, id, RespOf);
    EachSwap(s.tenants, p, id, ReplOf);
    KindSwap(Each(s.tenants, HttpOf), FIRST_HTTP, s.nextHttp, {}, p, id);
    KindSwap(Each(s.tenants, RespOf), FIRST_RESP, s.nextResp, {}, p, id);
    KindSwap(Each(s.tenants, ReplOf), FIRST_REPL, s.nextRepl, {0}, p, id);
  }

  lemma DroppedPorts(s: State, gone: set<string>)
    requires PortsOk(s)
    ensures PortsOk(Dropped(s, gone))
  {
    hide KindOk;
    EachLess(s.tenants, gone, HttpOf);
    EachLess(s.tenants, gone, RespOf);
    EachLess(s.tenants, gone, ReplOf);
    KindLess(Each(s.tenants, HttpOf), FIRST_HTTP, s.nextHttp, {}, gone);
    KindLess(Each(s.tenants, RespOf), FIRST_RESP, s.nextResp, {}, gone);
    KindLess(Each(s.tenants, ReplOf), FIRST_REPL, s.nextRepl, {0}, gone);
  }

  // ---- Quotas ----

  lemma {:induction false} SumWithout(m: map<string, nat>, k: string)
    requires k in m
    ensures SumOf(m) == m[k] + SumOf(m - {k})
    decreases |m|
  {
    var j :| j in m && SumOf(m) == m[j] + SumOf(m - {j});
    if j != k {
      SumWithout(m - {j}, k);
      SumWithout(m - {k}, j);
      assert m - {j} - {k} == m - {k} - {j};
    }
  }

  lemma SumWith(m: map<string, nat>, k: string, v: nat)
    requires k !in m
    ensures SumOf(m[k := v]) == SumOf(m) + v
  {
    SumWithout(m[k := v], k);
    assert m[k := v] - {k} == m;
  }

  lemma {:induction false} SumLess(m: map<string, nat>, gone: set<string>)
    ensures SumOf(m - gone) <= SumOf(m)
    decreases |gone|
  {
    if gone == {} {
      assert m - gone == m;
    } else {
      var k :| k in gone;
      SumLess(m, gone - {k});
      var less := m - (gone - {k});
      assert m - gone == less - {k};
      if k in less {
        SumWithout(less, k);
      } else {
        assert less - {k} == less;
      }
    }
  }

  lemma DroppedQuotas(s: State, gone: set<string>)
    requires QuotasOk(s)
    ensures QuotasOk(Dropped(s, gone))
  {
    SumLess(s.quotas, gone);
  }

  lemma ReservedQuotas(s: State, id: string, quota: nat)
    requires QuotasOk(s) && id in s.tenants && Admits(s, id, quota)
    ensures QuotasOk(Reserved(s, id, quota))
  {
    if id !in s.quotas {
      SumWith(s.quotas, id, quota);
    }
  }

  // ---- Each step keeps the node sound ----

  lemma Larger(ts: Tenants, id: string, t: Tenant)
    requires id !in ts
    ensures |ts[id := t]| == |ts| + 1
  {
    assert ts[id := t].Keys == ts.Keys + {id};
  }

  lemma Fewer(ts: Tenants, gone: set<string>)
    ensures |ts - gone| <= |ts|
  {
    assert (ts - gone).Keys == ts.Keys - gone;
  }

  lemma SoundIf(s: State)
    requires PortsOk(s) && ShapesOk(s.tenants) && EnginesOk(s) && QuotasOk(s) && |s.tenants| <= MAX_TENANTS
    ensures Sound(s)
  {
  }

  lemma PutShape(ts: Tenants, id: string, t: Tenant)
    requires ShapesOk(ts) && ShapeOf(id, t)
    ensures ShapesOk(ts[id := t])
  {
  }

  lemma PlacedEngines(s: State, id: string, role: Role, of: string, replicas: seq<string>)
    requires EnginesOk(s) && id !in s.tenants
    ensures EnginesOk(Placed(s, id, role, of, replicas))
  {
  }

  lemma MoreQuotas(s: State, t: State)
    requires QuotasOk(s) && t.quotas == s.quotas && t.budget == s.budget && s.tenants.Keys <= t.tenants.Keys
    ensures QuotasOk(t)
  {
  }

  lemma PlacedIs(s: State, id: string, role: Role, of: string, replicas: seq<string>) returns (t: Tenant)
    requires id !in s.tenants
    requires if role == Replica then replicas == [] && of != "" && of != id else of == ""
    ensures var u := Placed(s, id, role, of, replicas);
            && u.tenants == s.tenants[id := t] && u.quotas == s.quotas && u.budget == s.budget && ShapeOf(id, t)
            && u.tenants.Keys == s.tenants.Keys + {id}
  {
    t := Placed(s, id, role, of, replicas).tenants[id];
  }

  lemma PlacedSound(s: State, id: string, role: Role, of: string, replicas: seq<string>)
    requires Sound(s) && id !in s.tenants && |s.tenants| < MAX_TENANTS
    requires if role == Replica then replicas == [] && of != "" && of != id else of == ""
    ensures var t := Placed(s, id, role, of, replicas);
            Sound(t) && t.tenants.Keys == s.tenants.Keys + {id} && |t.tenants| == |s.tenants| + 1
  {
    hide PortsOk, ShapesOk, EnginesOk, QuotasOk, Placed, ShapeOf;
    var u := Placed(s, id, role, of, replicas);
    var t := PlacedIs(s, id, role, of, replicas);
    PlacedPorts(s, id, role, of, replicas);
    PutShape(s.tenants, id, t);
    PlacedEngines(s, id, role, of, replicas);
    MoreQuotas(s, u);
    Larger(s.tenants, id, t);
    SoundIf(u);
  }

  lemma ReplicaIdsDiffer(id: string, n: nat, k: nat)
    requires 1 <= n <= MAX_REPLICAS && 1 <= k <= MAX_REPLICAS
    ensures ReplicaId(id, n) != id && (n != k ==> ReplicaId(id, n) != ReplicaId(id, k))
  {
    assert |ReplicaId(id, n)| == |id| + 3;
    assert ReplicaId(id, n)[|id| + 2] == (if n == 1 then '1' else '2');
    assert ReplicaId(id, k)[|id| + 2] == (if k == 1 then '1' else '2');
  }

  function FirstReplicas(id: string, n: nat): set<string>
    requires n <= MAX_REPLICAS
  {
    set x | x in ReplicaIds(id, n)
  }

  lemma FirstReplicasMore(id: string, n: nat)
    requires 1 <= n <= MAX_REPLICAS
    ensures FirstReplicas(id, n) == FirstReplicas(id, n - 1) + {ReplicaId(id, n)}
    ensures ReplicaId(id, n) !in FirstReplicas(id, n - 1)
  {
    forall k | 1 <= k < n
      ensures ReplicaId(id, k) != ReplicaId(id, n)
    {
      ReplicaIdsDiffer(id, n, k);
    }
  }

  /** `t` is a sound state with exactly the tenants `more` besides those of `s`. */
  ghost predicate Extends(s: State, t: State, more: set<string>, n: nat)
  {
    Sound(t) && t.tenants.Keys == Joined(s, more) && |t.tenants| == |s.tenants| + n
  }

  function Joined(s: State, more: set<string>): set<string>
  {
    s.tenants.Keys + more
  }

  lemma JoinedMore(s: State, more: set<string>, rid: string)
    requires rid !in s.tenants && rid !in more
    ensures rid !in Joined(s, more) && Joined(s, more) + {rid} == Joined(s, more + {rid})
  {
  }

  lemma ExtendsMore(s: State, t: State, more: set<string>, n: nat, rid: string, id: string)
    requires Extends(s, t, more, n) && rid !in s.tenants && rid !in more && id != "" && id != rid
    requires |s.tenants| + n < MAX_TENANTS
    ensures Extends(s, Placed(t, rid, Replica, id, []), more + {rid}, n + 1)
  {
    hide Sound, Placed, Joined;
    JoinedMore(s, more, rid);
    PlacedSound(t, rid, Replica, id, []);
  }

  lemma ExtendsNone(s: State, id: string)
    requires Sound(s)
    ensures Extends(s, s, FirstReplicas(id, 0), 0)
  {
    hide Sound;
    assert FirstReplicas(id, 0) == {};
  }

  lemma {:induction false} WithReplicasSound(s: State, id: string, n: nat)
    requires Sound(s) && id != "" && n <= MAX_REPLICAS && |s.tenants| + n <= MAX_TENANTS
    requires forall k :: 1 <= k <= n ==> ReplicaId(id, k) !in s.tenants
    ensures Extends(s, WithReplicas(s, id, n), FirstReplicas(id, n), n)
  {
    hide Sound, Extends, FirstReplicas, ReplicaId, Placed;
    if n == 0 {
      ExtendsNone(s, id);
    } else {
      WithReplicasSound(s, id, n - 1);
      FirstReplicasMore(id, n);
      ReplicaIdsDiffer(id, n, n);
      ExtendsMore(s, WithReplicas(s, id, n - 1), FirstReplicas(id, n - 1), n - 1, ReplicaId(id, n), id);
    }
  }

  lemma ProvisionedSound(s: State, id: string, name: string, count: nat)
    requires Sound(s) && Accepts(s, id, name, count)
    ensures Sound(Provisioned(s, id, count))
  {
    hide Sound, ReplicaId, ReplicaIds;
    PlacedSound(s, id, if count > 0 then Primary else Solo, "", ReplicaIds(id, count));
    forall k | 1 <= k <= count
      ensures ReplicaId(id, k) !in WithPrimary(s, id, count).tenants
    {
      ReplicaIdsDiffer(id, k, k);
    }
    WithReplicasSound(WithPrimary(s, id, count), id, count);
  }

  /** A change that moves no tenant keeps the node sound. */
  lemma Relabelled(s: State, id: string, t: Tenant)
    requires Sound(s) && id in s.tenants && SamePlace(s.tenants[id], t) && ShapeOf(id, t)
    ensures Sound(s.(tenants := s.tenants[id := t]))
  {
    hide PortsOk, ShapesOk, EnginesOk, QuotasOk;
    var u := s.(tenants := s.tenants[id := t]);
    assert u.tenants.Keys == s.tenants.Keys;
    SamePorts(s, u);
    PutShape(s.tenants, id, t);
    SameEngines(s, u);
    MoreQuotas(s, u);
    SoundIf(u);
  }

  lemma SameEngines(s: State, t: State)
    requires EnginesOk(s) && t.engines == s.engines && t.tenants.Keys == s.tenants.Keys
    requires forall id :: id in s.tenants ==> SamePlace(s.tenants[id], t.tenants[id])
    ensures EnginesOk(t)
  {
  }

  lemma MarkedSound(s: State, id: string, hibernated: bool)
    requires Sound(s) && id in s.tenants
    ensures Sound(s.(tenants := Marked(s.tenants, id, hibernated)))
  {
    hide PortsOk, EnginesOk, QuotasOk;
    assert ShapeOf(id, s.tenants[id]);
    Relabelled(s, id, s.tenants[id].(hibernated := hibernated));
  }

  lemma StartedSound(s: State, id: string, quota: nat, outcome: Outcome)
    requires Sound(s)
    ensures Sound(Started(s, id, quota, outcome))
  {
    hide PortsOk, ShapesOk, QuotasOk, Admits;
    var t := Started(s, id, quota, outcome);
    if t != s {
      SamePorts(s, t);
      ReservedQuotas(s, id, quota);
      MoreQuotas(Reserved(s, id, quota), t);
      SoundIf(t);
    }
  }

  lemma PromotedEngines(s: State, id: string)
    requires EnginesOk(s) && ShapesOk(s.tenants) && CanPromote(s, id)
    ensures EnginesOk(Promoted(s, id))
  {
    assert ShapeOf(id, s.tenants[id]);
  }

  lemma PromotedSound(s: State, id: string)
    requires Sound(s) && CanPromote(s, id)
    ensures Sound(Promoted(s, id))
  {
    hide PortsOk, QuotasOk, EnginesOk;
    var t := Promoted(s, id);
    assert t.tenants.Keys == s.tenants.Keys;
    PromotedPorts(s, id);
    PromotedEngines(s, id);
    MoreQuotas(s, t);
  }

  lemma DroppedShapes(s: State, gone: set<string>)
    requires ShapesOk(s.tenants) && EnginesOk(s)
    ensures ShapesOk(Dropped(s, gone).tenants) && EnginesOk(Dropped(s, gone))
  {
  }

  lemma DroppedSound(s: State, gone: set<string>)
    requires Sound(s)
    ensures Sound(Dropped(s, gone))
  {
    hide PortsOk, QuotasOk, ShapesOk, EnginesOk;
    DroppedPorts(s, gone);
    DroppedQuotas(s, gone);
    DroppedShapes(s, gone);
    Fewer(s.tenants, gone);
    SoundIf(Dropped(s, gone));
  }

  lemma UnlistedSound(s: State, p: string, id: string)
    requires Sound(s)
    ensures Sound(Unlisted(s, p, id))
  {
    if p in s.tenants {
      hide PortsOk, EnginesOk, QuotasOk, Dropping;
      assert ShapeOf(p, s.tenants[p]);
      EmptyDropping(s.tenants[p].replicas, id);
      Relabelled(s, p, s.tenants[p].(replicas := Dropping(s.tenants[p].replicas, id)));
    }
  }

  lemma EmptyDropping(ids: seq<string>, id: string)
    ensures ids == [] ==> Dropping(ids, id) == []
  {
  }

  lemma StepSound(s: State, op: Op)
    requires Sound(s)
    ensures Sound(Step(s, op))
  {
    hide Sound, Provisioned, Started, Promoted, Dropped, Unlisted, Marked, Doomed;
    match op
    case Provision(id, name, count, ready) =>
      if ready && Accepts(s, id, name, count) {
        ProvisionedSound(s, id, name, count);
      }
    case Start(id, quota, outcome) => StartedSound(s, id, quota, outcome);
    case Hibernate(id, saved) =>
      if id in s.tenants {
        MarkedSound(s, id, false);
        MarkedSound(s, id, true);
        FewerEngines(s.(tenants := Marked(s.tenants, id, true)), id);
      }
    case Wake(id, onlyHibernated, saved, quota, outcome) =>
      if id in s.tenants {
        MarkedSound(s, id, true);
        MarkedSound(s, id, false);
        StartedSound(s.(tenants := Marked(s.tenants, id, false)), id, quota, outcome);
      }
    case Promote(id) =>
      if CanPromote(s, id) {
        PromotedSound(s, id);
      }
    case Delete(id, failAt) =>
      if id in s.tenants {
        var all := Doomed(s, id);
        DroppedSound(s, Among(all));
        UnlistedSound(Dropped(s, Among(all)), s.tenants[id].replicaOf, id);
        if Stops(s, id, failAt) {
          DroppedSound(s, Among(all[..failAt + 1]));
        }
      }
  }

  lemma FewerEngines(s: State, id: string)
    requires Sound(s)
    ensures Sound(s.(engines := s.engines - {id}))
  {
    hide PortsOk, ShapesOk, QuotasOk;
    var t := s.(engines := s.engines - {id});
    SamePorts(s, t);
    MoreQuotas(s, t);
    SoundIf(t);
  }

  /** Whatever the run, the node stays sound. */
  lemma {:induction false} EveryRunSound(budget: int, ops: seq<Op>)
    ensures Sound(Run(Init(budget), ops)) && Run(Init(budget), ops).budget == budget
    ensures |Run(Init(budget), ops).tenants| <= 100
  {
    if ops == [] {
      assert SumOf(map[]) == 0;
    } else {
      EveryRunSound(budget, ops[..|ops| - 1]);
      StepSound(Run(Init(budget), ops[..|ops| - 1]), ops[|ops| - 1]);
      SameBudget(Run(Init(budget), ops[..|ops| - 1]), ops[|ops| - 1]);
    }
  }

  lemma SameBudget(s: State, op: Op)
    ensures Step(s, op).budget == s.budget
  {
    if op.Provision? && Accepts(s, op.id, op.name, op.count) {
      SameBudgetWith(WithPrimary(s, op.id, op.count), op.id, op.count);
    }
  }

  lemma {:induction false} SameBudgetWith(s: State, id: string, n: nat)
    requires n <= MAX_REPLICAS
    ensures WithReplicas(s, id, n).budget == s.budget
  {
    if n > 0 {
      SameBudgetWith(s, id, n - 1);
    }
  }

  // ---- The tenants after a provision ----

  predicate IsReplicaOf(t: Tenant, x: string, id: string)
  {
    t.role == Replica && t.replicaOf == id && t.replicas == [] && t.dir == DefaultDir(x) && !t.hibernated
  }

  /** `us` is `ts` with the replicas `more` of `id` added. */
  predicate Joins(ts: Tenants, us: Tenants, id: string, more: set<string>)
  {
    && us.Keys == ts.Keys + more && ts.Keys !! more
    && (forall x :: x in ts ==> us[x] == ts[x])
    && (forall x :: x in more ==> IsReplicaOf(us[x], x, id))
  }

  lemma JoinsNone(ts: Tenants, id: string)
    ensures Joins(ts, ts, id, FirstReplicas(id, 0))
  {
    assert FirstReplicas(id, 0) == {};
  }

  lemma JoinsMore(ts: Tenants, us: Tenants, id: string, more: set<string>, rid: string, t: Tenant)
    requires Joins(ts, us, id, more) && rid !in ts && rid !in more && IsReplicaOf(t, rid, id)
    ensures Joins(ts, us[rid := t], id, more + {rid})
  {
  }

  lemma {:induction false} ReplicasJoin(s: State, id: string, n: nat)
    requires n <= MAX_REPLICAS && forall k :: 1 <= k <= n ==> ReplicaId(id, k) !in s.tenants
    ensures var t := WithReplicas(s, id, n);
            Joins(s.tenants, t.tenants, id, FirstReplicas(id, n)) && t.engines == s.engines
  {
    hide Joins, FirstReplicas, ReplicaId;
    if n == 0 {
      JoinsNone(s.tenants, id);
    } else {
      ReplicasJoin(s, id, n - 1);
      FirstReplicasMore(id, n);
      var t := WithReplicas(s, id, n);
      JoinsMore(s.tenants, WithReplicas(s, id, n - 1).tenants, id, FirstReplicas(id, n - 1), ReplicaId(id, n), t.tenants[ReplicaId(id, n)]);
    }
  }

  lemma ProvisionJoins(s: State, id: string, name: string, count: nat)
    requires Accepts(s, id, name, count)
    ensures var ps, t := WithPrimary(s, id, count), Provisioned(s, id, count);
            && Joins(ps.tenants, t.tenants, id, FirstReplicas(id, count)) && t.engines == s.engines
  {
    hide Joins, FirstReplicas, ReplicaId, ReplicaIds;
    forall k | 1 <= k <= count
      ensures ReplicaId(id, k) !in WithPrimary(s, id, count).tenants
    {
      ReplicaIdsDiffer(id, k, k);
    }
    ReplicasJoin(WithPrimary(s, id, count), id, count);
  }

  // ---- Directories ----

  lemma DefaultDirInjective(a: string, b: string)
    requires DefaultDir(a) == DefaultDir(b)
    ensures a == b
  {
    assert a == DefaultDir(a)[8..] && b == DefaultDir(b)[8..];
  }

  /** The provision would hand out a directory that some tenant already holds. */
  predicate TakesHeldDir(s: State, op: Op)
  {
    && op.Provision? && op.ready && Accepts(s, op.id, op.name, op.count)
    && exists x :: x in NewIds(op.id, op.count) && HoldsDir(s, DefaultDir(x))
  }

  predicate HoldsDir(s: State, dir: string)
  {
    exists y :: y in s.tenants && s.tenants[y].dir == dir
  }

  /** `us` is `ts` with the tenants `more` added, each on its default directory. */
  predicate AddsOnDefaults(ts: Tenants, us: Tenants, more: set<string>)
  {
    && us.Keys == ts.Keys + more && ts.Keys !! more
    && (forall x :: x in ts ==> us[x] == ts[x])
    && (forall x :: x in more ==> us[x].dir == DefaultDir(x))
  }

  lemma DirsJoin(s: State, us: Tenants, more: set<string>)
    requires DirsApart(s) && AddsOnDefaults(s.tenants, us, more)
    ensures Apart(Each(us, DirOf), {}) <==> forall x :: x in more ==> !HoldsDir(s, DefaultDir(x))
  {
    var before, after := Each(s.tenants, DirOf), Each(us, DirOf);
    if forall x :: x in more ==> !HoldsDir(s, DefaultDir(x)) {
      forall i, j | i in after && j in after && i != j
        ensures after[i] != after[j]
      {
        if i in more && j in more {
          if DefaultDir(i) == DefaultDir(j) {
            DefaultDirInjective(i, j);
          }
        } else if i !in more && j !in more {
          assert before[i] == after[i] && before[j] == after[j];
        }
      }
    } else {
      var x :| x in more && HoldsDir(s, DefaultDir(x));
      var y :| y in s.tenants && s.tenants[y].dir == DefaultDir(x);
      assert after[x] == after[y];
    }
  }

  lemma ProvisionAdds(s: State, id: string, name: string, count: nat)
    requires Accepts(s, id, name, count)
    ensures AddsOnDefaults(s.tenants, Provisioned(s, id, count).tenants, FirstReplicas(id, count) + {id})
  {
    ProvisionJoins(s, id, name, count);
    FreshIds(s, id, name, count);
    hide DefaultDir, FirstReplicas, ReplicaIds, ReplicaId, Provisioned;
    AddsJoined(s.tenants, WithPrimary(s, id, count).tenants, Provisioned(s, id, count).tenants, id, FirstReplicas(id, count));
  }

  lemma AddsJoined(ts: Tenants, ps: Tenants, us: Tenants, id: string, more: set<string>)
    requires id !in ts && id in ps && ps == ts[id := ps[id]] && ps[id].dir == DefaultDir(id)
    requires Joins(ps, us, id, more)
    ensures AddsOnDefaults(ts, us, more + {id})
  {
    hide DefaultDir;
    assert us[id] == ps[id];
    forall x | x in ts
      ensures us[x] == ts[x]
    {
      assert ps[x] == ts[x];
    }
    forall x | x in more
      ensures us[x].dir == DefaultDir(x)
    {
      assert IsReplicaOf(us[x], x, id);
    }
  }

  lemma ProvisionDirs(s: State, op: Op)
    requires DirsApart(s) && op.Provision? && op.ready && Accepts(s, op.id, op.name, op.count)
    ensures DirsApart(Provisioned(s, op.id, op.count)) <==> !TakesHeldDir(s, op)
  {
    hide Apart, DefaultDir, AddsOnDefaults, FirstReplicas, NewIds, HoldsDir, Provisioned;
    ProvisionAdds(s, op.id, op.name, op.count);
    DirsJoin(s, Provisioned(s, op.id, op.count).tenants, FirstReplicas(op.id, op.count) + {op.id});
    NewIdsAre(op.id, op.count);
  }

  lemma NewIdsAre(id: string, count: nat)
    requires count <= MAX_REPLICAS
    ensures forall x :: x in NewIds(id, count) <==> x in FirstReplicas(id, count) + {id}
  {
  }

  lemma FreshIds(s: State, id: string, name: string, count: nat)
    requires Accepts(s, id, name, count)
    ensures s.tenants.Keys !! FirstReplicas(id, count) && id !in FirstReplicas(id, count)
  {
    forall k | 1 <= k <= count
      ensures ReplicaId(id, k) != id
    {
      ReplicaIdsDiffer(id, k, k);
    }
  }

  /** A step keeps directories apart exactly unless it provisions onto a held one. */
  lemma StepDirs(s: State, op: Op)
    requires DirsApart(s)
    ensures DirsApart(Step(s, op)) <==> !TakesHeldDir(s, op)
  {
    hide Provisioned, Accepts, Apart, Each, Started, Promoted, Deleted, Marked;
    match op
    case Provision(id, name, count, ready) =>
      if ready && Accepts(s, id, name, count) {
        ProvisionDirs(s, op);
      }
    case Start(id, quota, outcome) => StartedTenants(s, id, quota, outcome);
    case Hibernate(id, saved) =>
      if id in s.tenants {
        MarkedDirs(s.tenants, id, saved);
      }
    case Wake(id, onlyHibernated, saved, quota, outcome) =>
      if id in s.tenants {
        MarkedDirs(s.tenants, id, !saved);
        StartedTenants(s.(tenants := Marked(s.tenants, id, false)), id, quota, outcome);
      }
    case Promote(id) =>
      if CanPromote(s, id) {
        PromotedDirs(s, id);
      }
    case Delete(id, failAt) =>
      if id in s.tenants {
        DeleteDirs(s, id, failAt);
      }
  }

  lemma MarkedDirs(ts: Tenants, id: string, hibernated: bool)
    requires id in ts
    ensures Each(Marked(ts, id, hibernated), DirOf) == Each(ts, DirOf)
  {
    EachSame(ts, Marked(ts, id, hibernated), DirOf);
  }

  lemma PromotedDirs(s: State, id: string)
    requires DirsApart(s) && CanPromote(s, id)
    ensures DirsApart(Promoted(s, id))
  {
    hide Apart;
    var p := s.tenants[id].replicaOf;
    EachSwap(s.tenants, p, id, DirOf);
    ApartSwap(Each(s.tenants, DirOf), p, id, {});
  }

  lemma DeleteDirs(s: State, id: string, failAt: int)
    requires DirsApart(s) && id in s.tenants
    ensures DirsApart(Deleted(s, id, failAt))
  {
    hide Apart, Doomed, Dropping;
    var all := Doomed(s, id);
    var gone := if Stops(s, id, failAt) then Among(all[..failAt + 1]) else Among(all);
    EachLess(s.tenants, gone, DirOf);
    ApartLess(Each(s.tenants, DirOf), gone, {});
    EachSame(Dropped(s, gone).tenants, Unlisted(Dropped(s, gone), s.tenants[id].replicaOf, id).tenants, DirOf);
  }

  ghost predicate DirsAlwaysApart(s: State, ops: seq<Op>)
  {
    DirsApart(Run(s, ops)) && (ops == [] || DirsAlwaysApart(s, ops[..|ops| - 1]))
  }

  ghost predicate NeverTakesHeldDir(s: State, ops: seq<Op>)
  {
    ops == [] || (!TakesHeldDir(Run(s, ops[..|ops| - 1]), ops[|ops| - 1]) && NeverTakesHeldDir(s, ops[..|ops| - 1]))
  }

  /** No state of a run shares a directory exactly when no provision took a held one. */
  lemma {:induction false} RunDirs(budget: int, ops: seq<Op>)
    ensures DirsAlwaysApart(Init(budget), ops) <==> NeverTakesHeldDir(Init(budget), ops)
  {
    if ops != [] {
      hide Step, TakesHeldDir;
      var n := |ops| - 1;
      RunDirs(budget, ops[..n]);
      if DirsAlwaysApart(Init(budget), ops[..n]) {
        LastApart(Init(budget), ops[..n]);
        StepDirs(Run(Init(budget), ops[..n]), ops[n]);
      }
    }
  }

  lemma LastApart(s: State, ops: seq<Op>)
    requires DirsAlwaysApart(s, ops)
    ensures DirsApart(Run(s, ops))
  {
  }

  // ---- Replica links ----

  /** The delete ends early and leaves a primary that lists a removed replica. */
  predicate Strands(s: State, op: Op)
  {
    && op.Delete? && op.id in s.tenants && Stops(s, op.id, op.failAt)
    && (s.tenants[op.id].role == Replica || op.failAt < |Doomed(s, op.id)| - 1)
  }

  predicate SameLinks(ts: Tenants, us: Tenants)
  {
    && us.Keys == ts.Keys
    && forall x :: x in ts ==> us[x].role == ts[x].role && us[x].replicaOf == ts[x].replicaOf && us[x].replicas == ts[x].replicas
  }

  lemma LinksStay(ts: Tenants, us: Tenants)
    requires SameLinks(ts, us) && Linked(ts)
    ensures Linked(us)
  {
    forall p, r
      ensures Lists(us, p, r) <==> Follows(us, r, p)
    {
      assert Lists(us, p, r) <==> Lists(ts, p, r);
      assert Follows(us, r, p) <==> Follows(ts, r, p);
    }
  }

  /** A new primary and its replicas, named by nobody before, name each other. */
  lemma JoinedLinks(ts: Tenants, ps: Tenants, us: Tenants, id: string, more: set<string>)
    requires Linked(ts) && id !in ts && ts.Keys !! more && id !in more
    requires id in ps && ps == ts[id := ps[id]] && ps[id].role != Replica
    requires forall x :: x in ps[id].replicas <==> x in more
    requires Joins(ps, us, id, more)
    ensures Linked(us)
  {
    forall p, r
      ensures Lists(us, p, r) <==> Follows(us, r, p)
    {
      assert Lists(ts, p, r) <==> Follows(ts, r, p);
      if p in more {
        assert IsReplicaOf(us[p], p, id);
      } else if p in ps {
        assert us[p] == ps[p];
      }
      if r in more {
        assert IsReplicaOf(us[r], r, id);
      } else if r in ps {
        assert us[r] == ps[r];
      }
    }
  }

  lemma ProvisionLinks(s: State, id: string, name: string, count: nat)
    requires Linked(s.tenants) && Accepts(s, id, name, count)
    ensures Linked(Provisioned(s, id, count).tenants)
  {
    ProvisionJoins(s, id, name, count);
    FreshIds(s, id, name, count);
    MoreAre(id, count);
    hide FirstReplicas, ReplicaIds, ReplicaId, Linked, Joins, Provisioned;
    JoinedLinks(s.tenants, WithPrimary(s, id, count).tenants, Provisioned(s, id, count).tenants, id, FirstReplicas(id, count));
  }

  lemma MoreAre(id: string, count: nat)
    requires count <= MAX_REPLICAS
    ensures forall x :: x in ReplicaIds(id, count) <==> x in FirstReplicas(id, count)
  {
  }

  lemma DeletePrimaryLinks(s: State, id: string)
    requires Linked(s.tenants) && ShapesOk(s.tenants) && id in s.tenants && s.tenants[id].role != Replica
    ensures Linked((s.tenants - Among(Doomed(s, id))))
  {
    var ts, gone := s.tenants, Among(Doomed(s, id));
    var us := ts - gone;
    forall x
      ensures x in gone <==> x == id || Lists(ts, id, x)
    {
      assert Lists(ts, id, x) <==> Follows(ts, x, id);
    }
    hide Doomed, Among;
    forall p, r
      ensures Lists(us, p, r) <==> Follows(us, r, p)
    {
      assert Lists(ts, p, r) <==> Follows(ts, r, p);
      assert Lists(ts, id, r) <==> Follows(ts, r, id);
      assert Lists(ts, id, p) <==> Follows(ts, p, id);
      assert p in ts ==> ShapeOf(p, ts[p]);
    }
  }

  lemma DeleteReplicaLinks(s: State, id: string)
    requires Linked(s.tenants) && ShapesOk(s.tenants) && id in s.tenants && s.tenants[id].role == Replica
    ensures Linked(Unlisted(Dropped(s, {id}), s.tenants[id].replicaOf, id).tenants)
  {
    var ts, of := s.tenants, s.tenants[id].replicaOf;
    var us := Unlisted(Dropped(s, {id}), of, id).tenants;
    assert ShapeOf(id, ts[id]);
    assert Lists(ts, of, id) <==> Follows(ts, id, of);
    forall p, r
      ensures Lists(us, p, r) <==> Follows(us, r, p)
    {
      assert Lists(ts, p, r) <==> Follows(ts, r, p);
    }
  }

  lemma DoomedReplica(s: State, id: string)
    requires id in s.tenants && s.tenants[id].role == Replica
    ensures Doomed(s, id) == [id] && Among(Doomed(s, id)) == {id}
  {
  }

  lemma StrandedReplica(s: State, id: string)
    requires Linked(s.tenants) && ShapesOk(s.tenants) && id in s.tenants && s.tenants[id].role == Replica
    ensures !Linked(s.tenants - {id})
  {
    var ts, of := s.tenants, s.tenants[id].replicaOf;
    assert ShapeOf(id, ts[id]);
    assert Follows(ts, id, of) && Lists(ts, of, id);
    assert Lists(ts - {id}, of, id) && !Follows(ts - {id}, id, of);
  }

  lemma StrandedPrimary(s: State, id: string, gone: set<string>, m: string)
    requires Linked(s.tenants) && id in s.tenants && id !in gone
    requires m in gone && m in s.tenants[id].replicas
    ensures !Linked(s.tenants - gone)
  {
    assert Lists(s.tenants - gone, id, m) && !Follows(s.tenants - gone, m, id);
  }

  lemma MembersDoomed(s: State, id: string, n: nat)
    requires Linked(s.tenants) && id in s.tenants && s.tenants[id].role != Replica && 0 < n < |Doomed(s, id)|
    ensures id !in Among(Doomed(s, id)[..n]) && Doomed(s, id)[0] in Among(Doomed(s, id)[..n])
    ensures Doomed(s, id)[0] in s.tenants[id].replicas
  {
    var all, ts := Doomed(s, id), s.tenants;
    forall k | 0 <= k < n
      ensures all[k] != id && all[k] in ts[id].replicas
    {
      assert all[k] in Present(ts[id].replicas, ts);
      assert Lists(ts, id, all[k]) && Follows(ts, all[k], id);
    }
    assert all[0] == all[..n][0];
  }

  lemma StrandedLinks(s: State, op: Op)
    requires Linked(s.tenants) && ShapesOk(s.tenants) && Strands(s, op)
    ensures !Linked(Step(s, op).tenants)
  {
    hide Linked, ShapesOk, Doomed, Among;
    var id := op.id;
    if s.tenants[id].role == Replica {
      DoomedReplica(s, id);
      assert [id][..1] == [id];
      StrandedReplica(s, id);
    } else {
      MembersDoomed(s, id, op.failAt + 1);
      StrandedPrimary(s, id, Among(Doomed(s, id)[..op.failAt + 1]), Doomed(s, id)[0]);
    }
  }

  lemma DeleteLinks(s: State, op: Op)
    requires Linked(s.tenants) && ShapesOk(s.tenants) && op.Delete? && op.id in s.tenants && !Strands(s, op)
    ensures Linked(Step(s, op).tenants)
  {
    var id := op.id;
    assert ShapeOf(id, s.tenants[id]);
    hide Linked, Dropping;
    if s.tenants[id].role == Replica {
      DoomedReplica(s, id);
      DeleteReplicaLinks(s, id);
    } else {
      DeletePrimaryLinks(s, id);
      var all := Doomed(s, id);
      assert all[..|all|] == all;
    }
  }

  lemma StartedTenants(s: State, id: string, quota: nat, outcome: Outcome)
    ensures Started(s, id, quota, outcome).tenants == s.tenants
  {
  }

  lemma PutLinks(ts: Tenants, id: string, t: Tenant)
    requires id in ts && t.role == ts[id].role && t.replicaOf == ts[id].replicaOf && t.replicas == ts[id].replicas
    ensures SameLinks(ts, ts[id := t])
  {
  }

  lemma SwappedLinks(ts: Tenants, p: string, r: string)
    requires p in ts && r in ts
    ensures SameLinks(ts, Swapped(ts, p, r))
  {
  }

  lemma OtherLinks(s: State, op: Op)
    requires !op.Provision? && !op.Delete?
    ensures SameLinks(s.tenants, Step(s, op).tenants)
  {
    hide Started, SameLinks, EnginesAfter, Swapped;
    SameLinksSelf(s.tenants);
    match op
    case Start(id, quota, outcome) => StartedTenants(s, id, quota, outcome);
    case Hibernate(id, saved) =>
      if id in s.tenants {
        PutLinks(s.tenants, id, s.tenants[id].(hibernated := saved));
      }
    case Wake(id, onlyHibernated, saved, quota, outcome) =>
      if id in s.tenants {
        PutLinks(s.tenants, id, s.tenants[id].(hibernated := !saved));
        StartedTenants(s.(tenants := Marked(s.tenants, id, false)), id, quota, outcome);
      }
    case Promote(id) =>
      if CanPromote(s, id) {
        SwappedLinks(s.tenants, s.tenants[id].replicaOf, id);
      }
  }

  lemma SameLinksSelf(ts: Tenants)
    ensures SameLinks(ts, ts)
  {
  }

  /** A step keeps the links inverse exactly unless it strands a replica. */
  lemma StepLinks(s: State, op: Op)
    requires Linked(s.tenants) && ShapesOk(s.tenants)
    ensures Linked(Step(s, op).tenants) <==> !Strands(s, op)
  {
    hide Linked, ShapesOk, Provisioned, Deleted, Stops;
    if op.Delete? {
      if op.id in s.tenants {
        if Strands(s, op) {
          StrandedLinks(s, op);
        } else {
          DeleteLinks(s, op);
        }
      }
    } else if op.Provision? {
      if op.ready && Accepts(s, op.id, op.name, op.count) {
        ProvisionLinks(s, op.id, op.name, op.count);
      }
    } else {
      OtherLinks(s, op);
      LinksStay(s.tenants, Step(s, op).tenants);
    }
  }

  ghost predicate AlwaysLinked(s: State, ops: seq<Op>)
  {
    Linked(Run(s, ops).tenants) && (ops == [] || AlwaysLinked(s, ops[..|ops| - 1]))
  }

  ghost predicate NeverStrands(s: State, ops: seq<Op>)
  {
    ops == [] || (!Strands(Run(s, ops[..|ops| - 1]), ops[|ops| - 1]) && NeverStrands(s, ops[..|ops| - 1]))
  }

  /** Links are inverse throughout a run exactly when no delete of it strands a replica. */
  lemma {:induction false} RunLinks(budget: int, ops: seq<Op>)
    ensures AlwaysLinked(Init(budget), ops) <==> NeverStrands(Init(budget), ops)
  {
    if ops != [] {
      hide Step, Strands;
      var n := |ops| - 1;
      RunLinks(budget, ops[..n]);
      if AlwaysLinked(Init(budget), ops[..n]) {
        LastLinked(Init(budget), ops[..n]);
        EveryRunSound(budget, ops[..n]);
        StepLinks(Run(Init(budget), ops[..n]), ops[n]);
      }
    }
  }

  lemma LastLinked(s: State, ops: seq<Op>)
    requires AlwaysLinked(s, ops)
    ensures Linked(Run(s, ops).tenants)
  {
  }
}
