/**
 * The support wake endpoint under concurrency (internal/orchestrator/
 * support_api.go).  A request goes through separate critical sections: it
 * reserves the tenant's cooldown, appends an "attempt" audit record, wakes the
 * tenant and appends a final record; if the first record fails it withdraws
 * its reservation.  Sections of different requests interleave freely.
 */
module SupportWake {

  /** Five minutes, in nanoseconds. */
  const COOLDOWN: int := 5 * 60 * 1_000_000_000

  datatype Phase =
    | Reserved      // cooldown taken, nothing audited yet
    | AuditFailed   // the attempt could not be audited, reservation not yet withdrawn
    | Withdrawn
    | Audited       // attempt recorded, tenant not yet woken
    | Woken
    | Finished

  /** A request that got past the rate limit at time `at`. */
  datatype Request = Request(tenant: string, at: int, phase: Phase)

  datatype Event =
    | Attempt(req: nat)
    | WakeCall(req: nat)
    | Outcome(req: nat, accepted: bool)

  datatype World = World(clock: int, lastWake: map<string, int>, requests: map<nat, Request>, trace: seq<Event>)

  /** One critical section of one request. */
  datatype Action =
    | Reserve(req: nat, tenant: string, now: int)
    | AuditAttempt(req: nat, written: bool, synced: bool)
    | Withdraw(req: nat)
    | Wake(req: nat)
    | Finish(req: nat, accepted: bool, written: bool)

  predicate RateLimited(w: World, tenant: string, now: int)
  {
    tenant in w.lastWake && now - w.lastWake[tenant] < COOLDOWN
  }

  predicate InPhase(w: World, req: nat, phase: Phase)
  {
    req in w.requests && w.requests[req].phase == phase
  }

  function Move(w: World, req: nat, phase: Phase): World
    requires req in w.requests
  {
    w.(requests := w.requests[req := w.requests[req].(phase := phase)])
  }

  /** Actions that do not fit the state of their request do not happen; the
      clock never runs backwards. */
  predicate Enabled(w: World, a: Action)
  {
    match a
    case Reserve(req, tenant, now) => req !in w.requests && now >= w.clock
    case AuditAttempt(req, written, synced) => InPhase(w, req, Reserved) && (synced ==> written)
    case Withdraw(req) => InPhase(w, req, AuditFailed)
    case Wake(req) => InPhase(w, req, Audited)
    case Finish(req, accepted, written) => InPhase(w, req, Woken)
  }

  function Step(w: World, a: Action): World
    requires Enabled(w, a)
  {
    match a
    case Reserve(req, tenant, now) =>
      if RateLimited(w, tenant, now) then w.(clock := now)
      else w.(clock := now, lastWake := w.lastWake[tenant := now], requests := w.requests[req := Request(tenant, now, Reserved)])
    case AuditAttempt(req, written, synced) =>
      Move(w, req, if synced then Audited else AuditFailed)
        .(trace := if written then w.trace + [Attempt(req)] else w.trace)
    case Withdraw(req) =>
      var r := w.requests[req];
      Move(w, req, Withdrawn)
        .(lastWake := if r.tenant in w.lastWake && w.lastWake[r.tenant] == r.at then w.lastWake - {r.tenant} else w.lastWake)
    case Wake(req) =>
      Move(w, req, Woken).(trace := w.trace + [WakeCall(req)])
    case Finish(req, accepted, written) =>
      Move(w, req, Finished).(trace := if written then w.trace + [Outcome(req, accepted)] else w.trace)
  }

  /** A run interleaves enabled actions of any number of requests. */
  ghost predicate IsRun(start: World, actions: seq<Action>, end: World)
    decreases |actions|
  {
    if actions == [] then end == start
    else
      var n := |actions| - 1;
      exists w :: IsRun(start, actions[..n], w) && Enabled(w, actions[n]) && end == Step(w, actions[n])
  }

  function Initial(clock: int): World
  {
    World(clock, map[], map[], [])
  }

  // ---- Cooldown ----

  /** The request's reservation counts: it was not withdrawn. */
  predicate Holds(r: Request)
  {
    r.phase != Withdrawn
  }

  /** Two reservations that count for one tenant are a cooldown apart. */
  predicate Apart(x: Request, y: Request)
  {
    Holds(x) && Holds(y) && x.tenant == y.tenant ==> x.at + COOLDOWN <= y.at || y.at + COOLDOWN <= x.at
  }

  ghost predicate SpacedOut(w: World)
  {
    forall r, r' :: r in w.requests && r' in w.requests && r != r' ==> Apart(w.requests[r], w.requests[r'])
  }

  /** Times never lie in the future. */
  ghost predicate PastTimes(w: World)
  {
    && (forall r :: r in w.requests ==> w.requests[r].at <= w.clock)
    && (forall t :: t in w.lastWake ==> w.lastWake[t] <= w.clock)
  }

  /** The stored time of a tenant is that of its newest reservation that
      counts; if no time is stored all its reservations are a cooldown old. */
  ghost predicate NewestStored(w: World)
  {
    && (forall r :: r in w.requests && Holds(w.requests[r]) && w.requests[r].tenant in w.lastWake ==>
          var last := w.lastWake[w.requests[r].tenant];
          w.requests[r].at == last || w.requests[r].at <= last - COOLDOWN)
    && (forall r :: r in w.requests && Holds(w.requests[r]) && w.requests[r].tenant !in w.lastWake ==>
          w.requests[r].at <= w.clock - COOLDOWN)
  }

  ghost predicate CooldownInv(w: World)
  {
    SpacedOut(w) && PastTimes(w) && NewestStored(w)
  }

  lemma ReserveKeepsCooldown(w: World, a: Action)
    requires CooldownInv(w) && a.Reserve? && Enabled(w, a)
    ensures CooldownInv(Step(w, a))
  {
    if !RateLimited(w, a.tenant, a.now) {
      EarlierAreOld(w, a.tenant, a.now);
      var w' := Step(w, a);
      forall r, r' | r in w'.requests && r' in w'.requests && r != r'
        ensures Apart(w'.requests[r], w'.requests[r'])
      {
        assert r != a.req ==> w'.requests[r] == w.requests[r];
        assert r' != a.req ==> w'.requests[r'] == w.requests[r'];
      }
    }
  }

  /** When the rate limit lets a request through, all reservations of the
      tenant that count are a cooldown old. */
  lemma EarlierAreOld(w: World, tenant: string, now: int)
    requires CooldownInv(w) && now >= w.clock && !RateLimited(w, tenant, now)
    ensures forall r :: r in w.requests && Holds(w.requests[r]) && w.requests[r].tenant == tenant ==> w.requests[r].at + COOLDOWN <= now
  {
  }

  lemma WithdrawKeepsCooldown(w: World, a: Action)
    requires CooldownInv(w) && a.Withdraw? && Enabled(w, a)
    ensures CooldownInv(Step(w, a))
  {
    var w' := Step(w, a);
    var gone := w.requests[a.req];
    forall r | r in w'.requests && Holds(w'.requests[r]) && w'.requests[r].tenant !in w'.lastWake
      ensures w'.requests[r].at <= w'.clock - COOLDOWN
    {
      assert r != a.req && w.requests[r] == w'.requests[r];
    }
  }

  /** Only the phase of a request changes, and its reservation still counts. */
  lemma OthersKeepCooldown(w: World, a: Action)
    requires CooldownInv(w) && !a.Reserve? && !a.Withdraw? && Enabled(w, a)
    ensures CooldownInv(Step(w, a))
  {
    var w' := Step(w, a);
    assert w'.clock == w.clock && w'.lastWake == w.lastWake && w'.requests.Keys == w.requests.Keys;
    forall r | r in w.requests
      ensures w'.requests[r].at == w.requests[r].at && w'.requests[r].tenant == w.requests[r].tenant
      ensures Holds(w'.requests[r]) == Holds(w.requests[r])
    {
    }
    SamePlaces(w, w');
  }

  lemma SamePlaces(w: World, w': World)
    requires CooldownInv(w)
    requires w'.clock == w.clock && w'.lastWake == w.lastWake && w'.requests.Keys == w.requests.Keys
    requires forall r :: r in w.requests ==>
               && w'.requests[r].at == w.requests[r].at && w'.requests[r].tenant == w.requests[r].tenant
               && Holds(w'.requests[r]) == Holds(w.requests[r])
    ensures CooldownInv(w')
  {
  }

  // ---- Audit before wake ----

  /** `e` occurs in the trace before position `n`. */
  ghost predicate Before(trace: seq<Event>, e: Event, n: nat)
    requires n <= |trace|
  {
    exists i :: 0 <= i < n && trace[i] == e
  }

  ghost predicate AuditedFirst(w: World)
  {
    && (forall r :: r in w.requests && w.requests[r].phase in {Audited, Woken, Finished} ==> Before(w.trace, Attempt(r), |w.trace|))
    && (forall n :: 0 <= n < |w.trace| && w.trace[n].WakeCall? ==> Before(w.trace, Attempt(w.trace[n].req), n))
  }

  /** A request wakes its tenant at most once, after it was audited. */
  ghost predicate WokenOnce(w: World)
  {
    && (forall n :: 0 <= n < |w.trace| && w.trace[n].WakeCall? ==>
          w.trace[n].req in w.requests && w.requests[w.trace[n].req].phase in {Woken, Finished})
    && (forall n, m :: 0 <= n < m < |w.trace| && w.trace[n].WakeCall? && w.trace[m].WakeCall? ==> w.trace[n].req != w.trace[m].req)
  }

  lemma BeforeGrows(trace: seq<Event>, more: seq<Event>, e: Event, n: nat)
    requires n <= |trace| && Before(trace, e, n)
    ensures Before(trace + more, e, n)
  {
    var i :| 0 <= i < n && trace[i] == e;
    assert (trace + more)[i] == e;
  }

  /** A step appends at most one event. */
  lemma TraceGrows(w: World, a: Action) returns (more: seq<Event>)
    requires Enabled(w, a)
    ensures Step(w, a).trace == w.trace + more && |more| <= 1
    ensures forall e :: e in more ==> e.req == a.req
    ensures forall e :: e in more && e.WakeCall? ==> InPhase(w, a.req, Audited) && InPhase(Step(w, a), a.req, Woken)
    ensures InPhase(Step(w, a), a.req, Audited) && !InPhase(w, a.req, Audited) ==> more == [Attempt(a.req)]
  {
    more := Step(w, a).trace[|w.trace|..];
  }

  lemma OnlyOwnPhase(w: World, a: Action)
    requires Enabled(w, a)
    ensures w.requests.Keys <= Step(w, a).requests.Keys <= w.requests.Keys + {a.req}
    ensures forall r :: r in w.requests && r != a.req ==> Step(w, a).requests[r] == w.requests[r]
    ensures a.req in Step(w, a).requests && Step(w, a).requests[a.req].phase in {Woken, Finished} ==>
              a.req in w.requests && w.requests[a.req].phase in {Audited, Woken}
    ensures a.req in w.requests && w.requests[a.req].phase in {Woken, Finished} ==> Step(w, a).requests[a.req].phase in {Woken, Finished}
  {
  }

  lemma AuditedFirstKeeps(w: World, a: Action)
    requires AuditedFirst(w) && Enabled(w, a)
    ensures AuditedFirst(Step(w, a))
  {
    hide Step;
    var w' := Step(w, a);
    var more := TraceGrows(w, a);
    OnlyOwnPhase(w, a);
    forall r | r in w'.requests && w'.requests[r].phase in {Audited, Woken, Finished}
      ensures Before(w'.trace, Attempt(r), |w'.trace|)
    {
      if r in w.requests && w.requests[r].phase in {Audited, Woken, Finished} {
        BeforeGrows(w.trace, more, Attempt(r), |w.trace|);
      } else {
        assert w'.trace[|w.trace|] == Attempt(r);
      }
    }
    forall n | 0 <= n < |w'.trace| && w'.trace[n].WakeCall?
      ensures Before(w'.trace, Attempt(w'.trace[n].req), n)
    {
      if n < |w.trace| {
        BeforeGrows(w.trace, more, Attempt(w'.trace[n].req), n);
      } else {
        assert w'.trace[n] in more;
        BeforeGrows(w.trace, more, Attempt(a.req), |w.trace|);
      }
    }
  }

  lemma WokenOnceKeeps(w: World, a: Action)
    requires WokenOnce(w) && Enabled(w, a)
    ensures WokenOnce(Step(w, a))
  {
    hide Step;
    var w' := Step(w, a);
    var more := TraceGrows(w, a);
    OnlyOwnPhase(w, a);
    forall n | 0 <= n < |w'.trace| && w'.trace[n].WakeCall?
      ensures w'.trace[n].req in w'.requests && w'.requests[w'.trace[n].req].phase in {Woken, Finished}
    {
      if n < |w.trace| {
        assert w'.trace[n] == w.trace[n];
      } else {
        assert w'.trace[n] in more;
      }
    }
    forall n, m | 0 <= n < m < |w'.trace| && w'.trace[n].WakeCall? && w'.trace[m].WakeCall?
      ensures w'.trace[n].req != w'.trace[m].req
    {
      assert w'.trace[n] == w.trace[n];
      if m < |w.trace| {
        assert w'.trace[m] == w.trace[m];
      } else {
        assert w'.trace[m] in more;
      }
    }
  }

  // ---- Every run ----

  ghost predicate Inv(w: World)
  {
    CooldownInv(w) && AuditedFirst(w) && WokenOnce(w)
  }

  lemma StepKeeps(w: World, a: Action)
    requires Inv(w) && Enabled(w, a)
    ensures Inv(Step(w, a))
  {
    AuditedFirstKeeps(w, a);
    WokenOnceKeeps(w, a);
    match a {
      case Reserve(_, _, _) => ReserveKeepsCooldown(w, a);
      case Withdraw(_) => WithdrawKeepsCooldown(w, a);
      case _ => OthersKeepCooldown(w, a);
    }
  }

  lemma {:induction false} EveryRun(clock: int, actions: seq<Action>, end: World)
    requires IsRun(Initial(clock), actions, end)
    ensures Inv(end)
    decreases |actions|
  {
    if actions != [] {
      var n := |actions| - 1;
      var w :| IsRun(Initial(clock), actions[..n], w) && Enabled(w, actions[n]) && end == Step(w, actions[n]);
      EveryRun(clock, actions[..n], w);
      StepKeeps(w, actions[n]);
    }
  }

  predicate WasAudited(r: Request)
  {
    r.phase in {Audited, Woken, Finished}
  }

  predicate AuditedApart(x: Request, y: Request)
  {
    WasAudited(x) && WasAudited(y) && x.tenant == y.tenant && x.at <= y.at ==> x.at + 300_000_000_000 <= y.at
  }

  /**
   * Whatever the interleaving and whatever audits fail: two reservations for
   * one tenant whose attempts were audited are at least five minutes apart, and
   * every wake call comes after the attempt record of its own request.
   */
  lemma WakesAreSpacedAndAudited(clock: int, actions: seq<Action>, w: World)
    requires IsRun(Initial(clock), actions, w)
    ensures forall r, r' :: r in w.requests && r' in w.requests && r != r' ==> AuditedApart(w.requests[r], w.requests[r'])
    ensures forall n :: 0 <= n < |w.trace| && w.trace[n].WakeCall? ==> Before(w.trace, Attempt(w.trace[n].req), n)
    ensures forall n, m :: 0 <= n < m < |w.trace| && w.trace[n].WakeCall? && w.trace[m].WakeCall? ==> w.trace[n].req != w.trace[m].req
  {
    EveryRun(clock, actions, w);
  }

  // ---- Exactly who is refused ----

  /** Every stored time is that of a reservation that counts. */
  ghost predicate Backed(w: World)
  {
    forall t :: t in w.lastWake ==> exists r :: r in w.requests && Backs(w.requests[r], t, w.lastWake[t])
  }

  predicate Backs(r: Request, tenant: string, at: int)
  {
    r.tenant == tenant && r.at == at && r.phase != Withdrawn
  }

  lemma BackedStep(w: World, a: Action)
    requires Backed(w) && Enabled(w, a)
    ensures Backed(Step(w, a))
  {
    var w' := Step(w, a);
    forall t | t in w'.lastWake
      ensures exists r :: r in w'.requests && Backs(w'.requests[r], t, w'.lastWake[t])
    {
      if a.Reserve? && !RateLimited(w, a.tenant, a.now) && t == a.tenant {
        assert Backs(w'.requests[a.req], t, w'.lastWake[t]);
      } else {
        var r :| r in w.requests && Backs(w.requests[r], t, w.lastWake[t]);
        assert Backs(w'.requests[r], t, w'.lastWake[t]);
      }
    }
  }

  lemma {:induction false} EveryRunBacked(clock: int, actions: seq<Action>, end: World)
    requires IsRun(Initial(clock), actions, end)
    ensures Backed(end)
    decreases |actions|
  {
    if actions != [] {
      var n := |actions| - 1;
      var w :| IsRun(Initial(clock), actions[..n], w) && Enabled(w, actions[n]) && end == Step(w, actions[n]);
      EveryRunBacked(clock, actions[..n], w);
      BackedStep(w, actions[n]);
    }
  }

  /** A reservation of the tenant that was not withdrawn and is less than five
      minutes old. */
  predicate Recent(r: Request, tenant: string, now: int)
  {
    r.tenant == tenant && r.phase != Withdrawn && now < r.at + 300_000_000_000
  }

  /** In every run a request is refused exactly while the tenant has such a reservation. */
  lemma RefusedIff(clock: int, actions: seq<Action>, w: World, tenant: string, now: int)
    requires IsRun(Initial(clock), actions, w) && now >= w.clock
    ensures RateLimited(w, tenant, now) <==> exists r :: r in w.requests && Recent(w.requests[r], tenant, now)
  {
    hide IsRun;
    EveryRun(clock, actions, w);
    EveryRunBacked(clock, actions, w);
    if RateLimited(w, tenant, now) {
      var r :| r in w.requests && Backs(w.requests[r], tenant, w.lastWake[tenant]);
      assert Recent(w.requests[r], tenant, now);
    }
  }

  // ---- What the trace tells of a request ----

  function Own(trace: seq<Event>, req: nat): seq<Event>
  {
    if trace == [] then []
    else Own(trace[..|trace| - 1], req) + if trace[|trace| - 1].req == req then [trace[|trace| - 1]] else []
  }

  lemma OwnMore(trace: seq<Event>, e: Event, req: nat)
    ensures Own(trace + [e], req) == Own(trace, req) + if e.req == req then [e] else []
  {
    assert (trace + [e])[..|trace|] == trace;
  }

  /** The records and the wake call of a request, in order, as far as it got. */
  predicate Tells(own: seq<Event>, req: nat, phase: Phase)
  {
    match phase
    case Reserved => own == []
    case AuditFailed => own == [] || own == [Attempt(req)]
    case Withdrawn => own == [] || own == [Attempt(req)]
    case Audited => own == [Attempt(req)]
    case Woken => own == [Attempt(req), WakeCall(req)]
    case Finished =>
      || own == [Attempt(req), WakeCall(req)]
      || own == [Attempt(req), WakeCall(req), Outcome(req, true)]
      || own == [Attempt(req), WakeCall(req), Outcome(req, false)]
  }

  ghost predicate Told(w: World, req: nat)
  {
    if req in w.requests then Tells(Own(w.trace, req), req, w.requests[req].phase) else Own(w.trace, req) == []
  }

  lemma ToldStep(w: World, a: Action, req: nat)
    requires Told(w, req) && Enabled(w, a)
    ensures Told(Step(w, a), req)
  {
    hide Own;
    var w' := Step(w, a);
    if |w'.trace| > |w.trace| {
      OwnMore(w.trace, w'.trace[|w.trace|], req);
    }
  }

  /** In every run the trace holds, for each request, exactly the events of the
      phases it went through, in order. */
  lemma {:induction false} EveryRunTold(clock: int, actions: seq<Action>, end: World, req: nat)
    requires IsRun(Initial(clock), actions, end)
    ensures Told(end, req)
    decreases |actions|
  {
    if actions != [] {
      var n := |actions| - 1;
      var w :| IsRun(Initial(clock), actions[..n], w) && Enabled(w, actions[n]) && end == Step(w, actions[n]);
      EveryRunTold(clock, actions[..n], w, req);
      ToldStep(w, actions[n], req);
    }
  }

  // ---- The critical sections ----

  class SupportApi {
    var clock: int
    var lastWake: map<string, int>
    var requests: map<nat, Request>
    var trace: seq<Event>

    ghost function State(): World
      reads this
    {
      World(clock, lastWake, requests, trace)
    }

    constructor (clock: int)
      ensures State() == Initial(clock)
    {
      this.clock, lastWake, requests, trace := clock, map[], map[], [];
    }

    /** Takes the cooldown under the lock, with the time read under the lock. */
    method ReserveSection(req: nat, tenant: string, now: int) returns (ok: bool)
      requires Enabled(State(), Reserve(req, tenant, now))
      modifies this
      ensures State() == Step(old(State()), Reserve(req, tenant, now))
      ensures ok == !RateLimited(old(State()), tenant, now)
      ensures ok ==> requests == old(requests)[req := Request(tenant, now, Reserved)] && lastWake == old(lastWake)[tenant := now]
      ensures !ok ==> requests == old(requests) && lastWake == old(lastWake)
      ensures trace == old(trace)
    {
      clock := now;
      if tenant in lastWake && now - lastWake[tenant] < COOLDOWN {
        return false;
      }
      lastWake := lastWake[tenant := now];
      requests := requests[req := Request(tenant, now, Reserved)];
      return true;
    }

    /** Appends the attempt record; a record may have reached the file although
        the call reports a failure. */
    method AttemptSection(req: nat, written: bool, synced: bool)
      requires Enabled(State(), AuditAttempt(req, written, synced))
      modifies this
      ensures State() == Step(old(State()), AuditAttempt(req, written, synced))
      ensures trace == old(trace) + if written then [Attempt(req)] else []
      ensures requests == old(requests)[req := old(requests)[req].(phase := if synced then Audited else AuditFailed)]
    {
      if written {
        trace := trace + [Attempt(req)];
      }
      requests := requests[req := requests[req].(phase := if synced then Audited else AuditFailed)];
    }

    /** Withdraws the reservation, unless a later one has replaced it. */
    method WithdrawSection(req: nat)
      requires Enabled(State(), Withdraw(req))
      modifies this
      ensures State() == Step(old(State()), Withdraw(req))
      ensures requests == old(requests)[req := old(requests)[req].(phase := Withdrawn)] && trace == old(trace)
    {
      var r := requests[req];
      if r.tenant in lastWake && lastWake[r.tenant] == r.at {
        lastWake := lastWake - {r.tenant};
      }
      requests := requests[req := r.(phase := Withdrawn)];
    }
  
    /** The call into the tenant manager. */
    method WakeSection(req: nat)
      requires Enabled(State(), Wake(req))
      modifies this
      ensures State() == Step(old(State()), Wake(req))
      ensures trace == old(trace) + [WakeCall(req)]
      ensures requests == old(requests)[req := old(requests)[req].(phase := Woken)]
    {
      trace := trace + [WakeCall(req)];
      requests := requests[req := requests[req].(phase := Woken)];
    }

    /** Appends the final record, if the file can be written. */
    method OutcomeSection(req: nat, accepted: bool, written: bool)
      requires Enabled(State(), Finish(req, accepted, written))
      modifies this
      ensures State() == Step(old(State()), Finish(req, accepted, written))
      ensures trace == old(trace) + if written then [Outcome(req, accepted)] else []
      ensures requests == old(requests)[req := old(requests)[req].(phase := Finished)]
    {
      if written {
        trace := trace + [Outcome(req, accepted)];
      }
      requests := requests[req := requests[req].(phase := Finished)];
    }
  }
}
