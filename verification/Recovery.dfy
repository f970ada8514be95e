/**
 * Recovery stops at the first record that a vector command refuses
 * (internal/persistence/recovery.go).  When does a replay get through?
 */
module VectorRecovery {
  import opened Options
  import opened MigrationLog

  /** The command reports an error instead of being carried out. */
  predicate Refuses(s: Store, op: Op)
  {
    match op
    case Add(id, vec) => !ValidVector(id, vec) || (s.Present? && s.live.dim != |vec|)
    case AddBatch(dim, ids, vecs) => !ValidBatch(dim, ids, vecs) || (s.Present? && s.live.dim != dim)
    case Del(id) => false
    case Compact => false
    case Start(dim, encoding) => encoding.None? || Restart(Shadow(s), dim, encoding.value).None?
    case ShadowAdd(id, vec) => Shadow(s).None? || !ValidVector(id, vec) || |vec| != Shadow(s).value.dim
    case Swap => s.Missing? || (s.shadow.Some? && s.shadow.value.rows == map[])
    case Cancel => s.Missing?
  }

  /** No record of the log is refused. */
  ghost predicate AcceptsAll(codec: Codec, s: Store, log: seq<Op>)
  {
    forall k {:trigger log[k]} :: 0 <= k < |log| ==> !Refuses(Run(codec, s, log[..k]), log[k])
  }

  /** The dimension of the vectors a record adds to the live table. */
  function AddsDim(op: Op): Option<int>
  {
    match op
    case Add(id, vec) => Some(|vec|)
    case AddBatch(dim, ids, vecs) => Some(dim)
    case _ => None
  }

  /** Before its first promotion the log adds a vector of another dimension than `t` has. */
  ghost predicate AddsOtherDim(codec: Codec, s: Store, t: Store, log: seq<Op>)
  {
    t.Present? && exists k :: AddsOtherDimAt(codec, s, t, log, k)
  }

  ghost predicate AddsOtherDimAt(codec: Codec, s: Store, t: Store, log: seq<Op>, k: nat)
    requires t.Present?
  {
    k < |log| && NeverPromotes(codec, s, log[..k]) && AddsDim(log[k]).Some? && AddsDim(log[k]).value != t.live.dim
  }

  // ---- Runs with and without promotions ----

  lemma {:induction false} StaysPresent(codec: Codec, s: Store, log: seq<Op>)
    requires s.Present?
    ensures Run(codec, s, log).Present?
  {
    if log != [] {
      StaysPresent(codec, s, log[..|log| - 1]);
    }
  }

  /** Whether a log promotes depends on the shadow it starts with alone. */
  lemma SamePromotions(codec: Codec, a: Store, b: Store, log: seq<Op>)
    requires Shadow(a) == Shadow(b) && NeverPromotes(codec, a, log)
    ensures NeverPromotes(codec, b, log)
  {
    forall i | 0 <= i < |log|
      ensures !Promotes(Run(codec, b, log[..i]), log[i])
    {
      RunShadow(codec, a, b, log[..i]);
      StepShadow(codec, Run(codec, a, log[..i]), Run(codec, b, log[..i]), log[i]);
    }
  }

  lemma SameShapeSoFar(codec: Codec, s: Store, t: Store, log: seq<Op>, k: nat)
    requires k <= |log| && Shadow(s) == Shadow(t) && t.Present? && NeverPromotes(codec, s, log[..k])
    ensures Run(codec, t, log[..k]).Present? && Run(codec, t, log[..k]).live.dim == t.live.dim
  {
    SamePromotions(codec, s, t, log[..k]);
    assert log[..k][..k] == log[..k] && log[..k][..0] == [];
    RunShape(codec, t, log[..k], 0, k);
    StaysPresent(codec, t, log[..k]);
  }

  /** After a promotion the replay is in the state of the run. */
  lemma SameAfterPromotion(codec: Codec, s: Store, t: Store, log: seq<Op>, k: nat)
    requires k <= |log| && Shadow(s) == Shadow(t) && !NeverPromotes(codec, s, log[..k])
    ensures Run(codec, t, log[..k]) == Run(codec, s, log[..k])
  {
    ReplayWithPromotion(codec, s, t, log[..k]);
  }

  // ---- When a replay gets through ----

  /** A record that the run took is taken from a state with the same shadow
      exactly unless it adds vectors of another dimension. */
  lemma SameAnswer(a: Store, b: Store, op: Op)
    requires Shadow(a) == Shadow(b) && b.Present? && !Refuses(a, op)
    ensures Refuses(b, op) <==> AddsDim(op).Some? && AddsDim(op).value != b.live.dim
  {
  }

  lemma TakenAt(codec: Codec, s: Store, t: Store, log: seq<Op>, k: nat)
    requires k < |log| && Shadow(s) == Shadow(t) && t.Present? && AcceptsAll(codec, s, log)
    ensures Refuses(Run(codec, t, log[..k]), log[k]) <==> AddsOtherDimAt(codec, s, t, log, k)
  {
    if NeverPromotes(codec, s, log[..k]) {
      SameShapeSoFar(codec, s, t, log, k);
      RunShadow(codec, s, t, log[..k]);
      SameAnswer(Run(codec, s, log[..k]), Run(codec, t, log[..k]), log[k]);
    } else {
      SameAfterPromotion(codec, s, t, log, k);
    }
  }

  lemma TakenIff(codec: Codec, s: Store, t: Store, log: seq<Op>)
    requires Shadow(s) == Shadow(t) && t.Present? && AcceptsAll(codec, s, log)
    ensures AcceptsAll(codec, t, log) <==> !AddsOtherDim(codec, s, t, log)
  {
    hide Run, Refuses;
    forall k | 0 <= k < |log|
      ensures Refuses(Run(codec, t, log[..k]), log[k]) <==> AddsOtherDimAt(codec, s, t, log, k)
    {
      TakenAt(codec, s, t, log, k);
    }
    hide AddsOtherDimAt;
    if AddsOtherDim(codec, s, t, log) {
      var k: nat :| AddsOtherDimAt(codec, s, t, log, k);
      OtherDimInLog(codec, s, t, log, k);
      assert Refuses(Run(codec, t, log[..k]), log[k]);
    }
  }

  lemma OtherDimInLog(codec: Codec, s: Store, t: Store, log: seq<Op>, k: nat)
    requires t.Present? && AddsOtherDimAt(codec, s, t, log, k)
    ensures k < |log|
  {
  }

  lemma NothingYet(codec: Codec, s: Store, log: seq<Op>, p: nat)
    requires p <= |log| && Run(codec, s, log[..p]).Missing?
    ensures s.Missing?
  {
    if s.Present? {
      StaysPresent(codec, s, log[..p]);
    }
  }

  /** A crash cannot lose an index that was on disk. */
  lemma StillThere(codec: Codec, s: Store, log: seq<Op>, p: nat, t: Store)
    requires p <= |log| && MayCrashInto(codec, s, log, p, t) && t.Missing?
    ensures s.Missing?
  {
    hide TouchedIn, NeverPromotes;
    if s.Present? {
      NothingYet(codec, s, log, p);
    }
  }

  /**
   * The log was taken once.  After a crash anywhere in it, replaying all of it
   * is refused nothing exactly when every vector added before the log's first
   * promotion has the dimension that the index has after the crash.
   */
  lemma ReplayTakenIff(codec: Codec, s: Store, log: seq<Op>, p: nat, t: Store)
    requires p <= |log| && Shadow(s).None? && AcceptsAll(codec, s, log) && MayCrashInto(codec, s, log, p, t)
    ensures AcceptsAll(codec, t, log) <==> !AddsOtherDim(codec, s, t, log)
  {
    hide Run, AcceptsAll, MayCrashInto;
    NoShadowLeft(codec, s, log, p, t);
    if t.Present? {
      TakenIff(codec, s, t, log);
    } else {
      StillThere(codec, s, log, p, t);
    }
  }

  lemma NoShadowLeft(codec: Codec, s: Store, log: seq<Op>, p: nat, t: Store)
    requires p <= |log| && MayCrashInto(codec, s, log, p, t)
    ensures Shadow(t).None?
  {
  }

  /** Recovery as it is: the state after the whole log, or none if it stopped. */
  ghost function Recovered(codec: Codec, t: Store, log: seq<Op>): Option<Store>
  {
    if AcceptsAll(codec, t, log) then Some(Run(codec, t, log)) else None
  }

  lemma {:induction false} AttemptsKeepIndex(codec: Codec, log: seq<Op>, cuts: seq<nat>, states: seq<Store>, n: nat)
    requires Attempts(codec, log, cuts, states) && n <= |cuts| && states[n].Missing?
    ensures states[0].Missing?
  {
    if n > 0 {
      assert AttemptAt(codec, log, cuts, states, n - 1);
      StillThere(codec, states[n - 1], log, cuts[n - 1], states[n]);
      AttemptsKeepIndex(codec, log, cuts, states, n - 1);
    }
  }

  /**
   * The log was taken once, and then any number of recoveries from it crashed.
   * The next one gets through exactly when every vector added before the log's
   * first promotion has the dimension the index now has, and then it restores
   * the live table.
   */
  lemma RecoveryRestores(codec: Codec, log: seq<Op>, cuts: seq<nat>, states: seq<Store>, n: nat)
    requires Attempts(codec, log, cuts, states) && n <= |cuts|
    requires Shadow(states[0]).None? && AcceptsAll(codec, states[0], log)
    ensures var s, t := states[0], states[n];
            var r := Recovered(codec, t, log);
            && (r.Some? <==> !AddsOtherDim(codec, s, t, log))
            && (r.Some? ==> Live(r.value) == Live(Run(codec, s, log)))
  {
    hide Run, AcceptsAll, AttemptAt;
    var s, t := states[0], states[n];
    AttemptsLoseShadow(codec, log, cuts, states, n);
    RepeatedCrashReplay(codec, log, cuts, states, n);
    if t.Present? {
      TakenIff(codec, s, t, log);
    } else {
      AttemptsKeepIndex(codec, log, cuts, states, n);
    }
  }

  /** Every attempt crashed before it reached a promotion. */
  ghost predicate NonePromoted(codec: Codec, s: Store, log: seq<Op>, cuts: seq<nat>)
  {
    forall i :: 0 <= i < |cuts| && cuts[i] <= |log| ==> NeverPromotes(codec, s, log[..cuts[i]])
  }

  /** If no attempt reached a promotion the next recovery gets through. */
  lemma RecoversBeforePromotion(codec: Codec, log: seq<Op>, cuts: seq<nat>, states: seq<Store>, n: nat)
    requires Attempts(codec, log, cuts, states) && n <= |cuts|
    requires Shadow(states[0]).None? && AcceptsAll(codec, states[0], log) && NonePromoted(codec, states[0], log, cuts)
    ensures Recovered(codec, states[n], log).Some?
  {
    RecoveryRestores(codec, log, cuts, states, n);
    var s, t := states[0], states[n];
    forall k | 0 <= k < |log| && t.Present?
      ensures !AddsOtherDimAt(codec, s, t, log, k)
    {
      if NeverPromotes(codec, s, log[..k]) && AddsDim(log[k]).Some? {
        DimAfterAttempts(codec, log, cuts, states, n, k);
      }
    }
  }

  lemma {:induction false} DimAfterAttempts(codec: Codec, log: seq<Op>, cuts: seq<nat>, states: seq<Store>, n: nat, k: nat)
    requires Attempts(codec, log, cuts, states) && n <= |cuts| && k < |log|
    requires Shadow(states[0]).None? && AcceptsAll(codec, states[0], log) && NonePromoted(codec, states[0], log, cuts)
    requires NeverPromotes(codec, states[0], log[..k]) && AddsDim(log[k]).Some? && states[n].Present?
    ensures states[n].live.dim == AddsDim(log[k]).value
  {
    hide Run, NeverPromotes, MayCrashInto, Refuses, AttemptAt;
    var s := states[0];
    NotRefusedAt(codec, s, log, k);
    if n == 0 {
      NoCommandsYet(codec, s, log);
      DimSoFar(codec, s, log, 0, k);
    } else {
      var u, p, t := states[n - 1], cuts[n - 1], states[n];
      LastAttempt(codec, log, cuts, states, n);
      AttemptsLoseShadow(codec, log, cuts, states, n - 1);
      DimKept(codec, u, log, p, t);
      if u.Present? {
        DimAfterAttempts(codec, log, cuts, states, n - 1, k);
        SameShapeSoFar(codec, s, u, log, p);
      } else {
        AttemptsKeepIndex(codec, log, cuts, states, n - 1);
        DimSoFar(codec, s, log, p, k);
      }
    }
  }

  lemma NotRefusedAt(codec: Codec, s: Store, log: seq<Op>, k: nat)
    requires AcceptsAll(codec, s, log) && k < |log|
    ensures !Refuses(Run(codec, s, log[..k]), log[k])
  {
  }

  lemma LastAttempt(codec: Codec, log: seq<Op>, cuts: seq<nat>, states: seq<Store>, n: nat)
    requires Attempts(codec, log, cuts, states) && 0 < n <= |cuts|
    ensures cuts[n - 1] <= |log| && MayCrashInto(codec, states[n - 1], log, cuts[n - 1], states[n])
  {
    assert AttemptAt(codec, log, cuts, states, n - 1);
  }

  /** An index that is still there has the dimension it had at the crash. */
  lemma DimKept(codec: Codec, u: Store, log: seq<Op>, p: nat, t: Store)
    requires p <= |log| && MayCrashInto(codec, u, log, p, t) && t.Present?
    ensures var r := Run(codec, u, log[..p]); r.Present? && r.live.dim == t.live.dim
  {
    hide Run, NeverPromotes, TouchedIn;
  }

  lemma NoCommandsYet(codec: Codec, s: Store, log: seq<Op>)
    ensures NeverPromotes(codec, s, log[..0]) && Run(codec, s, log[..0]) == s
  {
    assert log[..0] == [];
  }

  /** A vector taken before any promotion has the dimension the index has at any such point. */
  lemma DimSoFar(codec: Codec, s: Store, log: seq<Op>, p: nat, k: nat)
    requires p <= |log| && k < |log| && NeverPromotes(codec, s, log[..p]) && NeverPromotes(codec, s, log[..k])
    requires !Refuses(Run(codec, s, log[..k]), log[k]) && AddsDim(log[k]).Some? && Run(codec, s, log[..p]).Present?
    ensures Run(codec, s, log[..p]).live.dim == AddsDim(log[k]).value
  {
    var a := Run(codec, s, log[..k]);
    assert AddsTo(codec, a, log[k]);
    RunSnoc(codec, s, log, k);
    if k < p {
      assert log[..p][..k + 1] == log[..k + 1] && log[..p][..p] == log[..p];
      RunShape(codec, s, log[..p], k + 1, p);
    } else {
      assert log[..k][..p] == log[..p] && log[..k][..k] == log[..k];
      RunShape(codec, s, log[..k], p, k);
    }
  }

  predicate AddsTo(codec: Codec, s: Store, op: Op)
  {
    AddsDim(op).Some? && !Refuses(s, op) && Step(codec, s, op).Present? && Step(codec, s, op).live.dim == AddsDim(op).value
  }

  /** Add a vector, migrate to another dimension, crash: the log was taken, but its replay is refused. */
  lemma RecoveryRefused(codec: Codec, id: string, vec: Vector, wider: Vector, encoding: Encoding)
    requires ValidVector(id, vec) && ValidVector(id, wider) && |vec| != |wider|
    ensures var log := [Add(id, vec), Start(|wider|, Some(encoding)), ShadowAdd(id, wider), Swap];
            && AcceptsAll(codec, Missing, log)
            && Recovered(codec, Crash(Run(codec, Missing, log)), log).None?
  {
    var log := [Add(id, vec), Start(|wider|, Some(encoding)), ShadowAdd(id, wider), Swap];
    var s1 := Step(codec, Missing, log[0]);
    var s2 := Step(codec, s1, log[1]);
    var s3 := Step(codec, s2, log[2]);
    var s4 := Step(codec, s3, log[3]);
    RunSnoc(codec, Missing, log, 0);
    RunSnoc(codec, Missing, log, 1);
    RunSnoc(codec, Missing, log, 2);
    RunSnoc(codec, Missing, log, 3);
    assert log[..0] == [] && log[..4] == log;
    assert s2.shadow == Some(Table(|wider|, encoding, map[]));
    assert id in s3.shadow.value.rows;
    assert s4.Present? && s4.live.dim == |wider|;
    assert Refuses(Run(codec, Crash(s4), log[..0]), log[0]);
  }
}
