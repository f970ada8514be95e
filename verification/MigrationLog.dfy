/**
 * What the vector commands mean: a store is one live table of encoded rows and,
 * while a migration is running, a shadow table.  The commands of
 * internal/engine/vector.go and internal/engine/vector_migration.go are steps
 * of this machine, and a log is a sequence of commands.
 */
module MigrationLog {
  import opened Options

  datatype Encoding = Sq8 | Float32

  type Row = seq<bv8>
  type Vector = seq<real>

  /** How vectors become rows, and the encoding new indexes get. */
  datatype Codec = Codec(encode: (Encoding, Vector) -> Row, default: Encoding)

  datatype Table = Table(dim: int, encoding: Encoding, rows: map<string, Row>)

  /** The index of a key is created by the first command that needs it. */
  datatype Store = Missing | Present(live: Table, shadow: Option<Table>)

  datatype Op =
    | Add(id: string, vec: Vector)
    | AddBatch(dim: int, ids: seq<string>, vecs: seq<Vector>)
    | Del(id: string)
    | Compact
    | Start(newDim: int, encoding: Option<Encoding>)   // None: a name that is no encoding
    | ShadowAdd(id: string, vec: Vector)
    | Swap
    | Cancel

  const MAX_DIM: nat := 4096
  const MAX_ID: nat := 512
  const MAX_BATCH: nat := 1000

  function RowSize(dim: int, encoding: Encoding): int
  {
    if encoding.Float32? then dim * 4 + 4 else dim + 8
  }

  predicate ValidVector(id: string, vec: Vector)
  {
    0 < |id| <= MAX_ID && 0 < |vec| <= MAX_DIM
  }

  predicate ValidBatch(dim: int, ids: seq<string>, vecs: seq<Vector>)
  {
    && |ids| == |vecs|
    && 0 < |ids| <= MAX_BATCH
    && 0 < dim <= MAX_DIM
    && (forall i :: 0 <= i < |ids| ==> |vecs[i]| == dim && ValidVector(ids[i], vecs[i]))
  }

  // ---- Steps ----

  function Put(codec: Codec, t: Table, id: string, vec: Vector): Table
  {
    if |vec| == t.dim then t.(rows := t.rows[id := (codec.encode)(t.encoding, vec)]) else t
  }

  /** Adding a batch is adding its vectors one after the other. */
  function PutAll(codec: Codec, t: Table, ids: seq<string>, vecs: seq<Vector>): (r: Table)
    requires |ids| == |vecs|
    ensures r.dim == t.dim && r.encoding == t.encoding
  {
    if ids == [] then t
    else Put(codec, PutAll(codec, t, ids[..|ids| - 1], vecs[..|ids| - 1]), ids[|ids| - 1], vecs[|ids| - 1])
  }

  lemma PutAllSnoc(codec: Codec, t: Table, ids: seq<string>, vecs: seq<Vector>, i: nat)
    requires |ids| == |vecs| && i < |ids|
    ensures PutAll(codec, t, ids[..i + 1], vecs[..i + 1]) == Put(codec, PutAll(codec, t, ids[..i], vecs[..i]), ids[i], vecs[i])
  {
    assert ids[..i + 1][..i] == ids[..i] && vecs[..i + 1][..i] == vecs[..i];
  }

  function GetOrCreate(codec: Codec, s: Store, dim: int): Store
  {
    if s.Missing? then Present(Table(dim, codec.default, map[]), None) else s
  }

  /** Restarting the same migration keeps its shadow; starting another one
      drops the shadow first, even when the new one cannot be created. */
  function Restart(shadow: Option<Table>, dim: int, encoding: Encoding): Option<Table>
  {
    if shadow.Some? && shadow.value.dim == dim && shadow.value.encoding == encoding then shadow
    else if RowSize(dim, encoding) > 0 then Some(Table(dim, encoding, map[]))
    else None
  }

  function Step(codec: Codec, s: Store, op: Op): Store
  {
    match op
    case Add(id, vec) =>
      if !ValidVector(id, vec) then s else
      var p := GetOrCreate(codec, s, |vec|);
      p.(live := Put(codec, p.live, id, vec))
    case AddBatch(dim, ids, vecs) =>
      if !ValidBatch(dim, ids, vecs) then s else
      var p := GetOrCreate(codec, s, dim);
      if p.live.dim != dim then p else p.(live := PutAll(codec, p.live, ids, vecs))
    case Del(id) =>
      if s.Missing? then s else s.(live := s.live.(rows := s.live.rows - {id}))
    case Compact => s
    case Start(dim, encoding) =>
      var p := GetOrCreate(codec, s, 0);
      if encoding.None? then p else p.(shadow := Restart(p.shadow, dim, encoding.value))
    case ShadowAdd(id, vec) =>
      if s.Present? && s.shadow.Some? && ValidVector(id, vec)
      then s.(shadow := Some(Put(codec, s.shadow.value, id, vec))) else s
    case Swap =>
      if Promotes(s, op) then Present(s.shadow.value, None) else s
    case Cancel =>
      if s.Missing? then s else s.(shadow := None)
  }

  /** The command replaces the live table by the shadow table. */
  predicate Promotes(s: Store, op: Op)
  {
    op.Swap? && s.Present? && s.shadow.Some? && s.shadow.value.rows != map[]
  }

  function Run(codec: Codec, s: Store, log: seq<Op>): Store
  {
    if log == [] then s else Step(codec, Run(codec, s, log[..|log| - 1]), log[|log| - 1])
  }

  // ---- Crashes ----

  function Shadow(s: Store): Option<Table>
  {
    if s.Missing? then None else s.shadow
  }

  function Live(s: Store): Option<Table>
  {
    if s.Missing? then None else Some(s.live)
  }

  /** A crash loses the shadow table; the live table is on disk. */
  function Crash(s: Store): Store
  {
    if s.Missing? then s else s.(shadow := None)
  }

  // ---- What a step can change ----

  function Shape(s: Store): Option<(int, Encoding)>
  {
    if s.Missing? then None else Some((s.live.dim, s.live.encoding))
  }

  function Lookup(s: Store, id: string): Option<Row>
  {
    if s.Present? && id in s.live.rows then Some(s.live.rows[id]) else None
  }

  /** The command decides the live row of `id` by itself. */
  predicate Touches(s: Store, op: Op, id: string)
  {
    match op
    case Add(i, vec) => i == id && ValidVector(i, vec) && (s.Missing? || s.live.dim == |vec|)
    case AddBatch(dim, ids, vecs) => id in ids && ValidBatch(dim, ids, vecs) && (s.Missing? || s.live.dim == dim)
    case Del(i) => i == id
    case _ => false
  }

  lemma {:induction false} PutAllFrame(codec: Codec, t: Table, ids: seq<string>, vecs: seq<Vector>, id: string)
    requires |ids| == |vecs| && id !in ids
    ensures id in PutAll(codec, t, ids, vecs).rows <==> id in t.rows
    ensures id in t.rows ==> PutAll(codec, t, ids, vecs).rows[id] == t.rows[id]
  {
    if ids != [] {
      PutAllFrame(codec, t, ids[..|ids| - 1], vecs[..|ids| - 1], id);
    }
  }

  /** The rows a batch writes do not depend on the table before it. */
  lemma {:induction false} PutAllDecides(codec: Codec, t: Table, u: Table, ids: seq<string>, vecs: seq<Vector>, id: string)
    requires |ids| == |vecs| && id in ids
    requires t.dim == u.dim && t.encoding == u.encoding
    requires forall i :: 0 <= i < |vecs| ==> |vecs[i]| == t.dim
    ensures id in PutAll(codec, t, ids, vecs).rows && id in PutAll(codec, u, ids, vecs).rows
    ensures PutAll(codec, t, ids, vecs).rows[id] == PutAll(codec, u, ids, vecs).rows[id]
  {
    var n := |ids| - 1;
    assert ids == ids[..n] + [ids[n]];
    if ids[n] != id {
      PutAllDecides(codec, t, u, ids[..n], vecs[..n], id);
    }
  }

  lemma StepFrame(codec: Codec, s: Store, op: Op, id: string)
    requires !Touches(s, op, id) && !Promotes(s, op)
    ensures Lookup(Step(codec, s, op), id) == Lookup(s, id)
  {
    if op.AddBatch? && ValidBatch(op.dim, op.ids, op.vecs) {
      var p := GetOrCreate(codec, s, op.dim);
      if p.live.dim == op.dim {
        PutAllFrame(codec, p.live, op.ids, op.vecs, id);
      }
    }
  }

  lemma StepDecides(codec: Codec, a: Store, b: Store, op: Op, id: string)
    requires Touches(a, op, id) && Touches(b, op, id)
    requires Shape(Step(codec, a, op)) == Shape(Step(codec, b, op)) || op.Del?
    ensures Lookup(Step(codec, a, op), id) == Lookup(Step(codec, b, op), id)
  {
    if op.AddBatch? {
      PutAllDecides(codec, GetOrCreate(codec, a, op.dim).live, GetOrCreate(codec, b, op.dim).live, op.ids, op.vecs, id);
    }
  }

  /** Without a promotion an index keeps its dimension and encoding. */
  lemma StepShape(codec: Codec, s: Store, op: Op)
    requires s.Present? && !Promotes(s, op)
    ensures Shape(Step(codec, s, op)) == Shape(s)
  {
  }

  /** The migration commands never look at the live table. */
  lemma StepShadow(codec: Codec, a: Store, b: Store, op: Op)
    requires Shadow(a) == Shadow(b)
    ensures Shadow(Step(codec, a, op)) == Shadow(Step(codec, b, op))
    ensures Promotes(a, op) <==> Promotes(b, op)
    ensures Promotes(a, op) ==> Step(codec, a, op) == Step(codec, b, op)
  {
  }

  // ---- Runs ----

  lemma RunSnoc(codec: Codec, s: Store, log: seq<Op>, k: nat)
    requires k < |log|
    ensures Run(codec, s, log[..k + 1]) == Step(codec, Run(codec, s, log[..k]), log[k])
  {
    assert log[..k + 1][..k] == log[..k];
  }

  lemma {:induction false} RunShadow(codec: Codec, a: Store, b: Store, log: seq<Op>)
    requires Shadow(a) == Shadow(b)
    ensures Shadow(Run(codec, a, log)) == Shadow(Run(codec, b, log))
  {
    if log != [] {
      RunShadow(codec, a, b, log[..|log| - 1]);
      StepShadow(codec, Run(codec, a, log[..|log| - 1]), Run(codec, b, log[..|log| - 1]), log[|log| - 1]);
    }
  }

  /** Once two runs of one log agree they agree for the rest of it. */
  lemma {:induction false} RunAgrees(codec: Codec, a: Store, b: Store, log: seq<Op>, k: nat, n: nat)
    requires k <= n <= |log|
    requires Run(codec, a, log[..k]) == Run(codec, b, log[..k])
    ensures Run(codec, a, log[..n]) == Run(codec, b, log[..n])
    decreases n - k
  {
    if k < n {
      RunSnoc(codec, a, log, k);
      RunSnoc(codec, b, log, k);
      RunAgrees(codec, a, b, log, k + 1, n);
    }
  }

  ghost predicate NeverPromotes(codec: Codec, s: Store, log: seq<Op>)
  {
    forall i {:trigger log[i]} :: 0 <= i < |log| ==> !Promotes(Run(codec, s, log[..i]), log[i])
  }

  lemma {:induction false} RunShape(codec: Codec, s: Store, log: seq<Op>, k: nat, n: nat)
    requires k <= n <= |log|
    requires NeverPromotes(codec, s, log)
    requires Run(codec, s, log[..k]).Present?
    ensures Shape(Run(codec, s, log[..n])) == Shape(Run(codec, s, log[..k]))
    decreases n - k
  {
    if k < n {
      StepShape(codec, Run(codec, s, log[..k]), log[k]);
      RunSnoc(codec, s, log, k);
      RunShape(codec, s, log, k + 1, n);
    }
  }

  /** Some command at or after `from` and before `to` decides the row of `id`. */
  ghost predicate TouchedIn(codec: Codec, s: Store, log: seq<Op>, from: nat, to: nat, id: string)
    requires to <= |log|
  {
    exists j {:trigger log[j]} :: from <= j < to && Touches(Run(codec, s, log[..j]), log[j], id)
  }

  lemma {:induction false} RunFrame(codec: Codec, s: Store, log: seq<Op>, n: nat, id: string)
    requires n <= |log|
    requires NeverPromotes(codec, s, log[..n])
    requires !TouchedIn(codec, s, log, 0, n, id)
    ensures Lookup(Run(codec, s, log[..n]), id) == Lookup(s, id)
  {
    if n > 0 {
      assert !Touches(Run(codec, s, log[..n - 1]), log[n - 1], id);
      assert !TouchedIn(codec, s, log, 0, n - 1, id);
      assert log[..n][..n - 1] == log[..n - 1] && log[..n][n - 1] == log[n - 1];
      PrefixPromotes(codec, s, log[..n], n - 1);
      RunFrame(codec, s, log, n - 1, id);
      StepFrame(codec, Run(codec, s, log[..n - 1]), log[n - 1], id);
      RunSnoc(codec, s, log, n - 1);
    }
  }

  // ---- Replay ----

  /** How far a replay from `t`, the state after `p` commands and a crash, has
      caught up with the run from `s` after `k` commands. */
  ghost predicate CaughtUp(codec: Codec, s: Store, t: Store, log: seq<Op>, p: nat, k: nat)
    requires p <= |log| && k <= |log|
  {
    var a, b := Run(codec, s, log[..k]), Run(codec, t, log[..k]);
    && Shadow(a) == Shadow(b)
    && (a.Present? ==> Shape(b) == Shape(a))
    && (a.Missing? ==> Shape(b) == Shape(t))
    && (forall id :: Lookup(a, id) == Lookup(b, id) || TouchedIn(codec, s, log, k, p, id))
  }

  /** States a crash after `p` commands can leave: the shadow is gone, and rows
      that those commands wrote or deleted may be as before, as after, or
      anything else, since what lists them is written with a delay.  A crash may
      come before a new index is on disk at all. */
  ghost predicate MayCrashInto(codec: Codec, s: Store, log: seq<Op>, p: nat, t: Store)
    requires p <= |log|
  {
    && Shadow(t).None?
    && ((s.Missing? && t.Missing?) || Shape(t) == Shape(Run(codec, s, log[..p])))
    && (NeverPromotes(codec, s, log[..p]) ==> forall id :: Lookup(t, id) == Lookup(s, id) || TouchedIn(codec, s, log, 0, p, id))
  }

  /** A crash that loses nothing but the shadow is one of them. */
  lemma CrashIsOne(codec: Codec, s: Store, log: seq<Op>, p: nat)
    requires p <= |log|
    ensures MayCrashInto(codec, s, log, p, Crash(Run(codec, s, log[..p])))
  {
    if NeverPromotes(codec, s, log[..p]) {
      forall id | !TouchedIn(codec, s, log, 0, p, id)
        ensures Lookup(Run(codec, s, log[..p]), id) == Lookup(s, id)
      {
        RunFrame(codec, s, log, p, id);
      }
    }
  }

  lemma CaughtUpAtStart(codec: Codec, s: Store, t: Store, log: seq<Op>, p: nat)
    requires p <= |log| && Shadow(s).None? && MayCrashInto(codec, s, log, p, t)
    requires NeverPromotes(codec, s, log) && Shape(t) == Shape(Run(codec, s, log[..p]))
    ensures CaughtUp(codec, s, t, log, p, 0)
  {
    PrefixPromotes(codec, s, log, p);
    assert log[..0] == [];
    if s.Present? {
      RunShape(codec, s, log, 0, p);
    }
  }

  lemma PrefixPromotes(codec: Codec, s: Store, log: seq<Op>, p: nat)
    requires p <= |log| && NeverPromotes(codec, s, log)
    ensures NeverPromotes(codec, s, log[..p])
  {
    forall i | 0 <= i < p
      ensures !Promotes(Run(codec, s, log[..p][..i]), log[..p][i])
    {
      assert log[..p][..i] == log[..i] && log[..p][i] == log[i];
    }
  }

  /** The shape of the replay is the shape the run has, or is going to have. */
  lemma CaughtUpShape(codec: Codec, s: Store, t: Store, log: seq<Op>, p: nat, k: nat)
    requires p <= |log| && k < |log|
    requires NeverPromotes(codec, s, log) && Shape(t) == Shape(Run(codec, s, log[..p]))
    requires CaughtUp(codec, s, t, log, p, k)
    ensures var a, b := Run(codec, s, log[..k + 1]), Run(codec, t, log[..k + 1]);
            && (a.Present? ==> Shape(b) == Shape(a))
            && (a.Missing? ==> Shape(b) == Shape(t))
  {
    var a, b := Run(codec, s, log[..k]), Run(codec, t, log[..k]);
    RunSnoc(codec, s, log, k);
    RunSnoc(codec, t, log, k);
    StepShadow(codec, a, b, log[k]);
    if a.Present? {
      StepShape(codec, a, log[k]);
      StepShape(codec, b, log[k]);
    } else if b.Present? {
      StepShape(codec, b, log[k]);
      assert p > k by {
        if p <= k && Run(codec, s, log[..p]).Present? {
          RunShape(codec, s, log, p, k);
        }
      }
      if Step(codec, a, log[k]).Present? {
        RunShape(codec, s, log, k + 1, p);
      }
    }
  }

  lemma CaughtUpStep(codec: Codec, s: Store, t: Store, log: seq<Op>, p: nat, k: nat)
    requires p <= |log| && k < |log|
    requires NeverPromotes(codec, s, log) && Shape(t) == Shape(Run(codec, s, log[..p]))
    requires CaughtUp(codec, s, t, log, p, k)
    ensures CaughtUp(codec, s, t, log, p, k + 1)
  {
    var a, b := Run(codec, s, log[..k]), Run(codec, t, log[..k]);
    RunSnoc(codec, s, log, k);
    RunSnoc(codec, t, log, k);
    StepShadow(codec, a, b, log[k]);
    CaughtUpShape(codec, s, t, log, p, k);
    forall id | !TouchedIn(codec, s, log, k + 1, p, id)
      ensures Lookup(Step(codec, a, log[k]), id) == Lookup(Step(codec, b, log[k]), id)
    {
      SameTouch(codec, a, b, log[k], id);
      if Touches(a, log[k], id) {
        StepDecides(codec, a, b, log[k], id);
      } else {
        assert !TouchedIn(codec, s, log, k, p, id);
        StepFrame(codec, a, log[k], id);
        StepFrame(codec, b, log[k], id);
      }
    }
  }

  lemma SameTouch(codec: Codec, a: Store, b: Store, op: Op, id: string)
    requires a.Present? ==> Shape(a) == Shape(b)
    requires Step(codec, a, op).Present? ==> Shape(Step(codec, b, op)) == Shape(Step(codec, a, op))
    requires !Promotes(a, op) && !Promotes(b, op)
    ensures Touches(a, op, id) <==> Touches(b, op, id)
    ensures Touches(a, op, id) ==> Shape(Step(codec, a, op)) == Shape(Step(codec, b, op)) || op.Del?
  {
    if b.Present? {
      StepShape(codec, b, op);
    }
  }

  lemma {:induction false} CaughtUpAtEnd(codec: Codec, s: Store, t: Store, log: seq<Op>, p: nat, k: nat)
    requires p <= |log| && k <= |log|
    requires Shadow(s).None? && MayCrashInto(codec, s, log, p, t)
    requires NeverPromotes(codec, s, log) && Shape(t) == Shape(Run(codec, s, log[..p]))
    ensures CaughtUp(codec, s, t, log, p, k)
  {
    if k == 0 {
      CaughtUpAtStart(codec, s, t, log, p);
    } else {
      CaughtUpAtEnd(codec, s, t, log, p, k - 1);
      CaughtUpStep(codec, s, t, log, p, k - 1);
    }
  }

  lemma SameLive(a: Store, b: Store)
    requires Shape(a) == Shape(b)
    requires forall id :: Lookup(a, id) == Lookup(b, id)
    ensures Live(a) == Live(b)
  {
    if a.Present? {
      forall id
        ensures id in a.live.rows <==> id in b.live.rows
        ensures id in a.live.rows ==> a.live.rows[id] == b.live.rows[id]
      {
        assert Lookup(a, id) == Lookup(b, id);
      }
      assert a.live.rows == b.live.rows;
    }
  }

  lemma ReplayWithoutPromotion(codec: Codec, s: Store, t: Store, log: seq<Op>, p: nat)
    requires p <= |log| && Shadow(s).None? && NeverPromotes(codec, s, log)
    requires MayCrashInto(codec, s, log, p, t) && Shape(t) == Shape(Run(codec, s, log[..p]))
    ensures Live(Run(codec, t, log)) == Live(Run(codec, s, log))
  {
    hide Run, NeverPromotes, MayCrashInto;
    var n := |log|;
    assert log[..n] == log;
    CaughtUpAtEnd(codec, s, t, log, p, n);
    assert forall id :: !TouchedIn(codec, s, log, n, p, id);
    if Run(codec, s, log).Missing? && Run(codec, s, log[..p]).Present? {
      RunShape(codec, s, log, p, n);
    }
    SameLive(Run(codec, s, log), Run(codec, t, log));
  }

  /** A promotion brings runs with the same shadow together. */
  lemma ReplayWithPromotion(codec: Codec, s: Store, t: Store, log: seq<Op>)
    requires Shadow(s) == Shadow(t) && !NeverPromotes(codec, s, log)
    ensures Run(codec, t, log) == Run(codec, s, log)
  {
    hide Run;
    var i :| 0 <= i < |log| && Promotes(Run(codec, s, log[..i]), log[i]);
    RunShadow(codec, s, t, log[..i]);
    StepShadow(codec, Run(codec, s, log[..i]), Run(codec, t, log[..i]), log[i]);
    RunSnoc(codec, s, log, i);
    RunSnoc(codec, t, log, i);
    RunAgrees(codec, s, t, log, i + 1, |log|);
    assert log[..|log|] == log;
  }

  /**
   * Crash replay: working through a prefix of the log, losing the shadow and any
   * rows of that prefix in a crash, and then working through the whole log leaves
   * the live table that working through the log once leaves: same dimension,
   * encoding and rows.
   */
  lemma CrashReplay(codec: Codec, s: Store, log: seq<Op>, p: nat, t: Store)
    requires p <= |log| && Shadow(s).None? && MayCrashInto(codec, s, log, p, t)
    ensures Live(Run(codec, t, log)) == Live(Run(codec, s, log))
  {
    hide Run, NeverPromotes, TouchedIn;
    if Shape(t) != Shape(Run(codec, s, log[..p])) {
      assert t == s;
    } else if NeverPromotes(codec, s, log) {
      ReplayWithoutPromotion(codec, s, t, log, p);
    } else {
      ReplayWithPromotion(codec, s, t, log);
    }
  }

  /** The state after attempt number `i` to work through the log is one that its
      crash after `cuts[i]` commands can leave. */
  ghost predicate Attempts(codec: Codec, log: seq<Op>, cuts: seq<nat>, states: seq<Store>)
  {
    && |states| == |cuts| + 1
    && forall i :: 0 <= i < |cuts| ==> AttemptAt(codec, log, cuts, states, i)
  }

  ghost predicate AttemptAt(codec: Codec, log: seq<Op>, cuts: seq<nat>, states: seq<Store>, i: nat)
    requires i < |cuts| < |states|
  {
    cuts[i] <= |log| && MayCrashInto(codec, states[i], log, cuts[i], states[i + 1])
  }

  lemma {:induction false} AttemptsLoseShadow(codec: Codec, log: seq<Op>, cuts: seq<nat>, states: seq<Store>, n: nat)
    requires Attempts(codec, log, cuts, states) && n <= |cuts| && Shadow(states[0]).None?
    ensures Shadow(states[n]).None?
  {
    if n > 0 {
      assert AttemptAt(codec, log, cuts, states, n - 1);
    }
  }

  /** Any number of crashed attempts leaves the outcome of the log unchanged. */
  lemma {:induction false} RepeatedCrashReplay(codec: Codec, log: seq<Op>, cuts: seq<nat>, states: seq<Store>, n: nat)
    requires Attempts(codec, log, cuts, states) && n <= |cuts| && Shadow(states[0]).None?
    ensures Live(Run(codec, states[n], log)) == Live(Run(codec, states[0], log))
  {
    if n > 0 {
      hide Run, MayCrashInto;
      RepeatedCrashReplay(codec, log, cuts, states, n - 1);
      AttemptsLoseShadow(codec, log, cuts, states, n - 1);
      assert AttemptAt(codec, log, cuts, states, n - 1);
      CrashReplay(codec, states[n - 1], log, cuts[n - 1], states[n]);
    }
  }
}
