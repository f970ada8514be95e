/**
 * Which record of a log decides what the index holds under an id: the last one
 * taken that names the id in the table that is live now.
 */
module LastRecord {
  import opened Options
  import opened MigrationLog
  import opened VectorRecovery

  /** Where a row comes from: the table the log started with, nowhere, or a record. */
  datatype Source = Initial | Nowhere | Record(index: nat)

  /** The record adds or deletes `id` in the live table. */
  predicate Names(op: Op, id: string)
  {
    match op
    case Add(i, _) => i == id
    case AddBatch(_, ids, _) => id in ids
    case Del(i) => i == id
    case _ => false
  }

  /** The record begins a migration that is not the one going on. */
  predicate BeginsAnew(s: Store, op: Op)
  {
    && op.Start? && op.encoding.Some?
    && !(Shadow(s).Some? && Shadow(s).value.dim == op.newDim && Shadow(s).value.encoding == op.encoding.value)
  }

  /** For the live table: a promotion makes the shadow's history its own. */
  ghost function LiveSource(codec: Codec, s: Store, log: seq<Op>, id: string): (source: Source)
    ensures source.Record? ==> source.index < |log|
  {
    if log == [] then Initial
    else
      var n := |log| - 1;
      var before := Run(codec, s, log[..n]);
      if Names(log[n], id) && !Refuses(before, log[n]) then Record(n)
      else if Promotes(before, log[n]) then ShadowSource(codec, s, log[..n], id)
      else LiveSource(codec, s, log[..n], id)
  }

  /** For the shadow: each migration begins with an empty table. */
  ghost function ShadowSource(codec: Codec, s: Store, log: seq<Op>, id: string): (source: Source)
    ensures source.Record? ==> source.index < |log|
  {
    if log == [] then Nowhere
    else
      var n := |log| - 1;
      var before := Run(codec, s, log[..n]);
      if log[n].ShadowAdd? && log[n].id == id && !Refuses(before, log[n]) then Record(n)
      else if BeginsAnew(before, log[n]) then Nowhere
      else ShadowSource(codec, s, log[..n], id)
  }

  /** The last position of an id in a batch. */
  function LastIndex(ids: seq<string>, id: string): (i: nat)
    requires id in ids
    ensures i < |ids| && ids[i] == id && forall j :: i < j < |ids| ==> ids[j] != id
  {
    var n := |ids| - 1;
    assert ids == ids[..n] + [ids[n]];
    if ids[n] == id then n else LastIndex(ids[..n], id)
  }

  /** The row a record leaves under `id`: its vector, encoded, or none. */
  function Leaves(codec: Codec, encoding: Encoding, op: Op, id: string): Option<Row>
  {
    match op
    case Add(_, vec) => Some((codec.encode)(encoding, vec))
    case ShadowAdd(_, vec) => Some((codec.encode)(encoding, vec))
    case AddBatch(_, ids, vecs) =>
      if id in ids && LastIndex(ids, id) < |vecs| then Some((codec.encode)(encoding, vecs[LastIndex(ids, id)])) else None
    case _ => None
  }

  ghost function RowFrom(codec: Codec, s: Store, log: seq<Op>, source: Source, encoding: Encoding, id: string): Option<Row>
    requires source.Record? ==> source.index < |log|
  {
    match source
    case Initial => Lookup(s, id)
    case Nowhere => None
    case Record(k) => Leaves(codec, encoding, log[k], id)
  }

  function EncodingOf(codec: Codec, s: Store): Encoding
  {
    if s.Present? then s.live.encoding else codec.default
  }

  function RowIn(t: Table, id: string): Option<Row>
  {
    if id in t.rows then Some(t.rows[id]) else None
  }

  // ---- One record ----

  lemma {:induction false} PutAllLeaves(codec: Codec, t: Table, ids: seq<string>, vecs: seq<Vector>, id: string)
    requires |ids| == |vecs| && id in ids
    requires forall i :: 0 <= i < |vecs| ==> |vecs[i]| == t.dim
    ensures RowIn(PutAll(codec, t, ids, vecs), id) == Some((codec.encode)(t.encoding, vecs[LastIndex(ids, id)]))
  {
    var n := |ids| - 1;
    assert ids == ids[..n] + [ids[n]];
    if ids[n] != id {
      PutAllLeaves(codec, t, ids[..n], vecs[..n], id);
    }
  }

  /** A taken record that names an id leaves exactly its own row there. */
  lemma TakenLeaves(codec: Codec, s: Store, op: Op, id: string)
    requires Names(op, id) && !Refuses(s, op)
    ensures var t := Step(codec, s, op);
            Lookup(t, id) == Leaves(codec, EncodingOf(codec, t), op, id)
  {
    if op.AddBatch? {
      var p := GetOrCreate(codec, s, op.dim);
      PutAllLeaves(codec, p.live, op.ids, op.vecs, id);
    }
  }

  lemma OthersLeave(codec: Codec, s: Store, op: Op, id: string)
    requires !(Names(op, id) && !Refuses(s, op)) && !Promotes(s, op)
    ensures var t := Step(codec, s, op);
            Lookup(t, id) == Lookup(s, id) && EncodingOf(codec, t) == EncodingOf(codec, s)
  {
    hide PutAll;
    StepFrame(codec, s, op, id);
  }

  lemma PromotionLeaves(codec: Codec, s: Store, op: Op, id: string)
    requires Promotes(s, op)
    ensures var t := Step(codec, s, op);
            Lookup(t, id) == RowIn(s.shadow.value, id) && EncodingOf(codec, t) == s.shadow.value.encoding
  {
  }

  /** What a record does to the shadow's row of `id`. */
  lemma ShadowLeaves(codec: Codec, s: Store, op: Op, id: string)
    requires Shadow(Step(codec, s, op)).Some?
    ensures var t := Shadow(Step(codec, s, op)).value;
            if op.ShadowAdd? && op.id == id && !Refuses(s, op) then RowIn(t, id) == Some((codec.encode)(t.encoding, op.vec))
            else if BeginsAnew(s, op) then RowIn(t, id) == None
            else Shadow(s).Some? && RowIn(t, id) == RowIn(Shadow(s).value, id) && t.encoding == Shadow(s).value.encoding
  {
    hide PutAll;
  }

  /** A taken add sets one row; a refused one sets none. */
  ghost predicate SetsRow(codec: Codec, s: Store, t: Store, id: string, vec: Vector, ok: bool)
  {
    && (ok ==> t.Present? && Lookup(t, id) == Some((codec.encode)(t.live.encoding, vec)))
    && (forall x :: !ok || x != id ==> Lookup(t, x) == Lookup(s, x))
    && Shadow(t) == Shadow(s)
  }

  lemma AddSets(codec: Codec, s: Store, id: string, vec: Vector)
    ensures SetsRow(codec, s, Step(codec, s, Add(id, vec)), id, vec, !Refuses(s, Add(id, vec)))
  {
  }

  /** At most a thousand vectors of the index's dimension, and ids of at most 512 characters. */
  predicate WellFormed(s: Store, dim: int, ids: seq<string>, vecs: seq<Vector>)
    requires |ids| == |vecs|
  {
    && 0 < |ids| <= 1000 && 0 < dim <= 4096 && (s.Present? ==> s.live.dim == dim)
    && forall i :: 0 <= i < |ids| ==> |vecs[i]| == dim && 0 < |ids[i]| <= 512
  }

  lemma BatchTaken(s: Store, dim: int, ids: seq<string>, vecs: seq<Vector>)
    ensures !Refuses(s, AddBatch(dim, ids, vecs)) <==> |ids| == |vecs| && WellFormed(s, dim, ids, vecs)
    ensures ValidBatch(dim, ids, vecs) ==> dim > 0 && |ids| == |vecs| && ids != []
  {
  }

  /** A taken batch sets the row of each of its ids to the last vector given for it. */
  ghost predicate SetsRows(codec: Codec, s: Store, t: Store, ids: seq<string>, vecs: seq<Vector>, ok: bool)
    requires ok ==> |ids| == |vecs|
  {
    && (ok ==> t.Present? && forall i :: 0 <= i < |ids| && ids[i] !in ids[i + 1..] ==>
                 Lookup(t, ids[i]) == Some((codec.encode)(t.live.encoding, vecs[i])))
    && (forall x :: !ok || x !in ids ==> Lookup(t, x) == Lookup(s, x))
    && Shadow(t) == Shadow(s)
  }

  lemma BatchSets(codec: Codec, s: Store, op: Op)
    requires op.AddBatch?
    ensures (!Refuses(s, op) ==> |op.ids| == |op.vecs|) && SetsRows(codec, s, Step(codec, s, op), op.ids, op.vecs, !Refuses(s, op))
  {
    hide Step, Refuses, Lookup, LastIndex;
    var t := Step(codec, s, op);
    BatchShape(codec, s, op);
    if !Refuses(s, op) {
      forall i | 0 <= i < |op.ids| && op.ids[i] !in op.ids[i + 1..]
        ensures Lookup(t, op.ids[i]) == Some((codec.encode)(t.live.encoding, op.vecs[i]))
      {
        LastOne(op.ids, i);
        TakenLeaves(codec, s, op, op.ids[i]);
      }
    }
    forall x | Refuses(s, op) || x !in op.ids
      ensures Lookup(t, x) == Lookup(s, x)
    {
      OthersLeave(codec, s, op, x);
    }
  }

  lemma BatchShape(codec: Codec, s: Store, op: Op)
    requires op.AddBatch?
    ensures !Refuses(s, op) ==> |op.ids| == |op.vecs| && Step(codec, s, op).Present?
    ensures Shadow(Step(codec, s, op)) == Shadow(s)
  {
    hide PutAll;
  }

  lemma LastOne(ids: seq<string>, i: nat)
    requires i < |ids| && ids[i] !in ids[i + 1..]
    ensures ids[i] in ids && LastIndex(ids, ids[i]) == i
  {
    var j := LastIndex(ids, ids[i]);
    assert forall k :: i < k < |ids| ==> ids[k] == ids[i + 1..][k - i - 1];
  }

  /** The batch gave each of its ids the last vector it has for it. */
  ghost predicate HoldsBatch(codec: Codec, t: Table, u: Table, ids: seq<string>, vecs: seq<Vector>)
    requires |ids| == |vecs|
  {
    && u.dim == t.dim && u.encoding == t.encoding
    && (forall i :: 0 <= i < |ids| && ids[i] !in ids[i + 1..] ==> RowIn(u, ids[i]) == Some((codec.encode)(t.encoding, vecs[i])))
    && (forall x :: x !in ids ==> RowIn(u, x) == RowIn(t, x))
  }

  lemma BatchHeld(codec: Codec, t: Table, ids: seq<string>, vecs: seq<Vector>)
    requires |ids| == |vecs| && forall i :: 0 <= i < |vecs| ==> |vecs[i]| == t.dim
    ensures HoldsBatch(codec, t, PutAll(codec, t, ids, vecs), ids, vecs)
  {
    hide PutAll, LastIndex;
    forall i | 0 <= i < |ids| && ids[i] !in ids[i + 1..]
      ensures RowIn(PutAll(codec, t, ids, vecs), ids[i]) == Some((codec.encode)(t.encoding, vecs[i]))
    {
      LastOne(ids, i);
      PutAllLeaves(codec, t, ids, vecs, ids[i]);
    }
    forall x | x !in ids
      ensures RowIn(PutAll(codec, t, ids, vecs), x) == RowIn(t, x)
    {
      PutAllFrame(codec, t, ids, vecs, x);
    }
  }

  predicate Continues(s: Store, dim: int, encoding: Option<Encoding>)
  {
    && Shadow(s).Some? && encoding.Some?
    && Shadow(s).value.dim == dim && Shadow(s).value.encoding == encoding.value
  }

  /** A migration is refused exactly for an unknown encoding or rows without
      bytes; it continues with the rows it has, or begins with none. */
  ghost predicate Migrates(s: Store, t: Store, dim: int, encoding: Option<Encoding>, ok: bool)
  {
    && (ok <==> encoding.Some? && (Continues(s, dim, encoding) || (if encoding.value.Float32? then 4 * dim + 4 else dim + 8) > 0))
    && (ok ==> t.Present? && t.shadow == if Continues(s, dim, encoding) then Shadow(s) else Some(Table(dim, encoding.value, map[])))
    && (s.Present? ==> Live(t) == Live(s))
  }

  lemma StartMigrates(codec: Codec, s: Store, dim: int, encoding: Option<Encoding>)
    ensures Migrates(s, Step(codec, s, Start(dim, encoding)), dim, encoding, !Refuses(s, Start(dim, encoding)))
  {
  }

  // ---- Whole logs ----

  lemma SameRow(codec: Codec, s: Store, log: seq<Op>, source: Source, encoding: Encoding, id: string)
    requires log != [] && (source.Record? ==> source.index < |log| - 1)
    ensures RowFrom(codec, s, log, source, encoding, id) == RowFrom(codec, s, log[..|log| - 1], source, encoding, id)
  {
  }

  lemma {:induction false} ShadowRows(codec: Codec, s: Store, log: seq<Op>, id: string)
    requires Shadow(s).None? && Shadow(Run(codec, s, log)).Some?
    ensures var t := Shadow(Run(codec, s, log)).value;
            RowIn(t, id) == RowFrom(codec, s, log, ShadowSource(codec, s, log, id), t.encoding, id)
    ensures !ShadowSource(codec, s, log, id).Initial?
  {
    hide Step, Refuses, BeginsAnew, Leaves, RowIn;
    var n := |log| - 1;
    var before := Run(codec, s, log[..n]);
    assert log[..n + 1] == log;
    ShadowLeaves(codec, before, log[n], id);
    if log[n].ShadowAdd? && log[n].id == id && !Refuses(before, log[n]) {
      LeavesVector(codec, Shadow(Run(codec, s, log)).value.encoding, log[n], id);
    } else if !BeginsAnew(before, log[n]) {
      ShadowRows(codec, s, log[..n], id);
      SameRow(codec, s, log, ShadowSource(codec, s, log[..n], id), Shadow(before).value.encoding, id);
    }
  }

  lemma LeavesVector(codec: Codec, encoding: Encoding, op: Op, id: string)
    requires op.ShadowAdd?
    ensures Leaves(codec, encoding, op, id) == Some((codec.encode)(encoding, op.vec))
  {
  }

  /**
   * After any log, refused commands and promotions included, the live row of an
   * id is the encoded vector of the last record taken that names it in the table
   * now live; there is none if that record is a delete.
   */
  lemma {:induction false} RowOfLastRecord(codec: Codec, s: Store, log: seq<Op>, id: string)
    requires Shadow(s).None?
    ensures var t := Run(codec, s, log);
            Lookup(t, id) == RowFrom(codec, s, log, LiveSource(codec, s, log, id), EncodingOf(codec, t), id)
  {
    hide Step, Refuses, Leaves, RowIn, Names, Promotes, EncodingOf;
    if log != [] {
      var n := |log| - 1;
      var before := Run(codec, s, log[..n]);
      assert log[..n + 1] == log;
      if Names(log[n], id) && !Refuses(before, log[n]) {
        TakenLeaves(codec, before, log[n], id);
      } else if Promotes(before, log[n]) {
        PromotedShadow(before, log[n]);
        PromotionLeaves(codec, before, log[n], id);
        ShadowRows(codec, s, log[..n], id);
        SameRow(codec, s, log, ShadowSource(codec, s, log[..n], id), before.shadow.value.encoding, id);
      } else {
        OthersLeave(codec, before, log[n], id);
        RowOfLastRecord(codec, s, log[..n], id);
        SameRow(codec, s, log, LiveSource(codec, s, log[..n], id), EncodingOf(codec, before), id);
      }
    }
  }

  /** Every id has the row of its last record. */
  ghost predicate HoldsLast(codec: Codec, s: Store, log: seq<Op>, t: Store)
  {
    forall id :: Lookup(t, id) == RowFrom(codec, s, log, LiveSource(codec, s, log, id), EncodingOf(codec, t), id)
  }

  lemma RunHoldsLast(codec: Codec, s: Store, log: seq<Op>)
    requires Shadow(s).None?
    ensures HoldsLast(codec, s, log, Run(codec, s, log))
  {
    hide Run, Lookup, RowFrom, LiveSource, EncodingOf;
    forall id
      ensures Lookup(Run(codec, s, log), id)
           == RowFrom(codec, s, log, LiveSource(codec, s, log, id), EncodingOf(codec, Run(codec, s, log)), id)
    {
      RowOfLastRecord(codec, s, log, id);
    }
  }

  lemma PromotedShadow(s: Store, op: Op)
    requires Promotes(s, op)
    ensures s.Present? && Shadow(s) == s.shadow && s.shadow.Some?
  {
  }

  /** From nothing: an id is live exactly when that record adds it. */
  lemma LiveIffAdded(codec: Codec, log: seq<Op>, id: string)
    ensures var source := LiveSource(codec, Missing, log, id);
            Lookup(Run(codec, Missing, log), id).Some? <==> source.Record? && !log[source.index].Del?
  {
    hide Run, Leaves;
    RowOfLastRecord(codec, Missing, log, id);
    SourceAdds(codec, Missing, log, id, EncodingOf(codec, Run(codec, Missing, log)));
  }

  /** A record that decides a row is a taken add or delete of that id. */
  lemma {:induction false} SourceAdds(codec: Codec, s: Store, log: seq<Op>, id: string, encoding: Encoding)
    ensures var k := LiveSource(codec, s, log, id);
            k.Record? ==> (Leaves(codec, encoding, log[k.index], id).Some? <==> !log[k.index].Del?)
    ensures var k := ShadowSource(codec, s, log, id);
            k.Record? ==> log[k.index].ShadowAdd?
  {
    if log != [] {
      SourceAdds(codec, s, log[..|log| - 1], id, encoding);
    }
  }
}
