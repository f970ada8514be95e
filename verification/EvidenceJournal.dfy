/**
 * The append-only, MAC-chained journal of decisions and the records it must
 * agree with (jurix/persistence.py).  `mac` is the keyed hash of a row's
 * number, client, predecessor and payload; payloads are canonical texts.
 */
module EvidenceJournal {
  import opened Options

  type Mac = (nat, string, string, string) -> string

  datatype Row = Row(number: nat, client: string, payload: string, previous: string, tag: string)

  datatype Head = Head(number: nat, tag: string)

  type Activity = map<string, seq<string>>

  /** What the first row names as its predecessor. */
  function Genesis(): string
  {
    seq(64, _ => '0')
  }

  function Get(m: Activity, client: string): seq<string>
  {
    if client in m then m[client] else []
  }

  function NonEmpty(m: Activity): Activity
  {
    map c | c in m && m[c] != [] :: m[c]
  }

  // ---- The chain ----

  function LastTag(rows: seq<Row>): string
  {
    if rows == [] then Genesis() else rows[|rows| - 1].tag
  }

  /** Every row names its position and its predecessor and carries the right tag. */
  ghost predicate Chained(mac: Mac, rows: seq<Row>)
  {
    forall i {:trigger rows[i]} :: 0 <= i < |rows| ==> RowOk(mac, rows[..i], rows[i])
  }

  predicate RowOk(mac: Mac, before: seq<Row>, row: Row)
  {
    && row.number == |before| + 1
    && row.previous == LastTag(before)
    && row.tag == mac(row.number, row.client, row.previous, row.payload)
  }

  ghost predicate HeadMatches(rows: seq<Row>, head: Option<Head>)
  {
    if head.Some? then head.value == Head(|rows|, LastTag(rows)) else rows == []
  }

  ghost predicate Verifies(mac: Mac, rows: seq<Row>, head: Option<Head>)
  {
    Chained(mac, rows) && HeadMatches(rows, head)
  }

  /** The payloads of each client, in order. */
  function Grouped(rows: seq<Row>): Activity
  {
    if rows == [] then map[]
    else
      var n := |rows| - 1;
      var before := Grouped(rows[..n]);
      before[rows[n].client := Get(before, rows[n].client) + [rows[n].payload]]
  }

  lemma {:induction false} GroupedNonEmpty(rows: seq<Row>)
    ensures forall c :: c in Grouped(rows) ==> Grouped(rows)[c] != []
  {
    if rows != [] {
      GroupedNonEmpty(rows[..|rows| - 1]);
    }
  }

  // ---- Appending ----

  function Extend(mac: Mac, rows: seq<Row>, client: string, event: string): seq<Row>
  {
    rows + [Row(|rows| + 1, client, event, LastTag(rows), mac(|rows| + 1, client, LastTag(rows), event))]
  }

  lemma ExtendKeepsChain(mac: Mac, rows: seq<Row>, client: string, event: string)
    requires Chained(mac, rows)
    ensures Chained(mac, Extend(mac, rows, client, event))
    ensures Grouped(Extend(mac, rows, client, event)) == Grouped(rows)[client := Get(Grouped(rows), client) + [event]]
  {
    var longer := Extend(mac, rows, client, event);
    assert longer[..|rows|] == rows;
    forall i | 0 <= i < |longer|
      ensures RowOk(mac, longer[..i], longer[i])
    {
      if i < |rows| {
        assert longer[i] == rows[i] && longer[..i] == rows[..i];
      }
    }
  }

  lemma ExtendGrows(mac: Mac, rows: seq<Row>, client: string, event: string)
    ensures rows <= Extend(mac, rows, client, event)
  {
  }

  function ExtendAll(mac: Mac, rows: seq<Row>, client: string, events: seq<string>): seq<Row>
  {
    if events == [] then rows
    else Extend(mac, ExtendAll(mac, rows, client, events[..|events| - 1]), client, events[|events| - 1])
  }

  lemma {:induction false} ExtendAllKeepsChain(mac: Mac, rows: seq<Row>, client: string, events: seq<string>)
    requires Chained(mac, rows)
    ensures Chained(mac, ExtendAll(mac, rows, client, events))
    ensures rows <= ExtendAll(mac, rows, client, events)
    ensures forall c :: Get(Grouped(ExtendAll(mac, rows, client, events)), c)
                     == Get(Grouped(rows), c) + (if c == client then events else [])
  {
    hide Chained, Grouped, Extend, Genesis;
    if events != [] {
      var n := |events| - 1;
      ExtendAllKeepsChain(mac, rows, client, events[..n]);
      ExtendKeepsChain(mac, ExtendAll(mac, rows, client, events[..n]), client, events[n]);
      ExtendGrows(mac, ExtendAll(mac, rows, client, events[..n]), client, events[n]);
      assert events[..n] + [events[n]] == events;
    }
  }

  /** The events of each client that the journal does not have yet are appended,
      client by client. */
  function Sync(mac: Mac, rows: seq<Row>, existing: Activity, activity: Activity, order: seq<string>): seq<Row>
  {
    if order == [] then rows
    else
      var n := |order| - 1;
      var c := order[n];
      var have := |Get(existing, c)|;
      var list := Get(activity, c);
      ExtendAll(mac, Sync(mac, rows, existing, activity, order[..n]), c, if have <= |list| then list[have..] else [])
  }

  /** Nothing that the journal has may be missing from the records. */
  predicate Continues(existing: Activity, activity: Activity)
  {
    forall c :: c in existing ==> existing[c] <= Get(activity, c)
  }

  predicate NoRepeats(order: seq<string>)
  {
    forall i, j :: 0 <= i < j < |order| ==> order[i] != order[j]
  }

  lemma {:induction false} SyncKeepsChain(mac: Mac, rows: seq<Row>, activity: Activity, order: seq<string>)
    requires Chained(mac, rows)
    requires Continues(Grouped(rows), activity) && NoRepeats(order)
    ensures Chained(mac, Sync(mac, rows, Grouped(rows), activity, order))
    ensures rows <= Sync(mac, rows, Grouped(rows), activity, order)
    ensures forall c :: Get(Grouped(Sync(mac, rows, Grouped(rows), activity, order)), c)
                     == if c in order then Get(activity, c) else Get(Grouped(rows), c)
  {
    hide Chained, Grouped, ExtendAll, Get, Sync;
    var existing := Grouped(rows);
    if order == [] {
      SyncNothing(mac, rows, existing, activity, order);
    } else {
      var n := |order| - 1;
      var c := order[n];
      var before, after := Sync(mac, rows, existing, activity, order[..n]), Sync(mac, rows, existing, activity, order);
      SyncKeepsChain(mac, rows, activity, order[..n]);
      SyncSnoc(mac, rows, existing, activity, order);
      var missing := Get(activity, c)[|Get(existing, c)|..];
      ExtendAllKeepsChain(mac, before, c, missing);
      assert order == order[..n] + [c];
      forall d
        ensures Get(Grouped(after), d) == if d in order then Get(activity, d) else Get(existing, d)
      {
        if d == c {
          assert c !in order[..n];
          assert Get(Grouped(after), c) == Get(existing, c) + missing == Get(activity, c);
        } else {
          assert d in order <==> d in order[..n];
        }
      }
    }
  }

  lemma SyncNothing(mac: Mac, rows: seq<Row>, existing: Activity, activity: Activity, order: seq<string>)
    requires order == []
    ensures Sync(mac, rows, existing, activity, order) == rows
  {
  }

  /** The last client of the order gets the events it is missing. */
  lemma SyncSnoc(mac: Mac, rows: seq<Row>, existing: Activity, activity: Activity, order: seq<string>)
    requires order != [] && Continues(existing, activity)
    ensures var n := |order| - 1;
            var c := order[n];
            && Get(existing, c) <= Get(activity, c)
            && Sync(mac, rows, existing, activity, order)
               == ExtendAll(mac, Sync(mac, rows, existing, activity, order[..n]), c, Get(activity, c)[|Get(existing, c)|..])
  {
  }

  lemma SameLists(a: Activity, b: Activity)
    requires forall c :: Get(a, c) == Get(b, c)
    ensures NonEmpty(a) == NonEmpty(b)
  {
    forall c
      ensures c in NonEmpty(a) <==> c in NonEmpty(b)
      ensures c in NonEmpty(a) ==> NonEmpty(a)[c] == NonEmpty(b)[c]
    {
      assert Get(a, c) == Get(b, c);
    }
  }

  /** Grouping a synchronised journal gives back exactly the non-empty lists. */
  lemma SyncAgrees(mac: Mac, rows: seq<Row>, activity: Activity, order: seq<string>)
    requires Chained(mac, rows)
    requires Continues(Grouped(rows), activity) && NoRepeats(order)
    requires forall c :: c in activity <==> c in order
    ensures Grouped(Sync(mac, rows, Grouped(rows), activity, order)) == NonEmpty(activity)
  {
    hide Chained, Grouped, Sync;
    SyncKeepsChain(mac, rows, activity, order);
    var after := Grouped(Sync(mac, rows, Grouped(rows), activity, order));
    forall c
      ensures Get(after, c) == Get(activity, c)
    {
      if c !in order && c in Grouped(rows) {
        assert Grouped(rows)[c] <= Get(activity, c);
      }
    }
    SameLists(after, activity);
    GroupedNonEmpty(Sync(mac, rows, Grouped(rows), activity, order));
    assert NonEmpty(after) == after;
  }

  // ---- Runs of saves ----

  /** The journal table, its head and the activity part of the records. */
  datatype Database = Database(rows: seq<Row>, head: Option<Head>, records: Activity)

  /** A save offers new activity lists; `order` is the order in which the
      clients are visited. */
  datatype Offer = Offer(activity: Activity, order: seq<string>)

  ghost predicate WellFormed(o: Offer)
  {
    NoRepeats(o.order) && forall c :: c in o.activity <==> c in o.order
  }

  ghost function Save(mac: Mac, d: Database, o: Offer): Database
  {
    if Verifies(mac, d.rows, d.head) && Continues(Grouped(d.rows), o.activity) then
      var rows := Sync(mac, d.rows, Grouped(d.rows), o.activity, o.order);
      Database(rows, Some(Head(|rows|, LastTag(rows))), o.activity)
    else d
  }

  ghost function Run(mac: Mac, offers: seq<Offer>): Database
  {
    if offers == [] then Database([], None, map[])
    else Save(mac, Run(mac, offers[..|offers| - 1]), offers[|offers| - 1])
  }

  /** The journal verifies and holds exactly what the records hold. */
  ghost predicate Consistent(mac: Mac, d: Database)
  {
    Verifies(mac, d.rows, d.head) && Grouped(d.rows) == NonEmpty(d.records)
  }

  lemma SaveKeeps(mac: Mac, d: Database, o: Offer)
    requires Consistent(mac, d) && WellFormed(o)
    ensures Consistent(mac, Save(mac, d, o))
    ensures d.rows <= Save(mac, d, o).rows
    ensures forall c :: Get(d.records, c) <= Get(Save(mac, d, o).records, c)
  {
    hide Chained, Grouped, Sync;
    if Continues(Grouped(d.rows), o.activity) {
      SyncKeepsChain(mac, d.rows, o.activity, o.order);
      SyncAgrees(mac, d.rows, o.activity, o.order);
      forall c
        ensures Get(d.records, c) <= Get(o.activity, c)
      {
        if c in NonEmpty(d.records) {
          assert Grouped(d.rows)[c] == d.records[c];
        }
      }
    }
  }

  /** After any run of saves the journal verifies and agrees with the records. */
  lemma {:induction false} EveryRunConsistent(mac: Mac, offers: seq<Offer>)
    requires forall o :: o in offers ==> WellFormed(o)
    ensures Consistent(mac, Run(mac, offers))
  {
    if offers != [] {
      EveryRunConsistent(mac, offers[..|offers| - 1]);
      SaveKeeps(mac, Run(mac, offers[..|offers| - 1]), offers[|offers| - 1]);
    }
  }

  /** The journal and every client's list of `a` are prefixes of those of `b`. */
  ghost predicate GrowsInto(a: Database, b: Database)
  {
    a.rows <= b.rows && forall c :: Get(a.records, c) <= Get(b.records, c)
  }

  lemma GrowsOn(a: Database, b: Database, c: Database)
    requires GrowsInto(a, b) && GrowsInto(b, c)
    ensures GrowsInto(a, c)
  {
    hide Get;
    forall client
      ensures Get(a.records, client) <= Get(c.records, client)
    {
      assert Get(a.records, client) <= Get(b.records, client) <= Get(c.records, client);
    }
  }

  lemma SaveGrows(mac: Mac, offers: seq<Offer>, n: nat)
    requires (forall o :: o in offers ==> WellFormed(o)) && n < |offers|
    ensures GrowsInto(Run(mac, offers[..n]), Run(mac, offers[..n + 1]))
  {
    hide Save, Consistent, Get, WellFormed;
    EveryRunConsistent(mac, offers[..n]);
    assert offers[..n + 1][..n] == offers[..n];
    assert offers[n] in offers;
    SaveKeeps(mac, Run(mac, offers[..n]), offers[n]);
  }

  /** Later in a run the journal and every client's list only got longer. */
  lemma {:induction false} HistoryOnlyGrows(mac: Mac, offers: seq<Offer>, k: nat, n: nat)
    requires forall o :: o in offers ==> WellFormed(o)
    requires k <= n <= |offers|
    ensures GrowsInto(Run(mac, offers[..k]), Run(mac, offers[..n]))
  {
    if k < n {
      hide Run, GrowsInto, WellFormed;
      HistoryOnlyGrows(mac, offers, k, n - 1);
      SaveGrows(mac, offers, n - 1);
      GrowsOn(Run(mac, offers[..k]), Run(mac, offers[..n - 1]), Run(mac, offers[..n]));
    }
  }

  // ---- What a run of saves amounts to ----

  datatype Entry = Entry(client: string, payload: string)

  /** Saving without a journal key: a log of events and the records. */
  datatype Plain = Plain(log: seq<Entry>, records: Activity)

  function EntriesOf(client: string, events: seq<string>): seq<Entry>
  {
    seq(|events|, i requires 0 <= i < |events| => Entry(client, events[i]))
  }

  /** The events that are new in `activity`, client by client. */
  function Added(have: Activity, activity: Activity, order: seq<string>): seq<Entry>
  {
    if order == [] then []
    else
      var c := order[|order| - 1];
      var known, list := |Get(have, c)|, Get(activity, c);
      Added(have, activity, order[..|order| - 1]) + EntriesOf(c, if known <= |list| then list[known..] else [])
  }

  ghost predicate Extends(have: Activity, activity: Activity)
  {
    forall c :: Get(have, c) <= Get(activity, c)
  }

  ghost function PlainRun(offers: seq<Offer>): Plain
  {
    if offers == [] then Plain([], map[])
    else
      var p, o := PlainRun(offers[..|offers| - 1]), offers[|offers| - 1];
      if Extends(p.records, o.activity) then Plain(p.log + Added(p.records, o.activity, o.order), o.activity) else p
  }

  function Entries(rows: seq<Row>): seq<Entry>
  {
    seq(|rows|, i requires 0 <= i < |rows| => Entry(rows[i].client, rows[i].payload))
  }

  lemma {:induction false} ExtendAllEntries(mac: Mac, rows: seq<Row>, client: string, events: seq<string>)
    ensures Entries(ExtendAll(mac, rows, client, events)) == Entries(rows) + EntriesOf(client, events)
  {
    if events != [] {
      var n := |events| - 1;
      ExtendAllEntries(mac, rows, client, events[..n]);
      var before := ExtendAll(mac, rows, client, events[..n]);
      assert Entries(Extend(mac, before, client, events[n])) == Entries(before) + [Entry(client, events[n])];
      assert EntriesOf(client, events) == EntriesOf(client, events[..n]) + [Entry(client, events[n])];
    }
  }

  lemma {:induction false} SyncEntries(mac: Mac, rows: seq<Row>, have: Activity, activity: Activity, order: seq<string>)
    ensures Entries(Sync(mac, rows, have, activity, order)) == Entries(rows) + Added(have, activity, order)
  {
    hide ExtendAll, Entries, EntriesOf, Get;
    if order != [] {
      var n := |order| - 1;
      var c := order[n];
      var missing := if |Get(have, c)| <= |Get(activity, c)| then Get(activity, c)[|Get(have, c)|..] else [];
      SyncEntries(mac, rows, have, activity, order[..n]);
      ExtendAllEntries(mac, Sync(mac, rows, have, activity, order[..n]), c, missing);
    }
  }

  lemma SameGet(m: Activity)
    ensures forall c :: Get(NonEmpty(m), c) == Get(m, c)
  {
  }

  /** Where journal and records agree, continuing the one is extending the other. */
  lemma ContinuesIff(rows: seq<Row>, records: Activity, activity: Activity)
    requires Grouped(rows) == NonEmpty(records)
    ensures Continues(Grouped(rows), activity) <==> Extends(records, activity)
  {
    hide Grouped;
    SameGet(records);
    forall c | c in Grouped(rows)
      ensures Get(records, c) == Grouped(rows)[c]
    {
    }
    forall c | c !in Grouped(rows)
      ensures Get(records, c) == []
    {
      assert Get(NonEmpty(records), c) == [];
    }
  }

  lemma {:induction false} AddedSame(have: Activity, same: Activity, activity: Activity, order: seq<string>)
    requires forall c :: Get(have, c) == Get(same, c)
    ensures Added(have, activity, order) == Added(same, activity, order)
  {
    hide Get, EntriesOf;
    if order != [] {
      AddedSame(have, same, activity, order[..|order| - 1]);
    }
  }

  /**
   * After any run of saves the journal lists exactly the events that were new in
   * the offers taken, in order, and the records are those of the last offer
   * taken; an offer is taken exactly when it extends every list.
   */
  lemma {:induction false} RunAmountsTo(mac: Mac, offers: seq<Offer>)
    requires forall o :: o in offers ==> WellFormed(o)
    ensures Entries(Run(mac, offers).rows) == PlainRun(offers).log
    ensures Run(mac, offers).records == PlainRun(offers).records
  {
    hide Sync, Grouped, Verifies, WellFormed, Extends, Continues, Entries, Added;
    if offers == [] {
      assert Entries([]) == [] by {
        NoEntries();
      }
    } else {
      var n := |offers| - 1;
      var d, o := Run(mac, offers[..n]), offers[n];
      RunAmountsTo(mac, offers[..n]);
      EveryRunConsistent(mac, offers[..n]);
      ContinuesIff(d.rows, d.records, o.activity);
      SyncEntries(mac, d.rows, Grouped(d.rows), o.activity, o.order);
      SameGet(d.records);
      AddedSame(Grouped(d.rows), d.records, o.activity, o.order);
    }
  }

  lemma NoEntries()
    ensures Entries([]) == []
  {
  }

  /** An offer that extends every list is never refused, whatever was saved before. */
  lemma NeverRefused(mac: Mac, offers: seq<Offer>, o: Offer)
    requires forall x :: x in offers ==> WellFormed(x)
    ensures var d := Run(mac, offers);
            Verifies(mac, d.rows, d.head) && Continues(Grouped(d.rows), o.activity) <==> Extends(PlainRun(offers).records, o.activity)
  {
    hide Grouped, Chained, Run, PlainRun, Continues, Extends;
    EveryRunConsistent(mac, offers);
    RunAmountsTo(mac, offers);
    ContinuesIff(Run(mac, offers).rows, Run(mac, offers).records, o.activity);
  }

  /** The row has the number of its place, names the tag before it (64 zeros at
      first) and carries its own. */
  predicate RightRow(mac: Mac, rows: seq<Row>, i: nat)
    requires i < |rows|
  {
    && rows[i].number == i + 1
    && rows[i].tag == mac(i + 1, rows[i].client, rows[i].previous, rows[i].payload)
    && if i > 0 then rows[i].previous == rows[i - 1].tag
       else |rows[i].previous| == 64 && forall k :: 0 <= k < 64 ==> rows[i].previous[k] == '0'
  }

  lemma ChainIs(mac: Mac, rows: seq<Row>)
    ensures Chained(mac, rows) <==> forall i :: 0 <= i < |rows| ==> RightRow(mac, rows, i)
  {
    forall i | 0 <= i < |rows|
      ensures RowOk(mac, rows[..i], rows[i]) <==> RightRow(mac, rows, i)
    {
    }
  }

  // ---- Tampering ----

  ghost predicate Injective(mac: Mac)
  {
    forall n, c, p, e, n', c', p', e' :: mac(n, c, p, e) == mac(n', c', p', e') ==> n == n' && c == c' && p == p' && e == e'
  }

  /** Equal tags at one position come from equal rows. */
  lemma TagFixesRow(mac: Mac, a: seq<Row>, b: seq<Row>, n: nat)
    requires Injective(mac) && Chained(mac, a) && Chained(mac, b)
    requires n < |a| && n < |b| && a[n].tag == b[n].tag
    ensures a[n] == b[n] && a[n].previous == LastTag(a[..n]) && b[n].previous == LastTag(b[..n])
  {
    hide Genesis;
    assert RowOk(mac, a[..n], a[n]) && RowOk(mac, b[..n], b[n]);
  }

  lemma DropLast(mac: Mac, rows: seq<Row>)
    requires Chained(mac, rows) && rows != []
    ensures var n := |rows| - 1;
            Verifies(mac, rows[..n], Some(Head(n, LastTag(rows[..n]))))
  {
    hide Genesis;
    ChainPrefix(mac, rows, |rows| - 1);
  }

  /** Two journals accepted with the same head are equal, row for row. */
  lemma {:induction false} HeadFixesJournal(mac: Mac, a: seq<Row>, b: seq<Row>, head: Head)
    requires Injective(mac)
    requires Verifies(mac, a, Some(head)) && Verifies(mac, b, Some(head))
    ensures a == b
    decreases |a|
  {
    hide Injective, Chained, Genesis;
    if a != [] {
      var n := |a| - 1;
      TagFixesRow(mac, a, b, n);
      DropLast(mac, a);
      DropLast(mac, b);
      HeadFixesJournal(mac, a[..n], b[..n], Head(n, LastTag(a[..n])));
      assert a == a[..n] + [a[n]] && b == b[..n] + [b[n]];
    }
  }

  lemma ChainPrefix(mac: Mac, rows: seq<Row>, n: nat)
    requires Chained(mac, rows) && n <= |rows|
    ensures Chained(mac, rows[..n])
  {
    forall i | 0 <= i < n
      ensures RowOk(mac, rows[..n][..i], rows[..n][i])
    {
      assert rows[..n][..i] == rows[..i] && rows[..n][i] == rows[i];
    }
  }

  /** The limit of the scheme: an older journal put back together with its
      older head is accepted. */
  lemma RollbackVerifies(mac: Mac, rows: seq<Row>, n: nat)
    requires Chained(mac, rows) && n <= |rows|
    ensures Verifies(mac, rows[..n], Some(Head(n, LastTag(rows[..n]))))
  {
    ChainPrefix(mac, rows, n);
  }

  // ---- The operations on the tables ----

  class EvidenceStore {
    const mac: Mac
    var rows: seq<Row>
    var head: Option<Head>
    var records: Activity

    ghost function State(): Database
      reads this
    {
      Database(rows, head, records)
    }

    constructor (mac: Mac)
      ensures this.mac == mac && State() == Run(mac, [])
    {
      this.mac, rows, head, records := mac, [], None, map[];
    }

    /** Walks the chain, checking every row and the head. */
    method AuditRows() returns (ok: bool, grouped: Activity, previous: string, number: nat)
      ensures ok <==> Verifies(mac, rows, head)
      ensures ok ==> grouped == Grouped(rows) && previous == LastTag(rows) && number == |rows|
    {
      hide Grouped, Genesis;
      grouped, previous, number := map[], Genesis(), 0;
      GroupedNothing(rows[..0]);
      for i := 0 to |rows|
        invariant Chained(mac, rows[..i])
        invariant grouped == Grouped(rows[..i]) && previous == LastTag(rows[..i]) && number == i
      {
        var row := rows[i];
        ChainSnoc(mac, rows, i);
        if row.number != number + 1 || row.previous != previous {
          return false, grouped, previous, number;
        }
        if row.tag != mac(row.number, row.client, previous, row.payload) {
          return false, grouped, previous, number;
        }
        grouped := grouped[row.client := Get(grouped, row.client) + [row.payload]];
        previous, number := row.tag, row.number;
      }
      assert rows[..|rows|] == rows;
      if head.Some? {
        ok := head.value == Head(number, previous);
      } else {
        ok := number == 0;
      }
    }

    /** Appends the missing events; refuses activity that drops or rewrites any. */
    method SyncActivity(activity: Activity, order: seq<string>) returns (ok: bool)
      requires WellFormed(Offer(activity, order))
      modifies `rows, `head
      ensures ok <==> old(Verifies(mac, rows, head) && Continues(Grouped(rows), activity))
      ensures !ok ==> rows == old(rows) && head == old(head)
      ensures ok ==> rows == Sync(mac, old(rows), Grouped(old(rows)), activity, order) && head == Some(Head(|rows|, LastTag(rows)))
    {
      hide Chained, Grouped, Sync, ExtendAll, Extend, Genesis;
      var verified, existing, previous, number := AuditRows();
      if !verified || !Continues(existing, activity) {
        return false;
      }
      SyncNothing(mac, rows, existing, activity, order[..0]);
      for i := 0 to |order|
        invariant rows == Sync(mac, old(rows), existing, activity, order[..i])
        invariant previous == LastTag(rows) && number == |rows|
      {
        var client := order[i];
        assert order[..i + 1][..i] == order[..i];
        SyncSnoc(mac, old(rows), existing, activity, order[..i + 1]);
        previous, number := AppendEvents(client, Get(activity, client)[|Get(existing, client)|..], previous, number);
      }
      assert order[..|order|] == order;
      head := Some(Head(number, previous));
      return true;
    }

    method AppendEvents(client: string, events: seq<string>, previous0: string, number0: nat) returns (previous: string, number: nat)
      requires previous0 == LastTag(rows) && number0 == |rows|
      modifies `rows
      ensures rows == ExtendAll(mac, old(rows), client, events)
      ensures previous == LastTag(rows) && number == |rows|
    {
      previous, number := previous0, number0;
      for i := 0 to |events|
        invariant rows == ExtendAll(mac, old(rows), client, events[..i])
        invariant previous == LastTag(rows) && number == |rows|
      {
        assert events[..i + 1][..i] == events[..i];
        number := number + 1;
        var tag := mac(number, client, previous, events[i]);
        rows := rows + [Row(number, client, events[i], previous, tag)];
        previous := tag;
      }
      assert events[..|events|] == events;
    }

    /** Saving the records synchronises the journal first; a refused save
        leaves journal and records alone. */
    method SaveRecords(activity: Activity, order: seq<string>) returns (ok: bool)
      requires WellFormed(Offer(activity, order))
      modifies this
      ensures State() == Save(mac, old(State()), Offer(activity, order))
      ensures ok <==> old(Verifies(mac, rows, head) && Continues(Grouped(rows), activity))
      ensures ok ==> records == activity && Grouped(rows) == NonEmpty(activity) && old(rows) <= rows && Verifies(mac, rows, head)
      ensures ok ==> Entries(rows) == Entries(old(rows)) + Added(Grouped(old(rows)), activity, order)
      ensures !ok ==> State() == old(State())
    {
      hide Chained, Grouped, Sync, Continues, Entries, Added;
      if Verifies(mac, rows, head) && Continues(Grouped(rows), activity) {
        SyncKeepsChain(mac, rows, activity, order);
        SyncAgrees(mac, rows, activity, order);
        SyncEntries(mac, rows, Grouped(rows), activity, order);
      }
      ok := SyncActivity(activity, order);
      if ok {
        records := activity;
      }
    }

    /** Loading refuses records that the journal does not confirm. */
    method VerifyAudit() returns (ok: bool)
      ensures ok <==> Consistent(mac, State())
    {
      var verified, grouped, _, _ := AuditRows();
      return verified && grouped == NonEmpty(records);
    }
  }

  lemma GroupedNothing(rows: seq<Row>)
    requires rows == []
    ensures Grouped(rows) == map[] && LastTag(rows) == Genesis()
  {
  }

  /** One more row is all right exactly when it fits on the chain before it. */
  lemma ChainSnoc(mac: Mac, rows: seq<Row>, i: nat)
    requires i < |rows| && Chained(mac, rows[..i])
    ensures Chained(mac, rows[..i + 1]) <==> RowOk(mac, rows[..i], rows[i])
    ensures !Chained(mac, rows[..i + 1]) ==> !Chained(mac, rows)
    ensures LastTag(rows[..i + 1]) == rows[i].tag
    ensures Grouped(rows[..i + 1]) == Grouped(rows[..i])[rows[i].client := Get(Grouped(rows[..i]), rows[i].client) + [rows[i].payload]]
  {
    hide RowOk;
    var longer := rows[..i + 1];
    assert longer[..i] == rows[..i] && longer[i] == rows[i];
    if RowOk(mac, rows[..i], rows[i]) {
      forall j | 0 <= j < |longer|
        ensures RowOk(mac, longer[..j], longer[j])
      {
        if j < i {
          assert longer[..j] == rows[..i][..j] && longer[j] == rows[..i][j];
        }
      }
    }
    if Chained(mac, rows) {
      ChainPrefix(mac, rows, i + 1);
    }
  }
}
