// The durable local spool and the flush that drains it into the primary store.

module UsageSpool {
  import opened Domain
  import opened RowOrder
  import opened AttemptStore

  type SpoolEntry = Row<AttemptRecord>

  function EntryId(r: AttemptRecord): string {
    r.attemptId + ":" + r.outcome.AsStr()
  }

  function EntryOf(r: AttemptRecord, queuedAt: int): SpoolEntry {
    Row(queuedAt, EntryId(r), r)
  }

  lemma SeparatorPosition(r: AttemptRecord, q: AttemptRecord)
    requires EntryId(r) == EntryId(q)
    ensures |r.attemptId| >= |q.attemptId|
  {
    var b := q.attemptId;
    forall i | 0 <= i < |b|
      ensures EntryId(q)[i] != ':'
    {
      assert EntryId(q)[i] == b[i] && b[i] in b;
    }
    assert EntryId(r)[|r.attemptId|] == ':';
  }

  /** An entry id names one attempt and one outcome. */
  lemma EntryIdIsInjective(r: AttemptRecord, q: AttemptRecord)
    requires EntryId(r) == EntryId(q)
    ensures r.attemptId == q.attemptId && r.outcome == q.outcome
  {
    SeparatorPosition(r, q);
    SeparatorPosition(q, r);
    var n := |r.attemptId|;
    assert r.attemptId == EntryId(r)[..n] && q.attemptId == EntryId(q)[..n];
    assert r.outcome.AsStr() == EntryId(r)[n + 1..] && q.outcome.AsStr() == EntryId(q)[n + 1..];
    NamesDiffer(r.outcome, q.outcome);
  }

  /** An entry id is the attempt's id, a colon and the outcome's stored name. */
  lemma EntryIdText(r: AttemptRecord)
    ensures EntryId(r) == r.attemptId + ":" +
              match r.outcome
              case Failed => "failed"
              case Committed => "committed"
              case Succeeded => "succeeded"
              case PartialFailed => "partial_failed"
              case Cancelled => "cancelled"
  {
  }

  lemma NamesDiffer(o: AttemptOutcome, p: AttemptOutcome)
    requires o.AsStr() == p.AsStr()
    ensures o == p
  {
    assert o.AsStr()[0] == p.AsStr()[0] && |o.AsStr()| == |p.AsStr()|;
    assert "succeeded"[0] == 's' && "failed"[0] == 'f' && "partial_failed"[0] == 'p';
    assert "committed"[1] == 'o' && "cancelled"[1] == 'a';
    assert o.AsStr()[1] == p.AsStr()[1];
  }

  /** The ids of some entries. */
  function Ids(entries: seq<SpoolEntry>): set<string> {
    set e | e in entries :: e.id
  }

  function Oldest(table: seq<SpoolEntry>, limit: nat): seq<SpoolEntry> {
    var all := OrderBy(table);
    if limit <= |all| then all[..limit] else all
  }

  /** `a` was queued in an earlier second, or in the same second with a smaller id (or is the same row). */
  predicate QueuedBefore(a: SpoolEntry, b: SpoolEntry) {
    a.at < b.at || (a.at == b.at && (a.id == b.id || TextBefore(a.id, b.id)))
  }

  /** `entries` are min(limit, size) rows of the table in queue order, and every row left out comes after all of
      them. */
  ghost predicate AreOldest(entries: seq<SpoolEntry>, table: seq<SpoolEntry>, limit: nat) {
    && |entries| == (if limit <= |table| then limit else |table|)
    && (forall i, j :: 0 <= i < j < |entries| ==> QueuedBefore(entries[i], entries[j]))
    && multiset(entries) <= multiset(table)
    && (forall e, f :: e in entries && f in multiset(table) - multiset(entries) ==> QueuedBefore(e, f))
  }

  lemma OldestAreOldest(table: seq<SpoolEntry>, limit: nat)
    ensures AreOldest(Oldest(table, limit), table, limit)
  {
    OrderBySorts(table);
    var all, entries := OrderBy(table), Oldest(table, limit);
    var later := all[|entries|..];
    assert all == entries + later;
    forall i, j | 0 <= i < j < |entries|
      ensures QueuedBefore(entries[i], entries[j])
    {
      assert NotAfter(all[i], all[j]);
    }
    assert multiset(entries) + multiset(later) == multiset(table);
    forall e, f | e in entries && f in multiset(table) - multiset(entries)
      ensures QueuedBefore(e, f)
    {
      assert f in multiset(later);
      var i :| 0 <= i < |entries| && entries[i] == e;
      var j :| 0 <= j < |later| && later[j] == f;
      assert NotAfter(all[i], all[|entries| + j]);
    }
  }

  /** What concurrent tasks append, each record with the second it arrives in. */
  function AppendAll(table: seq<SpoolEntry>, arrivals: seq<(AttemptRecord, int)>): seq<SpoolEntry>
    decreases |arrivals|
  {
    if arrivals == [] then table
    else AppendAll(InsertNew(table, EntryOf(arrivals[0].0, arrivals[0].1)), arrivals[1..])
  }

  class DurableUsageSpool {
    var table: seq<SpoolEntry>

    constructor ()
      ensures table == []
    {
      table := [];
    }

    method Append(r: AttemptRecord, now: int, reply: Reply) returns (id: Result<string, string>)
      modifies this
      ensures id == if reply == Answered then Ok(EntryId(r)) else Err("usage spool unavailable")
      ensures table == if reply == Unreachable then old(table) else InsertNew(old(table), EntryOf(r, now))
      ensures var id := r.attemptId + ":" + r.outcome.AsStr();
              table == if reply != Unreachable && forall e :: e in old(table) ==> e.id != id
                       then old(table) + [Row(now, id, r)] else old(table)
    {
      if reply == Unreachable {
        return Err("usage spool unavailable");
      }
      var entryId := r.attemptId + ":" + r.outcome.AsStr();
      var conflict := false;
      for i := 0 to |table|
        invariant conflict <==> exists e :: e in table[..i] && e.id == entryId
      {
        assert table[..i + 1] == table[..i] + [table[i]];
        if table[i].id == entryId {
          conflict := true;
        }
      }
      assert table[..|table|] == table;
      if !conflict {
        table := table + [Row(now, entryId, r)];
      }
      return if reply == Answered then Ok(entryId) else Err("usage spool unavailable");
    }

    method Pending(limit: nat, readable: bool) returns (entries: Result<seq<SpoolEntry>, string>)
      ensures entries == if readable then Ok(Oldest(table, limit)) else Err("usage spool unavailable")
      ensures entries.Ok? ==> AreOldest(entries.value, table, limit)
    {
      OldestAreOldest(table, limit);
      if !readable {
        return Err("usage spool unavailable");
      }
      var all := OrderBy(table);
      if limit <= |all| {
        all := all[..limit];
      }
      return Ok(all);
    }

    /** One transaction that deletes the given ids one by one. */
    method Acknowledge(ids: seq<string>, reply: Reply) returns (ok: bool)
      modifies this
      ensures ok <==> reply == Answered
      ensures table == if reply == Unreachable then old(table) else Without(old(table), set id | id in ids)
    {
      if reply == Unreachable {
        return false;
      }
      ghost var gone: set<string> := {};
      WithoutNone(table);
      for i := 0 to |ids|
        invariant gone == set id | id in ids[..i]
        invariant table == Without(old(table), gone)
      {
        WithoutTwice(old(table), gone, {ids[i]});
        assert ids[..i + 1] == ids[..i] + [ids[i]];
        table := Without(table, {ids[i]});
        gone := gone + {ids[i]};
      }
      assert ids[..|ids|] == ids;
      return reply == Answered;
    }
  }

  lemma {:induction false} WithoutNone(table: seq<SpoolEntry>)
    ensures Without(table, {}) == table
  {
    if table != [] {
      WithoutNone(table[1..]);
    }
  }

  // ---------- Flushing ----------

  /** How many leading entries the primary accepts, given its answer to each. */
  function Delivered(rows: AttemptTable, batch: seq<SpoolEntry>, replies: seq<Reply>): (k: nat)
    requires |replies| == |batch|
    ensures k <= |batch|
    decreases |batch|
  {
    if batch == [] || !Accepts(rows, batch[0].payload, replies[0]) then 0
    else 1 + Delivered(Upsert(rows, batch[0].payload), batch[1..], replies[1..])
  }

  /** The primary's rows when the flush stops: every accepted entry, and possibly the one it reported failed. */
  function FlushedRows(rows: AttemptTable, batch: seq<SpoolEntry>, replies: seq<Reply>): AttemptTable
    requires |replies| == |batch|
    decreases |batch|
  {
    if batch == [] then rows
    else
      var next := RowsAfter(rows, batch[0].payload, replies[0]);
      if Accepts(rows, batch[0].payload, replies[0]) then FlushedRows(next, batch[1..], replies[1..]) else next
  }

  /** The spool once everything that arrived before the `n`-th delivery has been appended. */
  function SeenTable(table: seq<SpoolEntry>, arrivals: seq<seq<(AttemptRecord, int)>>, n: nat): seq<SpoolEntry>
    requires n <= |arrivals|
    decreases n
  {
    if n == 0 then table else AppendAll(SeenTable(table, arrivals, n - 1), arrivals[n - 1])
  }

  /** Deliveries tried: the accepted ones and, if the loop broke off, the refused one. */
  function Tried(accepted: nat, size: nat): nat {
    if accepted < size then accepted + 1 else size
  }

  method AppendArrivals(spool: DurableUsageSpool, arrivals: seq<(AttemptRecord, int)>)
    modifies spool
    ensures spool.table == AppendAll(old(spool.table), arrivals)
  {
    for i := 0 to |arrivals|
      invariant AppendAll(old(spool.table), arrivals) == AppendAll(spool.table, arrivals[i..])
    {
      assert arrivals[i..][1..] == arrivals[i + 1..];
      var _ := spool.Append(arrivals[i].0, arrivals[i].1, Answered);
    }
  }

  /** Other tasks append, then the primary answers one delivery. */
  method Deliver(
      spool: DurableUsageSpool, primary: PrimaryStore, r: AttemptRecord, reply: Reply,
      arrivals: seq<(AttemptRecord, int)>)
    returns (accepted: bool)
    modifies spool, primary
    ensures accepted == Accepts(old(primary.rows), r, reply)
    ensures primary.rows == RowsAfter(old(primary.rows), r, reply)
    ensures spool.table == AppendAll(old(spool.table), arrivals)
  {
    AppendArrivals(spool, arrivals);
    var result := primary.RecordAttempt(r, reply);
    accepted := result.Ok?;
  }

  /** The spool just before the acknowledgement: everything that arrived by then has been appended. */
  function Seen(
      table: seq<SpoolEntry>, arrivals: seq<seq<(AttemptRecord, int)>>, n: nat, late: seq<(AttemptRecord, int)>)
    : seq<SpoolEntry>
    requires n <= |arrivals|
  {
    AppendAll(SeenTable(table, arrivals, n), late)
  }

  /** The spool after a flush that delivered `k` entries: they are gone if the acknowledgement took effect. */
  function AfterFlush(
      table: seq<SpoolEntry>, limit: nat, k: nat, arrivals: seq<seq<(AttemptRecord, int)>>,
      late: seq<(AttemptRecord, int)>, acknowledgement: Reply)
    : seq<SpoolEntry>
    requires k <= |Oldest(table, limit)| == |arrivals|
  {
    var seen := Seen(table, arrivals, Tried(k, |arrivals|), late);
    if acknowledgement == Unreachable then seen else Without(seen, Ids(Oldest(table, limit)[..k]))
  }

  /** The delivery loop of a flush: it stops at the first entry that is refused. */
  method DeliverBatch(
      spool: DurableUsageSpool, primary: PrimaryStore, entries: seq<SpoolEntry>,
      replies: seq<Reply>, arrivals: seq<seq<(AttemptRecord, int)>>)
    returns (acknowledged: seq<string>)
    requires |replies| == |arrivals| == |entries|
    modifies spool, primary
    ensures |acknowledged| == Delivered(old(primary.rows), entries, replies)
    ensures (set id | id in acknowledged) == Ids(entries[..|acknowledged|])
    ensures primary.rows == FlushedRows(old(primary.rows), entries, replies)
    ensures spool.table == SeenTable(old(spool.table), arrivals, Tried(|acknowledged|, |entries|))
  {
    acknowledged := [];
    var i := 0;
    ghost var tried := 0;
    while i < |entries|
      invariant i <= |entries| && i == tried == |acknowledged|
      invariant Progress(old(primary.rows), primary.rows, entries, replies, i)
      invariant spool.table == SeenTable(old(spool.table), arrivals, tried)
      invariant (set id | id in acknowledged) == Ids(entries[..i])
    {
      ProgressStep(old(primary.rows), primary.rows, entries, replies, i);
      var accepted := Deliver(spool, primary, entries[i].payload, replies[i], arrivals[i]);
      tried := tried + 1;
      if !accepted {
        break;
      }
      IdsStep(entries, acknowledged, i);
      acknowledged := acknowledged + [entries[i].id];
      i := i + 1;
    }
    assert tried == Tried(|acknowledged|, |entries|);
  }

  /** The flush. `arrivals[i]` is what other tasks append just before the `i`-th delivery and `late` what they append
      just before the acknowledgement; `replies[i]` is how the primary answers the `i`-th delivery. Exactly the
      accepted prefix of the batch leaves the spool, and only if the acknowledgement takes effect. */
  method FlushUsageSpool(
      spool: DurableUsageSpool, primary: PrimaryStore, limit: nat, readable: bool,
      replies: seq<Reply>, arrivals: seq<seq<(AttemptRecord, int)>>, late: seq<(AttemptRecord, int)>,
      acknowledgement: Reply)
    returns (r: Result<int, string>)
    requires |replies| == |arrivals| == |Oldest(spool.table, limit)|
    modifies spool, primary
    ensures !readable ==> r.Err? && spool.table == old(spool.table) && primary.rows == old(primary.rows)
    ensures readable ==> primary.rows == FlushedRows(old(primary.rows), Oldest(old(spool.table), limit), replies)
    ensures readable ==>
              var delivered := Delivered(old(primary.rows), Oldest(old(spool.table), limit), replies);
              && spool.table == AfterFlush(old(spool.table), limit, delivered, arrivals, late, acknowledgement)
              && (r.Ok? <==> acknowledgement == Answered) && (r.Ok? ==> r.value == delivered)
  {
    var pending := spool.Pending(limit, readable);
    if pending.Err? {
      return Err(pending.error);
    }
    var acknowledged := DeliverBatch(spool, primary, pending.value, replies, arrivals);
    AppendArrivals(spool, late);
    var ok := spool.Acknowledge(acknowledged, acknowledgement);
    if !ok {
      return Err("usage spool unavailable");
    }
    return Ok(|acknowledged|);
  }

  /** `i` entries were accepted so far, and `rows` is what they left. */
  ghost predicate Progress(rows0: AttemptTable, rows: AttemptTable, batch: seq<SpoolEntry>, replies: seq<Reply>, i: nat)
    requires |replies| == |batch| && i <= |batch|
  {
    && Delivered(rows0, batch, replies) == i + Delivered(rows, batch[i..], replies[i..])
    && FlushedRows(rows0, batch, replies) == FlushedRows(rows, batch[i..], replies[i..])
  }

  lemma ProgressStep(rows0: AttemptTable, rows: AttemptTable, batch: seq<SpoolEntry>, replies: seq<Reply>, i: nat)
    requires |replies| == |batch| && i < |batch| && Progress(rows0, rows, batch, replies, i)
    ensures var next := RowsAfter(rows, batch[i].payload, replies[i]);
            if Accepts(rows, batch[i].payload, replies[i]) then Progress(rows0, next, batch, replies, i + 1)
            else Delivered(rows0, batch, replies) == i && FlushedRows(rows0, batch, replies) == next
  {
    assert batch[i..][1..] == batch[i + 1..] && replies[i..][1..] == replies[i + 1..];
  }

  lemma IdsStep(entries: seq<SpoolEntry>, ids: seq<string>, i: nat)
    requires i < |entries| && (set id | id in ids) == Ids(entries[..i])
    ensures (set id | id in ids + [entries[i].id]) == Ids(entries[..i + 1])
  {
    var id := entries[i].id;
    assert (set x | x in ids + [id]) == (set x | x in ids) + {id};
    assert entries[..i + 1] == entries[..i] + [entries[i]];
  }

  /** The accepted prefix is maximal: every entry in it was accepted, and the next one was refused. */
  lemma {:induction false} DeliveredIsMaximal(rows: AttemptTable, batch: seq<SpoolEntry>, replies: seq<Reply>, i: nat)
    requires |replies| == |batch| && i < |batch|
    ensures var k := Delivered(rows, batch, replies);
            && (i < k ==> Accepts(FlushedRows(rows, batch[..i], replies[..i]), batch[i].payload, replies[i]))
            && (i == k ==> !Accepts(FlushedRows(rows, batch[..i], replies[..i]), batch[i].payload, replies[i]))
    decreases |batch|
  {
    if i > 0 && Accepts(rows, batch[0].payload, replies[0]) {
      DeliveredIsMaximal(Upsert(rows, batch[0].payload), batch[1..], replies[1..], i - 1);
      assert batch[..i][1..] == batch[1..][..i - 1] && replies[..i][1..] == replies[1..][..i - 1];
    }
  }

  /** Acknowledging the delivered prefix removes exactly those entries and keeps every other one. */
  lemma AcknowledgeRemovesPrefix(table: seq<SpoolEntry>, limit: nat, k: nat, e: SpoolEntry)
    requires UniqueIds(table) && k <= |Oldest(table, limit)|
    ensures var rest := Without(table, Ids(Oldest(table, limit)[..k]));
            && |rest| == |table| - k
            && (e in rest <==> e in table && e !in Oldest(table, limit)[..k])
  {
    var gone := Oldest(table, limit)[..k];
    OrderBySorts(table);
    OrderByUnique(table);
    assert gone == OrderBy(table)[..k];
    IdsCount(gone);
    forall id | id in Ids(gone)
      ensures HasId(table, id)
    {
      var g :| g in gone && g.id == id;
      assert g in multiset(table);
    }
    WithoutCount(table, Ids(gone));
    WithoutMembers(table, Ids(gone), e);
    if e in table && e.id in Ids(gone) {
      var g :| g in gone && g.id == e.id;
      assert g in multiset(table);
      SameRow(table, g, e);
    }
  }

  lemma {:induction false} AppendAllKeeps(table: seq<SpoolEntry>, arrivals: seq<(AttemptRecord, int)>)
    requires UniqueIds(table)
    ensures UniqueIds(AppendAll(table, arrivals)) && table <= AppendAll(table, arrivals)
    decreases |arrivals|
  {
    if arrivals != [] {
      var entry := EntryOf(arrivals[0].0, arrivals[0].1);
      InsertUnique(table, entry);
      AppendAllKeeps(InsertNew(table, entry), arrivals[1..]);
    }
  }

  lemma {:induction false} SeenTableKeeps(table: seq<SpoolEntry>, arrivals: seq<seq<(AttemptRecord, int)>>, n: nat)
    requires UniqueIds(table) && n <= |arrivals|
    ensures UniqueIds(SeenTable(table, arrivals, n)) && table <= SeenTable(table, arrivals, n)
    decreases n
  {
    if n > 0 {
      SeenTableKeeps(table, arrivals, n - 1);
      AppendAllKeeps(SeenTable(table, arrivals, n - 1), arrivals[n - 1]);
    }
  }

  /** Whatever arrives while a flush is under way, it removes exactly the delivered entries and nothing else; an
      arrival never displaces a pending entry. */
  lemma FlushRemovesExactlyDelivered(
      table: seq<SpoolEntry>, limit: nat, k: nat, arrivals: seq<seq<(AttemptRecord, int)>>,
      late: seq<(AttemptRecord, int)>, acknowledgement: Reply, e: SpoolEntry)
    requires UniqueIds(table) && k <= |Oldest(table, limit)| == |arrivals|
    ensures var seen := Seen(table, arrivals, Tried(k, |arrivals|), late);
            && table <= seen
            && (e in AfterFlush(table, limit, k, arrivals, late, acknowledgement) <==>
                  e in seen && (acknowledgement == Unreachable || e !in Oldest(table, limit)[..k]))
  {
    var gone := Oldest(table, limit)[..k];
    var n := Tried(k, |arrivals|);
    var seen := Seen(table, arrivals, n, late);
    SeenTableKeeps(table, arrivals, n);
    AppendAllKeeps(SeenTable(table, arrivals, n), late);
    WithoutMembers(seen, Ids(gone), e);
    OrderBySorts(table);
    if e in seen && e.id in Ids(gone) {
      var g :| g in gone && g.id == e.id;
      assert g in OrderBy(table) && g in multiset(table);
      SameRow(seen, g, e);
    }
  }

  lemma {:induction false} IdsCount(entries: seq<SpoolEntry>)
    requires UniqueIds(entries)
    ensures |Ids(entries)| == |entries|
  {
    if entries != [] {
      IdsCount(entries[1..]);
      assert Ids(entries) == Ids(entries[1..]) + {entries[0].id};
      assert entries[0].id !in Ids(entries[1..]);
    }
  }

  // ---------- Draining ----------

  /** The primary is up and its identities agree with everything queued. */
  ghost predicate Welcome(rows: AttemptTable, table: seq<SpoolEntry>) {
    forall e :: e in table ==> e.payload.attemptId in rows ==> SameIdentity(rows[e.payload.attemptId], e.payload)
  }

  ghost predicate OneIdentity(table: seq<SpoolEntry>) {
    forall d, e :: d in table && e in table && d.payload.attemptId == e.payload.attemptId ==>
      d.payload.requestId == e.payload.requestId && d.payload.routeId == e.payload.routeId
  }

  lemma {:induction false} AllDelivered(rows: AttemptTable, batch: seq<SpoolEntry>, replies: seq<Reply>)
    requires |replies| == |batch| && forall i :: 0 <= i < |replies| ==> replies[i] == Answered
    requires Welcome(rows, batch) && OneIdentity(batch)
    ensures Delivered(rows, batch, replies) == |batch|
    decreases |batch|
  {
    if batch != [] {
      assert batch[0] in batch;
      var rest, first := batch[1..], batch[0].payload;
      forall e | e in rest && e.payload.attemptId in Upsert(rows, first)
        ensures SameIdentity(Upsert(rows, first)[e.payload.attemptId], e.payload)
      {
        assert e in batch;
      }
      assert forall d, e :: d in rest && e in rest ==> d in batch && e in batch;
      AllDelivered(Upsert(rows, batch[0].payload), batch[1..], replies[1..]);
    }
  }

  /** The spool after a flush with no concurrent appends. */
  function FlushTable(rows: AttemptTable, table: seq<SpoolEntry>, limit: nat, replies: seq<Reply>): seq<SpoolEntry>
    requires |replies| == |Oldest(table, limit)|
  {
    var batch := Oldest(table, limit);
    Without(table, Ids(batch[..Delivered(rows, batch, replies)]))
  }

  /** With a primary that answers, one flush removes min(limit, size) entries. */
  lemma FlushShrinks(rows: AttemptTable, table: seq<SpoolEntry>, limit: nat, replies: seq<Reply>)
    requires UniqueIds(table) && Welcome(rows, table) && OneIdentity(table)
    requires |replies| == |Oldest(table, limit)| && forall i :: 0 <= i < |replies| ==> replies[i] == Answered
    ensures |FlushTable(rows, table, limit, replies)| == LeftAfter(|table|, limit, 1)
    ensures forall e :: e in FlushTable(rows, table, limit, replies) ==> e in table
  {
    var batch := Oldest(table, limit);
    OrderBySorts(table);
    forall e | e in batch
      ensures e in table
    {
      assert e in OrderBy(table) && e in multiset(OrderBy(table));
    }
    AllDelivered(rows, batch, replies);
    var k := |batch|;
    forall e ensures e in Without(table, Ids(batch[..k])) ==> e in table {
      WithoutMembers(table, Ids(batch[..k]), e);
    }
    if batch == [] {
      assert Ids(batch[..k]) == {};
      WithoutNone(table);
    } else {
      AcknowledgeRemovesPrefix(table, limit, k, batch[0]);
    }
  }

  /** `n` flushes with a primary that answers, applying each batch to its rows. */
  ghost function FlushTimes(rows: AttemptTable, table: seq<SpoolEntry>, limit: nat, n: nat): seq<SpoolEntry>
    decreases n
  {
    if n == 0 then table
    else
      var batch := Oldest(table, limit);
      var replies := seq(|batch|, _ => Answered);
      FlushTimes(FlushedRows(rows, batch, replies), FlushTable(rows, table, limit, replies), limit, n - 1)
  }

  lemma {:induction false} FlushedWelcome(
      rows: AttemptTable, batch: seq<SpoolEntry>, replies: seq<Reply>, table: seq<SpoolEntry>)
    requires |replies| == |batch| && Welcome(rows, table) && OneIdentity(table)
    requires forall e :: e in batch ==> e in table
    ensures Welcome(FlushedRows(rows, batch, replies), table)
    decreases |batch|
  {
    if batch != [] {
      assert batch[0] in batch;
      FlushedWelcome(RowsAfter(rows, batch[0].payload, replies[0]), batch[1..], replies[1..], table);
    }
  }

  function LeftAfter(size: nat, limit: nat, n: nat): nat {
    if n * limit <= size then size - n * limit else 0
  }

  lemma LeftAfterOne(size: nat, limit: nat, n: nat)
    requires n > 0
    ensures LeftAfter(size, limit, n) == LeftAfter(LeftAfter(size, limit, 1), limit, n - 1)
  {
    assert n * limit == (n - 1) * limit + limit && (n - 1) * limit >= 0;
  }

  /** What a flush leaves is still a spool the primary accepts throughout. */
  lemma FlushKeepsWelcome(rows: AttemptTable, table: seq<SpoolEntry>, limit: nat, replies: seq<Reply>)
    requires UniqueIds(table) && Welcome(rows, table) && OneIdentity(table)
    requires |replies| == |Oldest(table, limit)|
    ensures var rest := FlushTable(rows, table, limit, replies);
            UniqueIds(rest) && OneIdentity(rest) && Welcome(FlushedRows(rows, Oldest(table, limit), replies), rest)
  {
    var batch := Oldest(table, limit);
    OrderBySorts(table);
    forall e | e in batch
      ensures e in table
    {
      assert e in OrderBy(table) && e in multiset(OrderBy(table));
    }
    FlushedWelcome(rows, batch, replies, table);
    var gone := Ids(batch[..Delivered(rows, batch, replies)]);
    WithoutUnique(table, gone);
    forall e | e in Without(table, gone)
      ensures e in table
    {
      WithoutMembers(table, gone, e);
    }
  }

  /** Each flush removes min(limit, size) entries, so ceil(size / limit) of them drain the spool. */
  lemma {:induction false} FlushesDrain(rows: AttemptTable, table: seq<SpoolEntry>, limit: nat, n: nat)
    requires UniqueIds(table) && Welcome(rows, table) && OneIdentity(table)
    requires limit > 0
    ensures |FlushTimes(rows, table, limit, n)| == LeftAfter(|table|, limit, n)
    decreases n
  {
    if n > 0 {
      var batch := Oldest(table, limit);
      var replies := seq(|batch|, _ => Answered);
      FlushShrinks(rows, table, limit, replies);
      FlushKeepsWelcome(rows, table, limit, replies);
      FlushesDrain(FlushedRows(rows, batch, replies), FlushTable(rows, table, limit, replies), limit, n - 1);
      LeftAfterOne(|table|, limit, n);
    }
  }

  /** A flush makes progress exactly when the oldest entry is accepted: one refused entry holds back the rest. */
  lemma FlushProgressIff(rows: AttemptTable, table: seq<SpoolEntry>, limit: nat, replies: seq<Reply>)
    requires UniqueIds(table) && limit > 0 && table != []
    requires |replies| == |Oldest(table, limit)|
    ensures OrderBy(table) != [] && replies != []
    ensures |FlushTable(rows, table, limit, replies)| < |table|
        <==> Accepts(rows, OrderBy(table)[0].payload, replies[0])
  {
    OrderBySorts(table);
    var batch := Oldest(table, limit);
    AcknowledgeRemovesPrefix(table, limit, Delivered(rows, batch, replies), batch[0]);
  }

  /** Such a flush: the primary is unreachable for the oldest entry and answers the next. It would accept the second
      entry, and the spool stays as it was. */
  lemma RefusedHeadHoldsBack(rows: AttemptTable, first: SpoolEntry, second: SpoolEntry)
    requires first.at < second.at && first.id != second.id
    requires second.payload.attemptId !in rows
    ensures var table, replies := [first, second], [Unreachable, Answered];
            && Oldest(table, 2) == table && UniqueIds(table)
            && Accepts(rows, second.payload, replies[1])
            && FlushTable(rows, table, 2, replies) == table
  {
    var table, replies := [first, second], [Unreachable, Answered];
    assert Ordered(table);
    assert table[1..] == [second] && [second][1..] == [];
    assert OrderBy([second]) == Place(second, OrderBy([])) == [second];
    assert OrderBy(table) == Place(first, [second]) == table;
    assert table[..2] == table && table[..0] == [];
    assert Delivered(rows, table, replies) == 0;
    assert Ids([]) == {};
    WithoutNone(table);
  }
}
