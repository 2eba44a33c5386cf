// The usage-attempt table and its monotone upsert.

module AttemptStore {
  import opened Domain

  /** A UUID in text form: it never contains the separator used by spool ids. */
  type AttemptId = s: string | ':' !in s

  datatype AttemptOutcome = Failed | Committed | Succeeded | PartialFailed | Cancelled
  {
    predicate IsStreamTerminal() {
      Succeeded? || PartialFailed? || Cancelled?
    }

    function AsStr(): string {
      match this
      case Failed => "failed"
      case Committed => "committed"
      case Succeeded => "succeeded"
      case PartialFailed => "partial_failed"
      case Cancelled => "cancelled"
    }
  }

  datatype AttemptRecord = AttemptRecord(
    attemptId: AttemptId,
    requestId: string,
    routeId: RouteId,
    outcome: AttemptOutcome,
    failureCategory: Option<string>
  )

  datatype AttemptRow = AttemptRow(
    requestId: string, routeId: RouteId, outcome: AttemptOutcome, failureCategory: Option<string>)

  type AttemptTable = map<AttemptId, AttemptRow>

  function RowOf(r: AttemptRecord): AttemptRow {
    AttemptRow(r.requestId, r.routeId, r.outcome, r.failureCategory)
  }

  predicate SameIdentity(row: AttemptRow, r: AttemptRecord) {
    row.requestId == r.requestId && row.routeId == r.routeId
  }

  /** One row under `INSERT ... ON CONFLICT (id) DO UPDATE ... WHERE ...`. */
  function UpsertRow(row: Option<AttemptRow>, r: AttemptRecord): AttemptRow {
    match row
    case None => RowOf(r)
    case Some(stored) =>
      if SameIdentity(stored, r) && stored.outcome == Committed && r.outcome.IsStreamTerminal() then
        stored.(outcome := r.outcome, failureCategory := r.failureCategory)
      else
        stored
  }

  function Lookup(rows: AttemptTable, id: AttemptId): Option<AttemptRow> {
    if id in rows then Some(rows[id]) else None
  }

  function Upsert(rows: AttemptTable, r: AttemptRecord): AttemptTable {
    rows[r.attemptId := UpsertRow(Lookup(rows, r.attemptId), r)]
  }

  /** The second statement of `record_attempt`: is the stored attempt the one being recorded? */
  predicate IdentityMatches(rows: AttemptTable, r: AttemptRecord) {
    r.attemptId in rows && SameIdentity(rows[r.attemptId], r)
  }

  function RowsAfter(rows: AttemptTable, r: AttemptRecord, reply: Reply): AttemptTable {
    if reply.Unreachable? then rows else Upsert(rows, r)
  }

  predicate Accepts(rows: AttemptTable, r: AttemptRecord, reply: Reply) {
    reply.Answered? && IdentityMatches(Upsert(rows, r), r)
  }

  class PrimaryStore {
    var rows: AttemptTable

    constructor ()
      ensures rows == map[]
    {
      rows := map[];
    }

    method RecordAttempt(r: AttemptRecord, reply: Reply) returns (result: Result<(), string>)
      modifies this
      ensures rows == RowsAfter(old(rows), r, reply)
      ensures result.Ok? <==> Accepts(old(rows), r, reply)
      ensures result.Ok? <==>
                && reply == Answered
                && rows[r.attemptId].requestId == r.requestId && rows[r.attemptId].routeId == r.routeId
      ensures reply != Unreachable && r.attemptId !in old(rows) ==>
                rows == old(rows)[r.attemptId := AttemptRow(r.requestId, r.routeId, r.outcome, r.failureCategory)]
      ensures reply != Unreachable && r.attemptId in old(rows) ==>
                var row := old(rows)[r.attemptId];
                rows == if && row.requestId == r.requestId && row.routeId == r.routeId && row.outcome == Committed
                           && r.outcome in {Succeeded, PartialFailed, Cancelled}
                        then old(rows)[r.attemptId :=
                               AttemptRow(r.requestId, r.routeId, r.outcome, r.failureCategory)]
                        else old(rows)
      ensures reply == Unreachable ==> rows == old(rows)
    {
      if reply.Unreachable? {
        return Err("primary usage store unavailable");
      }
      if r.attemptId !in rows {
        rows := rows[r.attemptId := AttemptRow(r.requestId, r.routeId, r.outcome, r.failureCategory)];
      } else {
        var row := rows[r.attemptId];
        if row.requestId == r.requestId && row.routeId == r.routeId && row.outcome == Committed
           && r.outcome in {Succeeded, PartialFailed, Cancelled}
        {
          rows := rows[r.attemptId := row.(outcome := r.outcome, failureCategory := r.failureCategory)];
        }
      }
      var stored := rows[r.attemptId];
      if !(stored.requestId == r.requestId && stored.routeId == r.routeId) {
        return Err("attempt identity does not match the persisted attempt");
      }
      if reply.FailedAfterWrite? {
        return Err("connection lost");
      }
      return Ok(());
    }
  }

  // ---------- Any sequence of deliveries ----------

  function DeliverAll(rows: AttemptTable, log: seq<AttemptRecord>): AttemptTable {
    if log == [] then rows else Upsert(DeliverAll(rows, log[..|log| - 1]), log[|log| - 1])
  }

  /** Once an attempt has reached a terminal outcome no further delivery changes its row. */
  lemma {:induction false} TerminalRowIsFinal(rows: AttemptTable, log: seq<AttemptRecord>, id: AttemptId)
    requires id in rows && rows[id].outcome != Committed
    ensures id in DeliverAll(rows, log) && DeliverAll(rows, log)[id] == rows[id]
  {
    if log != [] {
      TerminalRowIsFinal(rows, log[..|log| - 1], id);
    }
  }

  /** A row's identity is fixed by the first record delivered for its attempt. */
  lemma {:induction false} IdentityIsFixed(rows: AttemptTable, log: seq<AttemptRecord>, id: AttemptId)
    requires id in rows
    ensures var after := DeliverAll(rows, log);
            id in after && after[id].requestId == rows[id].requestId && after[id].routeId == rows[id].routeId
  {
    if log != [] {
      IdentityIsFixed(rows, log[..|log| - 1], id);
    }
  }

  lemma {:induction false} DeliverConcat(rows: AttemptTable, a: seq<AttemptRecord>, b: seq<AttemptRecord>)
    ensures DeliverAll(rows, a + b) == DeliverAll(DeliverAll(rows, a), b)
  {
    if b == [] {
      assert a + b == a;
    } else {
      assert (a + b)[..|a + b| - 1] == a + b[..|b| - 1];
      DeliverConcat(rows, a, b[..|b| - 1]);
    }
  }

  /** Delivering again a record that was delivered before, however long ago, changes nothing. */
  lemma {:induction false} RedeliveryIsIdempotent(rows: AttemptTable, log: seq<AttemptRecord>, r: AttemptRecord)
    requires r in log
    ensures Upsert(DeliverAll(rows, log), r) == DeliverAll(rows, log)
  {
    var k :| 0 <= k < |log| && log[k] == r;
    var before, later := log[..k], log[k + 1..];
    assert log == (before + [r]) + later;
    DeliverConcat(rows, before + [r], later);
    var mid := DeliverAll(rows, before + [r]);
    assert (before + [r])[..|before + [r]| - 1] == before;
    assert mid == Upsert(DeliverAll(rows, before), r);
    var end := DeliverAll(mid, later);
    IdentityIsFixed(mid, later, r.attemptId);
    if mid[r.attemptId].outcome != Committed {
      TerminalRowIsFinal(mid, later, r.attemptId);
    }
    assert end[r.attemptId := end[r.attemptId]] == end;
  }

  // ---------- When delivery order does not matter ----------

  /** All records of one attempt, with one identity. */
  ghost predicate OneAttempt(s: set<AttemptRecord>, id: AttemptId) {
    && s != {}
    && (forall r :: r in s ==> r.attemptId == id)
    && (forall r, q :: r in s && q in s ==> r.requestId == q.requestId && r.routeId == q.routeId)
  }

  /** One distinct terminal record at most, which is a stream outcome if the attempt also committed. */
  ghost predicate OneTerminal(s: set<AttemptRecord>) {
    && (forall r, q :: r in s && q in s && r.outcome != Committed && q.outcome != Committed ==> r == q)
    && (forall r, q :: r in s && q in s && r.outcome == Committed && q.outcome != Committed ==>
        q.outcome.IsStreamTerminal())
    && ((forall r :: r in s ==> r.outcome == Committed) ==> forall r, q :: r in s && q in s ==> r == q)
  }

  /** The record whose row an order-insensitive set of deliveries must end in. */
  ghost predicate Decides(s: set<AttemptRecord>, r: AttemptRecord) {
    r in s && (r.outcome == Committed ==> forall q :: q in s ==> q.outcome == Committed)
  }

  /** Records of other attempts may be interleaved freely. */
  ghost predicate Delivers(log: seq<AttemptRecord>, id: AttemptId, s: set<AttemptRecord>) {
    forall r :: r in s <==> r in log && r.attemptId == id
  }

  /** What the row of an attempt with one terminal record is after any prefix of deliveries. */
  lemma {:induction false} RowSoFar(log: seq<AttemptRecord>, id: AttemptId, s: set<AttemptRecord>, t: AttemptRecord)
    requires OneAttempt(s, id) && OneTerminal(s) && Decides(s, t)
    requires forall r :: r in log && r.attemptId == id ==> r in s
    ensures var row := Lookup(DeliverAll(map[], log), id);
            && (t in log ==> row == Some(RowOf(t)))
            && (t !in log && row.Some? ==>
                  && row.value.outcome == Committed
                  && row.value.requestId == t.requestId && row.value.routeId == t.routeId)
            && (row.Some? <==> exists r :: r in log && r.attemptId == id)
  {
    if log != [] {
      var init, last := log[..|log| - 1], log[|log| - 1];
      RowSoFar(init, id, s, t);
      assert log == init + [last];
      assert forall r :: r in log <==> r in init || r == last;
      if last.attemptId == id {
        assert last in s;
      }
    }
  }

  ghost predicate OrderInsensitive(s: set<AttemptRecord>, id: AttemptId) {
    forall a, b :: Delivers(a, id, s) && Delivers(b, id, s) ==>
      Lookup(DeliverAll(map[], a), id) == Lookup(DeliverAll(map[], b), id)
  }

  lemma Decider(s: set<AttemptRecord>, id: AttemptId) returns (t: AttemptRecord)
    requires OneAttempt(s, id)
    ensures Decides(s, t)
  {
    if exists r :: r in s && r.outcome != Committed {
      t :| t in s && t.outcome != Committed;
    } else {
      t :| t in s;
    }
  }

  /** With one terminal record, every delivery order and any duplication ends in exactly that record's row. */
  lemma OneTerminalSettles(log: seq<AttemptRecord>, id: AttemptId, s: set<AttemptRecord>, t: AttemptRecord)
    requires OneAttempt(s, id) && OneTerminal(s) && Decides(s, t) && Delivers(log, id, s)
    ensures Lookup(DeliverAll(map[], log), id) == Some(RowOf(t))
  {
    RowSoFar(log, id, s, t);
  }

  lemma {:induction false} Enumerate(s: set<AttemptRecord>) returns (log: seq<AttemptRecord>)
    ensures forall r :: r in log <==> r in s
    decreases |s|
  {
    log := [];
    if s != {} {
      var r :| r in s;
      var rest := Enumerate(s - {r});
      log := [r] + rest;
    }
  }

  /** Delivered first, a terminal record stays; a committed record gives way only to a stream outcome. */
  lemma {:induction false} FirstDeliveryWins(first: AttemptRecord, rest: seq<AttemptRecord>)
    requires first.outcome != Committed
             || forall r :: r in rest && r.attemptId == first.attemptId ==> !r.outcome.IsStreamTerminal()
    ensures Lookup(DeliverAll(map[], [first] + rest), first.attemptId) == Some(RowOf(first))
  {
    if rest == [] {
      assert ([first] + rest)[..0] == [];
      assert DeliverAll(map[], [first] + rest) == Upsert(map[], first);
    } else {
      var log := [first] + rest;
      assert log[..|log| - 1] == [first] + rest[..|rest| - 1] && log[|log| - 1] == rest[|rest| - 1];
      FirstDeliveryWins(first, rest[..|rest| - 1]);
    }
  }

  lemma FirstOf(s: set<AttemptRecord>, id: AttemptId, first: AttemptRecord) returns (log: seq<AttemptRecord>)
    requires OneAttempt(s, id) && first in s
    requires first.outcome != Committed || forall r :: r in s ==> !r.outcome.IsStreamTerminal()
    ensures Delivers(log, id, s) && Lookup(DeliverAll(map[], log), id) == Some(RowOf(first))
  {
    var rest := Enumerate(s);
    log := [first] + rest;
    FirstDeliveryWins(first, rest);
  }

  /** The stored row is independent of delivery order exactly when there is one terminal record at most
      (a stream outcome if the attempt committed). */
  lemma OrderInsensitiveIff(s: set<AttemptRecord>, id: AttemptId)
    requires OneAttempt(s, id)
    ensures OrderInsensitive(s, id) <==> OneTerminal(s)
  {
    if OneTerminal(s) {
      var t := Decider(s, id);
      forall a | Delivers(a, id, s)
        ensures Lookup(DeliverAll(map[], a), id) == Some(RowOf(t))
      {
        OneTerminalSettles(a, id, s, t);
      }
    } else {
      var p, q :| p in s && q in s && p != q
        && (p.outcome != Committed || forall r :: r in s ==> !r.outcome.IsStreamTerminal())
        && (q.outcome != Committed || forall r :: r in s ==> !r.outcome.IsStreamTerminal());
      var a := FirstOf(s, id, p);
      var b := FirstOf(s, id, q);
      assert RowOf(p) != RowOf(q);
    }
  }
}
