/** Reading a table batch by batch behind a cursor. */
module KeysetPages {
  /** Which calls fail: the context ends before round `deadline`, a query or an insertion may fail in any round. */
  datatype Faults = Faults(deadline: nat, query: nat -> bool, insert: nat -> bool)

  datatype Outcome = Finished | Cancelled | QueryFailed | InsertFailed

  ghost predicate NoFaults(f: Faults) {
    forall k :: !f.query(k) && !f.insert(k)
  }

  /** WHERE: the rows that satisfy the condition, in table order. */
  function Where<R>(rows: seq<R>, p: R -> bool): seq<R> {
    if rows == [] then []
    else if p(rows[0]) then [rows[0]] + Where(rows[1..], p)
    else Where(rows[1..], p)
  }

  lemma {:induction false} WhereIsSuffix<R>(rows: seq<R>, p: R -> bool, m: nat)
    requires m <= |rows|
    requires forall i :: 0 <= i < m ==> !p(rows[i])
    requires forall i :: m <= i < |rows| ==> p(rows[i])
    ensures Where(rows, p) == rows[m..]
    decreases |rows|
  {
    if rows == [] {
    } else {
      WhereIsSuffix(rows[1..], p, if m == 0 then 0 else m - 1);
    }
  }

  /** LIMIT. */
  function Limited<R>(rows: seq<R>, limit: nat): seq<R> {
    if |rows| <= limit then rows else rows[..limit]
  }

  function Min(a: nat, b: nat): nat {
    if a < b then a else b
  }

  /** The number of batches that `n` rows fill. */
  function Batches(n: nat, batch: nat): nat
    requires batch >= 1
  {
    if n == 0 then 0 else 1 + Batches(n - Min(batch, n), batch)
  }

  function Mapped<R, E>(rows: seq<R>, f: R -> E): (r: seq<E>)
    ensures |r| == |rows|
  {
    seq(|rows|, i requires 0 <= i < |rows| => f(rows[i]))
  }

  lemma MappedConcat<R, E>(a: seq<R>, b: seq<R>, f: R -> E)
    ensures Mapped(a + b, f) == Mapped(a, f) + Mapped(b, f)
  {
  }

  /** The payload of one batch, built row by row. */
  method BuildPayload<R, E>(rows: seq<R>, f: R -> E) returns (payload: seq<E>)
    ensures payload == Mapped(rows, f)
  {
    payload := [];
    for n := 0 to |rows|
      invariant |payload| == n && forall i :: 0 <= i < n ==> payload[i] == f(rows[i])
    {
      payload := payload + [f(rows[n])];
    }
  }

  /** The cursor leaves the zero value with the first batch, unless there is nothing to read. */
  predicate Advances<R>(rows: seq<R>, zero: R -> bool, batch: nat)
    requires batch >= 1
  {
    rows == [] || !zero(rows[Min(batch, |rows|) - 1])
  }

  /** What a seed run promises, whatever fails. */
  ghost predicate SeedsRows<R(!new), E>(rows: seq<R>, zero: R -> bool, f: R -> E, batch: nat, faults: Faults,
                                  outcome: Outcome, inserted: seq<E>, count: nat)
    requires batch >= 1
  {
    && count == |inserted|
    && (outcome == Finished ==> inserted == Mapped(rows, f))
    && (Advances(rows, zero, batch) ==> inserted <= Mapped(rows, f))
    && (outcome == Finished ==> Advances(rows, zero, batch))
    && (NoFaults(faults) ==>
          (outcome == Finished <==> Advances(rows, zero, batch) && faults.deadline > Batches(|rows|, batch)))
  }

  /** The state of a run before round `k`: `done` rows are read, `rest` is what the next query sees. */
  ghost predicate Midway<R(!new), E>(rows: seq<R>, zero: R -> bool, f: R -> E, batch: nat,
                                     k: nat, done: nat, rest: seq<R>, inserted: seq<E>, count: nat)
    requires batch >= 1
  {
    && count == |inserted|
    && done <= |rows|
    && (Advances(rows, zero, batch) ==>
          && rest == rows[done..] && inserted == Mapped(rows[..done], f)
          && k + Batches(|rows| - done, batch) == Batches(|rows|, batch))
    && (!Advances(rows, zero, batch) ==> rest == rows)
  }

  /** One more batch. */
  lemma OneRound<R(!new), E>(rows: seq<R>, zero: R -> bool, f: R -> E, batch: nat,
                             k: nat, done: nat, rest: seq<R>, inserted: seq<E>, count: nat) returns (next: nat)
    requires batch >= 1 && Midway(rows, zero, f, batch, k, done, rest, inserted, count) && rest != []
    ensures next <= |rows| && (Advances(rows, zero, batch) ==> next == done + |Limited(rest, batch)|)
    ensures var got := Limited(rest, batch);
            Midway(rows, zero, f, batch, k + 1, next, if Advances(rows, zero, batch) then rows[next..] else rows,
                   inserted + Mapped(got, f), count + |got|)
  {
    var got := Limited(rest, batch);
    next := done;
    if Advances(rows, zero, batch) {
      next := done + |got|;
      assert rows[..next] == rows[..done] + got;
      MappedConcat(rows[..done], got, f);
      assert |rest| == |rows| - done;
      assert |got| == Min(batch, |rest|);
    }
  }

  /** The two ways a run ends. */
  lemma RunEnds<R(!new), E>(rows: seq<R>, zero: R -> bool, f: R -> E, batch: nat, faults: Faults,
                            k: nat, done: nat, rest: seq<R>, inserted: seq<E>, count: nat, outcome: Outcome)
    requires batch >= 1 && Midway(rows, zero, f, batch, k, done, rest, inserted, count) && k <= faults.deadline
    requires match outcome
             case Finished => rest == [] && k < faults.deadline
             case Cancelled => k == faults.deadline
             case QueryFailed => faults.query(k)
             case InsertFailed => faults.insert(k)
    ensures SeedsRows(rows, zero, f, batch, faults, outcome, inserted, count)
  {
    if Advances(rows, zero, batch) {
      assert rows == rows[..done] + rows[done..];
      MappedConcat(rows[..done], rows[done..], f);
    }
  }
}

/** Seeding membership events, with a cursor of creation time and identifier. */
module SeedMembership {
  import opened Text
  import opened KeysetPages

  /** Times are counted from Go's zero time. */
  datatype MembershipRow = MembershipRow(
    id: string, contactId: string, channel: string, action: string, source: string, occurredAt: nat, createdAt: nat)

  datatype MembershipEvent = MembershipEvent(
    contactId: string, channel: string, action: string, source: string, occurredAt: nat)

  function EventOf(row: MembershipRow): MembershipEvent {
    MembershipEvent(TrimSpace(row.contactId), TrimSpace(row.channel), TrimSpace(row.action), TrimSpace(row.source),
                    row.occurredAt)
  }

  /** How the database orders identifiers. */
  type IdOrder = (string, string) -> bool

  /** The condition on the next rows. */
  predicate IsAfter(idLess: IdOrder, createdAt: nat, id: string, row: MembershipRow) {
    row.createdAt > createdAt || (row.createdAt == createdAt && idLess(id, row.id))
  }

  /** ORDER BY created_at, id, with no two rows alike. */
  ghost predicate InCursorOrder(idLess: IdOrder, rows: seq<MembershipRow>) {
    && (forall i, j :: 0 <= i < j < |rows| ==> IsAfter(idLess, rows[i].createdAt, rows[i].id, rows[j]))
    && (forall i, j :: 0 <= i <= j < |rows| ==> !IsAfter(idLess, rows[j].createdAt, rows[j].id, rows[i]))
  }

  predicate ZeroCursor(row: MembershipRow) {
    row.createdAt == 0
  }

  function Query(idLess: IdOrder, rows: seq<MembershipRow>, createdAt: nat, id: string): seq<MembershipRow> {
    if createdAt == 0 then rows else Where(rows, row => IsAfter(idLess, createdAt, id, row))
  }

  lemma QueryAfter(idLess: IdOrder, rows: seq<MembershipRow>, i: nat)
    requires InCursorOrder(idLess, rows) && i < |rows| && rows[i].createdAt != 0
    ensures Query(idLess, rows, rows[i].createdAt, rows[i].id) == rows[i + 1..]
  {
    WhereIsSuffix(rows, row => IsAfter(idLess, rows[i].createdAt, rows[i].id, row), i + 1);
  }

  /** Later rows are no closer to the zero time than earlier ones. */
  lemma LaterIsNotZero(idLess: IdOrder, rows: seq<MembershipRow>, i: nat, j: nat)
    requires InCursorOrder(idLess, rows) && i <= j < |rows| && rows[i].createdAt != 0
    ensures rows[j].createdAt != 0
  {
    if i < j { assert IsAfter(idLess, rows[i].createdAt, rows[i].id, rows[j]); }
  }

  /** What the query after a batch sees. */
  lemma NextQuery(idLess: IdOrder, rows: seq<MembershipRow>, batch: nat, done: nat, next: nat, got: seq<MembershipRow>)
    requires batch >= 1 && InCursorOrder(idLess, rows) && done <= |rows| && next <= |rows| && got != []
    requires got == Limited(if Advances(rows, ZeroCursor, batch) then rows[done..] else rows, batch)
    requires Advances(rows, ZeroCursor, batch) ==>
               next == done + |got| && (done == 0 || Min(batch, |rows|) <= done)
    ensures Query(idLess, rows, got[|got| - 1].createdAt, got[|got| - 1].id) ==
            if Advances(rows, ZeroCursor, batch) then rows[next..] else rows
    ensures Advances(rows, ZeroCursor, batch) ==> Min(batch, |rows|) <= next
  {
    if Advances(rows, ZeroCursor, batch) {
      LaterIsNotZero(idLess, rows, Min(batch, |rows|) - 1, next - 1);
      QueryAfter(idLess, rows, next - 1);
      assert got[|got| - 1] == rows[next - 1];
    } else {
      assert got[|got| - 1] == rows[Min(batch, |rows|) - 1];
    }
  }

  /** The event has the row's contact, channel, action, source and time of occurrence, each in its own field. */
  ghost predicate Reports(e: MembershipEvent, row: MembershipRow) {
    && e.contactId == TrimSpace(row.contactId) && e.channel == TrimSpace(row.channel)
    && e.action == TrimSpace(row.action) && e.source == TrimSpace(row.source)
    && e.occurredAt == row.occurredAt
  }

  lemma EventReports(row: MembershipRow)
    ensures Reports(EventOf(row), row)
  {
  }

  /**
   Whatever fails, the inserted events are those of the first rows, each row once; a run that finishes has inserted
   all. Without failures a run finishes if and only if the cursor advances and there is time for all batches.
   */
  method SeedMembershipEvents(idLess: IdOrder, rows: seq<MembershipRow>, batch: nat, faults: Faults)
    returns (outcome: Outcome, inserted: seq<MembershipEvent>, count: nat)
    requires batch >= 1 && InCursorOrder(idLess, rows)
    ensures SeedsRows(rows, ZeroCursor, EventOf, batch, faults, outcome, inserted, count)
    ensures Advances(rows, ZeroCursor, batch) ==>
              |inserted| <= |rows| && forall i :: 0 <= i < |inserted| ==> Reports(inserted[i], rows[i])
  {
    outcome, inserted, count := SeedBatches(EventOf, idLess, rows, batch, faults);
    if Advances(rows, ZeroCursor, batch) {
      forall i | 0 <= i < |inserted| ensures Reports(inserted[i], rows[i]) {
        assert inserted[i] == Mapped(rows, EventOf)[i];
        EventReports(rows[i]);
      }
    }
  }

  /** The loop, for any payload of a row. */
  method SeedBatches(toEvent: MembershipRow -> MembershipEvent, idLess: IdOrder,
                              rows: seq<MembershipRow>, batch: nat, faults: Faults)
    returns (outcome: Outcome, inserted: seq<MembershipEvent>, count: nat)
    requires batch >= 1 && InCursorOrder(idLess, rows)
    ensures SeedsRows(rows, ZeroCursor, toEvent, batch, faults, outcome, inserted, count)
  {
    var lastCreatedAt, lastID := 0, "";
    inserted, count := [], 0;
    var k: nat := 0;
    ghost var done: nat := 0;
    assert rows[0..] == rows && Mapped(rows[..0], toEvent) == [];
    while k < faults.deadline
      invariant k <= faults.deadline
      invariant Midway(rows, ZeroCursor, toEvent, batch, k, done, Query(idLess, rows, lastCreatedAt, lastID),
                       inserted, count)
      invariant Advances(rows, ZeroCursor, batch) ==> done == 0 || Min(batch, |rows|) <= done
    {
      ghost var rest := Query(idLess, rows, lastCreatedAt, lastID);
      if faults.query(k) {
        outcome := QueryFailed;
        RunEnds(rows, ZeroCursor, toEvent, batch, faults, k, done, rest, inserted, count, outcome);
        return;
      }
      var got := Limited(Query(idLess, rows, lastCreatedAt, lastID), batch);
      if |got| == 0 {
        outcome := Finished;
        RunEnds(rows, ZeroCursor, toEvent, batch, faults, k, done, rest, inserted, count, outcome);
        return;
      }
      var payload := BuildPayload(got, toEvent);
      if faults.insert(k) {
        outcome := InsertFailed;
        RunEnds(rows, ZeroCursor, toEvent, batch, faults, k, done, rest, inserted, count, outcome);
        return;
      }
      ghost var next := OneRound(rows, ZeroCursor, toEvent, batch, k, done, rest, inserted, count);
      NextQuery(idLess, rows, batch, done, next, got);
      inserted := inserted + payload;
      count := count + |payload|;
      lastCreatedAt := got[|got| - 1].createdAt;
      lastID := got[|got| - 1].id;
      done := next;
      k := k + 1;
    }
    outcome := Cancelled;
    RunEnds(rows, ZeroCursor, toEvent, batch, faults, k, done, Query(idLess, rows, lastCreatedAt, lastID),
            inserted, count, outcome);
  }
}

/** Seeding contacts, with a cursor of the identifier alone. */
module SeedContacts {
  import opened Basics
  import opened Text
  import opened KeysetPages

  /** Times are counted from Go's zero time; the other text fields of a contact are kept together. */
  datatype ContactRow = ContactRow(id: string, details: seq<string>, createdAt: Option<nat>, updatedAt: Option<nat>)

  datatype ContactSnapshot = ContactSnapshot(contactId: string, details: seq<string>, createdAt: nat, updatedAt: nat)

  function Trimmed(details: seq<string>): seq<string> {
    Mapped(details, TrimSpace)
  }

  /** Missing times become the current time, a zero update time becomes the creation time. */
  function SnapshotOf(row: ContactRow, now: nat): ContactSnapshot {
    var created := if row.createdAt.Some? && row.createdAt.value != 0 then row.createdAt.value else now;
    var updated := if row.updatedAt.Some? then row.updatedAt.value else now;
    ContactSnapshot(TrimSpace(row.id), Trimmed(row.details), created, if updated == 0 then created else updated)
  }

  type IdOrder = (string, string) -> bool

  /** ORDER BY id, with no two rows alike; the empty identifier comes first. */
  ghost predicate InIdOrder(idLess: IdOrder, rows: seq<ContactRow>) {
    && (forall i, j :: 0 <= i < j < |rows| ==> idLess(rows[i].id, rows[j].id))
    && (forall i, j :: 0 <= i <= j < |rows| ==> !idLess(rows[j].id, rows[i].id))
    && (forall i :: 0 <= i < |rows| ==> !idLess(rows[i].id, ""))
  }

  predicate EmptyId(row: ContactRow) {
    row.id == ""
  }

  function Query(idLess: IdOrder, rows: seq<ContactRow>, lastID: string): seq<ContactRow> {
    if lastID == "" then rows else Where(rows, (row: ContactRow) => idLess(lastID, row.id))
  }

  lemma QueryAfter(idLess: IdOrder, rows: seq<ContactRow>, i: nat)
    requires InIdOrder(idLess, rows) && i < |rows| && rows[i].id != ""
    ensures Query(idLess, rows, rows[i].id) == rows[i + 1..]
  {
    WhereIsSuffix(rows, (row: ContactRow) => idLess(rows[i].id, row.id), i + 1);
  }

  lemma LaterIsNotEmpty(idLess: IdOrder, rows: seq<ContactRow>, i: nat, j: nat)
    requires InIdOrder(idLess, rows) && i <= j < |rows| && rows[i].id != ""
    ensures rows[j].id != ""
  {
    if i < j { assert idLess(rows[i].id, rows[j].id); }
  }

  /** What the query after a batch sees. */
  lemma NextQuery(idLess: IdOrder, rows: seq<ContactRow>, batch: nat, done: nat, next: nat, got: seq<ContactRow>)
    requires batch >= 1 && InIdOrder(idLess, rows) && done <= |rows| && next <= |rows| && got != []
    requires got == Limited(if Advances(rows, EmptyId, batch) then rows[done..] else rows, batch)
    requires Advances(rows, EmptyId, batch) ==>
               next == done + |got| && (done == 0 || Min(batch, |rows|) <= done)
    ensures Query(idLess, rows, got[|got| - 1].id) == if Advances(rows, EmptyId, batch) then rows[next..] else rows
    ensures Advances(rows, EmptyId, batch) ==> Min(batch, |rows|) <= next
  {
    if Advances(rows, EmptyId, batch) {
      LaterIsNotEmpty(idLess, rows, Min(batch, |rows|) - 1, next - 1);
      QueryAfter(idLess, rows, next - 1);
      assert got[|got| - 1] == rows[next - 1];
    } else {
      assert got[|got| - 1] == rows[Min(batch, |rows|) - 1];
    }
  }

  /** The snapshot has the row's identifier and text fields in their order, and times that are never missing. */
  ghost predicate Reports(c: ContactSnapshot, row: ContactRow, now: nat) {
    && c.contactId == TrimSpace(row.id)
    && |c.details| == |row.details| && (forall i :: 0 <= i < |c.details| ==> c.details[i] == TrimSpace(row.details[i]))
    && c.createdAt == (match row.createdAt case None => now case Some(t) => if t == 0 then now else t)
    && (match row.updatedAt
        case None => c.updatedAt == if now == 0 then c.createdAt else now
        case Some(t) => c.updatedAt == if t == 0 then c.createdAt else t)
  }

  lemma SnapshotReports(row: ContactRow, now: nat)
    ensures Reports(SnapshotOf(row, now), row, now)
  {
  }

  /** The same promise as for membership events; the clock is read once. */
  method SeedContacts(now: nat, idLess: IdOrder, rows: seq<ContactRow>, batch: nat, faults: Faults)
    returns (outcome: Outcome, upserted: seq<ContactSnapshot>, count: nat)
    requires batch >= 1 && InIdOrder(idLess, rows)
    ensures SeedsRows(rows, EmptyId, row => SnapshotOf(row, now), batch, faults, outcome, upserted, count)
    ensures Advances(rows, EmptyId, batch) ==>
              |upserted| <= |rows| && forall i :: 0 <= i < |upserted| ==> Reports(upserted[i], rows[i], now)
  {
    outcome, upserted, count := SeedBatches(row => SnapshotOf(row, now), idLess, rows, batch, faults);
    if Advances(rows, EmptyId, batch) {
      forall i | 0 <= i < |upserted| ensures Reports(upserted[i], rows[i], now) {
        assert upserted[i] == Mapped(rows, row => SnapshotOf(row, now))[i];
        SnapshotReports(rows[i], now);
      }
    }
  }

  /** The loop, for any payload of a row. */
  method SeedBatches(toSnapshot: ContactRow -> ContactSnapshot, idLess: IdOrder,
                      rows: seq<ContactRow>, batch: nat, faults: Faults)
    returns (outcome: Outcome, upserted: seq<ContactSnapshot>, count: nat)
    requires batch >= 1 && InIdOrder(idLess, rows)
    ensures SeedsRows(rows, EmptyId, toSnapshot, batch, faults, outcome, upserted, count)
  {
    var lastID := "";
    upserted, count := [], 0;
    var k: nat := 0;
    ghost var done: nat := 0;
    assert rows[0..] == rows && Mapped(rows[..0], toSnapshot) == [];
    while k < faults.deadline
      invariant k <= faults.deadline
      invariant Midway(rows, EmptyId, toSnapshot, batch, k, done, Query(idLess, rows, lastID), upserted, count)
      invariant Advances(rows, EmptyId, batch) ==> done == 0 || Min(batch, |rows|) <= done
    {
      ghost var rest := Query(idLess, rows, lastID);
      if faults.query(k) {
        outcome := QueryFailed;
        RunEnds(rows, EmptyId, toSnapshot, batch, faults, k, done, rest, upserted, count, outcome);
        return;
      }
      var got := Limited(Query(idLess, rows, lastID), batch);
      if |got| == 0 {
        outcome := Finished;
        RunEnds(rows, EmptyId, toSnapshot, batch, faults, k, done, rest, upserted, count, outcome);
        return;
      }
      var payload := BuildPayload(got, toSnapshot);
      if faults.insert(k) {
        outcome := InsertFailed;
        RunEnds(rows, EmptyId, toSnapshot, batch, faults, k, done, rest, upserted, count, outcome);
        return;
      }
      ghost var next := OneRound(rows, EmptyId, toSnapshot, batch, k, done, rest, upserted, count);
      NextQuery(idLess, rows, batch, done, next, got);
      upserted := upserted + payload;
      count := count + |payload|;
      lastID := got[|got| - 1].id;
      done := next;
      k := k + 1;
    }
    outcome := Cancelled;
    RunEnds(rows, EmptyId, toSnapshot, batch, faults, k, done, Query(idLess, rows, lastID), upserted, count, outcome);
  }
}
