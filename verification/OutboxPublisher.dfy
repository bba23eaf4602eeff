/** One cycle of the outbox publisher (src/ingestion/outbox-publisher.service.ts:75-125). */
module OutboxPublisher {
  import opened Domain
  import opened ShotRepository

  const BATCH_SIZE := 100

  function Ids(events: seq<Event>): set<nat> {
    set e | e in events :: e.id
  }

  ghost predicate DistinctIds(events: seq<Event>) {
    forall i, j | 0 <= i < j < |events| :: events[i].id != events[j].id
  }

  /** ORDER BY created_at LIMIT 100 FOR UPDATE SKIP LOCKED: the oldest rows that no other publisher holds. */
  ghost predicate ValidClaim(outbox: seq<Event>, locked: set<nat>, batch: seq<Event>) {
    && |batch| <= BATCH_SIZE
    && DistinctIds(batch)
    && (forall e | e in batch :: e in outbox && e.id !in locked)
    && (forall i, j | 0 <= i < j < |batch| :: batch[i].createdAt <= batch[j].createdAt)
    && (forall e | e in outbox && e.id !in locked && e !in batch ::
          |batch| == BATCH_SIZE && forall b | b in batch :: b.createdAt <= e.createdAt)
  }

  /** A publisher claims 100 of the free rows, or all of them if there are fewer, and the oldest ones. */
  lemma ClaimsAreTheOldestRows(outbox: seq<Event>, locked: set<nat>, batch: seq<Event>)
    requires ValidClaim(outbox, locked, batch)
    ensures var free := set e | e in outbox && e.id !in locked;
            && |batch| == (if |free| < 100 then |free| else 100)
            && (forall e | e in batch :: e in free)
            && forall e, left | e in batch && left in free && left !in batch :: e.createdAt <= left.createdAt
  {
    var free, claimed := set e | e in outbox && e.id !in locked, set e | e in batch;
    RowsAreCounted(batch);
    if |batch| < 100 {
      assert claimed == free;
    } else {
      assert free == claimed + (free - claimed);
    }
  }

  lemma {:induction false} RowsAreCounted(batch: seq<Event>)
    requires DistinctIds(batch)
    ensures |set e | e in batch| == |batch|
  {
    if batch != [] {
      var rest, last := batch[..|batch| - 1], batch[|batch| - 1];
      RowsAreCounted(rest);
      assert batch == rest + [last];
      assert (set e | e in batch) == (set e | e in rest) + {last};
    }
  }

  /** The events of a batch that reach the listeners, given those whose listeners throw. */
  function Delivered(batch: seq<Event>, throwing: set<nat>): seq<Event> {
    if batch == [] then []
    else
      var last := batch[|batch| - 1];
      Delivered(batch[..|batch| - 1], throwing)
      + if last.eventType == SHOT_PERSISTED && last.id !in throwing then [last] else []
  }

  /** Events of an unknown type are not emitted, but they are deleted with the successful ones. */
  function Settled(batch: seq<Event>, throwing: set<nat>): set<nat> {
    set e | e in batch && !(e.eventType == SHOT_PERSISTED && e.id in throwing) :: e.id
  }

  lemma OneMoreRow(batch: seq<Event>, row: Event, throwing: set<nat>)
    ensures var throws := row.eventType == SHOT_PERSISTED && row.id in throwing;
            && Settled(batch + [row], throwing) == Settled(batch, throwing) + (if throws then {} else {row.id})
            && Delivered(batch + [row], throwing)
               == Delivered(batch, throwing) + (if row.eventType == SHOT_PERSISTED && !throws then [row] else [])
  {
    assert (batch + [row])[..|batch|] == batch;
  }

  lemma {:induction false} DeliveredRows(batch: seq<Event>, throwing: set<nat>)
    ensures forall e :: e in Delivered(batch, throwing) <==> e in batch && e.eventType == "shot.persisted" && e.id !in throwing
  {
    if batch != [] {
      var rest, last := batch[..|batch| - 1], batch[|batch| - 1];
      assert batch == rest + [last];
      DeliveredRows(rest, throwing);
    }
  }

  ghost predicate InOrder(events: seq<Event>) {
    forall i, j | 0 <= i < j < |events| :: events[i].id != events[j].id && events[i].createdAt <= events[j].createdAt
  }

  lemma OneMoreInOrder(events: seq<Event>, last: Event)
    ensures InOrder(events + [last]) <==>
              InOrder(events) && forall e | e in events :: e.id != last.id && e.createdAt <= last.createdAt
  {
    var all := events + [last];
    assert forall i | 0 <= i < |events| :: all[i] == events[i];
    if InOrder(all) {
      forall e | e in events ensures e.id != last.id && e.createdAt <= last.createdAt {
        var i :| 0 <= i < |events| && events[i] == e;
        assert all[i] == e && all[|events|] == last;
      }
      forall i, j | 0 <= i < j < |events|
        ensures events[i].id != events[j].id && events[i].createdAt <= events[j].createdAt
      {
        assert all[i] == events[i] && all[j] == events[j];
      }
    }
  }

  /** Each emitted row of the batch once, in the order of the batch. */
  lemma {:induction false} DeliveryKeepsTheOrder(batch: seq<Event>, throwing: set<nat>)
    requires InOrder(batch)
    ensures InOrder(Delivered(batch, throwing))
  {
    if batch != [] {
      var rest, last := batch[..|batch| - 1], batch[|batch| - 1];
      assert batch == rest + [last];
      OneMoreInOrder(rest, last);
      OneMoreInOrder(Delivered(rest, throwing), last);
      hide InOrder;
      DeliveryKeepsTheOrder(rest, throwing);
      DeliveredRows(rest, throwing);
      assert Delivered(rest, throwing) + [] == Delivered(rest, throwing);
    }
  }

  lemma NothingSettled(throwing: set<nat>)
    ensures Settled([], throwing) == {} && Delivered([], throwing) == []
  {
  }

  lemma SettledRows(batch: seq<Event>, throwing: set<nat>)
    ensures forall id :: id !in Settled(batch, throwing) <==>
              forall row | row in batch && row.id == id :: row.eventType == "shot.persisted" && row.id in throwing
  {
  }

  function Without(outbox: seq<Event>, ids: set<nat>): (rest: seq<Event>)
    ensures forall e :: e in rest <==> e in outbox && e.id !in ids
  {
    if outbox == [] then []
    else
      assert outbox == [outbox[0]] + outbox[1..];
      (if outbox[0].id in ids then [] else [outbox[0]]) + Without(outbox[1..], ids)
  }

  lemma {:induction false} WithoutKeepsIdsDistinct(outbox: seq<Event>, ids: set<nat>)
    requires DistinctIds(outbox)
    ensures DistinctIds(Without(outbox, ids))
  {
    if outbox != [] {
      WithoutKeepsIdsDistinct(outbox[1..], ids);
      forall e | e in Without(outbox[1..], ids) ensures e.id != outbox[0].id {
        var i :| 0 <= i < |outbox[1..]| && outbox[1..][i] == e;
        assert outbox[i + 1] == e;
      }
    }
  }

  lemma {:induction false} WithoutNothing(outbox: seq<Event>)
    ensures Without(outbox, {}) == outbox
  {
    if outbox != [] { WithoutNothing(outbox[1..]); }
  }

  lemma {:induction false} WithoutEverything(outbox: seq<Event>, ids: set<nat>)
    requires forall e | e in outbox :: e.id in ids
    ensures Without(outbox, ids) == []
  {
    if outbox != [] { WithoutEverything(outbox[1..], ids); }
  }

  class Publisher {
    const repository: Repository
    var emitted: seq<Event>

    constructor (repository: Repository)
      ensures this.repository == repository && emitted == []
    {
      this.repository := repository;
      emitted := [];
    }

    /** The rows come from the claiming query; throwing are the events whose listeners throw. */
    method PublishPending(rows: seq<Event>, ghost locked: set<nat>, throwing: set<nat>)
      requires ValidClaim(repository.outbox, locked, rows)
      modifies this, repository`outbox
      ensures emitted == old(emitted) + Delivered(rows, throwing)
      ensures repository.outbox == Without(old(repository.outbox), Settled(rows, throwing))
      ensures emitted[..|old(emitted)|] == old(emitted)
      ensures var out := emitted[|old(emitted)|..];
              && (forall e :: e in out <==> e in rows && e.eventType == "shot.persisted" && e.id !in throwing)
              && forall i, j | 0 <= i < j < |out| :: out[i].id != out[j].id && out[i].createdAt <= out[j].createdAt
      ensures forall e :: e in repository.outbox <==>
                && e in old(repository.outbox)
                && forall row | row in rows && row.id == e.id :: row.eventType == "shot.persisted" && row.id in throwing
    {
      hide Settled, Delivered;
      DeliveredRows(rows, throwing);
      DeliveryKeepsTheOrder(rows, throwing);
      SettledRows(rows, throwing);
      if |rows| == 0 {
        assert rows == [];
        NothingSettled(throwing);
        WithoutNothing(repository.outbox);
        return;
      }
      var successfulIds: seq<nat> := [];
      NothingSettled(throwing);
      for i := 0 to |rows|
        invariant emitted == old(emitted) + Delivered(rows[..i], throwing)
        invariant (set id: nat | id in successfulIds) == Settled(rows[..i], throwing)
        invariant repository.outbox == old(repository.outbox)
      {
        var row := rows[i];
        OneMoreRow(rows[..i], row, throwing);
        assert rows[..i + 1] == rows[..i] + [row];
        if row.eventType == SHOT_PERSISTED && row.id in throwing {
          // The listener's exception is caught: the row stays for the next cycle.
        } else {
          if row.eventType == SHOT_PERSISTED {
            emitted := emitted + [row];
          }
          successfulIds := successfulIds + [row.id];
        }
      }
      assert rows[..|rows|] == rows;
      assert |successfulIds| > 0 || (set id: nat | id in successfulIds) == {};
      if |successfulIds| > 0 {
        var ids := set id: nat | id in successfulIds;
        assert ids == Settled(rows, throwing);
        repository.outbox := Without(repository.outbox, ids);
      } else {
        assert Settled(rows, throwing) == {};
        WithoutNothing(repository.outbox);
      }
    }
  }
}
