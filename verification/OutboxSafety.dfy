/** What every reachable state of the ingestion protocol keeps about its events: each stored shot is
    announced exactly once, batches of different publishers are disjoint, and no event is lost. */
module OutboxSafety {
  import opened Domain
  import opened NearDuplicates
  import opened ShotRepository
  import opened ShotProcessor
  import opened OutboxPublisher
  import opened IngestionProtocol
  import opened IngestionSafety
  import opened IngestionHistory
  import IdentityProtocol

  // ----- The invariant -----

  /** The n-th event announces the n-th row; if it names an origin, the row names the same one. */
  ghost predicate Announced(shots: seq<Shot>, event: Event) {
    && event.id < |shots|
    && event.eventType == SHOT_PERSISTED
    && Core(event.payload) == Core(shots[event.id])
    && (event.payload.duplicateOf.Some? ==> shots[event.id].duplicateOf == event.payload.duplicateOf)
  }

  ghost predicate AllAnnounced(shots: seq<Shot>, events: seq<Event>) {
    forall e | e in events :: Announced(shots, e)
  }

  ghost predicate ClaimIsSound(outbox: seq<Event>, claim: Claim) {
    && DistinctIds(claim.batch)
    && (forall e | e in claim.batch :: e in outbox)
    && claim.handled <= |claim.batch|
    && (forall id | id in claim.successful :: exists i | 0 <= i < claim.handled :: claim.batch[i].id == id)
    && (forall i, j | 0 <= i < j < |claim.successful| :: claim.successful[i] != claim.successful[j])
  }

  ghost predicate ClaimsAreSound(outbox: seq<Event>, claims: map<nat, Claim>) {
    forall p | p in claims :: ClaimIsSound(outbox, claims[p])
  }

  /** FOR UPDATE SKIP LOCKED: no event is in the batches of two publishers. */
  ghost predicate BatchesAreDisjoint(claims: map<nat, Claim>) {
    forall p, q | p in claims && q in claims && p != q :: Ids(claims[p].batch) !! Ids(claims[q].batch)
  }

  function Emissions(emitted: seq<Event>, id: nat): nat {
    if emitted == [] then 0
    else Emissions(emitted[..|emitted| - 1], id) + if emitted[|emitted| - 1].id == id then 1 else 0
  }

  predicate Pending(outbox: seq<Event>, id: nat) {
    id in Ids(outbox)
  }

  /** The event has been written and its row is gone. */
  predicate Deleted(t: Tables, id: nat) {
    id < t.nextEventId && !Pending(t.outbox, id)
  }

  /** The event has been emitted by a transaction that is still open. */
  predicate InFlight(claims: map<nat, Claim>, id: nat) {
    exists p | p in claims :: id in claims[p].successful
  }

  function One(b: bool): nat {
    if b then 1 else 0
  }

  /** Every emission is accounted for: by a deleted row, an open transaction, or one that rolled back. */
  ghost predicate EmissionsBalance(s: State) {
    forall id: nat ::
      Emissions(s.emitted, id) == One(Deleted(s.tables, id)) + One(InFlight(s.claims, id)) + s.rolledBack[id]
  }

  ghost predicate EventsMatchRows(t: Tables, emitted: seq<Event>) {
    && t.nextEventId == |t.shots|
    && DistinctIds(t.outbox)
    && AllAnnounced(t.shots, t.outbox)
    && AllAnnounced(t.shots, emitted)
  }

  ghost predicate OutboxInv(s: State) {
    && EventsMatchRows(s.tables, s.emitted)
    && ClaimsAreSound(s.tables.outbox, s.claims)
    && BatchesAreDisjoint(s.claims)
    && EmissionsBalance(s)
  }

  // ----- Steps of the workers -----

  lemma StaysAnnounced(shots: seq<Shot>, later: seq<Shot>, events: seq<Event>)
    requires AllAnnounced(shots, events) && Grows(shots, later)
    ensures AllAnnounced(later, events)
  {
    hide Core;
    forall e | e in events ensures Announced(later, e) {
      assert Preserved(shots[e.id], later[e.id]);
    }
  }

  lemma WiderOutbox(outbox: seq<Event>, later: seq<Event>, claims: map<nat, Claim>)
    requires ClaimsAreSound(outbox, claims)
    requires forall p, e | p in claims && e in claims[p].batch && e in outbox :: e in later
    ensures ClaimsAreSound(later, claims)
  {
    hide DistinctIds;
    forall p | p in claims ensures ClaimIsSound(later, claims[p]) {
      assert ClaimIsSound(outbox, claims[p]);
    }
  }

  lemma InsertKeepsEvents(t: Tables, emitted: seq<Event>, shot: Shot, now: int)
    requires EventsMatchRows(t, emitted)
    ensures EventsMatchRows(Inserted(t, shot, now), emitted)
  {
    hide Core;
    var later := Inserted(t, shot, now);
    assert Grows(t.shots, later.shots);
    StaysAnnounced(t.shots, later.shots, t.outbox);
    StaysAnnounced(t.shots, later.shots, emitted);
    assert Announced(later.shots, later.outbox[|t.outbox|]);
    forall i, j | 0 <= i < j < |later.outbox| ensures later.outbox[i].id != later.outbox[j].id {
      assert later.outbox[i] in t.outbox && Announced(t.shots, later.outbox[i]);
    }
  }

  lemma PendingAfterInsert(t: Tables, shot: Shot, now: int)
    ensures var later := Inserted(t, shot, now);
            forall id :: Deleted(later, id) <==> Deleted(t, id)
  {
    var later := Inserted(t, shot, now);
    assert Ids(later.outbox) == Ids(t.outbox) + {t.nextEventId};
  }

  lemma InsertKeepsOutbox(s: State, w: nat, now: int)
    requires Enabled(s, Upsert(w, now)) && !Stored(s.tables.shots, s.workers[w].pc.shot)
    requires OutboxInv(s)
    ensures OutboxInv(Upserted(s, w, now))
  {
    var shot, later := s.workers[w].pc.shot, Inserted(s.tables, s.workers[w].pc.shot, now);
    assert forall e | e in s.tables.outbox :: e in later.outbox;
    assert Upserted(s, w, now).tables == later;
    hide EventsMatchRows, ClaimsAreSound, BatchesAreDisjoint, Deleted, Emissions, InFlight;
    InsertKeepsEvents(s.tables, s.emitted, shot, now);
    WiderOutbox(s.tables.outbox, later.outbox, s.claims);
    PendingAfterInsert(s.tables, shot, now);
  }

  lemma FlagKeepsOutbox(s: State, w: nat)
    requires Enabled(s, FlagShot(w))
    requires Inv(s) && OutboxInv(s)
    ensures OutboxInv(FlaggedShot(s, w))
  {
    hide Inv, ClaimsAreSound, BatchesAreDisjoint, Emissions, InFlight, AllAnnounced, Grows;
    FlagPreserves(s, w);
    StaysAnnounced(s.tables.shots, FlaggedShot(s, w).tables.shots, s.tables.outbox);
    StaysAnnounced(s.tables.shots, FlaggedShot(s, w).tables.shots, s.emitted);
  }

  lemma AnnounceKeepsIds(outbox: seq<Event>, id: nat, origin: nat)
    ensures Ids(Announce(outbox, id, origin)) == Ids(outbox)
    ensures DistinctIds(outbox) ==> DistinctIds(Announce(outbox, id, origin))
  {
    var later := Announce(outbox, id, origin);
    assert forall i | 0 <= i < |outbox| :: later[i].id == outbox[i].id;
    hide Announce, Announces;
    SameIds(outbox, later);
    SameIds(later, outbox);
  }

  lemma SameIds(events: seq<Event>, later: seq<Event>)
    requires |events| == |later| && forall i | 0 <= i < |events| :: later[i].id == events[i].id
    ensures Ids(events) <= Ids(later)
    ensures DistinctIds(events) ==> DistinctIds(later)
  {
    forall id | id in Ids(events) ensures id in Ids(later) {
      var i :| 0 <= i < |events| && events[i].id == id;
      assert later[i] in later;
    }
  }

  lemma AnnounceKeepsAnnounced(shots: seq<Shot>, outbox: seq<Event>, shot: Shot, origin: nat)
    requires UniqueIds(shots) && AllAnnounced(shots, outbox) && Holds(shots, shot, Some(origin))
    ensures AllAnnounced(shots, Announce(outbox, shot.id, origin))
  {
    var later := Announce(outbox, shot.id, origin);
    var k :| 0 <= k < |shots| && Core(shots[k]) == Core(shot) && shots[k].duplicateOf == Some(origin);
    CoreParts(shots[k]);
    CoreParts(shot);
    forall e | e in later ensures Announced(shots, e) {
      var i :| 0 <= i < |later| && later[i] == e;
      assert Announced(shots, outbox[i]);
      if Announces(outbox[i], shot.id) {
        CoreParts(outbox[i].payload);
        CoreParts(shots[e.id]);
        OnlyRow(shots, e.id, k);
      }
    }
  }

  /** The announcement has no row lock, so no batch holds it. */
  lemma AnnounceSparesBatches(outbox: seq<Event>, claims: map<nat, Claim>, id: nat, origin: nat)
    requires ClaimsAreSound(outbox, claims)
    requires forall e | e in outbox && Announces(e, id) :: e.id !in Locked(claims)
    ensures ClaimsAreSound(Announce(outbox, id, origin), claims)
  {
    var later := Announce(outbox, id, origin);
    forall p, e | p in claims && e in claims[p].batch && e in outbox ensures e in later {
      assert e.id in Locked(claims);
      var i :| 0 <= i < |outbox| && outbox[i] == e;
      assert later[i] == e;
    }
    WiderOutbox(outbox, later, claims);
  }

  lemma AnnounceKeepsOutbox(s: State, w: nat)
    requires Enabled(s, AnnounceOrigin(w))
    requires Inv(s) && OutboxInv(s)
    ensures OutboxInv(AnnouncedOrigin(s, w))
  {
    hide JobsAreAdmitted, RowsAreJobs, WorkersAreHonest, OwnersAreDistinct, FlagsAreJustified, Deciding, Carried;
    hide Core, HasNear, KnownAs, Holds;
    hide Locked, ClaimsAreSound, BatchesAreDisjoint, Emissions, InFlight, AllAnnounced, Ids, DistinctIds;
    WorkerFacts(s, w);
    var shot, origin := s.workers[w].pc.shot, s.workers[w].pc.origin;
    AnnounceKeepsIds(s.tables.outbox, shot.id, origin);
    AnnounceKeepsAnnounced(s.tables.shots, s.tables.outbox, shot, origin);
    AnnounceSparesBatches(s.tables.outbox, s.claims, shot.id, origin);
  }

  // ----- Steps of the publishers -----

  lemma ClaimKeepsBatches(outbox: seq<Event>, claims: map<nat, Claim>, p: nat, batch: seq<Event>)
    requires p !in claims && ValidClaim(outbox, Locked(claims), batch)
    requires ClaimsAreSound(outbox, claims) && BatchesAreDisjoint(claims)
    ensures ClaimsAreSound(outbox, claims[p := Claim(batch, 0, [])])
    ensures BatchesAreDisjoint(claims[p := Claim(batch, 0, [])])
  {
    forall q, id | q in claims && id in Ids(claims[q].batch) ensures id !in Ids(batch) {
      var e :| e in claims[q].batch && e.id == id;
      assert e.id in Locked(claims);
    }
    hide DistinctIds, Ids;
    forall q | q in claims ensures ClaimIsSound(outbox, claims[q]) {}
  }

  lemma ClaimKeepsOutbox(s: State, p: nat, batch: seq<Event>)
    requires Enabled(s, ClaimBatch(p, batch))
    requires OutboxInv(s)
    ensures OutboxInv(Apply(s, ClaimBatch(p, batch)))
  {
    hide EventsMatchRows, ClaimsAreSound, BatchesAreDisjoint, Emissions, Deleted, ValidClaim, Locked;
    ClaimKeepsBatches(s.tables.outbox, s.claims, p, batch);
    var later := s.claims[p := Claim(batch, 0, [])];
    forall id: nat ensures InFlight(later, id) <==> InFlight(s.claims, id) {
      if InFlight(s.claims, id) {
        var q :| q in s.claims && id in s.claims[q].successful;
        assert id in later[q].successful;
      }
    }
  }

  lemma OneMoreEmission(emitted: seq<Event>, row: Event, id: nat)
    ensures Emissions(emitted + [row], id) == Emissions(emitted, id) + One(row.id == id)
  {
    assert (emitted + [row])[..|emitted|] == emitted;
  }

  /** The claim after its next row, which is deleted at the commit unless its listener throws. */
  function Handled(claim: Claim, throws: bool): Claim
    requires claim.handled < |claim.batch|
  {
    Claim(claim.batch, claim.handled + 1,
          if throws then claim.successful else claim.successful + [claim.batch[claim.handled].id])
  }

  lemma HandledClaim(outbox: seq<Event>, claim: Claim, throws: bool)
    requires ClaimIsSound(outbox, claim) && claim.handled < |claim.batch|
    ensures var row := claim.batch[claim.handled];
            && row.id !in claim.successful
            && ClaimIsSound(outbox, Handled(claim, throws))
  {
    var row := claim.batch[claim.handled];
    assert row.id !in claim.successful;
    var later := claim.successful + [row.id];
    forall id | id in later ensures exists i | 0 <= i < claim.handled + 1 :: claim.batch[i].id == id {
      if id in claim.successful {
        var i :| 0 <= i < claim.handled && claim.batch[i].id == id;
      } else {
        assert claim.batch[claim.handled].id == id;
      }
    }
    forall id | id in claim.successful ensures exists i | 0 <= i < claim.handled + 1 :: claim.batch[i].id == id {
      var i :| 0 <= i < claim.handled && claim.batch[i].id == id;
    }
  }

  /** A claim's events are handled by no other publisher. */
  lemma SuccessfulIsOwn(outbox: seq<Event>, claims: map<nat, Claim>, p: nat, q: nat, id: nat)
    requires ClaimsAreSound(outbox, claims) && BatchesAreDisjoint(claims)
    requires p in claims && q in claims && id in Ids(claims[p].batch) && id in claims[q].successful
    ensures p == q
  {
    hide DistinctIds;
    assert ClaimIsSound(outbox, claims[q]);
    var i :| 0 <= i < claims[q].handled && claims[q].batch[i].id == id;
    assert claims[q].batch[i] in claims[q].batch;
    assert id in Ids(claims[q].batch);
  }

  lemma EmitKeepsClaims(outbox: seq<Event>, claims: map<nat, Claim>, p: nat, throws: bool)
    requires p in claims && claims[p].handled < |claims[p].batch|
    requires ClaimsAreSound(outbox, claims) && BatchesAreDisjoint(claims)
    ensures var later := claims[p := Handled(claims[p], throws)];
            && ClaimsAreSound(outbox, later) && BatchesAreDisjoint(later)
  {
    hide ClaimIsSound, Ids;
    HandledClaim(outbox, claims[p], throws);
  }

  lemma EmitMovesOneEvent(outbox: seq<Event>, claims: map<nat, Claim>, p: nat, throws: bool)
    requires p in claims && claims[p].handled < |claims[p].batch|
    requires ClaimsAreSound(outbox, claims) && BatchesAreDisjoint(claims)
    ensures var later, row := claims[p := Handled(claims[p], throws)], claims[p].batch[claims[p].handled];
            && !InFlight(claims, row.id)
            && forall id: nat :: InFlight(later, id) <==> InFlight(claims, id) || (!throws && id == row.id)
  {
    var row := claims[p].batch[claims[p].handled];
    assert row in claims[p].batch;
    assert row.id in Ids(claims[p].batch);
    hide ClaimIsSound, Ids, BatchesAreDisjoint;
    assert row.id !in claims[p].successful by { HandledClaim(outbox, claims[p], throws); }
    forall q | q in claims ensures row.id !in claims[q].successful {
      if row.id in claims[q].successful { SuccessfulIsOwn(outbox, claims, p, q, row.id); }
    }
    hide ClaimsAreSound;
    var later := claims[p := Handled(claims[p], throws)];
    forall id: nat | InFlight(claims, id) ensures InFlight(later, id) {
      var q :| q in claims && id in claims[q].successful;
      assert id in later[q].successful;
    }
    if !throws { assert row.id in later[p].successful; }
  }

  lemma EmitKeepsOutbox(s: State, p: nat, throws: bool)
    requires Enabled(s, Emit(p, throws))
    requires OutboxInv(s)
    ensures OutboxInv(Emitted(s, p, throws))
  {
    var row := s.claims[p].batch[s.claims[p].handled];
    hide EventsMatchRows, ClaimsAreSound, BatchesAreDisjoint, EmissionsBalance, InFlight;
    HandledRowIsAnnounced(s.tables, s.emitted, s.claims, p);
    EmitKeepsClaims(s.tables.outbox, s.claims, p, throws);
    EmitMovesOneEvent(s.tables.outbox, s.claims, p, throws);
    EmitKeepsBalance(s, row, throws, Emitted(s, p, throws));
  }

  lemma EmitKeepsBalance(s: State, row: Event, throws: bool, later: State)
    requires EmissionsBalance(s)
    requires later.tables == s.tables && later.rolledBack == s.rolledBack
    requires later.emitted == s.emitted + if throws then [] else [row]
    requires !InFlight(s.claims, row.id)
    requires forall id: nat :: InFlight(later.claims, id) <==> InFlight(s.claims, id) || (!throws && id == row.id)
    ensures EmissionsBalance(later)
  {
    hide Deleted, InFlight, Emissions;
    if throws {
      assert later.emitted == s.emitted;
    } else {
      forall id: nat ensures Emissions(s.emitted + [row], id) == Emissions(s.emitted, id) + One(row.id == id) {
        OneMoreEmission(s.emitted, row, id);
      }
    }
  }

  lemma HandledRowIsAnnounced(t: Tables, emitted: seq<Event>, claims: map<nat, Claim>, p: nat)
    requires EventsMatchRows(t, emitted) && ClaimsAreSound(t.outbox, claims)
    requires p in claims && claims[p].handled < |claims[p].batch|
    ensures claims[p].batch[claims[p].handled].eventType == SHOT_PERSISTED
    ensures EventsMatchRows(t, emitted + [claims[p].batch[claims[p].handled]])
  {
    hide DistinctIds;
    var claim := claims[p];
    assert ClaimIsSound(t.outbox, claim);
    assert claim.batch[claim.handled] in claim.batch;
    assert Announced(t.shots, claim.batch[claim.handled]);
    hide Announced;
  }

  lemma CommitKeepsClaims(outbox: seq<Event>, claims: map<nat, Claim>, p: nat)
    requires p in claims && ClaimsAreSound(outbox, claims) && BatchesAreDisjoint(claims)
    ensures var later := Without(outbox, SetOf(claims[p].successful));
            ClaimsAreSound(later, claims - {p}) && BatchesAreDisjoint(claims - {p})
  {
    hide DistinctIds;
    var later := Without(outbox, SetOf(claims[p].successful));
    forall q | q in claims && q != p ensures ClaimIsSound(later, claims[q]) {
      assert ClaimIsSound(outbox, claims[q]);
      forall e | e in claims[q].batch ensures e in later {
        assert e.id in Ids(claims[q].batch);
        if e.id in claims[p].successful { SuccessfulIsOwn(outbox, claims, q, p, e.id); }
      }
    }
  }

  /** The events of a finished transaction, and only those, are no longer in flight. */
  lemma InFlightWithout(outbox: seq<Event>, claims: map<nat, Claim>, p: nat)
    requires p in claims && ClaimsAreSound(outbox, claims) && BatchesAreDisjoint(claims)
    ensures forall id: nat :: InFlight(claims - {p}, id) <==> InFlight(claims, id) && id !in claims[p].successful
    ensures forall id: nat | id in claims[p].successful :: InFlight(claims, id) && Pending(outbox, id)
    ensures forall id: nat :: multiset(claims[p].successful)[id] == One(id in claims[p].successful)
  {
    hide DistinctIds;
    var later := claims - {p};
    assert ClaimIsSound(outbox, claims[p]);
    forall id: nat ensures InFlight(later, id) <==> InFlight(claims, id) && id !in claims[p].successful {
      if InFlight(claims, id) && id !in claims[p].successful {
        var q :| q in claims && id in claims[q].successful;
        assert q in later && id in later[q].successful;
      }
      if InFlight(later, id) && id in claims[p].successful {
        var q :| q in later && id in later[q].successful;
        SuccessfulWasClaimed(outbox, claims[p], id);
        SuccessfulIsOwn(outbox, claims, p, q, id);
      }
    }
    forall id: nat | id in claims[p].successful ensures Pending(outbox, id) {
      SuccessfulWasClaimed(outbox, claims[p], id);
    }
    DistinctMultiplicity(claims[p].successful);
  }

  lemma SuccessfulWasClaimed(outbox: seq<Event>, claim: Claim, id: nat)
    requires ClaimIsSound(outbox, claim) && id in claim.successful
    ensures id in Ids(claim.batch) && id in Ids(outbox)
  {
    hide DistinctIds;
    var i :| 0 <= i < claim.handled && claim.batch[i].id == id;
    assert claim.batch[i] in claim.batch && claim.batch[i] in outbox;
  }

  lemma {:induction false} DistinctMultiplicity(ids: seq<nat>)
    requires forall i, j | 0 <= i < j < |ids| :: ids[i] != ids[j]
    ensures forall id: nat :: multiset(ids)[id] == One(id in ids)
  {
    if ids != [] {
      DistinctMultiplicity(ids[1..]);
      assert ids == [ids[0]] + ids[1..];
    }
  }

  lemma CommitKeepsEvents(t: Tables, emitted: seq<Event>, ids: set<nat>)
    requires EventsMatchRows(t, emitted)
    ensures EventsMatchRows(t.(outbox := Without(t.outbox, ids)), emitted)
    ensures forall id: nat :: Pending(Without(t.outbox, ids), id) <==> Pending(t.outbox, id) && id !in ids
  {
    WithoutKeepsIdsDistinct(t.outbox, ids);
    hide DistinctIds, Announced;
  }

  lemma CommitKeepsOutbox(s: State, p: nat)
    requires Enabled(s, Commit(p))
    requires OutboxInv(s)
    ensures OutboxInv(Apply(s, Commit(p)))
  {
    hide EventsMatchRows, ClaimsAreSound, BatchesAreDisjoint, EmissionsBalance, Without;
    CommitKeepsEvents(s.tables, s.emitted, SetOf(s.claims[p].successful));
    CommitKeepsClaims(s.tables.outbox, s.claims, p);
    CommitKeepsBalance(s, p);
  }

  lemma CommitKeepsBalance(s: State, p: nat)
    requires Enabled(s, Commit(p))
    requires OutboxInv(s)
    ensures EmissionsBalance(Apply(s, Commit(p)))
  {
    var t := Apply(s, Commit(p));
    var successful := s.claims[p].successful;
    assert t.emitted == s.emitted && t.rolledBack == s.rolledBack && t.claims == s.claims - {p};
    assert t.tables == s.tables.(outbox := Without(s.tables.outbox, SetOf(successful)));
    assert forall id: nat :: id in SetOf(successful) <==> id in successful;
    hide EventsMatchRows, ClaimsAreSound, BatchesAreDisjoint, Emissions, InFlight, Pending, Without, Enabled, Apply, SetOf;
    CommitKeepsEvents(s.tables, s.emitted, SetOf(successful));
    InFlightWithout(s.tables.outbox, s.claims, p);
    PendingIsWritten(s.tables, s.emitted);
    forall id: nat
      ensures Emissions(t.emitted, id) == One(Deleted(t.tables, id)) + One(InFlight(t.claims, id)) + t.rolledBack[id]
    {
      assert Emissions(s.emitted, id) == One(Deleted(s.tables, id)) + One(InFlight(s.claims, id)) + s.rolledBack[id];
    }
  }

  lemma PendingIsWritten(t: Tables, emitted: seq<Event>)
    requires EventsMatchRows(t, emitted)
    ensures forall id: nat | Pending(t.outbox, id) :: id < t.nextEventId
  {
    hide DistinctIds;
    forall id: nat | Pending(t.outbox, id) ensures id < t.nextEventId {
      var e :| e in t.outbox && e.id == id;
      assert Announced(t.shots, e);
    }
  }

  lemma RollbackKeepsOutbox(s: State, p: nat)
    requires Enabled(s, Rollback(p))
    requires OutboxInv(s)
    ensures OutboxInv(Apply(s, Rollback(p)))
  {
    hide EventsMatchRows, ClaimsAreSound, BatchesAreDisjoint, Emissions, InFlight, Deleted, Pending;
    InFlightWithout(s.tables.outbox, s.claims, p);
    FewerClaims(s.tables.outbox, s.claims, p);
  }

  lemma FewerClaims(outbox: seq<Event>, claims: map<nat, Claim>, p: nat)
    requires ClaimsAreSound(outbox, claims) && BatchesAreDisjoint(claims)
    ensures ClaimsAreSound(outbox, claims - {p}) && BatchesAreDisjoint(claims - {p})
  {
    hide ClaimIsSound, Ids;
  }

  lemma BackfillKeepsOutbox(s: State, user: IdentityProtocol.User, canonicalUserId: string)
    requires OutboxInv(s)
    ensures OutboxInv(Apply(s, Backfill(user, canonicalUserId)))
  {
    hide ClaimsAreSound, BatchesAreDisjoint, Emissions, InFlight, AllAnnounced, Grows, IdentityProtocol.Backfilled;
    var later := IdentityProtocol.Backfilled(s.tables.shots, user, canonicalUserId);
    BackfillFillsIn(s.tables.shots, user, canonicalUserId);
    StaysAnnounced(s.tables.shots, later, s.tables.outbox);
    StaysAnnounced(s.tables.shots, later, s.emitted);
  }

  // ----- Every step and every run -----

  lemma StepKeepsOutbox(s: State, a: Action)
    requires Enabled(s, a)
    requires Inv(s) && OutboxInv(s)
    ensures OutboxInv(Apply(s, a))
  {
    hide Inv, EventsMatchRows, ClaimsAreSound, BatchesAreDisjoint, Emissions, InFlight, Deleted;
    match a
    case Admit(_) =>
    case Start(_, _) =>
    case Prepare(_, _) =>
    case Upsert(w, now) => if !Stored(s.tables.shots, s.workers[w].pc.shot) { InsertKeepsOutbox(s, w, now); }
    case Look(_, _) =>
    case FlagShot(w) => FlagKeepsOutbox(s, w);
    case AnnounceOrigin(w) => AnnounceKeepsOutbox(s, w);
    case Crash(_) =>
    case ClaimBatch(p, batch) => ClaimKeepsOutbox(s, p, batch);
    case Emit(p, throws) => EmitKeepsOutbox(s, p, throws);
    case Commit(p) => CommitKeepsOutbox(s, p);
    case Rollback(p) => RollbackKeepsOutbox(s, p);
    case Backfill(user, canonicalUserId) => BackfillKeepsOutbox(s, user, canonicalUserId);
  }

  lemma {:induction false} RunsKeepOutbox(s: State, actions: seq<Action>, t: State)
    requires Inv(s) && OutboxInv(s) && Runs(s, actions, t)
    ensures Inv(t) && OutboxInv(t)
    decreases actions
  {
    hide Inv, OutboxInv, Enabled, Apply;
    if actions != [] {
      StepKeepsOutbox(s, actions[0]);
      StepKeeps(s, actions[0]);
      RunsKeepOutbox(Apply(s, actions[0]), actions[1..], t);
    }
  }

  lemma ReachableOutboxIsSafe(s: State)
    requires Reachable(s)
    ensures OutboxInv(s)
  {
    hide Runs;
    var actions :| Runs(INIT, actions, s);
    RunsKeepOutbox(INIT, actions, s);
  }

  // ----- What the consumers of events may rely on -----

  /** No event is lost: each stored shot has its event pending, or it has been emitted at least once. */
  lemma EveryShotIsAnnounced(s: State, i: nat)
    requires Reachable(s) && i < |s.tables.shots|
    ensures Pending(s.tables.outbox, i) || Emissions(s.emitted, i) >= 1
    ensures exists e | e in s.tables.outbox + s.emitted ::
              && e.id == i && e.eventType == "shot.persisted"
              && e.payload.(canonicalUserId := None, duplicateOf := None)
                 == s.tables.shots[i].(canonicalUserId := None, duplicateOf := None)
  {
    hide Reachable, ClaimsAreSound, BatchesAreDisjoint, InFlight, DistinctIds;
    ReachableOutboxIsSafe(s);
    assert Emissions(s.emitted, i) == One(Deleted(s.tables, i)) + One(InFlight(s.claims, i)) + s.rolledBack[i];
    var e: Event;
    if Pending(s.tables.outbox, i) {
      e :| e in s.tables.outbox && e.id == i;
    } else {
      e := EmissionOf(s.emitted, i);
    }
    assert e in s.tables.outbox + s.emitted && Announced(s.tables.shots, e);
  }

  lemma {:induction false} EmissionOf(emitted: seq<Event>, id: nat) returns (e: Event)
    requires Emissions(emitted, id) >= 1
    ensures e in emitted && e.id == id
  {
    var n := |emitted| - 1;
    if emitted[n].id == id { e := emitted[n]; } else { e := EmissionOf(emitted[..n], id); }
  }

  /** No event is invented: whatever reached the listeners describes a committed row, and if it names an
      origin, that is the one the row is flagged with. */
  lemma EmittedEventsDescribeRows(s: State, e: Event)
    requires Reachable(s) && e in s.emitted
    ensures e.id < |s.tables.shots| && e.eventType == "shot.persisted"
    ensures var row := s.tables.shots[e.id];
            && e.payload.(canonicalUserId := row.canonicalUserId, duplicateOf := row.duplicateOf) == row
            && (e.payload.duplicateOf.Some? ==> e.payload.duplicateOf == row.duplicateOf)
  {
    hide Reachable, ClaimsAreSound, BatchesAreDisjoint, EmissionsBalance, DistinctIds, Core;
    ReachableOutboxIsSafe(s);
    assert Announced(s.tables.shots, e);
    EqualCores(e.payload, s.tables.shots[e.id]);
  }

  /** Only a transaction that emits and then fails to commit can repeat an event. */
  lemma RepeatsComeFromRollbacks(s: State, id: nat)
    requires Reachable(s)
    ensures Emissions(s.emitted, id) <= 1 + s.rolledBack[id]
    ensures Pending(s.tables.outbox, id) && !InFlight(s.claims, id) ==> Emissions(s.emitted, id) == s.rolledBack[id]
    ensures Deleted(s.tables, id) ==> Emissions(s.emitted, id) == 1 + s.rolledBack[id]
  {
    hide Reachable, ClaimsAreSound, EventsMatchRows, Emissions, DistinctIds;
    ReachableOutboxIsSafe(s);
    if InFlight(s.claims, id) {
      var p :| p in s.claims && id in s.claims[p].successful;
      InFlightWithout(s.tables.outbox, s.claims, p);
    }
    assert Emissions(s.emitted, id) == One(Deleted(s.tables, id)) + One(InFlight(s.claims, id)) + s.rolledBack[id];
  }

  /** When the outbox has drained and nothing was rolled back, each stored shot was emitted exactly once. */
  lemma DrainedMeansExactlyOnce(s: State)
    requires Reachable(s) && s.tables.outbox == [] && s.rolledBack == multiset{}
    ensures forall i: nat :: Emissions(s.emitted, i) == One(i < |s.tables.shots|)
  {
    hide Reachable, ClaimsAreSound, BatchesAreDisjoint, Emissions, DistinctIds, AllAnnounced;
    ReachableOutboxIsSafe(s);
    forall i: nat ensures Emissions(s.emitted, i) == One(i < |s.tables.shots|) {
      RepeatsComeFromRollbacks(s, i);
      assert Emissions(s.emitted, i) == One(Deleted(s.tables, i)) + One(InFlight(s.claims, i)) + s.rolledBack[i];
      NothingInFlight(s, i);
    }
  }

  lemma NothingInFlight(s: State, id: nat)
    requires OutboxInv(s) && s.tables.outbox == []
    ensures !InFlight(s.claims, id)
  {
    hide EventsMatchRows, EmissionsBalance, DistinctIds;
    if InFlight(s.claims, id) {
      var p :| p in s.claims && id in s.claims[p].successful;
      InFlightWithout(s.tables.outbox, s.claims, p);
    }
  }
}
