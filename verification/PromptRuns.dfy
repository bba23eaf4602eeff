/** Runs in which every event carries the origin of its shot: publishers leave a shot alone while a worker still
    owns its row, and no worker crashes between flagging a row and announcing the flag. */
module PromptRuns {
  import opened Domain
  import opened ContentHash
  import opened NearDuplicates
  import opened ShotRepository
  import opened ShotProcessor
  import opened OutboxPublisher
  import opened IngestionProtocol
  import opened IngestionSafety
  import opened IngestionHistory
  import opened OutboxSafety
  import opened OriginDelivery
  import IdentityProtocol

  ghost predicate Prompt(s: State, a: Action)
    requires Enabled(s, a)
  {
    && (a.ClaimBatch? ==> forall e | e in a.batch :: Unattended(s.workers, e.payload.id))
    && (a.Crash? ==> !s.workers[a.w].pc.Flagged?)
  }

  ghost predicate PromptlyRuns(s: State, actions: seq<Action>, t: State)
    decreases actions
  {
    if actions == [] then s == t
    else Enabled(s, actions[0]) && Prompt(s, actions[0]) && PromptlyRuns(Apply(s, actions[0]), actions[1..], t)
  }

  predicate Agrees(shots: seq<Shot>, e: Event) {
    e.id < |shots| && shots[e.id].id == e.payload.id && shots[e.id].duplicateOf == e.payload.duplicateOf
  }

  /** Emitted and claimed events are of shots that are settled; pending events of settled shots agree with
      their rows. */
  ghost predicate EventsAgree(s: State) {
    && (forall e | e in s.emitted :: Unattended(s.workers, e.payload.id) && Agrees(s.tables.shots, e))
    && (forall e | e in s.tables.outbox && Unattended(s.workers, e.payload.id) :: Agrees(s.tables.shots, e))
    && (forall p, e | p in s.claims && e in s.claims[p].batch :: Unattended(s.workers, e.payload.id))
  }

  // ----- Steps of workers -----

  /** Rows with other ids keep their flags, and nobody else gives up a row. */
  ghost predicate Spares(s: State, t: State, id: nat) {
    && |s.tables.shots| <= |t.tables.shots|
    && (forall i | 0 <= i < |s.tables.shots| && s.tables.shots[i].id != id ::
          t.tables.shots[i].id == s.tables.shots[i].id && t.tables.shots[i].duplicateOf == s.tables.shots[i].duplicateOf)
    && (forall x: nat | x != id :: Unattended(t.workers, x) <==> Unattended(s.workers, x))
  }

  lemma SparedAgree(s: State, t: State, id: nat, e: Event)
    requires Spares(s, t, id) && e.payload.id != id && Agrees(s.tables.shots, e)
    ensures Agrees(t.tables.shots, e)
  {
    hide Unattended;
  }

  /** A worker moves on with its shot: emitted and claimed events are not about it. */
  lemma MoveKeepsAgreement(s: State, t: State, id: nat)
    requires EventsAgree(s) && !Unattended(s.workers, id) && Spares(s, t, id)
    requires t.claims == s.claims && t.emitted == s.emitted
    requires forall e | e in t.tables.outbox && e.payload.id != id :: e in s.tables.outbox
    requires Unattended(t.workers, id) ==> forall e | e in t.tables.outbox && e.payload.id == id :: Agrees(t.tables.shots, e)
    ensures EventsAgree(t)
  {
    hide Unattended, Agrees, Spares;
    forall e | e in t.emitted ensures Unattended(t.workers, e.payload.id) && Agrees(t.tables.shots, e) {
      SparedAgree(s, t, id, e);
      SparedAttention(s, t, id, e.payload.id);
    }
    forall e | e in t.tables.outbox && Unattended(t.workers, e.payload.id) ensures Agrees(t.tables.shots, e) {
      if e.payload.id != id {
        SparedAttention(s, t, id, e.payload.id);
        SparedAgree(s, t, id, e);
      }
    }
    forall p, e | p in t.claims && e in t.claims[p].batch ensures Unattended(t.workers, e.payload.id) {
      SparedAttention(s, t, id, e.payload.id);
    }
  }

  lemma SparedAttention(s: State, t: State, id: nat, x: nat)
    requires Spares(s, t, id) && x != id
    ensures Unattended(t.workers, x) <==> Unattended(s.workers, x)
  {
    hide Unattended;
  }

  lemma MovedWorkerSpares(workers: map<nat, Worker>, w: nat, worker: Worker, id: nat)
    requires w in workers && (Owns(workers[w].pc) ==> workers[w].pc.shot.id == id) && (Owns(worker.pc) ==> worker.pc.shot.id == id)
    ensures forall x: nat | x != id :: Unattended(workers[w := worker], x) <==> Unattended(workers, x)
  {
    forall x: nat | x != id ensures Unattended(workers[w := worker], x) <==> Unattended(workers, x) {
      assert forall v | v in workers && v != w :: workers[w := worker][v] == workers[v];
    }
  }

  /** Pending events of an unflagged row name no origin, as the row does. */
  lemma UnflaggedRowsAgree(shots: seq<Shot>, events: seq<Event>, id: nat)
    requires AllAnnounced(shots, events) && forall i | 0 <= i < |shots| && shots[i].id == id :: shots[i].duplicateOf.None?
    ensures forall e | e in events && e.payload.id == id :: Agrees(shots, e)
  {
    forall e | e in events && e.payload.id == id ensures Agrees(shots, e) {
      assert Announced(shots, e);
      CoreParts(e.payload);
      CoreParts(shots[e.id]);
    }
  }

  lemma LookKeepsAgreement(s: State, w: nat, found: Option<Shot>)
    requires Enabled(s, Look(w, found))
    requires Inv(s) && OutboxInv(s) && EventsAgree(s)
    ensures EventsAgree(Looked(s, w, found))
  {
    hide JobsAreAdmitted, RowsAreJobs, WorkersAreHonest, OwnersAreDistinct, FlagsAreJustified, Deciding;
    hide Core, HasNear, KnownAs, Holds, EventsAgree, IsOrigin, HasCandidate, Candidate;
    hide ClaimsAreSound, BatchesAreDisjoint, EmissionsBalance, AllAnnounced, DistinctIds, Agrees;
    WorkerFacts(s, w);
    var id, t := s.workers[w].pc.shot.id, Looked(s, w, found);
    assert !Unattended(s.workers, id);
    OwnedRowIsUnflagged(s.tables.shots, s.workers[w].pc.shot);
    UnflaggedRowsAgree(s.tables.shots, s.tables.outbox, id);
    MovedWorkerSpares(s.workers, w, t.workers[w], id);
    hide Unattended;
    MoveKeepsAgreement(s, t, id);
  }

  lemma FlagKeepsAgreement(s: State, w: nat)
    requires Enabled(s, FlagShot(w))
    requires EventsAgree(s)
    ensures EventsAgree(FlaggedShot(s, w))
  {
    hide EventsAgree, Agrees;
    var id, t := s.workers[w].pc.shot.id, FlaggedShot(s, w);
    assert !Unattended(s.workers, id);
    assert t.workers[w].pc.shot.id == id && Owns(t.workers[w].pc);
    assert !Unattended(t.workers, id);
    MovedWorkerSpares(s.workers, w, t.workers[w], id);
    hide Unattended;
    MoveKeepsAgreement(s, t, id);
  }

  lemma AnnouncedRowsAgree(shots: seq<Shot>, outbox: seq<Event>, shot: Shot, origin: nat)
    requires UniqueIds(shots) && AllAnnounced(shots, outbox) && Holds(shots, shot, Some(origin))
    ensures forall e | e in Announce(outbox, shot.id, origin) && e.payload.id == shot.id :: Agrees(shots, e)
  {
    var later := Announce(outbox, shot.id, origin);
    var k :| 0 <= k < |shots| && Core(shots[k]) == Core(shot) && shots[k].duplicateOf == Some(origin);
    CoreParts(shots[k]);
    CoreParts(shot);
    forall e | e in later && e.payload.id == shot.id ensures Agrees(shots, e) {
      var i :| 0 <= i < |later| && later[i] == e;
      assert Announced(shots, outbox[i]);
      CoreParts(outbox[i].payload);
      CoreParts(shots[e.id]);
      OnlyRow(shots, e.id, k);
    }
  }

  lemma AnnounceKeepsAgreement(s: State, w: nat)
    requires Enabled(s, AnnounceOrigin(w))
    requires Inv(s) && OutboxInv(s) && EventsAgree(s)
    ensures EventsAgree(AnnouncedOrigin(s, w))
  {
    hide JobsAreAdmitted, RowsAreJobs, WorkersAreHonest, OwnersAreDistinct, FlagsAreJustified, Deciding, Locked;
    hide Core, HasNear, KnownAs, Holds, EventsAgree, Announce, UniqueIds;
    hide ClaimsAreSound, BatchesAreDisjoint, EmissionsBalance, AllAnnounced, DistinctIds, Agrees;
    WorkerFacts(s, w);
    var shot, origin, t := s.workers[w].pc.shot, s.workers[w].pc.origin, AnnouncedOrigin(s, w);
    assert !Unattended(s.workers, shot.id);
    AnnouncedRowsAgree(s.tables.shots, s.tables.outbox, shot, origin);
    AnnounceWrites(s.tables.outbox, shot.id, origin);
    MovedWorkerSpares(s.workers, w, t.workers[w], shot.id);
    hide Unattended;
    MoveKeepsAgreement(s, t, shot.id);
  }

  lemma FewerWorkersSpare(workers: map<nat, Worker>, w: nat, id: nat)
    requires w in workers && (Owns(workers[w].pc) ==> workers[w].pc.shot.id == id)
    ensures forall x: nat | x != id :: Unattended(workers - {w}, x) <==> Unattended(workers, x)
  {
    forall x: nat | x != id ensures Unattended(workers - {w}, x) <==> Unattended(workers, x) {
      assert forall v | v in workers && v != w :: (workers - {w})[v] == workers[v];
    }
  }

  lemma CrashKeepsAgreement(s: State, w: nat)
    requires Enabled(s, Crash(w)) && Undecided(s.workers[w].pc)
    requires Inv(s) && OutboxInv(s) && EventsAgree(s)
    ensures EventsAgree(Apply(s, Crash(w)))
  {
    hide JobsAreAdmitted, RowsAreJobs, WorkersAreHonest, OwnersAreDistinct, FlagsAreJustified, Deciding;
    hide Core, HasNear, KnownAs, Holds, EventsAgree;
    hide ClaimsAreSound, BatchesAreDisjoint, EmissionsBalance, AllAnnounced, DistinctIds, Agrees;
    WorkerFacts(s, w);
    var id, t := s.workers[w].pc.shot.id, Apply(s, Crash(w));
    assert !Unattended(s.workers, id);
    OwnedRowIsUnflagged(s.tables.shots, s.workers[w].pc.shot);
    UnflaggedRowsAgree(s.tables.shots, s.tables.outbox, id);
    FewerWorkersSpare(s.workers, w, id);
    hide Unattended;
    MoveKeepsAgreement(s, t, id);
  }

  lemma NewRowsAreNotAnnounced(t: Tables, emitted: seq<Event>, id: nat)
    requires EventsMatchRows(t, emitted) && forall row | row in t.shots :: row.id != id
    ensures forall e | e in t.outbox || e in emitted :: e.payload.id != id
  {
    hide DistinctIds;
    forall e | e in t.outbox || e in emitted ensures e.payload.id != id {
      assert Announced(t.shots, e);
      CoreParts(e.payload);
      CoreParts(t.shots[e.id]);
    }
  }

  lemma InsertKeepsAgreement(s: State, w: nat, now: int)
    requires Enabled(s, Upsert(w, now)) && !Stored(s.tables.shots, s.workers[w].pc.shot)
    requires Inv(s) && OutboxInv(s) && EventsAgree(s)
    ensures EventsAgree(Upserted(s, w, now))
  {
    hide JobsAreAdmitted, RowsAreJobs, WorkersAreHonest, OwnersAreDistinct, FlagsAreJustified, Deciding;
    hide Core, HasNear, KnownAs, Holds, Stored;
    hide BatchesAreDisjoint, EmissionsBalance, EventsMatchRows, ClaimsAreSound;
    WorkerFacts(s, w);
    var shot, t := s.workers[w].pc.shot, Upserted(s, w, now);
    NewKeyMeansNewId(s.tables.shots, s.jobs, s.workers[w].job, shot);
    NewRowsAreNotAnnounced(s.tables, s.emitted, shot.id);
    MovedWorkerSpares(s.workers, w, t.workers[w], shot.id);
    ClaimedEventsArePending(s.tables.outbox, s.claims);
    assert !Unattended(t.workers, shot.id) by { assert Owns(t.workers[w].pc); }
    hide Unattended;
  }

  lemma ClaimedEventsArePending(outbox: seq<Event>, claims: map<nat, Claim>)
    requires ClaimsAreSound(outbox, claims)
    ensures forall p, e | p in claims && e in claims[p].batch :: e in outbox
  {
    hide DistinctIds;
    forall p, e | p in claims && e in claims[p].batch ensures e in outbox { assert ClaimIsSound(outbox, claims[p]); }
  }

  // ----- Steps that own nothing -----

  lemma OwnerlessMove(workers: map<nat, Worker>, w: nat, worker: Worker)
    requires (w in workers ==> !Owns(workers[w].pc)) && !Owns(worker.pc)
    ensures forall x: nat :: Unattended(workers[w := worker], x) <==> Unattended(workers, x)
    ensures forall x: nat :: Unattended(workers - {w}, x) <==> Unattended(workers, x)
  {
    forall x: nat ensures Unattended(workers[w := worker], x) <==> Unattended(workers, x)
                  ensures Unattended(workers - {w}, x) <==> Unattended(workers, x)
    {
      assert forall v | v in workers && v != w :: workers[w := worker][v] == workers[v] && (workers - {w})[v] == workers[v];
    }
  }

  lemma IdleStepKeepsAgreement(s: State, a: Action)
    requires Enabled(s, a) && (a.Start? || a.Prepare? || a.Upsert? || a.Crash? || a.Admit?) && !IsInsert(s, a)
    requires a.Crash? ==> !Owns(s.workers[a.w].pc)
    requires EventsAgree(s)
    ensures EventsAgree(Apply(s, a))
  {
    hide HasExcessiveClockSkew, Stored, WellHashed, Agrees;
    var t := Apply(s, a);
    if !a.Admit? {
      var idle := Worker(Job(Shot(0, TrackPro, "", "", None, 0, "", 0.0, 0.0, 0.0, 0.0, None, "", None), 0), Fetched);
      OwnerlessMove(s.workers, a.w, if a.w in t.workers then t.workers[a.w] else idle);
    }
    assert forall x: nat :: Unattended(t.workers, x) <==> Unattended(s.workers, x);
    hide Unattended;
  }

  lemma BackfillKeepsAgreement(s: State, user: IdentityProtocol.User, canonicalUserId: string)
    requires EventsAgree(s)
    ensures EventsAgree(Apply(s, Backfill(user, canonicalUserId)))
  {
    hide Unattended;
  }

  lemma PublisherKeepsAgreement(s: State, a: Action)
    requires Enabled(s, a) && IsPublisherStep(a) && Prompt(s, a)
    requires ClaimsAreSound(s.tables.outbox, s.claims) && EventsAgree(s)
    ensures EventsAgree(Apply(s, a))
  {
    hide Unattended, Agrees, Without, ValidClaim, Locked;
    ClaimedEventsArePending(s.tables.outbox, s.claims);
    if a.Commit? { CommitRemoves(s.tables.outbox, SetOf(s.claims[a.p].successful)); }
    hide ClaimsAreSound;
    if a.Emit? {
      var row := s.claims[a.p].batch[s.claims[a.p].handled];
      assert row in s.claims[a.p].batch;
      assert Unattended(s.workers, row.payload.id) && Agrees(s.tables.shots, row);
    }
  }

  // ----- Whole runs -----

  lemma StepKeepsAgreement(s: State, a: Action)
    requires Enabled(s, a) && Prompt(s, a)
    requires Inv(s) && OutboxInv(s) && EventsAgree(s)
    ensures EventsAgree(Apply(s, a))
  {
    hide Inv, EventsAgree, Stored, EventsMatchRows, ClaimsAreSound, BatchesAreDisjoint, EmissionsBalance, Prompt;
    assert a.Crash? ==> !s.workers[a.w].pc.Flagged? by { CrashIsPrompt(s, a); }
    match a
    case Admit(_) => IdleStepKeepsAgreement(s, a);
    case Start(_, _) => IdleStepKeepsAgreement(s, a);
    case Prepare(_, _) => IdleStepKeepsAgreement(s, a);
    case Upsert(w, now) => if IsInsert(s, a) { InsertKeepsAgreement(s, w, now); } else { IdleStepKeepsAgreement(s, a); }
    case Look(w, found) => LookKeepsAgreement(s, w, found);
    case FlagShot(w) => FlagKeepsAgreement(s, w);
    case AnnounceOrigin(w) => AnnounceKeepsAgreement(s, w);
    case Crash(w) => if Undecided(s.workers[w].pc) { CrashKeepsAgreement(s, w); } else { IdleStepKeepsAgreement(s, a); }
    case ClaimBatch(_, _) => PublisherKeepsAgreement(s, a);
    case Emit(_, _) => PublisherKeepsAgreement(s, a);
    case Commit(_) => PublisherKeepsAgreement(s, a);
    case Rollback(_) => PublisherKeepsAgreement(s, a);
    case Backfill(user, canonicalUserId) => BackfillKeepsAgreement(s, user, canonicalUserId);
  }

  lemma CrashIsPrompt(s: State, a: Action)
    requires Enabled(s, a) && Prompt(s, a)
    ensures a.Crash? ==> !s.workers[a.w].pc.Flagged?
  {
  }

  lemma {:induction false} PromptRunsKeepAgreement(s: State, actions: seq<Action>, t: State)
    requires Inv(s) && OutboxInv(s) && EventsAgree(s) && PromptlyRuns(s, actions, t)
    ensures EventsAgree(t)
    decreases actions
  {
    hide Inv, OutboxInv, Enabled, Apply, Prompt, EventsAgree;
    if actions != [] {
      StepKeepsAgreement(s, actions[0]);
      StepKeepsOutbox(s, actions[0]);
      StepKeeps(s, actions[0]);
      PromptRunsKeepAgreement(Apply(s, actions[0]), actions[1..], t);
    }
  }

  /** Every emitted event names exactly the origin, or none, that the row of its shot carries. */
  lemma PromptRunsCarryEveryOrigin(actions: seq<Action>, t: State, e: Event)
    requires PromptlyRuns(INIT, actions, t) && e in t.emitted
    ensures e.id < |t.tables.shots| && t.tables.shots[e.id].id == e.payload.id
    ensures e.payload.duplicateOf == t.tables.shots[e.id].duplicateOf
  {
    hide PromptlyRuns;
    assert Inv(INIT) && OutboxInv(INIT) by { DecidingNobody(); }
    hide Inv, OutboxInv;
    PromptRunsKeepAgreement(INIT, actions, t);
  }

  lemma DecidingNobody()
    ensures Deciding(INIT.workers) == {}
  {
  }
}
