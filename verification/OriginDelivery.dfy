/** Whether the listeners learn the origin of a near-duplicate: its row is flagged first, and the pending
    event is only updated in a later statement. */
module OriginDelivery {
  import opened Domain
  import opened ContentHash
  import opened NearDuplicates
  import opened ShotRepository
  import opened ShotProcessor
  import opened OutboxPublisher
  import opened IngestionProtocol
  import opened IngestionSafety
  import opened IngestionHistory
  import opened OutboxSafety
  import opened ScriptedRuns
  import opened DuplicateGraph
  import IdentityProtocol

  // ----- An event can be emitted too early -----

  /** The emitted event names no origin, the row does, and nothing is left in the outbox to correct it. */
  ghost predicate Unaware(s: State, e: Event, shot: Shot, origin: Shot) {
    && e in s.emitted && Core(e.payload) == Core(shot) && e.payload.duplicateOf.None?
    && Holds(s.tables.shots, shot, Some(origin.id)) && (exists flag :: Holds(s.tables.shots, origin, flag))
    && s.tables.outbox == []
  }

  lemma EmittedBeforeTheFlag(s: State, a: Shot, b: Shot)
    requires Reachable(s) && s.tables.shots == [a, b] && s.claims == map[] && s.emitted == []
    requires s.tables.outbox == [Event(0, SHOT_PERSISTED, a, 0), Event(1, SHOT_PERSISTED, b, 0)]
    requires 1 in s.workers && s.workers[1].pc == Unchecked(b)
    requires Candidate(b, a) && !Candidate(b, b) && b.duplicateOf.None?
    ensures exists t, e :: Reachable(t) && Unaware(t, e, b, a)
  {
    hide Reachable, Candidate, Without, Unaware;
    ReachableSteps(s, ClaimBatch(0, s.tables.outbox));
    var s1 := Apply(s, ClaimBatch(0, s.tables.outbox));
    ReachableSteps(s1, Emit(0, false));
    var s2 := Apply(s1, Emit(0, false));
    ReachableSteps(s2, Emit(0, false));
    var s3 := Apply(s2, Emit(0, false));
    assert s3.claims[0] == Claim(s.tables.outbox, 2, [0, 1]) && s3.emitted == s.tables.outbox;
    ReachableSteps(s3, Commit(0));
    var s4 := Apply(s3, Commit(0));
    WithoutEverything(s.tables.outbox, SetOf([0, 1]));
    assert s4.tables.shots == [a, b] && s4.workers == s.workers && s4.emitted == s.tables.outbox;
    FlaggedLate(s4, a, b, s.tables.outbox[1]);
  }

  lemma FlaggedLate(s: State, a: Shot, b: Shot, e: Event)
    requires Reachable(s) && s.tables.shots == [a, b] && s.tables.outbox == []
    requires 1 in s.workers && s.workers[1].pc == Unchecked(b)
    requires Candidate(b, a) && !Candidate(b, b) && b.duplicateOf.None? && e in s.emitted && e.payload == b
    ensures exists t, e :: Reachable(t) && Unaware(t, e, b, a)
  {
    hide Reachable, HashAt;
    assert b.id != a.id;
    hide Candidate;
    ReachableSteps(s, Look(1, Some(a)));
    var t := Apply(s, Look(1, Some(a)));
    ReachableSteps(t, FlagShot(1));
    var u := Apply(t, FlagShot(1));
    assert u.tables.shots[0] == a && u.tables.shots[1] == b.(duplicateOf := Some(a.id));
    CoreWithoutFlag(b, a.id);
    hide Core, Apply;
    assert Holds(u.tables.shots, a, a.duplicateOf);
    assert Unaware(u, e, b, a);
  }

  /** Some run leaves the listeners unaware that b is a duplicate of a exactly when b can be one at all. */
  lemma EventsMayMissTheirOrigin(a: Job, b: Job)
    requires TwoJobs(a, b)
    ensures (exists s, e :: Reachable(s) && Unaware(s, e, b.shot, a.shot)) <==> Candidate(b.shot, a.shot)
  {
    hide Reachable, Candidate, Holds, Core, SameKey;
    hide JobsAreAdmitted, WorkersAreHonest, OwnersAreDistinct, RowsAreJobs, Deciding;
    if s, e :| Reachable(s) && Unaware(s, e, b.shot, a.shot) {
      var flag :| Holds(s.tables.shots, a.shot, flag);
      ReachableStatesAreSafe(s);
      UniqueRows(s);
      NamedRow(s.tables.shots, b.shot, a.shot, flag);
    }
    if Candidate(b.shot, a.shot) { EmissionOvertakes(a, b); }
  }

  lemma EmissionOvertakes(a: Job, b: Job)
    requires TwoJobs(a, b) && Candidate(b.shot, a.shot)
    ensures exists s, e :: Reachable(s) && Unaware(s, e, b.shot, a.shot)
  {
    hide Candidate, Unaware;
    InsertBoth(a, b);
    NotItsOwnCandidate(b.shot);
    EmittedBeforeTheFlag(BothInserted(a, b), a.shot, b.shot);
  }

  // ----- Events before their announcement -----

  predicate About(events: seq<Event>, id: nat) {
    exists e | e in events :: e.payload.id == id
  }

  predicate NamesNoOrigin(events: seq<Event>, id: nat) {
    forall e | e in events && e.payload.id == id :: e.payload.duplicateOf.None?
  }

  ghost predicate Silent(s: State, id: nat) {
    NamesNoOrigin(s.tables.outbox, id) && NamesNoOrigin(s.emitted, id)
  }

  /** Until its worker has announced it, no event names the origin. */
  ghost predicate UnannouncedAreSilent(s: State) {
    forall w | w in s.workers && s.workers[w].pc.Flagged? :: Silent(s, s.workers[w].pc.shot.id)
  }

  lemma UnflaggedRowsAreSilent(shots: seq<Shot>, events: seq<Event>, id: nat)
    requires AllAnnounced(shots, events) && forall i | 0 <= i < |shots| && shots[i].id == id :: shots[i].duplicateOf.None?
    ensures NamesNoOrigin(events, id)
  {
    forall e | e in events && e.payload.id == id ensures e.payload.duplicateOf.None? {
      assert Announced(shots, e);
      CoreParts(e.payload);
      CoreParts(shots[e.id]);
    }
  }

  lemma FlagKeepsSilence(s: State, w: nat)
    requires Enabled(s, FlagShot(w))
    requires Inv(s) && OutboxInv(s) && UnannouncedAreSilent(s)
    ensures UnannouncedAreSilent(FlaggedShot(s, w))
  {
    hide JobsAreAdmitted, RowsAreJobs, WorkersAreHonest, OwnersAreDistinct, FlagsAreJustified, Deciding;
    hide Core, HasNear, Holds, NamesNoOrigin, AllAnnounced, DistinctIds, ClaimsAreSound, BatchesAreDisjoint, EmissionsBalance;
    WorkerFacts(s, w);
    var shots, id := s.tables.shots, s.workers[w].pc.shot.id;
    OwnedRowIsUnflagged(shots, s.workers[w].pc.shot);
    UnflaggedRowsAreSilent(shots, s.tables.outbox, id);
    UnflaggedRowsAreSilent(shots, s.emitted, id);
  }

  lemma AnnounceSpares(outbox: seq<Event>, id: nat, origin: nat, other: nat)
    ensures About(Announce(outbox, id, origin), other) <==> About(outbox, other)
    ensures id != other && NamesNoOrigin(outbox, other) ==> NamesNoOrigin(Announce(outbox, id, origin), other)
  {
    var later := Announce(outbox, id, origin);
    forall e | e in later ensures About(outbox, e.payload.id) && (e.payload.id != id ==> e in outbox) {
      var i :| 0 <= i < |later| && later[i] == e;
      assert outbox[i] in outbox;
    }
    forall e | e in outbox ensures About(later, e.payload.id) {
      var i :| 0 <= i < |outbox| && outbox[i] == e;
      assert later[i] in later;
    }
  }

  lemma AnnounceKeepsSilence(s: State, w: nat)
    requires Enabled(s, AnnounceOrigin(w))
    requires OwnersAreDistinct(s.workers) && UnannouncedAreSilent(s)
    ensures UnannouncedAreSilent(AnnouncedOrigin(s, w))
  {
    hide NamesNoOrigin, Announce, Locked;
    var shot, origin := s.workers[w].pc.shot, s.workers[w].pc.origin;
    var t := AnnouncedOrigin(s, w);
    forall v | v in t.workers && t.workers[v].pc.Flagged? ensures Silent(t, t.workers[v].pc.shot.id) {
      assert v != w && Silent(s, s.workers[v].pc.shot.id);
      assert Owns(s.workers[v].pc) && Owns(s.workers[w].pc);
      AnnounceSpares(s.tables.outbox, shot.id, origin, s.workers[v].pc.shot.id);
    }
  }

  /** What is emitted was in the outbox, and a commit only removes. */
  lemma PublisherMovesEvents(s: State, a: Action)
    requires Enabled(s, a) && IsPublisherStep(a)
    requires ClaimsAreSound(s.tables.outbox, s.claims)
    ensures var t := Apply(s, a);
            && t.workers == s.workers && t.tables.shots == s.tables.shots && t.jobs == s.jobs
            && (forall e | e in t.tables.outbox :: e in s.tables.outbox)
            && (t.emitted == s.emitted || exists e :: e in s.tables.outbox && t.emitted == s.emitted + [e])
  {
    hide DistinctIds, Without, ValidClaim, Locked;
    if a.Emit? {
      assert ClaimIsSound(s.tables.outbox, s.claims[a.p]);
      var row := s.claims[a.p].batch[s.claims[a.p].handled];
      assert row in s.claims[a.p].batch;
    }
    if a.Commit? { CommitRemoves(s.tables.outbox, SetOf(s.claims[a.p].successful)); }
  }

  lemma CommitRemoves(outbox: seq<Event>, ids: set<nat>)
    ensures forall e | e in Without(outbox, ids) :: e in outbox
  {
  }

  lemma MovedEventsStaySilent(s: State, t: State, id: nat)
    requires forall e | e in t.tables.outbox :: e in s.tables.outbox
    requires t.emitted == s.emitted || exists e :: e in s.tables.outbox && t.emitted == s.emitted + [e]
    requires Silent(s, id)
    ensures Silent(t, id)
  {
  }

  predicate IsPublisherStep(a: Action) {
    a.ClaimBatch? || a.Emit? || a.Commit? || a.Rollback?
  }

  predicate IsInsert(s: State, a: Action)
    requires a.Upsert? ==> a.w in s.workers && s.workers[a.w].pc.Ready?
  {
    a.Upsert? && !Stored(s.tables.shots, s.workers[a.w].pc.shot)
  }

  lemma InsertKeepsSilence(s: State, w: nat, now: int)
    requires Enabled(s, Upsert(w, now)) && !Stored(s.tables.shots, s.workers[w].pc.shot)
    requires Inv(s) && UnannouncedAreSilent(s)
    ensures UnannouncedAreSilent(Upserted(s, w, now))
  {
    hide JobsAreAdmitted, RowsAreJobs, WorkersAreHonest, OwnersAreDistinct, FlagsAreJustified, Deciding;
    hide Holds, HasNear, Core, KnownAs, Stored;
    WorkerFacts(s, w);
  }

  lemma PublisherKeepsSilence(s: State, a: Action)
    requires Enabled(s, a) && IsPublisherStep(a)
    requires ClaimsAreSound(s.tables.outbox, s.claims) && UnannouncedAreSilent(s)
    ensures UnannouncedAreSilent(Apply(s, a))
  {
    hide ClaimsAreSound, Enabled, Apply, Silent;
    PublisherMovesEvents(s, a);
    forall id | Silent(s, id) ensures Silent(Apply(s, a), id) { MovedEventsStaySilent(s, Apply(s, a), id); }
  }

  lemma OtherStepsKeepSilence(s: State, a: Action)
    requires Enabled(s, a) && !IsPublisherStep(a) && !IsInsert(s, a) && !a.FlagShot? && !a.AnnounceOrigin?
    requires UnannouncedAreSilent(s)
    ensures UnannouncedAreSilent(Apply(s, a))
  {
    hide NamesNoOrigin, IsOrigin, HasCandidate, HasExcessiveClockSkew, Stored, WellHashed, Locked, ValidClaim;
    hide IdentityProtocol.Backfilled;
  }

  lemma StepKeepsSilence(s: State, a: Action)
    requires Enabled(s, a)
    requires Inv(s) && OutboxInv(s) && UnannouncedAreSilent(s)
    ensures UnannouncedAreSilent(Apply(s, a))
  {
    hide UnannouncedAreSilent, Stored, EventsMatchRows, ClaimsAreSound, BatchesAreDisjoint, EmissionsBalance;
    hide JobsAreAdmitted, RowsAreJobs, WorkersAreHonest, OwnersAreDistinct, FlagsAreJustified, Deciding;
    if a.FlagShot? {
      FlagKeepsSilence(s, a.w);
    } else if a.AnnounceOrigin? {
      AnnounceKeepsSilence(s, a.w);
    } else if IsInsert(s, a) {
      InsertKeepsSilence(s, a.w, a.now);
    } else if IsPublisherStep(a) {
      PublisherKeepsSilence(s, a);
    } else {
      OtherStepsKeepSilence(s, a);
    }
  }

  lemma {:induction false} RunsKeepSilence(s: State, actions: seq<Action>, t: State)
    requires Inv(s) && OutboxInv(s) && UnannouncedAreSilent(s) && Runs(s, actions, t)
    ensures Inv(t) && OutboxInv(t) && UnannouncedAreSilent(t)
    decreases actions
  {
    hide Inv, OutboxInv, Enabled, Apply, UnannouncedAreSilent;
    if actions != [] {
      StepKeepsSilence(s, actions[0]);
      StepKeepsOutbox(s, actions[0]);
      StepKeeps(s, actions[0]);
      RunsKeepSilence(Apply(s, actions[0]), actions[1..], t);
    }
  }

  lemma ReachableStatesAreSilent(s: State)
    requires Reachable(s)
    ensures Inv(s) && OutboxInv(s) && UnannouncedAreSilent(s)
  {
    hide Runs;
    var actions :| Runs(INIT, actions, s);
    RunsKeepSilence(INIT, actions, s);
  }

  // ----- Events after their announcement -----

  /** The row has the flag, pending events name the origin, and so do those emitted since the base. */
  ghost predicate Carries(s: State, base: seq<Event>, id: nat, origin: nat) {
    && HasFlag(s.tables.shots, id, origin)
    && (forall e | e in s.tables.outbox && e.payload.id == id :: e.payload.duplicateOf == Some(origin))
    && base <= s.emitted
    && forall k | |base| <= k < |s.emitted| && s.emitted[k].payload.id == id ::
         s.emitted[k].payload.duplicateOf == Some(origin)
  }

  ghost predicate HasFlag(shots: seq<Shot>, id: nat, origin: nat) {
    exists i :: 0 <= i < |shots| && shots[i].id == id && shots[i].duplicateOf == Some(origin)
  }

  lemma FlagStays(shots: seq<Shot>, later: seq<Shot>, id: nat, origin: nat)
    requires Grows(shots, later) && HasFlag(shots, id, origin)
    ensures HasFlag(later, id, origin)
  {
    hide Core;
    var i :| 0 <= i < |shots| && shots[i].id == id && shots[i].duplicateOf == Some(origin);
    assert Preserved(shots[i], later[i]);
    CoreParts(shots[i]);
    CoreParts(later[i]);
  }

  lemma InsertKeepsCarrying(s: State, w: nat, now: int, base: seq<Event>, id: nat, origin: nat)
    requires Enabled(s, Upsert(w, now)) && !Stored(s.tables.shots, s.workers[w].pc.shot)
    requires Inv(s) && Carries(s, base, id, origin)
    ensures Carries(Upserted(s, w, now), base, id, origin)
  {
    hide JobsAreAdmitted, RowsAreJobs, WorkersAreHonest, OwnersAreDistinct, FlagsAreJustified, Deciding;
    hide Holds, HasNear, Core, KnownAs, Stored, Grows;
    WorkerFacts(s, w);
    var shots, shot := s.tables.shots, s.workers[w].pc.shot;
    NewKeyMeansNewId(shots, s.jobs, s.workers[w].job, shot);
    var i :| 0 <= i < |shots| && shots[i].id == id && shots[i].duplicateOf == Some(origin);
    assert shots[i] in shots && (shots + [shot])[i] == shots[i];
  }

  lemma AnnounceKeepsCarrying(s: State, w: nat, base: seq<Event>, id: nat, origin: nat)
    requires Enabled(s, AnnounceOrigin(w))
    requires Inv(s) && Carries(s, base, id, origin)
    ensures Carries(AnnouncedOrigin(s, w), base, id, origin)
  {
    hide JobsAreAdmitted, RowsAreJobs, WorkersAreHonest, OwnersAreDistinct, FlagsAreJustified, Deciding, Locked;
    hide HasNear, KnownAs;
    WorkerFacts(s, w);
    var shots, shot, other := s.tables.shots, s.workers[w].pc.shot, s.workers[w].pc.origin;
    if shot.id == id { OneFlagPerRow(shots, shot, other, origin); }
    hide Core, Holds, HasFlag;
    AnnounceWrites(s.tables.outbox, shot.id, other);
  }

  lemma OneFlagPerRow(shots: seq<Shot>, shot: Shot, x: nat, y: nat)
    requires UniqueIds(shots) && Holds(shots, shot, Some(x)) && HasFlag(shots, shot.id, y)
    ensures x == y
  {
    var k :| 0 <= k < |shots| && Core(shots[k]) == Core(shot) && shots[k].duplicateOf == Some(x);
    var i :| 0 <= i < |shots| && shots[i].id == shot.id && shots[i].duplicateOf == Some(y);
    CoreParts(shots[k]);
    CoreParts(shot);
    OnlyRow(shots, i, k);
  }

  lemma AnnounceWrites(outbox: seq<Event>, id: nat, origin: nat)
    ensures forall e | e in Announce(outbox, id, origin) :: e in outbox || e.payload.duplicateOf == Some(origin)
    ensures forall e | e in Announce(outbox, id, origin) && e.payload.id != id :: e in outbox
    ensures (forall e | e in outbox :: e.eventType == SHOT_PERSISTED) ==>
              forall e | e in Announce(outbox, id, origin) && e.payload.id == id :: e.payload.duplicateOf == Some(origin)
  {
    var later := Announce(outbox, id, origin);
    forall e | e in later
      ensures e in outbox || (e.payload.duplicateOf == Some(origin) && e.payload.id == id)
      ensures e.payload.id == id && (forall x | x in outbox :: x.eventType == SHOT_PERSISTED) ==> e.payload.duplicateOf == Some(origin)
    {
      var i :| 0 <= i < |later| && later[i] == e;
      assert outbox[i] in outbox;
    }
  }

  lemma MovedEventsCarry(s: State, t: State, base: seq<Event>, id: nat, origin: nat)
    requires t.tables.shots == s.tables.shots && Carries(s, base, id, origin)
    requires forall e | e in t.tables.outbox :: e in s.tables.outbox
    requires t.emitted == s.emitted || exists e :: e in s.tables.outbox && t.emitted == s.emitted + [e]
    ensures Carries(t, base, id, origin)
  {
    hide HasFlag;
  }

  lemma PublisherKeepsCarrying(s: State, a: Action, base: seq<Event>, id: nat, origin: nat)
    requires Enabled(s, a) && IsPublisherStep(a)
    requires ClaimsAreSound(s.tables.outbox, s.claims) && Carries(s, base, id, origin)
    ensures Carries(Apply(s, a), base, id, origin)
  {
    hide ClaimsAreSound, Enabled, Apply, Carries;
    PublisherMovesEvents(s, a);
    MovedEventsCarry(s, Apply(s, a), base, id, origin);
  }

  lemma OtherStepsKeepCarrying(s: State, a: Action, base: seq<Event>, id: nat, origin: nat)
    requires Enabled(s, a) && !IsPublisherStep(a) && !IsInsert(s, a) && !a.AnnounceOrigin?
    requires Inv(s) && Carries(s, base, id, origin)
    ensures Carries(Apply(s, a), base, id, origin)
  {
    hide Inv, Grows, HasFlag, IsOrigin, HasCandidate, HasExcessiveClockSkew, Stored, WellHashed, Locked, ValidClaim;
    hide IdentityProtocol.Backfilled;
    StepGrows(s, a);
    FlagStays(s.tables.shots, Apply(s, a).tables.shots, id, origin);
  }

  lemma StepKeepsCarrying(s: State, a: Action, base: seq<Event>, id: nat, origin: nat)
    requires Enabled(s, a)
    requires Inv(s) && OutboxInv(s) && Carries(s, base, id, origin)
    ensures Carries(Apply(s, a), base, id, origin)
  {
    hide Inv, Carries, Stored, EventsMatchRows, ClaimsAreSound, BatchesAreDisjoint, EmissionsBalance;
    if IsInsert(s, a) {
      InsertKeepsCarrying(s, a.w, a.now, base, id, origin);
    } else if a.AnnounceOrigin? {
      AnnounceKeepsCarrying(s, a.w, base, id, origin);
    } else if IsPublisherStep(a) {
      PublisherKeepsCarrying(s, a, base, id, origin);
    } else {
      OtherStepsKeepCarrying(s, a, base, id, origin);
    }
  }

  lemma {:induction false} RunsKeepCarrying(s: State, actions: seq<Action>, t: State, base: seq<Event>, id: nat, origin: nat)
    requires Inv(s) && OutboxInv(s) && Carries(s, base, id, origin) && Runs(s, actions, t)
    ensures Carries(t, base, id, origin)
    decreases actions
  {
    hide Inv, OutboxInv, Enabled, Apply, Carries;
    if actions != [] {
      StepKeepsCarrying(s, actions[0], base, id, origin);
      StepKeepsOutbox(s, actions[0]);
      StepKeeps(s, actions[0]);
      RunsKeepCarrying(Apply(s, actions[0]), actions[1..], t, base, id, origin);
    }
  }

  // ----- Events whose announcement will never come -----

  ghost predicate Unattended(workers: map<nat, Worker>, id: nat) {
    forall w | w in workers && Owns(workers[w].pc) :: workers[w].pc.shot.id != id
  }

  predicate HasRow(shots: seq<Shot>, id: nat) {
    exists i :: 0 <= i < |shots| && shots[i].id == id
  }

  /** No event of the row names an origin, and none will: it has left the outbox, or nobody is left to announce. */
  ghost predicate NeverNamed(s: State, id: nat) {
    && HasRow(s.tables.shots, id)
    && Silent(s, id)
    && (About(s.tables.outbox, id) ==> Unattended(s.workers, id))
  }

  lemma RowStays(shots: seq<Shot>, later: seq<Shot>, id: nat)
    requires Grows(shots, later) && HasRow(shots, id)
    ensures HasRow(later, id)
  {
    hide Core;
    var i :| 0 <= i < |shots| && shots[i].id == id;
    assert Preserved(shots[i], later[i]);
    CoreParts(shots[i]);
    CoreParts(later[i]);
  }

  lemma InsertKeepsNeverNamed(s: State, w: nat, now: int, id: nat)
    requires Enabled(s, Upsert(w, now)) && !Stored(s.tables.shots, s.workers[w].pc.shot)
    requires Inv(s) && NeverNamed(s, id)
    ensures NeverNamed(Upserted(s, w, now), id)
  {
    hide JobsAreAdmitted, RowsAreJobs, WorkersAreHonest, OwnersAreDistinct, FlagsAreJustified, Deciding;
    hide Holds, HasNear, Core, KnownAs, Stored, Grows;
    WorkerFacts(s, w);
    var shots, shot := s.tables.shots, s.workers[w].pc.shot;
    NewKeyMeansNewId(shots, s.jobs, s.workers[w].job, shot);
    var i :| 0 <= i < |shots| && shots[i].id == id;
    assert shots[i] in shots && (shots + [shot])[i] == shots[i];
  }

  lemma AnnounceKeepsNeverNamed(s: State, w: nat, id: nat)
    requires Enabled(s, AnnounceOrigin(w)) && NeverNamed(s, id)
    ensures NeverNamed(AnnouncedOrigin(s, w), id)
  {
    hide Announce, Locked;
    AnnounceSpares(s.tables.outbox, s.workers[w].pc.shot.id, s.workers[w].pc.origin, id);
    assert About(s.tables.outbox, id) ==> s.workers[w].pc.shot.id != id;
    hide About;
  }

  lemma MovedEventsStayUnnamed(s: State, t: State, id: nat)
    requires t.workers == s.workers && t.tables.shots == s.tables.shots && NeverNamed(s, id)
    requires forall e | e in t.tables.outbox :: e in s.tables.outbox
    requires t.emitted == s.emitted || exists e :: e in s.tables.outbox && t.emitted == s.emitted + [e]
    ensures NeverNamed(t, id)
  {
    MovedEventsStaySilent(s, t, id);
    hide Silent, Unattended, HasRow;
  }

  lemma OtherStepsKeepNeverNamed(s: State, a: Action, id: nat)
    requires Enabled(s, a) && !IsPublisherStep(a) && !IsInsert(s, a) && !a.AnnounceOrigin?
    requires Inv(s) && NeverNamed(s, id)
    ensures NeverNamed(Apply(s, a), id)
  {
    hide Inv, Grows, HasRow, NamesNoOrigin, About;
    hide IsOrigin, HasCandidate, HasExcessiveClockSkew, Stored, WellHashed, Locked, ValidClaim, IdentityProtocol.Backfilled;
    StepGrows(s, a);
    RowStays(s.tables.shots, Apply(s, a).tables.shots, id);
  }

  lemma StepKeepsNeverNamed(s: State, a: Action, id: nat)
    requires Enabled(s, a)
    requires Inv(s) && OutboxInv(s) && NeverNamed(s, id)
    ensures NeverNamed(Apply(s, a), id)
  {
    hide Inv, NeverNamed, Stored, EventsMatchRows, ClaimsAreSound, BatchesAreDisjoint, EmissionsBalance;
    if IsInsert(s, a) {
      InsertKeepsNeverNamed(s, a.w, a.now, id);
    } else if a.AnnounceOrigin? {
      AnnounceKeepsNeverNamed(s, a.w, id);
    } else if IsPublisherStep(a) {
      PublisherMovesEvents(s, a);
      MovedEventsStayUnnamed(s, Apply(s, a), id);
    } else {
      OtherStepsKeepNeverNamed(s, a, id);
    }
  }

  lemma {:induction false} RunsKeepNeverNamed(s: State, actions: seq<Action>, t: State, id: nat)
    requires Inv(s) && OutboxInv(s) && NeverNamed(s, id) && Runs(s, actions, t)
    ensures NeverNamed(t, id)
    decreases actions
  {
    hide Inv, OutboxInv, Enabled, Apply, NeverNamed;
    if actions != [] {
      StepKeepsNeverNamed(s, actions[0], id);
      StepKeepsOutbox(s, actions[0]);
      StepKeeps(s, actions[0]);
      RunsKeepNeverNamed(Apply(s, actions[0]), actions[1..], t, id);
    }
  }

  // ----- Emissions only accumulate -----

  ghost predicate Accumulates(s: State, t: State) {
    && s.emitted <= t.emitted
    && s.tables.nextEventId <= t.tables.nextEventId
    && forall id: nat :: s.rolledBack[id] <= t.rolledBack[id]
  }

  lemma StepAccumulates(s: State, a: Action)
    requires Enabled(s, a)
    ensures Accumulates(s, Apply(s, a))
  {
    hide Stored, IsOrigin, HasCandidate, HasExcessiveClockSkew, WellHashed, Locked, ValidClaim;
  }

  lemma {:induction false} RunsAccumulate(s: State, actions: seq<Action>, t: State)
    requires Runs(s, actions, t)
    ensures Accumulates(s, t)
    decreases actions
  {
    hide Enabled, Apply;
    if actions != [] {
      StepAccumulates(s, actions[0]);
      RunsAccumulate(Apply(s, actions[0]), actions[1..], t);
    }
  }

  lemma {:induction false} NewEmission(base: seq<Event>, emitted: seq<Event>, id: nat) returns (k: nat)
    requires base <= emitted && Emissions(base, id) < Emissions(emitted, id)
    ensures |base| <= k < |emitted| && emitted[k].id == id
    decreases |emitted|
  {
    assert emitted != base;
    var n := |emitted| - 1;
    if emitted[n].id == id { return n; }
    assert base <= emitted[..n];
    k := NewEmission(base, emitted[..n], id);
  }

  // ----- When the origin reaches the listeners -----

  /** The shot of the event, for an event that an outbox holds. */
  lemma EventOfRow(s: State, e: Event)
    requires EventsMatchRows(s.tables, s.emitted) && (e in s.tables.outbox || e in s.emitted)
    ensures e.id < |s.tables.shots| && e.payload.id == s.tables.shots[e.id].id && e.eventType == SHOT_PERSISTED
  {
    hide DistinctIds;
    assert Announced(s.tables.shots, e);
    CoreParts(e.payload);
    CoreParts(s.tables.shots[e.id]);
  }

  lemma RowKeepsItsId(s: State, t: State, n: nat)
    requires Grows(s.tables.shots, t.tables.shots) && n < |s.tables.shots|
    ensures n < |t.tables.shots| && t.tables.shots[n].id == s.tables.shots[n].id
  {
    assert Preserved(s.tables.shots[n], t.tables.shots[n]);
    CoreParts(s.tables.shots[n]);
    CoreParts(t.tables.shots[n]);
  }

  predicate EmittedSince(base: seq<Event>, emitted: seq<Event>, e: Event) {
    exists k :: |base| <= k < |emitted| && emitted[k] == e
  }

  /** An event that is pending and unclaimed is emitted before it can leave the outbox. */
  lemma PendingEventsAreEmittedLater(s: State, actions: seq<Action>, t: State, e: Event) returns (later: Event)
    requires e in s.tables.outbox && !InFlight(s.claims, e.id) && !About(t.tables.outbox, e.payload.id)
    requires Inv(s) && OutboxInv(s) && Runs(s, actions, t)
    ensures EmittedSince(s.emitted, t.emitted, later) && later.payload.id == e.payload.id
  {
    hide Inv, Runs, ClaimsAreSound, BatchesAreDisjoint, Emissions, InFlight, Grows, Announced, DistinctIds, AllAnnounced;
    RunsAccumulate(s, actions, t);
    RunsGrow(s, actions, t);
    RunsKeepOutbox(s, actions, t);
    EventOfRow(s, e);
    RowKeepsItsId(s, t, e.id);
    assert e.id in Ids(s.tables.outbox);
    assert !Pending(t.tables.outbox, e.id) by {
      if Pending(t.tables.outbox, e.id) {
        var x :| x in t.tables.outbox && x.id == e.id;
        EventOfRow(t, x);
      }
    }
    assert Emissions(s.emitted, e.id) == One(Deleted(s.tables, e.id)) + One(InFlight(s.claims, e.id)) + s.rolledBack[e.id];
    assert Emissions(t.emitted, e.id) == One(Deleted(t.tables, e.id)) + One(InFlight(t.claims, e.id)) + t.rolledBack[e.id];
    var k := NewEmission(s.emitted, t.emitted, e.id);
    later := t.emitted[k];
    EventOfRow(t, later);
  }

  predicate NamesOrigin(events: seq<Event>, id: nat, origin: nat) {
    exists e | e in events :: e.payload.id == id && e.payload.duplicateOf == Some(origin)
  }

  lemma AnnouncedEventsCarry(s: State, w: nat)
    requires Enabled(s, AnnounceOrigin(w))
    requires Inv(s) && OutboxInv(s)
    ensures Carries(AnnouncedOrigin(s, w), s.emitted, s.workers[w].pc.shot.id, s.workers[w].pc.origin)
  {
    hide JobsAreAdmitted, RowsAreJobs, WorkersAreHonest, OwnersAreDistinct, FlagsAreJustified, Deciding, Locked;
    hide HasNear, KnownAs, ClaimsAreSound, BatchesAreDisjoint, EmissionsBalance, DistinctIds;
    WorkerFacts(s, w);
    var shots, shot, origin := s.tables.shots, s.workers[w].pc.shot, s.workers[w].pc.origin;
    var i :| 0 <= i < |shots| && Core(shots[i]) == Core(shot) && shots[i].duplicateOf == Some(origin);
    CoreParts(shots[i]);
    CoreParts(shot);
    assert HasFlag(shots, shot.id, origin);
    forall e | e in s.tables.outbox ensures e.eventType == SHOT_PERSISTED { assert Announced(shots, e); }
    hide Core, Holds, HasFlag, Announced;
    AnnounceWrites(s.tables.outbox, shot.id, origin);
  }

  lemma UnlockedIsNotInFlight(outbox: seq<Event>, claims: map<nat, Claim>, id: nat)
    requires ClaimsAreSound(outbox, claims) && id !in Locked(claims)
    ensures !InFlight(claims, id)
  {
    hide DistinctIds;
    forall p | p in claims ensures id !in claims[p].successful {
      BatchIsLocked(claims, p);
      if id in claims[p].successful { SuccessfulWasClaimed(outbox, claims[p], id); }
    }
  }

  lemma BatchIsLocked(claims: map<nat, Claim>, p: nat)
    requires p in claims
    ensures Ids(claims[p].batch) <= Locked(claims)
  {
  }

  /** Over every run after the announcing step in which the event leaves the outbox: the listeners learn the
      origin exactly if the event was still pending when the step ran. */
  lemma OriginReachesListenersIffStillPending(s: State, w: nat, actions: seq<Action>, t: State)
    requires Enabled(s, AnnounceOrigin(w))
    requires !About(t.tables.outbox, s.workers[w].pc.shot.id)
    requires Reachable(s) && Runs(Apply(s, AnnounceOrigin(w)), actions, t)
    ensures NamesOrigin(t.emitted, s.workers[w].pc.shot.id, s.workers[w].pc.origin)
       <==> About(s.tables.outbox, s.workers[w].pc.shot.id)
  {
    var id, origin := s.workers[w].pc.shot.id, s.workers[w].pc.origin;
    ReachableStatesAreSilent(s);
    if About(s.tables.outbox, id) {
      StillPending(s, w, actions, t);
    } else {
      AlreadyGone(s, w, actions, t);
    }
  }

  lemma AlreadyGone(s: State, w: nat, actions: seq<Action>, t: State)
    requires Enabled(s, AnnounceOrigin(w))
    requires Inv(s) && OutboxInv(s) && UnannouncedAreSilent(s) && Runs(Apply(s, AnnounceOrigin(w)), actions, t)
    requires !About(s.tables.outbox, s.workers[w].pc.shot.id)
    ensures !NamesOrigin(t.emitted, s.workers[w].pc.shot.id, s.workers[w].pc.origin)
  {
    hide JobsAreAdmitted, RowsAreJobs, WorkersAreHonest, OwnersAreDistinct, FlagsAreJustified, Deciding, Locked;
    hide HasNear, KnownAs, Runs, OutboxInv, About, Unattended;
    WorkerFacts(s, w);
    var id := s.workers[w].pc.shot.id;
    RowOfFlagged(s.tables.shots, s.workers[w].pc.shot, s.workers[w].pc.origin);
    assert Silent(s, id);
    hide Silent;
    assert NeverNamed(s, id);
    StepKeepsNeverNamed(s, AnnounceOrigin(w), id);
    StepKeepsOutbox(s, AnnounceOrigin(w));
    StepKeeps(s, AnnounceOrigin(w));
    RunsKeepNeverNamed(Apply(s, AnnounceOrigin(w)), actions, t, id);
    assert Silent(t, id);
    NoOriginNamed(t, id, s.workers[w].pc.origin);
  }

  lemma NoOriginNamed(t: State, id: nat, origin: nat)
    requires Silent(t, id)
    ensures !NamesOrigin(t.emitted, id, origin) && !NamesOrigin(t.tables.outbox, id, origin)
  {
  }

  lemma RowOfFlagged(shots: seq<Shot>, shot: Shot, origin: nat)
    requires Holds(shots, shot, Some(origin))
    ensures HasRow(shots, shot.id)
  {
    var i :| 0 <= i < |shots| && Core(shots[i]) == Core(shot) && shots[i].duplicateOf == Some(origin);
    CoreParts(shots[i]);
    CoreParts(shot);
  }

  lemma StillPending(s: State, w: nat, actions: seq<Action>, t: State)
    requires Enabled(s, AnnounceOrigin(w))
    requires About(s.tables.outbox, s.workers[w].pc.shot.id) && !About(t.tables.outbox, s.workers[w].pc.shot.id)
    requires Inv(s) && OutboxInv(s) && Runs(Apply(s, AnnounceOrigin(w)), actions, t)
    ensures NamesOrigin(t.emitted, s.workers[w].pc.shot.id, s.workers[w].pc.origin)
  {
    hide Inv, OutboxInv, Runs, About, InFlight, HasFlag, Locked, AnnouncedOrigin, Carries, NamesOrigin;
    var e := UnclaimedAnnouncement(s, w);
    AnnouncedEventsCarry(s, w);
    StepKeepsOutbox(s, AnnounceOrigin(w));
    StepKeeps(s, AnnounceOrigin(w));
    hide Enabled;
    var a := Apply(s, AnnounceOrigin(w));
    assert a == AnnouncedOrigin(s, w);
    hide Apply;
    CarriedEventIsEmitted(a, actions, t, e, s.emitted, s.workers[w].pc.origin);
  }

  lemma CarriedEventIsEmitted(a: State, actions: seq<Action>, t: State, e: Event, base: seq<Event>, origin: nat)
    requires e in a.tables.outbox && !InFlight(a.claims, e.id) && !About(t.tables.outbox, e.payload.id)
    requires Carries(a, base, e.payload.id, origin)
    requires Inv(a) && OutboxInv(a) && Runs(a, actions, t)
    ensures NamesOrigin(t.emitted, e.payload.id, origin)
  {
    hide Inv, OutboxInv, Runs, About, InFlight, HasFlag;
    RunsKeepCarrying(a, actions, t, base, e.payload.id, origin);
    var later := PendingEventsAreEmittedLater(a, actions, t, e);
    var k :| |a.emitted| <= k < |t.emitted| && t.emitted[k] == later;
    assert later in t.emitted;
  }

  lemma UnclaimedAnnouncement(s: State, w: nat) returns (e: Event)
    requires Enabled(s, AnnounceOrigin(w))
    requires OutboxInv(s) && About(s.tables.outbox, s.workers[w].pc.shot.id)
    ensures var t := AnnouncedOrigin(s, w);
            e in t.tables.outbox && e.payload.id == s.workers[w].pc.shot.id && !InFlight(t.claims, e.id)
  {
    hide BatchesAreDisjoint, EmissionsBalance, Locked, InFlight;
    var shot, origin := s.workers[w].pc.shot, s.workers[w].pc.origin;
    var x :| x in s.tables.outbox && x.payload.id == shot.id;
    EventOfRow(s, x);
    UnlockedIsNotInFlight(s.tables.outbox, s.claims, x.id);
    hide EventsMatchRows, ClaimsAreSound;
    var i :| 0 <= i < |s.tables.outbox| && s.tables.outbox[i] == x;
    e := Announce(s.tables.outbox, shot.id, origin)[i];
  }

  /** If the worker crashes between the flag and the announcement, no event ever names the origin. */
  lemma CrashBeforeTheAnnouncement(s: State, w: nat, actions: seq<Action>, t: State)
    requires Enabled(s, Crash(w)) && s.workers[w].pc.Flagged?
    requires Reachable(s) && Runs(Apply(s, Crash(w)), actions, t)
    ensures Silent(t, s.workers[w].pc.shot.id)
  {
    hide JobsAreAdmitted, RowsAreJobs, WorkersAreHonest, FlagsAreJustified, Deciding;
    hide HasNear, KnownAs, Runs, Reachable, OutboxInv, About;
    ReachableStatesAreSilent(s);
    WorkerFacts(s, w);
    var id := s.workers[w].pc.shot.id;
    RowOfFlagged(s.tables.shots, s.workers[w].pc.shot, s.workers[w].pc.origin);
    assert Silent(s, id);
    OwnersOfOthers(s.workers, w);
    var crashed := Apply(s, Crash(w));
    assert Unattended(crashed.workers, id);
    hide NamesNoOrigin, Unattended, HasRow;
    assert NeverNamed(crashed, id);
    StepKeepsOutbox(s, Crash(w));
    StepKeeps(s, Crash(w));
    RunsKeepNeverNamed(crashed, actions, t, id);
  }
}
