/** The uninterrupted worker and publisher are runs of the protocol: one job and one cycle, step by step. */
module ProtocolRefinement {
  import opened Domain
  import opened NearDuplicates
  import opened ShotRepository
  import opened ShotProcessor
  import opened OutboxPublisher
  import opened IngestionProtocol
  import opened IngestionSafety
  import opened OutboxSafety

  // ----- A cycle of the publisher -----

  function Emits(p: nat, batch: seq<Event>, throwing: set<nat>): (actions: seq<Action>)
    ensures |actions| == |batch|
    ensures forall i | 0 <= i < |batch| :: actions[i] == Emit(p, batch[i].id in throwing)
  {
    seq(|batch|, i requires 0 <= i < |batch| => Emit(p, batch[i].id in throwing))
  }

  /** What PublishPending promises, as a state. */
  ghost function Published(s: State, batch: seq<Event>, throwing: set<nat>): State {
    s.(emitted := s.emitted + Delivered(batch, throwing),
       tables := s.tables.(outbox := Without(s.tables.outbox, Settled(batch, throwing))))
  }

  ghost function Handling(s: State, p: nat, batch: seq<Event>, throwing: set<nat>, i: nat, successful: seq<nat>): State
    requires i <= |batch|
  {
    s.(claims := s.claims[p := Claim(batch, i, successful)], emitted := s.emitted + Delivered(batch[..i], throwing))
  }

  predicate Throws(row: Event, throwing: set<nat>) {
    row.eventType == SHOT_PERSISTED && row.id in throwing
  }

  function NextSuccessful(row: Event, throwing: set<nat>, successful: seq<nat>): seq<nat> {
    if Throws(row, throwing) then successful else successful + [row.id]
  }

  lemma SetOfNext(row: Event, throwing: set<nat>, successful: seq<nat>)
    ensures SetOf(NextSuccessful(row, throwing, successful))
         == SetOf(successful) + if Throws(row, throwing) then {} else {row.id}
  {
  }

  function More(row: Event, throwing: set<nat>): seq<Event> {
    if row.eventType == SHOT_PERSISTED && row.id !in throwing then [row] else []
  }

  lemma EmitEffect(t: State, p: nat, throwing: set<nat>)
    requires p in t.claims && t.claims[p].handled < |t.claims[p].batch|
    ensures var claim := t.claims[p];
            var row := claim.batch[claim.handled];
            var emit := Emit(p, row.id in throwing);
            && Enabled(t, emit)
            && Apply(t, emit)
               == t.(claims := t.claims[p := Claim(claim.batch, claim.handled + 1,
                                                  NextSuccessful(row, throwing, claim.successful))],
                     emitted := t.emitted + More(row, throwing))
  {
    assert t.emitted + [] == t.emitted;
  }

  lemma NextEmit(s: State, p: nat, batch: seq<Event>, throwing: set<nat>, i: nat, successful: seq<nat>)
    requires i < |batch|
    ensures var t := Handling(s, p, batch, throwing, i, successful);
            var emit := Emit(p, batch[i].id in throwing);
            && Enabled(t, emit)
            && Apply(t, emit)
               == Handling(s, p, batch, throwing, i + 1, NextSuccessful(batch[i], throwing, successful))
  {
    EmitEffect(Handling(s, p, batch, throwing, i, successful), p, throwing);
    DeliveredNext(batch, throwing, i);
    ConcatIsAssociative(s.emitted, Delivered(batch[..i], throwing), More(batch[i], throwing));
    hide Enabled, Apply, Delivered, More, NextSuccessful;
    var claim := Claim(batch, i + 1, NextSuccessful(batch[i], throwing, successful));
    assert s.claims[p := Claim(batch, i, successful)][p := claim] == s.claims[p := claim];
  }

  lemma DeliveredNext(batch: seq<Event>, throwing: set<nat>, i: nat)
    requires i < |batch|
    ensures Delivered(batch[..i + 1], throwing) == Delivered(batch[..i], throwing) + More(batch[i], throwing)
  {
    assert batch[..i + 1] == batch[..i] + [batch[i]];
    OneMoreRow(batch[..i], batch[i], throwing);
    hide Settled, Delivered;
  }

  lemma SettledNext(batch: seq<Event>, throwing: set<nat>, i: nat, successful: seq<nat>)
    requires i < |batch| && SetOf(successful) == Settled(batch[..i], throwing)
    ensures SetOf(NextSuccessful(batch[i], throwing, successful)) == Settled(batch[..i + 1], throwing)
  {
    assert batch[..i + 1] == batch[..i] + [batch[i]];
    OneMoreRow(batch[..i], batch[i], throwing);
    SetOfNext(batch[i], throwing, successful);
    hide Settled, Delivered, SetOf, NextSuccessful;
  }

  lemma ConcatIsAssociative(a: seq<Event>, b: seq<Event>, c: seq<Event>)
    ensures a + b + c == a + (b + c) && a + [] == a
  {
  }

  lemma ClaimIsARun(s: State, p: nat, batch: seq<Event>, throwing: set<nat>)
    requires Enabled(s, ClaimBatch(p, batch))
    ensures Runs(s, [ClaimBatch(p, batch)], Handling(s, p, batch, throwing, 0, []))
    ensures SetOf([]) == Settled(batch[..0], throwing)
  {
    NothingSettled(throwing);
    assert batch[..0] == [];
    ConcatIsAssociative(s.emitted, [], []);
    assert Apply(s, ClaimBatch(p, batch)) == Handling(s, p, batch, throwing, 0, []);
    hide Enabled, Apply, Handling;
    assert Runs(s, [], s);
    RunsExtend(s, [], s, ClaimBatch(p, batch));
    assert [] + [ClaimBatch(p, batch)] == [ClaimBatch(p, batch)];
  }

  lemma {:induction false} EmitsRun(s: State, p: nat, batch: seq<Event>, throwing: set<nat>, i: nat)
    returns (successful: seq<nat>)
    requires Enabled(s, ClaimBatch(p, batch)) && i <= |batch|
    ensures Runs(s, [ClaimBatch(p, batch)] + Emits(p, batch, throwing)[..i],
                 Handling(s, p, batch, throwing, i, successful))
    ensures SetOf(successful) == Settled(batch[..i], throwing)
  {
    var emits := Emits(p, batch, throwing);
    if i == 0 {
      hide Enabled, Emits;
      successful := [];
      ClaimIsARun(s, p, batch, throwing);
      assert [ClaimBatch(p, batch)] + emits[..0] == [ClaimBatch(p, batch)];
    } else {
      hide *;
      var before := EmitsRun(s, p, batch, throwing, i - 1);
      successful := NextSuccessful(batch[i - 1], throwing, before);
      SettledNext(batch, throwing, i - 1, before);
      OneMoreEmit(s, p, batch, throwing, i - 1, before);
    }
  }

  lemma OneMoreEmit(s: State, p: nat, batch: seq<Event>, throwing: set<nat>, i: nat, successful: seq<nat>)
    requires i < |batch|
    requires Runs(s, [ClaimBatch(p, batch)] + Emits(p, batch, throwing)[..i], Handling(s, p, batch, throwing, i, successful))
    ensures Runs(s, [ClaimBatch(p, batch)] + Emits(p, batch, throwing)[..i + 1],
                 Handling(s, p, batch, throwing, i + 1, NextSuccessful(batch[i], throwing, successful)))
  {
    hide *;
    var emits := Emits(p, batch, throwing);
    var a := [ClaimBatch(p, batch)];
    NextEmit(s, p, batch, throwing, i, successful);
    RunsExtend(s, a + emits[..i], Handling(s, p, batch, throwing, i, successful), emits[i]);
    assert a + emits[..i + 1] == a + emits[..i] + [emits[i]];
  }

  /** Claim, emit row by row, commit: the effect is the one that the method PublishPending is proved to have. */
  lemma CycleIsARun(s: State, p: nat, batch: seq<Event>, throwing: set<nat>)
    requires Enabled(s, ClaimBatch(p, batch))
    ensures Runs(s, [ClaimBatch(p, batch)] + Emits(p, batch, throwing) + [Commit(p)], Published(s, batch, throwing))
  {
    var emits := Emits(p, batch, throwing);
    var successful := EmitsRun(s, p, batch, throwing, |batch|);
    assert batch[..|batch|] == batch && emits[..|batch|] == emits;
    var t := Handling(s, p, batch, throwing, |batch|, successful);
    assert Enabled(t, Commit(p));
    assert t.claims - {p} == s.claims;
    assert Apply(t, Commit(p)) == Published(s, batch, throwing);
    hide *;
    RunsExtend(s, [ClaimBatch(p, batch)] + emits, t, Commit(p));
  }

  // ----- A job of the worker -----

  /** What Process promises about the tables and the outcome. */
  ghost predicate Processed(before: Tables, shot: Shot, now: int, outcome: Outcome, after: Tables) {
    match outcome
    case RejectedClock => false
    case DuplicateExact => Stored(before.shots, shot) && after == before
    case Accepted => !Stored(before.shots, shot) && !HasCandidate(before.shots, shot) && after == Inserted(before, shot, now)
    case DuplicateNear =>
      && !Stored(before.shots, shot) && HasCandidate(before.shots, shot)
      && exists origin :: IsOrigin(before.shots, shot, origin)
                          && after == Inserted(before, shot.(duplicateOf := Some(origin.id)), now)
  }

  ghost predicate Completes(s: State, w: nat, shot: Shot, now: int, t: State) {
    && w in t.workers && t.workers[w].pc.Finished?
    && Processed(s.tables, shot, now, t.workers[w].pc.outcome, t.tables)
  }

  lemma FlagAndAnnounce(s: State, w: nat, before: Tables, shot: Shot, origin: Shot, now: int)
    returns (actions: seq<Action>, t: State)
    requires w in s.workers && s.workers[w].pc == OriginFound(shot, origin.id)
    requires s.tables == Inserted(before, shot, now)
    requires forall row | row in before.shots :: row.id != shot.id
    requires forall e | e in before.outbox :: e.payload.id != shot.id
    requires before.nextEventId !in Locked(s.claims)
    ensures Runs(s, actions, t)
    ensures w in t.workers && t.workers[w].pc.Finished? && t.workers[w].pc.outcome == DuplicateNear
    ensures t.tables == Inserted(before, shot.(duplicateOf := Some(origin.id)), now)
  {
    hide Locked;
    var s1 := Apply(s, FlagShot(w));
    FlagNewest(before.shots, shot, origin.id);
    AnnounceNewest(before.outbox, Event(before.nextEventId, SHOT_PERSISTED, shot, now), origin.id);
    assert s1.tables == s.tables.(shots := before.shots + [shot.(duplicateOf := Some(origin.id))]);
    assert Enabled(s1, AnnounceOrigin(w));
    t := Apply(s1, AnnounceOrigin(w));
    assert t.tables == Inserted(before, shot.(duplicateOf := Some(origin.id)), now);
    hide Enabled, Apply;
    assert Runs(s, [], s);
    RunsExtend(s, [], s, FlagShot(w));
    RunsExtend(s, [] + [FlagShot(w)], s1, AnnounceOrigin(w));
    actions := [] + [FlagShot(w)] + [AnnounceOrigin(w)];
  }

  lemma LookAndFlag(s: State, w: nat, before: Tables, shot: Shot, now: int) returns (actions: seq<Action>, t: State)
    requires w in s.workers && s.workers[w].pc == Unchecked(shot)
    requires s.tables == Inserted(before, shot, now) && !Stored(before.shots, shot)
    requires forall row | row in before.shots :: row.id != shot.id
    requires forall e | e in before.outbox :: e.payload.id != shot.id
    requires before.nextEventId !in Locked(s.claims)
    ensures Runs(s, actions, t)
    ensures w in t.workers && t.workers[w].pc.Finished?
    ensures Processed(before, shot, now, t.workers[w].pc.outcome, t.tables)
  {
    hide Locked, Candidate, Stored, Announces;
    CandidatesOfExtension(before.shots, shot);
    assert s.tables.shots == before.shots + [shot];
    assert Runs(s, [], s);
    if HasCandidate(before.shots, shot) {
      var origin := EarliestCandidateExists(before.shots, shot);
      assert IsOrigin(s.tables.shots, shot, origin);
      var s1 := Apply(s, Look(w, Some(origin)));
      hide IsOrigin;
      RunsExtend(s, [], s, Look(w, Some(origin)));
      hide HasCandidate;
      var rest;
      rest, t := FlagAndAnnounce(s1, w, before, shot, origin, now);
      hide Enabled, Apply;
      RunsCompose(s, [] + [Look(w, Some(origin))], s1, rest, t);
      actions := [] + [Look(w, Some(origin))] + rest;
    } else {
      RunsExtend(s, [], s, Look(w, None));
      actions, t := [] + [Look(w, None)], Apply(s, Look(w, None));
    }
  }

  lemma {:induction false} RunsCompose(s: State, first: seq<Action>, t: State, second: seq<Action>, u: State)
    requires Runs(s, first, t) && Runs(t, second, u)
    ensures Runs(s, first + second, u)
    decreases first
  {
    hide Enabled, Apply;
    if first == [] {
      assert first + second == second;
    } else {
      RunsCompose(Apply(s, first[0]), first[1..], t, second, u);
      assert (first + second)[1..] == first[1..] + second;
    }
  }

  /** A key that is new means a new id, in the table and in the outbox, and a new event that nobody has locked. */
  lemma NewShotIsNewEverywhere(s: State, job: Job, shot: Shot)
    requires Reachable(s) && job in s.jobs && Core(shot) == job.shot && !Stored(s.tables.shots, shot)
    ensures forall row | row in s.tables.shots :: row.id != shot.id
    ensures forall e | e in s.tables.outbox :: e.payload.id != shot.id
    ensures s.tables.nextEventId !in Locked(s.claims)
  {
    hide Reachable, WorkersAreHonest, OwnersAreDistinct, FlagsAreJustified, Deciding, JobsAreAdmitted, RowsAreJobs;
    hide Stored, Core, Locked, BatchesAreDisjoint, EmissionsBalance;
    ReachableStatesAreSafe(s);
    ReachableOutboxIsSafe(s);
    NewKeyMeansNewId(s.tables.shots, s.jobs, job, shot);
    EventsOfOtherShots(s.tables, s.emitted, shot.id);
    LocksAreWritten(s);
  }

  lemma EventsOfOtherShots(t: Tables, emitted: seq<Event>, id: nat)
    requires EventsMatchRows(t, emitted) && forall row | row in t.shots :: row.id != id
    ensures forall e | e in t.outbox :: e.payload.id != id
  {
    forall e | e in t.outbox ensures e.payload.id != id {
      assert Announced(t.shots, e);
      CoreParts(e.payload);
      CoreParts(t.shots[e.id]);
    }
  }

  lemma LocksAreWritten(s: State)
    requires EventsMatchRows(s.tables, s.emitted) && ClaimsAreSound(s.tables.outbox, s.claims)
    ensures s.tables.nextEventId !in Locked(s.claims)
  {
    hide DistinctIds, Core;
    forall p, e | p in s.claims && e in s.claims[p].batch ensures e.id < s.tables.nextEventId {
      assert ClaimIsSound(s.tables.outbox, s.claims[p]);
      assert Announced(s.tables.shots, e);
    }
  }

  ghost predicate StartedWith(s: State, w: nat, job: Job, shot: Shot, t: State) {
    t == s.(workers := s.workers[w := Worker(job, Ready(shot))])
  }

  lemma StartAndPrepare(s: State, w: nat, job: Job, user: Option<string>) returns (t: State)
    requires Reachable(s) && w !in s.workers && job in s.jobs
    ensures Runs(s, [Start(w, job), Prepare(w, user)], t) && StartedWith(s, w, job, Resolved(job.shot, user), t)
  {
    assert !HasExcessiveClockSkew(job.shot.capturedAt, job.receivedAt) by {
      hide Reachable, RowsAreJobs, WorkersAreHonest, OwnersAreDistinct, FlagsAreJustified, Deciding;
      ReachableStatesAreSafe(s);
      AdmittedJob(s.jobs, job);
    }
    hide Reachable, HasExcessiveClockSkew, Resolved;
    var s1 := Apply(s, Start(w, job));
    t := Apply(s1, Prepare(w, user));
    assert t.workers == s.workers[w := Worker(job, Ready(Resolved(job.shot, user)))];
    assert Runs(s, [], s);
    RunsExtend(s, [], s, Start(w, job));
    RunsExtend(s, [] + [Start(w, job)], s1, Prepare(w, user));
    assert [] + [Start(w, job)] + [Prepare(w, user)] == [Start(w, job), Prepare(w, user)];
  }

  /** A worker that is not interrupted completes the job, with the effect that the method Process is proved to have. */
  lemma JobIsARun(s: State, w: nat, job: Job, user: Option<string>, now: int) returns (actions: seq<Action>, t: State)
    requires Reachable(s) && w !in s.workers && job in s.jobs
    ensures Runs(s, actions, t) && Completes(s, w, Resolved(job.shot, user), now, t)
  {
    var shot := Resolved(job.shot, user);
    var started := StartAndPrepare(s, w, job, user);
    var prefix := [Start(w, job), Prepare(w, user)];
    assert Core(shot) == job.shot by {
      hide Reachable, RowsAreJobs, WorkersAreHonest, OwnersAreDistinct, FlagsAreJustified, Deciding;
      ReachableStatesAreSafe(s);
      AdmittedJob(s.jobs, job);
    }
    hide Reachable, Core, Resolved;
    var upserted := Apply(started, Upsert(w, now));
    hide Runs;
    RunsExtend(s, prefix, started, Upsert(w, now));
    if Stored(s.tables.shots, shot) {
      actions, t := prefix + [Upsert(w, now)], upserted;
    } else {
      NewShotIsNewEverywhere(s, job, shot);
      hide Locked, Candidate;
      var rest;
      rest, t := LookAndFlag(upserted, w, s.tables, shot, now);
      RunsCompose(s, prefix + [Upsert(w, now)], upserted, rest, t);
      actions := prefix + [Upsert(w, now)] + rest;
    }
  }
}
