/** One uninterrupted run of the worker on a job (src/ingestion/shot-ingestion.processor.ts). */
module ShotProcessor {
  import opened Domain
  import opened ContentHash
  import opened NearDuplicates
  import opened ShotRepository

  datatype Outcome = Accepted | DuplicateExact | DuplicateNear | RejectedClock

  datatype Failure = Failure(vendor: Vendor, receivedAt: int, capturedAt: int)

  /** The stored user is the resolved one, if the identity service knows it and it is not empty. */
  function Resolved(shot: Shot, canonicalUserId: Option<string>): Shot {
    if canonicalUserId.Some? && canonicalUserId.value != "" then shot.(canonicalUserId := canonicalUserId) else shot
  }

  class Processor {
    const repository: Repository
    var failures: seq<Failure>
    var outcomes: seq<Outcome>  // the increments of the shots_total counter

    constructor (repository: Repository)
      ensures this.repository == repository && failures == [] && outcomes == []
    {
      this.repository := repository;
      failures, outcomes := [], [];
    }

    /** A shot is counted once.  It is stored, together with its announcement, exactly when its clock is
        plausible and its key is new, and both then carry the same origin. */
    method Process(shot: Shot, receivedAt: int, canonicalUserId: Option<string>, now: int) returns (ghost stored: Shot)
      // Ids are fresh for every parsed shot; only a retry of the same job can meet its own row again.
      requires forall row | row in repository.shots && row.id == shot.id :: SameKey(row, shot)
      requires forall event | event in repository.outbox && event.payload.id == shot.id :: Stored(repository.shots, shot)
      modifies this, repository
      ensures |outcomes| == |old(outcomes)| + 1 && outcomes[..|old(outcomes)|] == old(outcomes)
      ensures var outcome, before := outcomes[|old(outcomes)|], old(repository.shots);
              && (outcome == RejectedClock <==>
                    shot.capturedAt - receivedAt > 300_000 || receivedAt - shot.capturedAt > 86_400_000)
              && (outcome == DuplicateExact <==>
                    && outcome != RejectedClock
                    && exists row | row in before :: row.vendor == shot.vendor && row.key == shot.key)
              && (outcome == RejectedClock || outcome == DuplicateExact ==>
                    repository.Contents() == old(repository.Contents()))
              && (outcome == Accepted ==>
                    && (forall row | row in before :: !Candidate(shot, row))
                    && stored.duplicateOf == shot.duplicateOf)
              && (outcome == DuplicateNear ==> exists origin | origin in before ::
                    && Candidate(shot, origin) && stored.duplicateOf == Some(origin.id)
                    && forall row | row in before && row.capturedAt < origin.capturedAt :: !Candidate(shot, row))
      ensures outcomes[|old(outcomes)|] == Accepted || outcomes[|old(outcomes)|] == DuplicateNear ==>
                && repository.shots == old(repository.shots) + [stored]
                && repository.outbox == old(repository.outbox)
                                        + [Event(old(repository.nextEventId), "shot.persisted", stored, now)]
                && repository.nextEventId == old(repository.nextEventId) + 1
                && stored.canonicalUserId == (if canonicalUserId == None || canonicalUserId == Some("")
                                              then shot.canonicalUserId else canonicalUserId)
                && stored.(canonicalUserId := shot.canonicalUserId, duplicateOf := shot.duplicateOf) == shot
      ensures failures == if shot.capturedAt - receivedAt > 300_000 || receivedAt - shot.capturedAt > 86_400_000
                          then old(failures) + [Failure(shot.vendor, receivedAt, shot.capturedAt)]
                          else old(failures)
    {
      hide Candidate;
      stored := shot;
      if HasExcessiveClockSkew(shot.capturedAt, receivedAt) {
        failures := failures + [Failure(shot.vendor, receivedAt, shot.capturedAt)];
        outcomes := outcomes + [RejectedClock];
        return;
      }

      var resolvedShot := Resolved(shot, canonicalUserId);
      ghost var before := repository.Contents();
      var r := repository.UpsertIfNew(resolvedShot, now);
      if !r.inserted {
        outcomes := outcomes + [DuplicateExact];
        return;
      }

      CandidatesAfterTheInsert(before.shots, shot, resolvedShot);
      var origin := repository.CheckAndFlagNearDuplicates(resolvedShot);
      if origin.Some? {
        outcomes := outcomes + [DuplicateNear];
        repository.UpdateOutboxEventDuplicateOf(r.canonicalShotId, origin.value);
        stored := resolvedShot.(duplicateOf := origin);
        FlagNewest(before.shots, resolvedShot, origin.value);
        AnnounceNewest(before.outbox, Event(before.nextEventId, SHOT_PERSISTED, resolvedShot, now), origin.value);
      } else {
        outcomes := outcomes + [Accepted];
        stored := resolvedShot;
      }
    }
  }

  /** The new shot is not its own candidate, so looking after the insert finds what was there before it. */
  lemma CandidatesOfExtension(shots: seq<Shot>, shot: Shot)
    ensures HasCandidate(shots + [shot], shot) <==> HasCandidate(shots, shot)
    ensures forall row :: IsOrigin(shots + [shot], shot, row) <==> IsOrigin(shots, shot, row)
  {
    assert !Candidate(shot, shot);
    assert forall row :: row in shots + [shot] <==> row in shots || row == shot;
  }

  /** Neither the insert nor the resolved owner changes what is found. */
  lemma CandidatesAfterTheInsert(shots: seq<Shot>, shot: Shot, resolved: Shot)
    requires resolved == shot.(canonicalUserId := resolved.canonicalUserId)
    ensures forall row | row in shots :: Candidate(resolved, row) <==> Candidate(shot, row)
    ensures !Candidate(resolved, resolved)
    ensures forall row | row in shots + [resolved] :: row in shots || row == resolved
  {
    hide Preimage, Round, Minute;
    assert forall ms :: InputAt(resolved, ms) == InputAt(shot, ms);
  }

  lemma FlagNewest(shots: seq<Shot>, shot: Shot, origin: nat)
    requires forall row | row in shots :: row.id != shot.id
    ensures Flag(shots + [shot], shot.id, origin) == shots + [shot.(duplicateOf := Some(origin))]
  {
  }

  lemma AnnounceNewest(outbox: seq<Event>, event: Event, origin: nat)
    requires event.eventType == SHOT_PERSISTED
    requires forall e | e in outbox :: e.payload.id != event.payload.id
    ensures Announce(outbox + [event], event.payload.id, origin)
         == outbox + [event.(payload := event.payload.(duplicateOf := Some(origin)))]
  {
  }
}
