/** The repository behind the worker, with its shots and outbox tables (src/ingestion/shot-repository.ts). */
module ShotRepository {
  import opened Domain
  import opened NearDuplicates

  // ----- The tables -----

  const SHOT_PERSISTED := "shot.persisted"

  /** A row of outbox_events: the shot as it was announced, without the vendor's raw payload. */
  datatype Event = Event(id: nat, eventType: string, payload: Shot, createdAt: int)

  datatype Tables = Tables(shots: seq<Shot>, outbox: seq<Event>, nextEventId: nat)

  datatype UpsertResult = UpsertResult(inserted: bool, canonicalShotId: nat)

  predicate SameKey(a: Shot, b: Shot) {
    a.vendor == b.vendor && a.key == b.key
  }

  predicate Stored(shots: seq<Shot>, shot: Shot) {
    exists row | row in shots :: SameKey(row, shot)
  }

  function Inserted(t: Tables, shot: Shot, now: int): Tables {
    Tables(t.shots + [shot], t.outbox + [Event(t.nextEventId, SHOT_PERSISTED, shot, now)], t.nextEventId + 1)
  }

  /** UPDATE shots SET duplicate_of = origin WHERE canonical_shot_id = id. */
  function Flag(shots: seq<Shot>, id: nat, origin: nat): (flagged: seq<Shot>)
    ensures |flagged| == |shots|
    ensures forall i | 0 <= i < |shots| ::
              flagged[i] == if shots[i].id == id then shots[i].(duplicateOf := Some(origin)) else shots[i]
  {
    seq(|shots|, i requires 0 <= i < |shots| =>
      if shots[i].id == id then shots[i].(duplicateOf := Some(origin)) else shots[i])
  }

  predicate Announces(event: Event, id: nat) {
    event.eventType == SHOT_PERSISTED && event.payload.id == id
  }

  /** The same update of the announcements that are still in the outbox. */
  function Announce(outbox: seq<Event>, id: nat, origin: nat): (announced: seq<Event>)
    ensures |announced| == |outbox|
    ensures forall i | 0 <= i < |outbox| ::
              announced[i] == if Announces(outbox[i], id)
                              then outbox[i].(payload := outbox[i].payload.(duplicateOf := Some(origin)))
                              else outbox[i]
  {
    seq(|outbox|, i requires 0 <= i < |outbox| =>
      if Announces(outbox[i], id)
      then outbox[i].(payload := outbox[i].payload.(duplicateOf := Some(origin)))
      else outbox[i])
  }

  /** The last announcement of a shot wins, repeating it changes nothing, and announcements of different shots
      can come in any order. */
  lemma AnnouncementsOverwriteAndCommute(outbox: seq<Event>, x: nat, a: nat, y: nat, b: nat)
    ensures Announce(Announce(outbox, x, a), x, b) == Announce(outbox, x, b)
    ensures Announce(Announce(outbox, x, a), x, a) == Announce(outbox, x, a)
    ensures x != y ==> Announce(Announce(outbox, x, a), y, b) == Announce(Announce(outbox, y, b), x, a)
  {
    var first, second := Announce(outbox, x, a), Announce(outbox, y, b);
    assert forall i | 0 <= i < |outbox| ::
      && (Announces(first[i], x) <==> Announces(outbox[i], x)) && (Announces(first[i], y) <==> Announces(outbox[i], y))
      && (Announces(second[i], x) <==> Announces(outbox[i], x));
  }

  /** Positive when the shot is dated after its receipt: 24 h are allowed in the past, 5 min in the future. */
  predicate HasExcessiveClockSkew(capturedAt: int, receivedAt: int) {
    var delta := capturedAt - receivedAt;
    delta > 300 * 1000 || delta < -(86400 * 1000)
  }

  class Repository {
    var shots: seq<Shot>
    var outbox: seq<Event>
    var nextEventId: nat

    function Contents(): Tables
      reads this
    {
      Tables(shots, outbox, nextEventId)
    }

    constructor ()
      ensures Contents() == Tables([], [], 0)
    {
      shots, outbox, nextEventId := [], [], 0;
    }

    /** One transaction: the shot and its announcement are written together or not at all. */
    method UpsertIfNew(shot: Shot, now: int) returns (r: UpsertResult)
      modifies this
      ensures r.inserted <==> forall row | row in old(shots) :: row.vendor != shot.vendor || row.key != shot.key
      ensures r.inserted ==>
                && r.canonicalShotId == shot.id
                && shots == old(shots) + [shot]
                && outbox == old(outbox) + [Event(old(nextEventId), "shot.persisted", shot, now)]
                && nextEventId == old(nextEventId) + 1
      ensures !r.inserted ==>
                && Contents() == old(Contents())
                && exists row | row in shots :: row.vendor == shot.vendor && row.key == shot.key && row.id == r.canonicalShotId
    {
      if !Stored(shots, shot) {
        shots := shots + [shot];
        outbox := outbox + [Event(nextEventId, SHOT_PERSISTED, shot, now)];
        nextEventId := nextEventId + 1;
        return UpsertResult(true, shot.id);
      }
      var existing :| existing in shots && SameKey(existing, shot);
      return UpsertResult(false, existing.id);
    }

    /** Two statements: the query for an origin, and the update that flags the shot. */
    method CheckAndFlagNearDuplicates(shot: Shot) returns (origin: Option<nat>)
      modifies this`shots
      ensures origin.None? <==> forall row | row in old(shots) :: !Candidate(shot, row)
      ensures origin.None? ==> shots == old(shots)
      ensures origin.Some? ==>
                && shots == Flag(old(shots), shot.id, origin.value)
                && exists row | row in old(shots) ::
                     && row.id == origin.value && Candidate(shot, row)
                     && forall other | other in old(shots) && other.capturedAt < row.capturedAt :: !Candidate(shot, other)
    {
      if !HasCandidate(shots, shot) { return None; }
      ghost var earliest := EarliestCandidateExists(shots, shot);
      var row :| row in shots && IsOrigin(shots, shot, row);
      assert IsOrigin(shots, shot, row);
      shots := Flag(shots, shot.id, row.id);
      return Some(row.id);
    }

    /** Only the announcements of the shot change, and of those only the origin that they name. */
    method UpdateOutboxEventDuplicateOf(id: nat, origin: nat)
      modifies this`outbox
      ensures outbox == Announce(old(outbox), id, origin)
      ensures |outbox| == |old(outbox)|
      ensures forall i | 0 <= i < |outbox| ::
                && outbox[i].(payload := old(outbox)[i].payload) == old(outbox)[i]
                && outbox[i].payload.(duplicateOf := None) == old(outbox)[i].payload.(duplicateOf := None)
                && outbox[i].payload.duplicateOf ==
                     if old(outbox)[i].eventType == "shot.persisted" && old(outbox)[i].payload.id == id
                     then Some(origin) else old(outbox)[i].payload.duplicateOf
    {
      outbox := Announce(outbox, id, origin);
    }
  }
}
