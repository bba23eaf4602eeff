/** Which stored shots count as the origin of a new one (src/ingestion/shot-repository.ts:105-157). */
module NearDuplicates {
  import opened Domain
  import opened ContentHash

  const WINDOW_MS := 60_000

  /** The WHERE clause of the near-duplicate query for the given shot. */
  predicate Candidate(shot: Shot, row: Shot) {
    && row.vendor == shot.vendor
    && row.vendorUserId == shot.vendorUserId
    && (row.contentHash == shot.contentHash || row.contentHash == HashAt(shot, shot.capturedAt - WINDOW_MS))
    && row.id != shot.id
    && shot.capturedAt - WINDOW_MS <= row.capturedAt <= shot.capturedAt + WINDOW_MS
  }

  /** ORDER BY captured_at_utc LIMIT 1: any one of the earliest candidates. */
  predicate IsOrigin(rows: seq<Shot>, shot: Shot, origin: Shot) {
    && origin in rows
    && Candidate(shot, origin)
    && forall row | row in rows && Candidate(shot, row) :: origin.capturedAt <= row.capturedAt
  }

  predicate HasCandidate(rows: seq<Shot>, shot: Shot) {
    exists row | row in rows :: Candidate(shot, row)
  }

  lemma {:induction false} EarliestCandidateExists(rows: seq<Shot>, shot: Shot) returns (origin: Shot)
    requires HasCandidate(rows, shot)
    ensures IsOrigin(rows, shot, origin)
    ensures origin in rows && Candidate(shot, origin)
    ensures forall row | row in rows && row.capturedAt < origin.capturedAt :: !Candidate(shot, row)
  {
    if Candidate(shot, rows[0]) {
      origin := rows[0];
      if HasCandidate(rows[1..], shot) {
        var later := EarliestCandidateExists(rows[1..], shot);
        if later.capturedAt < origin.capturedAt { origin := later; }
      }
    } else {
      origin := EarliestCandidateExists(rows[1..], shot);
    }
    assert rows == [rows[0]] + rows[1..];
  }

  // ----- What the two hash lookups find -----

  /** The exact reach of the check: equal content, not more than a minute apart, and captured in the
      minute of the new shot or in the one before it. */
  lemma CandidatesAreNearShotsOfTwoMinutes(shot: Shot, row: Shot)
    requires WellHashed(shot) && WellHashed(row)
    ensures Candidate(shot, row) <==>
              && row.id != shot.id && row.vendor == shot.vendor && SameContent(shot, row)
              && -60_000 <= row.capturedAt - shot.capturedAt <= 60_000
              && shot.capturedAt / 60_000 - 1 <= row.capturedAt / 60_000 <= shot.capturedAt / 60_000
  {
    hide HashAt;
    EqualHashes(row, row.capturedAt, shot, shot.capturedAt);
    EqualHashes(row, row.capturedAt, shot, shot.capturedAt - WINDOW_MS);
    assert Minute(shot.capturedAt - WINDOW_MS) == Minute(shot.capturedAt) - 1;
  }

  /** A stored shot captured up to a minute earlier is always a candidate. */
  lemma EarlierNearShotsAreFound(shot: Shot, row: Shot)
    requires WellHashed(shot) && WellHashed(row)
    requires row.id != shot.id && row.vendor == shot.vendor && SameContent(shot, row)
    requires 0 <= shot.capturedAt - row.capturedAt <= 60_000
    ensures Candidate(shot, row)
  {
    hide SameContent;
    CandidatesAreNearShotsOfTwoMinutes(shot, row);
  }

  /** The window is not symmetric: a stored shot captured later is found exactly when it shares the minute. */
  lemma LaterNearShotsAreFoundIffTheyShareTheMinute(shot: Shot, row: Shot)
    requires WellHashed(shot) && WellHashed(row)
    requires row.id != shot.id && row.vendor == shot.vendor && SameContent(shot, row)
    requires 0 < row.capturedAt - shot.capturedAt <= 60_000
    ensures Candidate(shot, row) <==> row.capturedAt / 60_000 == shot.capturedAt / 60_000
  {
    hide SameContent;
    CandidatesAreNearShotsOfTwoMinutes(shot, row);
  }

  function Swing(id: nat, ms: int): Shot {
    var s := Shot(id, TrackPro, "tp|" + Integer(id), "u", None, ms, "7I", 50.0, 17.0, 140.0, 1.0, None, "", None);
    s.(contentHash := HashAt(s, ms))
  }

  /** Two equal swings 2 s apart: stored in order the second is a duplicate, stored in reverse it is not. */
  lemma OrderOfArrivalDecidesAcrossTheMinute()
    ensures var first, second := Swing(0, 59_000), Swing(1, 61_000);
            && WellHashed(first) && WellHashed(second)
            && Candidate(second, first) && !Candidate(first, second)
  {
    var first, second := Swing(0, 59_000), Swing(1, 61_000);
    assert WellHashed(first) && WellHashed(second) && SameContent(first, second);
    EarlierNearShotsAreFound(second, first);
    LaterNearShotsAreFoundIffTheyShareTheMinute(first, second);
  }
}
