/** What runs of the ingestion protocol do to the shots table over time. */
module IngestionHistory {
  import opened Domain
  import opened ContentHash
  import opened NearDuplicates
  import opened ShotRepository
  import opened ShotProcessor
  import opened IngestionProtocol
  import opened IngestionSafety
  import opened ScriptedRuns
  import IdentityProtocol

  /** Rows are only appended.  A stored row keeps what was parsed; its flag and its canonical id may be filled
      in, but once they are set they stay. */
  ghost predicate Grows(shots: seq<Shot>, later: seq<Shot>) {
    && |shots| <= |later|
    && forall i | 0 <= i < |shots| :: Preserved(shots[i], later[i])
  }

  predicate Preserved(row: Shot, later: Shot) {
    && Core(later) == Core(row)
    && (row.duplicateOf.Some? ==> later.duplicateOf == row.duplicateOf)
    && (row.canonicalUserId.Some? ==> later.canonicalUserId == row.canonicalUserId)
  }

  /** No worker may still flag the shot. */
  ghost predicate Unowned(workers: map<nat, Worker>, id: nat) {
    forall w | w in workers && Undecided(workers[w].pc) :: workers[w].pc.shot.id != id
  }

  /** The row was inserted, but whoever inserted it has crashed before flagging it, or found no origin. */
  ghost predicate LeftUnflagged(s: State, i: nat) {
    i < |s.tables.shots| && s.tables.shots[i].duplicateOf.None? && Unowned(s.workers, s.tables.shots[i].id)
  }

  // ----- One step -----

  lemma FlagPreserves(s: State, w: nat)
    requires Enabled(s, FlagShot(w))
    requires Inv(s)
    ensures Grows(s.tables.shots, FlaggedShot(s, w).tables.shots)
  {
    hide JobsAreAdmitted, WorkersAreHonest, OwnersAreDistinct, FlagsAreJustified, Deciding, Carried;
    hide Core, HasNear, KnownAs;
    WorkerFacts(s, w);
    var shots, shot := s.tables.shots, s.workers[w].pc.shot;
    OwnedRowIsUnflagged(shots, shot);
    FlagFillsIn(shots, shot.id, s.workers[w].pc.origin);
  }

  lemma OwnedRowIsUnflagged(shots: seq<Shot>, shot: Shot)
    requires UniqueIds(shots) && Holds(shots, shot, None)
    ensures forall i | 0 <= i < |shots| && shots[i].id == shot.id :: Core(shots[i]) == Core(shot) && shots[i].duplicateOf.None?
    ensures exists i :: 0 <= i < |shots| && shots[i].id == shot.id
  {
    var k :| 0 <= k < |shots| && Core(shots[k]) == Core(shot) && shots[k].duplicateOf == None;
    CoreParts(shots[k]);
    CoreParts(shot);
    hide Core;
    forall i | 0 <= i < |shots| && shots[i].id == shot.id ensures i == k { OnlyRow(shots, i, k); }
  }

  lemma FlagFillsIn(shots: seq<Shot>, id: nat, origin: nat)
    requires forall i | 0 <= i < |shots| && shots[i].id == id :: shots[i].duplicateOf.None?
    ensures Grows(shots, Flag(shots, id, origin))
  {
  }

  lemma OnlyRow(shots: seq<Shot>, i: nat, k: nat)
    requires UniqueIds(shots) && i < |shots| && k < |shots| && shots[i].id == shots[k].id
    ensures i == k
  {
  }

  lemma BackfillFillsIn(shots: seq<Shot>, user: IdentityProtocol.User, canonicalUserId: string)
    ensures Grows(shots, IdentityProtocol.Backfilled(shots, user, canonicalUserId))
  {
  }

  lemma StepGrows(s: State, a: Action)
    requires Enabled(s, a)
    requires Inv(s)
    ensures Grows(s.tables.shots, Apply(s, a).tables.shots)
  {
    hide Inv;
    if a.FlagShot? { FlagPreserves(s, a.w); }
    if a.Backfill? { BackfillFillsIn(s.tables.shots, a.user, a.linkedTo); }
  }

  lemma StepLeavesUnflagged(s: State, a: Action, i: nat)
    requires Enabled(s, a)
    requires Inv(s) && LeftUnflagged(s, i)
    ensures LeftUnflagged(Apply(s, a), i)
  {
    hide Inv, WellHashed, HasExcessiveClockSkew, IsOrigin, HasCandidate, Candidate, Locked;
    if a.Upsert? && !Stored(s.tables.shots, s.workers[a.w].pc.shot) { InsertLeaves(s, a.w, a.now, i); }
  }

  lemma InsertLeaves(s: State, w: nat, now: int, i: nat)
    requires Enabled(s, Upsert(w, now)) && !Stored(s.tables.shots, s.workers[w].pc.shot)
    requires Inv(s) && LeftUnflagged(s, i)
    ensures LeftUnflagged(Upserted(s, w, now), i)
  {
    hide JobsAreAdmitted, RowsAreJobs, WorkersAreHonest, OwnersAreDistinct, FlagsAreJustified, Deciding, Carried;
    hide Core, SameKey, Stored, HasNear, KnownAs;
    WorkerFacts(s, w);
    NewKeyMeansNewId(s.tables.shots, s.jobs, s.workers[w].job, s.workers[w].pc.shot);
  }

  // ----- Whole runs -----

  lemma {:induction false} RunsGrow(s: State, actions: seq<Action>, t: State)
    requires Inv(s) && Runs(s, actions, t)
    ensures Grows(s.tables.shots, t.tables.shots)
    ensures |s.tables.shots| <= |t.tables.shots|
    ensures forall i | 0 <= i < |s.tables.shots| ::
              var row, later := s.tables.shots[i], t.tables.shots[i];
              && later.(canonicalUserId := row.canonicalUserId, duplicateOf := row.duplicateOf) == row
              && (row.duplicateOf.Some? ==> later.duplicateOf == row.duplicateOf)
              && (row.canonicalUserId.Some? ==> later.canonicalUserId == row.canonicalUserId)
    decreases actions
  {
    hide Inv, Enabled, Apply;
    if actions != [] {
      StepGrows(s, actions[0]);
      StepKeeps(s, actions[0]);
      RunsGrow(Apply(s, actions[0]), actions[1..], t);
    }
    assert forall i | 0 <= i < |s.tables.shots| :: Preserved(s.tables.shots[i], t.tables.shots[i]);
  }

  /** A row nobody is going to flag is never flagged later, whatever retries and redeliveries follow. */
  lemma {:induction false} RunsLeaveUnflagged(s: State, actions: seq<Action>, t: State, i: nat)
    requires Inv(s) && Runs(s, actions, t) && LeftUnflagged(s, i)
    ensures LeftUnflagged(t, i)
    decreases actions
  {
    hide Inv, Enabled, Apply, LeftUnflagged;
    if actions != [] {
      StepLeavesUnflagged(s, actions[0], i);
      StepKeeps(s, actions[0]);
      RunsLeaveUnflagged(Apply(s, actions[0]), actions[1..], t, i);
    }
  }

  /** A crash between the insert and the flag loses the near-duplicate check for good: the row stays
      unflagged in every continuation, even if it has candidates. */
  lemma CrashAfterInsertLosesTheCheck(s: State, w: nat, actions: seq<Action>, t: State) returns (i: nat)
    requires Enabled(s, Crash(w)) && Undecided(s.workers[w].pc)
    requires Reachable(s) && Runs(Apply(s, Crash(w)), actions, t)
    ensures i < |t.tables.shots| && t.tables.shots[i].duplicateOf.None?
    ensures var row, shot := t.tables.shots[i], s.workers[w].pc.shot;
            row.(canonicalUserId := shot.canonicalUserId, duplicateOf := shot.duplicateOf) == shot
  {
    hide JobsAreAdmitted, RowsAreJobs, WorkersAreHonest, FlagsAreJustified, Deciding, Carried, Runs;
    hide Core, HasNear, KnownAs;
    ReachableStatesAreSafe(s);
    WorkerFacts(s, w);
    var shot, shots := s.workers[w].pc.shot, s.tables.shots;
    OwnedRowIsUnflagged(shots, shot);
    i :| 0 <= i < |shots| && shots[i].id == shot.id;
    OwnersOfOthers(s.workers, w);
    assert LeftUnflagged(Apply(s, Crash(w)), i);
    StepKeeps(s, Crash(w));
    RunsGrow(Apply(s, Crash(w)), actions, t);
    RunsLeaveUnflagged(Apply(s, Crash(w)), actions, t, i);
    EqualCores(t.tables.shots[i], shot);
  }

  lemma EqualCores(a: Shot, b: Shot)
    requires Core(a) == Core(b)
    ensures a.(canonicalUserId := b.canonicalUserId, duplicateOf := b.duplicateOf) == b
  {
    assert Core(a).(canonicalUserId := b.canonicalUserId, duplicateOf := b.duplicateOf) == b;
  }

  // ----- When the check still happens -----

  ghost predicate CanBeFlagged(s: State, i: nat) {
    exists actions, t :: Runs(s, actions, t) && FlaggedRow(t, i)
  }

  predicate FlaggedRow(s: State, i: nat) {
    i < |s.tables.shots| && s.tables.shots[i].duplicateOf.Some?
  }

  lemma FlagNow(s: State, w: nat, i: nat)
    requires Enabled(s, FlagShot(w)) && i < |s.tables.shots| && s.tables.shots[i].id == s.workers[w].pc.shot.id
    ensures CanBeFlagged(s, i)
  {
    assert Runs(s, [], s);
    RunsExtend(s, [], s, FlagShot(w));
    assert FlaggedRow(Apply(s, FlagShot(w)), i);
    hide Enabled, Apply, Runs;
  }

  lemma LookAndFlagNow(s: State, w: nat, i: nat)
    requires w in s.workers && s.workers[w].pc.Unchecked? && HasCandidate(s.tables.shots, s.workers[w].pc.shot)
    requires i < |s.tables.shots| && s.tables.shots[i].id == s.workers[w].pc.shot.id
    ensures CanBeFlagged(s, i)
  {
    var origin := EarliestCandidateExists(s.tables.shots, s.workers[w].pc.shot);
    assert Enabled(s, Look(w, Some(origin)));
    var s1 := Apply(s, Look(w, Some(origin)));
    assert Enabled(s1, FlagShot(w));
    FlagNow(s1, w, i);
    hide Enabled, Apply, FlaggedRow;
    var actions, t :| Runs(s1, actions, t) && FlaggedRow(t, i);
    assert ([Look(w, Some(origin))] + actions)[1..] == actions;
    assert Runs(s, [Look(w, Some(origin))] + actions, t);
  }

  lemma OwnerCanFlag(s: State, w: nat, i: nat)
    requires Inv(s) && i < |s.tables.shots| && HasCandidate(s.tables.shots, s.tables.shots[i])
    requires w in s.workers && Undecided(s.workers[w].pc) && s.workers[w].pc.shot.id == s.tables.shots[i].id
    ensures CanBeFlagged(s, i)
  {
    hide JobsAreAdmitted, RowsAreJobs, WorkersAreHonest, OwnersAreDistinct, FlagsAreJustified, Deciding;
    hide Core, HasNear, Candidate, CanBeFlagged;
    WorkerFacts(s, w);
    var shots, shot := s.tables.shots, s.workers[w].pc.shot;
    if s.workers[w].pc.Unchecked? {
      OwnedRowIsUnflagged(shots, shot);
      var origin :| origin in shots && Candidate(shots[i], origin);
      CandidateDependsOnCores(shots[i], origin, shot, origin);
      LookAndFlagNow(s, w, i);
    } else {
      FlagNow(s, w, i);
    }
  }

  /** An unflagged row that has a candidate can still be flagged exactly when a worker that inserted it is still
      at work: neither a retry nor any other step takes the check up again. */
  lemma CheckHappensIffTheRowHasAnOwner(s: State, i: nat)
    requires Reachable(s) && i < |s.tables.shots|
    requires s.tables.shots[i].duplicateOf.None? && HasCandidate(s.tables.shots, s.tables.shots[i])
    ensures CanBeFlagged(s, i) <==> !Unowned(s.workers, s.tables.shots[i].id)
  {
    hide Inv, HasCandidate, Runs;
    ReachableStatesAreSafe(s);
    if CanBeFlagged(s, i) {
      var actions, t :| Runs(s, actions, t) && FlaggedRow(t, i);
      if LeftUnflagged(s, i) { RunsLeaveUnflagged(s, actions, t, i); }
    }
    if !Unowned(s.workers, s.tables.shots[i].id) {
      var w :| w in s.workers && Undecided(s.workers[w].pc) && s.workers[w].pc.shot.id == s.tables.shots[i].id;
      OwnerCanFlag(s, w, i);
    }
  }

  /** The worker of the second shot crashes after its insert: the row has a candidate and no owner. */
  lemma ChecksAreLost(a: Job, b: Job)
    requires TwoJobs(a, b) && Candidate(b.shot, a.shot)
    ensures exists s :: Reachable(s) && LostCheck(s, 1)
  {
    hide Candidate;
    InsertBoth(a, b);
    var s := BothInserted(a, b);
    hide Reachable, BothInserted;
    ReachableSteps(s, Crash(1));
    var t := Apply(s, Crash(1));
    assert t.tables.shots == [a.shot, b.shot] && t.workers == map[0 := Worker(a, Unchecked(a.shot))];
    assert LostCheck(t, 1);
  }

  ghost predicate LostCheck(s: State, i: nat) {
    LeftUnflagged(s, i) && HasCandidate(s.tables.shots, s.tables.shots[i])
  }

  /** It happens to two equal swings a second apart. */
  lemma AConcreteLostCheck()
    ensures exists s :: Reachable(s) && LostCheck(s, 1)
  {
    hide Reachable, LostCheck, SwingJob, TwoJobs, Candidate;
    TwinsAreMutualCandidates();
    ChecksAreLost(SwingJob(0, 1000), SwingJob(1, 2000));
  }

  // ----- Retries -----

  /** The retry finds its own row and stops before the check. */
  lemma RetryStopsAtTheUpsert(s: State, w: nat, now: int)
    requires Enabled(s, Upsert(w, now))
    requires var shot := s.workers[w].job.shot;
             Reachable(s) && exists row | row in s.tables.shots :: row.vendor == shot.vendor && row.key == shot.key
    ensures var t := Apply(s, Upsert(w, now));
            && t.tables == s.tables
            && t.workers[w].pc.Finished? && t.workers[w].pc.outcome == DuplicateExact
            && exists row | row in s.tables.shots ::
                 && row.vendor == s.workers[w].job.shot.vendor && row.key == s.workers[w].job.shot.key
                 && row.id == t.workers[w].pc.id
  {
    hide JobsAreAdmitted, RowsAreJobs, WorkersAreHonest, OwnersAreDistinct, FlagsAreJustified, Deciding, Carried;
    hide Core, HasNear;
    ReachableStatesAreSafe(s);
    WorkerFacts(s, w);
    var job, shot := s.workers[w].job, s.workers[w].pc.shot;
    var row :| row in s.tables.shots && SameKey(row, job.shot);
    CoreParts(shot);
    CandidateDependsOnCores(row, job.shot, row, shot);
    KnownByCore(s.tables.shots, shot, job.shot, ExistingId(s.tables.shots, shot));
  }

  /** All jobs of one key, in whatever order and at whatever time they complete, report the same shot. */
  lemma CompletedJobsAgree(s: State, v: nat, actions: seq<Action>, t: State, w: nat)
    requires Reachable(s) && v in s.workers && s.workers[v].pc.Finished?
    requires Runs(s, actions, t) && w in t.workers && t.workers[w].pc.Finished?
    requires s.workers[v].job.shot.vendor == t.workers[w].job.shot.vendor
    requires s.workers[v].job.shot.key == t.workers[w].job.shot.key
    ensures s.workers[v].pc.id == t.workers[w].pc.id
  {
    hide Runs, RowsAreJobs, KnownAs, Grows;
    hide JobsAreAdmitted, WorkersAreHonest, OwnersAreDistinct, FlagsAreJustified, Deciding, Carried;
    hide Core, HasNear;
    ReachableStatesAreSafe(s);
    RunsKeep(s, actions, t);
    RunsGrow(s, actions, t);
    WorkerFacts(s, v);
    WorkerFacts(t, w);
    KnownStaysKnown(s.tables.shots, t.tables.shots, s.workers[v].job.shot, s.workers[v].pc.id);
    OneIdPerKey(t.tables.shots, t.jobs, s.workers[v].job.shot, s.workers[v].pc.id, t.workers[w].job.shot, t.workers[w].pc.id);
  }

  lemma KnownStaysKnown(shots: seq<Shot>, later: seq<Shot>, shot: Shot, id: nat)
    requires Grows(shots, later) && KnownAs(shots, shot, id)
    ensures KnownAs(later, shot, id)
  {
    var i :| 0 <= i < |shots| && shots[i].id == id && SameKey(shots[i], shot);
    assert Preserved(shots[i], later[i]);
    CoreParts(shots[i]);
    CoreParts(later[i]);
    CandidateDependsOnCores(shots[i], shot, later[i], shot);
  }

  lemma OneIdPerKey(shots: seq<Shot>, jobs: set<Job>, a: Shot, m: nat, b: Shot, n: nat)
    requires RowsAreJobs(shots, jobs) && SameKey(a, b) && KnownAs(shots, a, m) && KnownAs(shots, b, n)
    ensures m == n
  {
    hide Core;
    var i :| 0 <= i < |shots| && shots[i].id == m && SameKey(shots[i], a);
    var k :| 0 <= k < |shots| && shots[k].id == n && SameKey(shots[k], b);
    assert SameKey(shots[i], shots[k]) && SameKey(shots[k], shots[i]);
  }
}
