/** The graph of near-duplicate flags: a forest when the shots of a user are checked one at a time, but
    possibly cyclic when two workers check shots of the same user at once. */
module DuplicateGraph {
  import opened Domain
  import opened ContentHash
  import opened NearDuplicates
  import opened ShotRepository
  import opened ShotProcessor
  import opened OutboxPublisher
  import opened IngestionProtocol
  import opened IngestionSafety
  import opened IngestionHistory
  import opened ScriptedRuns
  import IdentityProtocol

  predicate SameUser(a: Shot, b: Shot) {
    a.vendor == b.vendor && a.vendorUserId == b.vendorUserId
  }

  // ----- Serial runs -----

  /** No other worker is between the insert and the flag of a shot of the same user. */
  ghost predicate Alone(s: State, a: Action)
    requires Enabled(s, a)
  {
    a.Upsert? ==>
      forall v | v in s.workers && v != a.w && Undecided(s.workers[v].pc) ::
        || s.workers[v].pc.shot.vendor != s.workers[a.w].pc.shot.vendor
        || s.workers[v].pc.shot.vendorUserId != s.workers[a.w].pc.shot.vendorUserId
  }

  ghost predicate SerialRuns(s: State, actions: seq<Action>, t: State)
    decreases actions
  {
    if actions == [] then s == t
    else Enabled(s, actions[0]) && Alone(s, actions[0]) && SerialRuns(Apply(s, actions[0]), actions[1..], t)
  }

  /** The shot was stored after the row it names. */
  ghost predicate After(shots: seq<Shot>, id: nat, origin: nat) {
    exists i, j | 0 <= j < i < |shots| :: shots[i].id == id && shots[j].id == origin
  }

  ghost predicate FlagsPointBack(shots: seq<Shot>) {
    forall row | row in shots && row.duplicateOf.Some? :: After(shots, row.id, row.duplicateOf.value)
  }

  ghost predicate NewestOfItsUser(shots: seq<Shot>, shot: Shot) {
    forall i, j | 0 <= i < j < |shots| && shots[i].id == shot.id :: !SameUser(shots[j], shot)
  }

  ghost predicate WorkersArePlaced(shots: seq<Shot>, workers: map<nat, Worker>) {
    forall w | w in workers && Undecided(workers[w].pc) ::
      if workers[w].pc.Unchecked?
      then NewestOfItsUser(shots, workers[w].pc.shot)
      else NewestOfItsUser(shots, workers[w].pc.shot) && After(shots, workers[w].pc.shot.id, workers[w].pc.origin)
  }

  ghost predicate Forest(s: State) {
    FlagsPointBack(s.tables.shots) && WorkersArePlaced(s.tables.shots, s.workers)
  }

  lemma LaterRowsStayAfter(shots: seq<Shot>, later: seq<Shot>)
    requires |shots| <= |later| && forall i | 0 <= i < |shots| :: later[i].id == shots[i].id
    ensures forall id, origin | After(shots, id, origin) :: After(later, id, origin)
  {
    forall id, origin | After(shots, id, origin) ensures After(later, id, origin) {
      var i, j :| 0 <= j < i < |shots| && shots[i].id == id && shots[j].id == origin;
      assert later[i].id == id && later[j].id == origin;
    }
  }

  lemma InsertKeepsPlaces(shots: seq<Shot>, workers: map<nat, Worker>, w: nat, worker: Worker, shot: Shot)
    requires WorkersArePlaced(shots, workers) && w in workers && worker.pc == Unchecked(shot)
    requires forall row | row in shots :: row.id != shot.id
    requires forall v | v in workers && v != w && Undecided(workers[v].pc) :: !SameUser(workers[v].pc.shot, shot)
    ensures WorkersArePlaced(shots + [shot], workers[w := worker])
  {
    hide After;
    var later := shots + [shot];
    LaterRowsStayAfter(shots, later);
    assert forall i | 0 <= i < |shots| :: shots[i] in shots;
    forall v | v in workers && v != w && Undecided(workers[v].pc) ensures NewestOfItsUser(later, workers[v].pc.shot) {
      assert NewestOfItsUser(shots, workers[v].pc.shot);
    }
  }

  lemma InsertKeepsForest(s: State, w: nat, now: int)
    requires Enabled(s, Upsert(w, now)) && Alone(s, Upsert(w, now)) && !Stored(s.tables.shots, s.workers[w].pc.shot)
    requires Inv(s) && Forest(s)
    ensures Forest(Upserted(s, w, now))
  {
    hide JobsAreAdmitted, RowsAreJobs, WorkersAreHonest, OwnersAreDistinct, FlagsAreJustified, Deciding, Carried;
    hide Core, SameKey, Stored, HasNear, KnownAs, After, WorkersArePlaced;
    WorkerFacts(s, w);
    var job, shot := s.workers[w].job, s.workers[w].pc.shot;
    NewKeyMeansNewId(s.tables.shots, s.jobs, job, shot);
    assert forall v | v in s.workers && v != w && Undecided(s.workers[v].pc) :: !SameUser(s.workers[v].pc.shot, shot);
    InsertKeepsPlaces(s.tables.shots, s.workers, w, Worker(job, Unchecked(shot)), shot);
    LaterRowsStayAfter(s.tables.shots, s.tables.shots + [shot]);
  }

  lemma CandidateIsBefore(shots: seq<Shot>, shot: Shot, origin: Shot)
    requires (exists i :: 0 <= i < |shots| && shots[i].id == shot.id)
    requires origin in shots && Candidate(shot, origin) && NewestOfItsUser(shots, shot)
    ensures After(shots, shot.id, origin.id)
  {
    var i :| 0 <= i < |shots| && shots[i].id == shot.id;
    var j :| 0 <= j < |shots| && shots[j] == origin;
    assert SameUser(shots[j], shot) && i != j;
    assert j < i;
  }

  lemma LookKeepsForest(s: State, w: nat, found: Option<Shot>)
    requires Enabled(s, Look(w, found))
    requires Inv(s) && Forest(s)
    ensures Forest(Looked(s, w, found))
  {
    hide JobsAreAdmitted, RowsAreJobs, WorkersAreHonest, OwnersAreDistinct, FlagsAreJustified, Deciding, Carried;
    hide Core, HasNear, KnownAs, After, FlagsPointBack, NewestOfItsUser, Candidate;
    WorkerFacts(s, w);
    if found.Some? {
      OwnedRowIsUnflagged(s.tables.shots, s.workers[w].pc.shot);
      CandidateIsBefore(s.tables.shots, s.workers[w].pc.shot, found.value);
    }
  }

  lemma NewestByIds(shots: seq<Shot>, later: seq<Shot>, shot: Shot)
    requires |later| == |shots| && forall i | 0 <= i < |shots| :: later[i].id == shots[i].id && SameUser(later[i], shots[i])
    requires NewestOfItsUser(shots, shot)
    ensures NewestOfItsUser(later, shot)
  {
  }

  lemma FlagKeepsForest(s: State, w: nat)
    requires Enabled(s, FlagShot(w))
    requires Forest(s)
    ensures Forest(FlaggedShot(s, w))
  {
    hide After, NewestOfItsUser;
    var shots, shot, origin := s.tables.shots, s.workers[w].pc.shot, s.workers[w].pc.origin;
    var later := Flag(shots, shot.id, origin);
    LaterRowsStayAfter(shots, later);
    forall r | r in later && r.duplicateOf.Some? ensures After(later, r.id, r.duplicateOf.value) {
      var i :| 0 <= i < |later| && later[i] == r;
      assert shots[i] in shots;
    }
    forall v | v in s.workers && Undecided(s.workers[v].pc) ensures NewestOfItsUser(later, s.workers[v].pc.shot) {
      NewestByIds(shots, later, s.workers[v].pc.shot);
    }
  }

  lemma BackfillKeepsForest(s: State, user: IdentityProtocol.User, canonicalUserId: string)
    requires Forest(s)
    ensures Forest(Apply(s, Backfill(user, canonicalUserId)))
  {
    hide After, NewestOfItsUser;
    var shots := s.tables.shots;
    var later := IdentityProtocol.Backfilled(shots, user, canonicalUserId);
    LaterRowsStayAfter(shots, later);
    forall r | r in later && r.duplicateOf.Some? ensures After(later, r.id, r.duplicateOf.value) {
      var i :| 0 <= i < |later| && later[i] == r;
      assert shots[i] in shots;
    }
    forall v | v in s.workers && Undecided(s.workers[v].pc) ensures NewestOfItsUser(later, s.workers[v].pc.shot) {
      NewestByIds(shots, later, s.workers[v].pc.shot);
    }
  }

  lemma StepKeepsForest(s: State, a: Action)
    requires Enabled(s, a) && Alone(s, a)
    requires Inv(s) && Forest(s)
    ensures Forest(Apply(s, a))
  {
    hide Inv, FlagsPointBack, NewestOfItsUser, After, WellHashed, HasExcessiveClockSkew, Locked, IsOrigin, HasCandidate;
    match a
    case Upsert(w, now) => if !Stored(s.tables.shots, s.workers[w].pc.shot) { InsertKeepsForest(s, w, now); }
    case Look(w, found) => LookKeepsForest(s, w, found);
    case FlagShot(w) => FlagKeepsForest(s, w);
    case Admit(_) =>
    case Start(_, _) =>
    case Prepare(_, _) =>
    case AnnounceOrigin(_) =>
    case Crash(_) =>
    case ClaimBatch(_, _) =>
    case Emit(_, _) =>
    case Commit(_) =>
    case Rollback(_) =>
    case Backfill(user, canonicalUserId) => BackfillKeepsForest(s, user, canonicalUserId);
  }

  lemma {:induction false} SerialRunsKeep(s: State, actions: seq<Action>, t: State)
    requires Inv(s) && Forest(s) && SerialRuns(s, actions, t)
    ensures Inv(t) && Forest(t)
    decreases actions
  {
    hide Inv, Forest, Enabled, Apply, Alone;
    if actions != [] {
      StepKeepsForest(s, actions[0]);
      StepKeeps(s, actions[0]);
      SerialRunsKeep(Apply(s, actions[0]), actions[1..], t);
    }
  }

  // ----- Every flagged shot has an unflagged original -----

  /** The path follows the flags from row to earlier row and ends at an unflagged one. */
  ghost predicate LeadsToRoot(shots: seq<Shot>, path: seq<nat>) {
    && path != []
    && (forall k | 0 <= k < |path| :: path[k] < |shots|)
    && (forall k | 0 <= k < |path| - 1 ::
          path[k + 1] < path[k] && shots[path[k]].duplicateOf == Some(shots[path[k + 1]].id))
    && shots[path[|path| - 1]].duplicateOf.None?
  }

  lemma ParentOf(shots: seq<Shot>, i: nat) returns (j: nat)
    requires UniqueIds(shots) && FlagsPointBack(shots) && i < |shots| && shots[i].duplicateOf.Some?
    ensures j < i && shots[i].duplicateOf == Some(shots[j].id)
  {
    assert shots[i] in shots;
    var k, m :| 0 <= m < k < |shots| && shots[k].id == shots[i].id && shots[m].id == shots[i].duplicateOf.value;
    OnlyRow(shots, i, k);
    j := m;
  }

  lemma {:induction false} RootOf(shots: seq<Shot>, i: nat) returns (path: seq<nat>)
    requires UniqueIds(shots) && FlagsPointBack(shots) && i < |shots|
    ensures LeadsToRoot(shots, path) && path[0] == i
    decreases i
  {
    hide UniqueIds, FlagsPointBack;
    if shots[i].duplicateOf.None? { return [i]; }
    var j := ParentOf(shots, i);
    var rest := RootOf(shots, j);
    path := [i] + rest;
  }

  /** When the shots of a user are checked one at a time, every chain of flags ends at an original. */
  lemma SerialRunsLeaveAForest(actions: seq<Action>, s: State, i: nat) returns (path: seq<nat>)
    requires SerialRuns(INIT, actions, s) && i < |s.tables.shots|
    ensures LeadsToRoot(s.tables.shots, path) && path[0] == i
  {
    hide SerialRuns, FlagsPointBack, LeadsToRoot;
    hide JobsAreAdmitted, WorkersAreHonest, OwnersAreDistinct, FlagsAreJustified, Deciding;
    assert Inv(INIT) && Forest(INIT) by { InitIsSafe(); }
    SerialRunsKeep(INIT, actions, s);
    path := RootOf(s.tables.shots, i);
  }

  lemma InitIsSafe()
    ensures Inv(INIT) && Forest(INIT)
  {
    assert Deciding(INIT.workers) == {};
  }

  // ----- Concurrent checks can flag two shots with each other -----

  ghost predicate FlaggedWithEachOther(s: State, a: Shot, b: Shot) {
    Holds(s.tables.shots, a, Some(b.id)) && Holds(s.tables.shots, b, Some(a.id))
  }

  lemma CrossingChecks(a: Job, b: Job)
    requires TwoJobs(a, b) && Candidate(a.shot, b.shot) && Candidate(b.shot, a.shot)
    ensures exists s :: Reachable(s) && FlaggedWithEachOther(s, a.shot, b.shot)
  {
    hide Candidate;
    InsertBoth(a, b);
    NotItsOwnCandidate(a.shot);
    NotItsOwnCandidate(b.shot);
    BothFlagged(BothInserted(a, b), a.shot, b.shot);
  }

  lemma NotItsOwnCandidate(shot: Shot)
    ensures !Candidate(shot, shot)
  {
    hide HashAt;
  }

  lemma BothFlagged(s: State, a: Shot, b: Shot)
    requires Reachable(s) && s.tables.shots == [a, b]
    requires 0 in s.workers && s.workers[0].pc == Unchecked(a)
    requires 1 in s.workers && s.workers[1].pc == Unchecked(b)
    requires Candidate(a, b) && Candidate(b, a) && !Candidate(a, a) && !Candidate(b, b) && a.id != b.id
    ensures exists t :: Reachable(t) && FlaggedWithEachOther(t, a, b)
  {
    hide Reachable, Candidate, FlaggedWithEachOther;
    ReachableSteps(s, Look(0, Some(b)));
    var s1 := Apply(s, Look(0, Some(b)));
    ReachableSteps(s1, Look(1, Some(a)));
    BothFound(Apply(s1, Look(1, Some(a))), a, b);
  }

  lemma BothFound(s: State, a: Shot, b: Shot)
    requires Reachable(s) && s.tables.shots == [a, b] && a.id != b.id
    requires 0 in s.workers && s.workers[0].pc == OriginFound(a, b.id)
    requires 1 in s.workers && s.workers[1].pc == OriginFound(b, a.id)
    ensures exists t :: Reachable(t) && FlaggedWithEachOther(t, a, b)
  {
    hide Reachable;
    ReachableSteps(s, FlagShot(0));
    var s1 := Apply(s, FlagShot(0));
    ReachableSteps(s1, FlagShot(1));
    var s2 := Apply(s1, FlagShot(1));
    assert s2.tables.shots[0] == a.(duplicateOf := Some(b.id)) && s2.tables.shots[1] == b.(duplicateOf := Some(a.id));
    CoreWithoutFlag(a, b.id);
    CoreWithoutFlag(b, a.id);
    hide Core, Apply;
    assert FlaggedWithEachOther(s2, a, b);
  }

  /** Some run flags two shots with each other exactly when each is a candidate of the other. */
  lemma MutualFlagsArePossible(a: Job, b: Job)
    requires TwoJobs(a, b)
    ensures (exists s :: Reachable(s) && FlaggedWithEachOther(s, a.shot, b.shot))
       <==> Candidate(a.shot, b.shot) && Candidate(b.shot, a.shot)
  {
    hide Reachable, TwoJobs, Candidate, SameKey, Holds;
    hide JobsAreAdmitted, WorkersAreHonest, OwnersAreDistinct, RowsAreJobs, Deciding;
    if s :| Reachable(s) && FlaggedWithEachOther(s, a.shot, b.shot) {
      ReachableStatesAreSafe(s);
      UniqueRows(s);
      NamedRow(s.tables.shots, a.shot, b.shot, Some(a.shot.id));
      NamedRow(s.tables.shots, b.shot, a.shot, Some(b.shot.id));
    }
    if Candidate(a.shot, b.shot) && Candidate(b.shot, a.shot) { CrossingChecks(a, b); }
  }

  /** It happens to two equal swings a second apart. */
  lemma AConcreteMutualFlag()
    ensures exists s :: Reachable(s) && FlaggedWithEachOther(s, Swing(0, 1000), Swing(1, 2000))
  {
    var a, b := SwingJob(0, 1000), SwingJob(1, 2000);
    assert a.shot == Swing(0, 1000) && b.shot == Swing(1, 2000);
    hide Reachable, FlaggedWithEachOther, SwingJob, Swing, TwoJobs, Candidate;
    TwinsAreMutualCandidates();
    MutualFlagsArePossible(a, b);
  }

  lemma UniqueRows(s: State)
    requires Inv(s)
    ensures UniqueIds(s.tables.shots)
  {
    hide JobsAreAdmitted, WorkersAreHonest, OwnersAreDistinct, FlagsAreJustified, Deciding;
  }

  /** Whoever is named in a flag is a candidate, whatever flag it carries itself. */
  lemma NamedRow(shots: seq<Shot>, a: Shot, b: Shot, flag: Option<nat>)
    requires UniqueIds(shots) && FlagsAreJustified(shots)
    requires Holds(shots, a, Some(b.id)) && Holds(shots, b, flag)
    ensures Candidate(a, b)
  {
    hide Candidate, Core;
    var flagged :| flagged in shots && Core(flagged) == Core(a) && flagged.duplicateOf == Some(b.id);
    var row :| row in shots && row.id == b.id && Candidate(flagged, row);
    var i :| 0 <= i < |shots| && shots[i] == row;
    var k :| 0 <= k < |shots| && Core(shots[k]) == Core(b) && shots[k].duplicateOf == flag;
    CoreParts(shots[k]);
    CoreParts(b);
    OnlyRow(shots, i, k);
    CandidateDependsOnCores(flagged, row, a, b);
  }
}
