/** What every reachable state of the ingestion protocol keeps: exact deduplication, honest outcomes,
    justified duplicate flags, and the balance of rows against outcomes. */
module IngestionSafety {
  import opened Domain
  import opened ContentHash
  import opened NearDuplicates
  import opened ShotRepository
  import opened ShotProcessor
  import opened OutboxPublisher
  import opened IngestionProtocol
  import IdentityProtocol

  /** The part of a shot that is fixed when it is parsed. */
  function Core(shot: Shot): Shot {
    shot.(canonicalUserId := None, duplicateOf := None)
  }

  // ----- The invariant -----

  /** One row per id and one row per (vendor, key), each parsed by some admitted job. */
  ghost predicate RowsAreJobs(shots: seq<Shot>, jobs: set<Job>) {
    && UniqueIds(shots)
    && (forall i, j | 0 <= i < j < |shots| :: !SameKey(shots[i], shots[j]))
    && (forall row | row in shots :: exists job | job in jobs :: job.shot == Core(row))
  }

  ghost predicate JobsAreAdmitted(jobs: set<Job>) {
    && (forall j, k | j in jobs && k in jobs && j.shot.id == k.shot.id :: j == k)
    && (forall j | j in jobs ::
          && !HasExcessiveClockSkew(j.shot.capturedAt, j.receivedAt)
          && WellHashed(j.shot) && Core(j.shot) == j.shot)
  }

  ghost predicate HasNear(shots: seq<Shot>, shot: Shot, id: nat) {
    exists row | row in shots :: row.id == id && Candidate(shot, row)
  }

  ghost predicate KnownAs(shots: seq<Shot>, shot: Shot, id: nat) {
    exists row | row in shots :: row.id == id && SameKey(row, shot)
  }

  /** The shot is stored with that flag; a backfill may have completed its canonical id meanwhile. */
  ghost predicate Holds(shots: seq<Shot>, shot: Shot, flag: Option<nat>) {
    exists row | row in shots :: Core(row) == Core(shot) && row.duplicateOf == flag
  }

  ghost predicate WorkerIsHonest(shots: seq<Shot>, w: Worker) {
    match w.pc
    case Fetched => true
    case Ready(shot) => Core(shot) == w.job.shot && shot.duplicateOf.None?
    case Unchecked(shot) => Core(shot) == w.job.shot && shot.duplicateOf.None? && Holds(shots, shot, None)
    case OriginFound(shot, origin) =>
      Core(shot) == w.job.shot && shot.duplicateOf.None? && Holds(shots, shot, None) && HasNear(shots, shot, origin)
    case Flagged(shot, origin) =>
      Core(shot) == w.job.shot && Holds(shots, shot, Some(origin)) && HasNear(shots, shot, origin)
    case Finished(outcome, id) =>
      && outcome != RejectedClock
      && KnownAs(shots, w.job.shot, id)
      && (outcome != DuplicateExact ==> id == w.job.shot.id)
  }

  predicate Owns(pc: Pc) {
    pc.Unchecked? || pc.OriginFound? || pc.Flagged?
  }

  ghost predicate WorkersAreHonest(shots: seq<Shot>, jobs: set<Job>, workers: map<nat, Worker>) {
    forall w | w in workers :: workers[w].job in jobs && WorkerIsHonest(shots, workers[w])
  }

  ghost predicate OwnersAreDistinct(workers: map<nat, Worker>) {
    forall v, w | v in workers && w in workers && v != w && Owns(workers[v].pc) && Owns(workers[w].pc) ::
      workers[v].pc.shot.id != workers[w].pc.shot.id
  }

  /** A flag names another stored shot of the same vendor and user with equal content, at most a minute apart. */
  ghost predicate FlagsAreJustified(shots: seq<Shot>) {
    forall row | row in shots && row.duplicateOf.Some? :: HasNear(shots, row, row.duplicateOf.value)
  }

  ghost function Deciding(workers: map<nat, Worker>): set<nat> {
    set w | w in workers && Undecided(workers[w].pc)
  }

  ghost predicate RowsBalance(s: State) {
    |s.tables.shots| == s.accepted + s.near + |Deciding(s.workers)| + s.abandoned
  }

  ghost predicate Inv(s: State) {
    && JobsAreAdmitted(s.jobs)
    && RowsAreJobs(s.tables.shots, s.jobs)
    && WorkersAreHonest(s.tables.shots, s.jobs, s.workers)
    && OwnersAreDistinct(s.workers)
    && FlagsAreJustified(s.tables.shots)
    && RowsBalance(s)
  }

  // ----- Rows that survive a step -----

  /** Every row of the first table is still there, with the same core, and nothing else is required. */
  ghost predicate Carried(shots: seq<Shot>, later: seq<Shot>) {
    forall row | row in shots :: exists r | r in later :: Core(r) == Core(row)
  }

  lemma CandidateOfCores(a: Shot, b: Shot)
    ensures Candidate(a, b) <==> Candidate(Core(a), Core(b))
    ensures SameKey(a, b) <==> SameKey(Core(a), Core(b))
  {
    hide Round, Preimage;
    assert InputAt(a, a.capturedAt - WINDOW_MS) == InputAt(Core(a), a.capturedAt - WINDOW_MS);
  }

  lemma CandidateDependsOnCores(a: Shot, b: Shot, x: Shot, y: Shot)
    requires Core(a) == Core(x) && Core(b) == Core(y)
    ensures Candidate(a, b) <==> Candidate(x, y)
    ensures SameKey(a, b) <==> SameKey(x, y)
  {
    hide Core, Candidate, SameKey;
    CandidateOfCores(a, b);
    CandidateOfCores(x, y);
  }

  lemma NearIsCarried(shots: seq<Shot>, later: seq<Shot>, shot: Shot, x: Shot, id: nat)
    requires Carried(shots, later) && HasNear(shots, shot, id) && Core(shot) == Core(x)
    ensures HasNear(later, x, id)
  {
    var row :| row in shots && row.id == id && Candidate(shot, row);
    var r :| r in later && Core(r) == Core(row);
    assert r.id == Core(r).id && row.id == Core(row).id;
    CandidateDependsOnCores(shot, row, x, r);
  }

  lemma KnownIsCarried(shots: seq<Shot>, later: seq<Shot>, shot: Shot, id: nat)
    requires Carried(shots, later) && KnownAs(shots, shot, id)
    ensures KnownAs(later, shot, id)
  {
    var row :| row in shots && row.id == id && SameKey(row, shot);
    var r :| r in later && Core(r) == Core(row);
    assert r.id == Core(r).id && row.id == Core(row).id;
    CandidateDependsOnCores(row, shot, r, shot);
  }

  /** The rows with that id are still there with the flag they had. */
  ghost predicate Spared(shots: seq<Shot>, later: seq<Shot>, id: nat) {
    forall row | row in shots && row.id == id :: Holds(later, row, row.duplicateOf)
  }

  lemma HoldsIsSpared(shots: seq<Shot>, later: seq<Shot>, shot: Shot, flag: Option<nat>)
    requires Holds(shots, shot, flag) && Spared(shots, later, shot.id)
    ensures Holds(later, shot, flag)
  {
    var row :| row in shots && Core(row) == Core(shot) && row.duplicateOf == flag;
    CoreParts(row);
    CoreParts(shot);
    hide Core;
    assert Holds(later, row, flag);
  }

  /** A worker that owns none of the changed rows stays honest. */
  lemma HonestyIsCarried(shots: seq<Shot>, later: seq<Shot>, w: Worker)
    requires WorkerIsHonest(shots, w) && Carried(shots, later)
    requires Owns(w.pc) ==> Spared(shots, later, w.pc.shot.id)
    ensures WorkerIsHonest(later, w)
  {
    hide Core, Candidate, SameKey, Holds, Spared;
    match w.pc
    case Fetched =>
    case Ready(_) =>
    case Unchecked(shot) => HoldsIsSpared(shots, later, shot, None);
    case OriginFound(shot, origin) =>
      HoldsIsSpared(shots, later, shot, None);
      NearIsCarried(shots, later, shot, shot, origin);
    case Flagged(shot, origin) =>
      HoldsIsSpared(shots, later, shot, Some(origin));
      NearIsCarried(shots, later, shot, shot, origin);
    case Finished(_, id) => KnownIsCarried(shots, later, w.job.shot, id);
  }

  lemma FlaggedRowsAreCarried(shots: seq<Shot>, later: seq<Shot>)
    requires FlagsAreJustified(shots) && Carried(shots, later)
    requires forall r | r in later && r.duplicateOf.Some? ::
               (exists row | row in shots :: Core(row) == Core(r) && row.duplicateOf == r.duplicateOf)
               || HasNear(shots, r, r.duplicateOf.value)
    ensures FlagsAreJustified(later)
  {
    hide Core, Candidate;
    forall r | r in later && r.duplicateOf.Some? ensures HasNear(later, r, r.duplicateOf.value) {
      if HasNear(shots, r, r.duplicateOf.value) {
        NearIsCarried(shots, later, r, r, r.duplicateOf.value);
      } else {
        var row :| row in shots && Core(row) == Core(r) && row.duplicateOf == r.duplicateOf;
        NearIsCarried(shots, later, row, r, r.duplicateOf.value);
      }
    }
  }

  // ----- Worker bookkeeping -----

  lemma DecidingAfterMove(workers: map<nat, Worker>, w: nat, worker: Worker)
    ensures |Deciding(workers[w := worker])|
         == |Deciding(workers)| - (if w in workers && Undecided(workers[w].pc) then 1 else 0)
                                + (if Undecided(worker.pc) then 1 else 0)
  {
    var before, after := Deciding(workers), Deciding(workers[w := worker]);
    assert after == if Undecided(worker.pc) then (before - {w}) + {w} else before - {w};
    if w !in before { assert before - {w} == before; }
  }

  lemma DecidingAfterCrash(workers: map<nat, Worker>, w: nat)
    requires w in workers
    ensures |Deciding(workers - {w})| == |Deciding(workers)| - if Undecided(workers[w].pc) then 1 else 0
  {
    assert Deciding(workers - {w}) == Deciding(workers) - {w};
    if w !in Deciding(workers) { assert Deciding(workers) - {w} == Deciding(workers); }
  }

  lemma MoveKeepsHonesty(shots: seq<Shot>, jobs: set<Job>, workers: map<nat, Worker>, w: nat, worker: Worker)
    requires WorkersAreHonest(shots, jobs, workers)
    requires worker.job in jobs && WorkerIsHonest(shots, worker)
    ensures WorkersAreHonest(shots, jobs, workers[w := worker])
  {
    hide WorkerIsHonest;
  }

  /** A worker that owns nothing, or keeps the row it owned, leaves the owners distinct. */
  lemma MoveKeepsOwners(workers: map<nat, Worker>, w: nat, worker: Worker)
    requires OwnersAreDistinct(workers)
    requires Owns(worker.pc) ==>
               || (w in workers && Owns(workers[w].pc) && workers[w].pc.shot.id == worker.pc.shot.id)
               || (forall v | v in workers && Owns(workers[v].pc) :: workers[v].pc.shot.id != worker.pc.shot.id)
    ensures OwnersAreDistinct(workers[w := worker])
  {
  }

  lemma CoreParts(shot: Shot)
    ensures Core(shot).id == shot.id && Core(Core(shot)) == Core(shot) && Core(shot).duplicateOf.None?
  {
  }

  /** A shot is known to a table that holds a version of it. */
  lemma StoredIsKnown(shots: seq<Shot>, held: Shot, flag: Option<nat>, shot: Shot)
    requires Holds(shots, held, flag) && Core(held) == Core(shot)
    ensures KnownAs(shots, shot, shot.id)
  {
    var version :| version in shots && Core(version) == Core(held);
    CoreParts(version);
    CoreParts(shot);
    CandidateDependsOnCores(version, shot, shot, shot);
  }

  // ----- Every step keeps the invariant -----

  lemma PrepareKeeps(s: State, w: nat, user: Option<string>)
    requires Enabled(s, Prepare(w, user))
    requires Inv(s)
    ensures Inv(Prepared(s, w, user))
  {
    hide JobsAreAdmitted, RowsAreJobs, WorkersAreHonest, OwnersAreDistinct, FlagsAreJustified, Deciding, Carried;
    hide HasNear, KnownAs;
    WorkerFacts(s, w);
    var job := s.workers[w].job;
    var worker := Worker(job, Ready(Resolved(job.shot, user)));
    AdmittedJob(s.jobs, job);
    MoveKeepsHonesty(s.tables.shots, s.jobs, s.workers, w, worker);
    MoveKeepsOwners(s.workers, w, worker);
    DecidingAfterMove(s.workers, w, worker);
  }

  lemma AdmittedJob(jobs: set<Job>, job: Job)
    requires JobsAreAdmitted(jobs) && job in jobs
    ensures !HasExcessiveClockSkew(job.shot.capturedAt, job.receivedAt) && Core(job.shot) == job.shot
  {
  }

  lemma WorkerFacts(s: State, w: nat)
    requires w in s.workers
    requires Inv(s)
    ensures s.workers[w].job in s.jobs && WorkerIsHonest(s.tables.shots, s.workers[w]) && UniqueIds(s.tables.shots)
  {
    hide WorkerIsHonest, JobsAreAdmitted, OwnersAreDistinct, FlagsAreJustified, Deciding;
  }

  lemma ExactDuplicateKeeps(s: State, w: nat, now: int)
    requires Enabled(s, Upsert(w, now)) && Stored(s.tables.shots, s.workers[w].pc.shot)
    requires Inv(s)
    ensures Inv(Upserted(s, w, now))
  {
    hide JobsAreAdmitted, RowsAreJobs, WorkersAreHonest, OwnersAreDistinct, FlagsAreJustified, Deciding, Carried;
    hide Core, KnownAs;
    WorkerFacts(s, w);
    var job, shot := s.workers[w].job, s.workers[w].pc.shot;
    var id := ExistingId(s.tables.shots, shot);
    var worker := Worker(job, Finished(DuplicateExact, id));
    CoreParts(shot);
    KnownByCore(s.tables.shots, shot, job.shot, id);
    MoveKeepsHonesty(s.tables.shots, s.jobs, s.workers, w, worker);
    MoveKeepsOwners(s.workers, w, worker);
    DecidingAfterMove(s.workers, w, worker);
  }

  lemma KnownByCore(shots: seq<Shot>, shot: Shot, x: Shot, id: nat)
    requires exists row :: row in shots && SameKey(row, shot) && row.id == id
    requires Core(shot) == Core(x)
    ensures KnownAs(shots, x, id)
  {
    var row :| row in shots && SameKey(row, shot) && row.id == id;
    CandidateDependsOnCores(row, shot, row, x);
  }

  /** A shot whose key is not stored yet brings a new id too. */
  lemma NewKeyMeansNewId(shots: seq<Shot>, jobs: set<Job>, job: Job, shot: Shot)
    requires JobsAreAdmitted(jobs) && RowsAreJobs(shots, jobs)
    requires job in jobs && Core(shot) == job.shot && !Stored(shots, shot)
    ensures forall row | row in shots :: row.id != shot.id
  {
    hide WellHashed;
    CoreParts(shot);
    forall row | row in shots ensures row.id != shot.id {
      CoreParts(row);
      var j :| j in jobs && j.shot == Core(row);
      if j == job { CandidateDependsOnCores(row, shot, shot, shot); }
    }
  }

  lemma InsertKeepsRows(shots: seq<Shot>, jobs: set<Job>, shot: Shot)
    requires RowsAreJobs(shots, jobs) && !Stored(shots, shot)
    requires forall row | row in shots :: row.id != shot.id
    requires exists job | job in jobs :: job.shot == Core(shot)
    ensures RowsAreJobs(shots + [shot], jobs)
    ensures Carried(shots, shots + [shot])
  {
    hide Core;
    var later := shots + [shot];
    forall i, j | 0 <= i < j < |later| ensures later[i].id != later[j].id && !SameKey(later[i], later[j]) {
      assert later[i] in shots;
    }
    assert forall row | row in shots :: row in later;
  }

  lemma OthersAreCarried(shots: seq<Shot>, later: seq<Shot>, jobs: set<Job>, workers: map<nat, Worker>, w: nat, worker: Worker)
    requires WorkersAreHonest(shots, jobs, workers) && Carried(shots, later)
    requires worker.job in jobs && WorkerIsHonest(later, worker)
    requires forall v | v in workers && v != w && Owns(workers[v].pc) :: Spared(shots, later, workers[v].pc.shot.id)
    ensures WorkersAreHonest(later, jobs, workers[w := worker])
  {
    hide WorkerIsHonest, Carried, Spared;
    forall v | v in workers && v != w ensures WorkerIsHonest(later, workers[v]) {
      HonestyIsCarried(shots, later, workers[v]);
    }
  }

  lemma OwnersHoldRows(shots: seq<Shot>, jobs: set<Job>, workers: map<nat, Worker>)
    requires WorkersAreHonest(shots, jobs, workers)
    ensures forall v | v in workers && Owns(workers[v].pc) ::
              exists row | row in shots :: row.id == workers[v].pc.shot.id
  {
    forall v | v in workers && Owns(workers[v].pc) ensures exists row | row in shots :: row.id == workers[v].pc.shot.id {
      assert WorkerIsHonest(shots, workers[v]);
      var row :| row in shots && Core(row) == Core(workers[v].pc.shot);
      CoreParts(row);
      CoreParts(workers[v].pc.shot);
    }
  }

  lemma SparedByExtension(shots: seq<Shot>, later: seq<Shot>, id: nat)
    requires forall row | row in shots && row.id == id :: row in later
    ensures Spared(shots, later, id)
  {
    hide Core;
  }

  lemma InsertKeeps(s: State, w: nat, now: int)
    requires Enabled(s, Upsert(w, now)) && !Stored(s.tables.shots, s.workers[w].pc.shot)
    requires Inv(s)
    ensures Inv(Upserted(s, w, now))
  {
    hide JobsAreAdmitted, RowsAreJobs, WorkersAreHonest, OwnersAreDistinct, FlagsAreJustified, Deciding, Carried;
    hide Core, SameKey, Stored, HasNear, KnownAs;
    WorkerFacts(s, w);
    var job, shot := s.workers[w].job, s.workers[w].pc.shot;
    var shots, later := s.tables.shots, s.tables.shots + [shot];
    var worker := Worker(job, Unchecked(shot));
    NewKeyMeansNewId(shots, s.jobs, job, shot);
    InsertKeepsRows(shots, s.jobs, shot);
    OwnersHoldRows(shots, s.jobs, s.workers);
    forall id: nat ensures Spared(shots, later, id) { SparedByExtension(shots, later, id); }
    assert Holds(later, shot, None);
    hide Holds, Spared;
    OthersAreCarried(shots, later, s.jobs, s.workers, w, worker);
    MoveKeepsOwners(s.workers, w, worker);
    InsertKeepsFlags(shots, shot);
    DecidingAfterMove(s.workers, w, worker);
  }

  lemma InsertKeepsFlags(shots: seq<Shot>, shot: Shot)
    requires FlagsAreJustified(shots) && shot.duplicateOf.None? && Carried(shots, shots + [shot])
    ensures FlagsAreJustified(shots + [shot])
  {
    hide HasNear, Core, Carried;
    FlaggedRowsAreCarried(shots, shots + [shot]);
  }

  lemma OriginFoundKeeps(s: State, w: nat, found: Option<Shot>)
    requires Enabled(s, Look(w, found)) && found.Some?
    requires Inv(s)
    ensures Inv(Looked(s, w, found))
  {
    hide JobsAreAdmitted, RowsAreJobs, WorkersAreHonest, OwnersAreDistinct, FlagsAreJustified, Deciding, Carried;
    hide Core, KnownAs, Candidate;
    WorkerFacts(s, w);
    var job, shot := s.workers[w].job, s.workers[w].pc.shot;
    var worker := Worker(job, OriginFound(shot, found.value.id));
    assert HasNear(s.tables.shots, shot, found.value.id);
    MoveKeepsHonesty(s.tables.shots, s.jobs, s.workers, w, worker);
    MoveKeepsOwners(s.workers, w, worker);
    DecidingAfterMove(s.workers, w, worker);
  }

  lemma AcceptKeeps(s: State, w: nat, found: Option<Shot>)
    requires Enabled(s, Look(w, found)) && found.None?
    requires Inv(s)
    ensures Inv(Looked(s, w, found))
  {
    hide JobsAreAdmitted, RowsAreJobs, WorkersAreHonest, OwnersAreDistinct, FlagsAreJustified, Deciding, Carried;
    hide Core, KnownAs, HasNear, HasCandidate, IsOrigin;
    WorkerFacts(s, w);
    var job, shot := s.workers[w].job, s.workers[w].pc.shot;
    var worker := Worker(job, Finished(Accepted, shot.id));
    CoreParts(shot);
    StoredIsKnown(s.tables.shots, shot, None, job.shot);
    MoveKeepsHonesty(s.tables.shots, s.jobs, s.workers, w, worker);
    MoveKeepsOwners(s.workers, w, worker);
    DecidingAfterMove(s.workers, w, worker);
  }

  lemma FlagCarries(shots: seq<Shot>, id: nat, origin: nat)
    ensures Carried(shots, Flag(shots, id, origin))
  {
    var later := Flag(shots, id, origin);
    forall row | row in shots ensures exists r | r in later :: Core(r) == Core(row) {
      var i :| 0 <= i < |shots| && shots[i] == row;
      assert later[i] in later && Core(later[i]) == Core(row);
    }
  }

  lemma FlagChangesOneRow(shots: seq<Shot>, shot: Shot, origin: nat)
    requires UniqueIds(shots) && Holds(shots, shot, None)
    ensures var later := Flag(shots, shot.id, origin);
            && Holds(later, shot, Some(origin))
            && (forall row | row in shots && row.id != shot.id :: row in later)
            && (forall r | r in later :: r in shots || (Core(r) == Core(shot) && r.duplicateOf == Some(origin)))
            && Carried(shots, later)
  {
    hide Carried;
    FlagCarries(shots, shot.id, origin);
    var later := Flag(shots, shot.id, origin);
    var k :| 0 <= k < |shots| && Core(shots[k]) == Core(shot) && shots[k].duplicateOf == None;
    CoreParts(shots[k]);
    CoreParts(shot);
    FlagIsAnUpdate(shots, k, origin);
    CoreWithoutFlag(shots[k], origin);
    hide Core, Flag, UniqueIds;
    assert later[k] in later;
    forall row | row in shots && row.id != shot.id ensures row in later {
      var i :| 0 <= i < |shots| && shots[i] == row;
      assert later[i] == row;
    }
  }

  lemma CoreWithoutFlag(row: Shot, origin: nat)
    ensures Core(row.(duplicateOf := Some(origin))) == Core(row)
  {
  }

  lemma FlagIsAnUpdate(shots: seq<Shot>, k: nat, origin: nat)
    requires UniqueIds(shots) && k < |shots|
    ensures Flag(shots, shots[k].id, origin) == shots[k := shots[k].(duplicateOf := Some(origin))]
  {
    assert forall i | 0 <= i < |shots| && i != k :: shots[i].id != shots[k].id;
  }

  lemma FlagKeepsRows(shots: seq<Shot>, jobs: set<Job>, shot: Shot, origin: nat)
    requires RowsAreJobs(shots, jobs)
    ensures RowsAreJobs(Flag(shots, shot.id, origin), jobs)
  {
    var later := Flag(shots, shot.id, origin);
    forall i, j | 0 <= i < j < |later| ensures later[i].id != later[j].id && !SameKey(later[i], later[j]) {
      assert !SameKey(shots[i], shots[j]);
    }
    forall r | r in later ensures exists job | job in jobs :: job.shot == Core(r) {
      var i :| 0 <= i < |later| && later[i] == r;
      assert shots[i] in shots && Core(shots[i]) == Core(r);
    }
  }

  lemma FlagIsJustified(shots: seq<Shot>, shot: Shot, origin: nat)
    requires UniqueIds(shots) && Holds(shots, shot, None) && FlagsAreJustified(shots) && HasNear(shots, shot, origin)
    ensures FlagsAreJustified(Flag(shots, shot.id, origin))
  {
    hide FlagsAreJustified, Flag, HasNear, Carried, UniqueIds, Holds, Core;
    var later := Flag(shots, shot.id, origin);
    FlagChangesOneRow(shots, shot, origin);
    forall r | r in later && Core(r) == Core(shot) && r.duplicateOf == Some(origin) ensures HasNear(shots, r, origin) {
      CarriedToItself(shots);
      NearIsCarried(shots, shots, shot, r, origin);
    }
    FlaggedRowsAreCarried(shots, later);
  }

  lemma CarriedToItself(shots: seq<Shot>)
    ensures Carried(shots, shots)
  {
    hide Core;
  }

  lemma FlagKeeps(s: State, w: nat)
    requires Enabled(s, FlagShot(w))
    requires Inv(s)
    ensures Inv(FlaggedShot(s, w))
  {
    hide JobsAreAdmitted, RowsAreJobs, WorkersAreHonest, OwnersAreDistinct, FlagsAreJustified, Deciding, Carried;
    hide Core, HasNear, KnownAs, UniqueIds, Flag;
    WorkerFacts(s, w);
    var job, shot, origin := s.workers[w].job, s.workers[w].pc.shot, s.workers[w].pc.origin;
    var shots, later := s.tables.shots, Flag(s.tables.shots, shot.id, origin);
    var worker := Worker(job, Flagged(shot, origin));
    FlagChangesOneRow(shots, shot, origin);
    FlagKeepsRows(shots, s.jobs, shot, origin);
    FlagIsJustified(shots, shot, origin);
    NearIsCarried(shots, later, shot, shot, origin);
    OwnersOfOthers(s.workers, w);
    forall id: nat | id != shot.id ensures Spared(shots, later, id) { SparedByExtension(shots, later, id); }
    hide Holds, Spared;
    OthersAreCarried(shots, later, s.jobs, s.workers, w, worker);
    MoveKeepsOwners(s.workers, w, worker);
    DecidingAfterMove(s.workers, w, worker);
  }

  lemma OwnersOfOthers(workers: map<nat, Worker>, w: nat)
    requires OwnersAreDistinct(workers) && w in workers && Owns(workers[w].pc)
    ensures forall v | v in workers && v != w && Owns(workers[v].pc) :: workers[v].pc.shot.id != workers[w].pc.shot.id
  {
  }

  lemma AnnounceKeeps(s: State, w: nat)
    requires Enabled(s, AnnounceOrigin(w))
    requires Inv(s)
    ensures Inv(AnnouncedOrigin(s, w))
  {
    hide JobsAreAdmitted, RowsAreJobs, WorkersAreHonest, OwnersAreDistinct, FlagsAreJustified, Deciding, Carried;
    hide KnownAs, HasNear, Announce, Locked;
    WorkerFacts(s, w);
    var job, shot, origin := s.workers[w].job, s.workers[w].pc.shot, s.workers[w].pc.origin;
    var worker := Worker(job, Finished(DuplicateNear, shot.id));
    CoreParts(shot);
    StoredIsKnown(s.tables.shots, shot, Some(origin), job.shot);
    MoveKeepsHonesty(s.tables.shots, s.jobs, s.workers, w, worker);
    MoveKeepsOwners(s.workers, w, worker);
    DecidingAfterMove(s.workers, w, worker);
  }

  lemma CrashKeeps(s: State, w: nat)
    requires Enabled(s, Crash(w))
    requires Inv(s)
    ensures Inv(Apply(s, Crash(w)))
  {
    hide RowsAreJobs, FlagsAreJustified, JobsAreAdmitted, WorkerIsHonest;
    DecidingAfterCrash(s.workers, w);
  }

  lemma AdmitKeepsJobs(jobs: set<Job>, job: Job)
    requires JobsAreAdmitted(jobs) && forall j | j in jobs :: j.shot.id != job.shot.id
    requires !HasExcessiveClockSkew(job.shot.capturedAt, job.receivedAt) && WellHashed(job.shot)
    requires job.shot.canonicalUserId.None? && job.shot.duplicateOf.None?
    ensures JobsAreAdmitted(jobs + {job})
  {
    hide WellHashed, HasExcessiveClockSkew;
  }

  lemma MoreJobs(shots: seq<Shot>, jobs: set<Job>, workers: map<nat, Worker>, job: Job)
    requires RowsAreJobs(shots, jobs) && WorkersAreHonest(shots, jobs, workers)
    ensures RowsAreJobs(shots, jobs + {job}) && WorkersAreHonest(shots, jobs + {job}, workers)
  {
    hide WorkerIsHonest, SameKey, Core;
  }

  lemma AdmitKeeps(s: State, job: Job)
    requires Enabled(s, Admit(job))
    requires Inv(s)
    ensures Inv(Apply(s, Admit(job)))
  {
    hide JobsAreAdmitted, RowsAreJobs, WorkersAreHonest, OwnersAreDistinct, FlagsAreJustified, Deciding, Carried;
    AdmitKeepsJobs(s.jobs, job);
    MoreJobs(s.tables.shots, s.jobs, s.workers, job);
  }

  lemma StartKeeps(s: State, w: nat, job: Job)
    requires Enabled(s, Start(w, job))
    requires Inv(s)
    ensures Inv(Apply(s, Start(w, job)))
  {
    hide JobsAreAdmitted, RowsAreJobs, WorkersAreHonest, OwnersAreDistinct, FlagsAreJustified, Deciding, Carried;
    hide HasNear, KnownAs, Core;
    var worker := Worker(job, Fetched);
    MoveKeepsHonesty(s.tables.shots, s.jobs, s.workers, w, worker);
    MoveKeepsOwners(s.workers, w, worker);
    DecidingAfterMove(s.workers, w, worker);
  }

  lemma BackfillCarries(shots: seq<Shot>, user: IdentityProtocol.User, canonicalUserId: string)
    ensures var later := IdentityProtocol.Backfilled(shots, user, canonicalUserId);
            && Carried(shots, later) && Carried(later, shots)
            && forall id: nat :: Spared(shots, later, id)
    ensures var later := IdentityProtocol.Backfilled(shots, user, canonicalUserId);
            forall i | 0 <= i < |shots| :: Core(later[i]) == Core(shots[i]) && later[i].duplicateOf == shots[i].duplicateOf
  {
    BackfillKeepsCores(shots, user, canonicalUserId);
    hide Core, IdentityProtocol.Backfilled;
    EqualCoresCarry(shots, IdentityProtocol.Backfilled(shots, user, canonicalUserId));
  }

  lemma BackfillKeepsCores(shots: seq<Shot>, user: IdentityProtocol.User, canonicalUserId: string)
    ensures var later := IdentityProtocol.Backfilled(shots, user, canonicalUserId);
            && |later| == |shots|
            && forall i | 0 <= i < |shots| :: Core(later[i]) == Core(shots[i]) && later[i].duplicateOf == shots[i].duplicateOf
  {
  }

  lemma EqualCoresCarry(shots: seq<Shot>, later: seq<Shot>)
    requires |later| == |shots|
    requires forall i | 0 <= i < |shots| :: Core(later[i]) == Core(shots[i]) && later[i].duplicateOf == shots[i].duplicateOf
    ensures Carried(shots, later) && Carried(later, shots) && forall id: nat :: Spared(shots, later, id)
  {
    hide Core;
    forall row | row in shots ensures exists r | r in later :: Core(r) == Core(row) && r.duplicateOf == row.duplicateOf {
      var i :| 0 <= i < |shots| && shots[i] == row;
      assert later[i] in later;
    }
    forall r | r in later ensures exists row | row in shots :: Core(row) == Core(r) {
      var i :| 0 <= i < |later| && later[i] == r;
      assert shots[i] in shots;
    }
  }

  lemma BackfillKeepsRows(shots: seq<Shot>, jobs: set<Job>, user: IdentityProtocol.User, canonicalUserId: string)
    requires RowsAreJobs(shots, jobs)
    ensures RowsAreJobs(IdentityProtocol.Backfilled(shots, user, canonicalUserId), jobs)
  {
    var later := IdentityProtocol.Backfilled(shots, user, canonicalUserId);
    forall i, j | 0 <= i < j < |later| ensures later[i].id != later[j].id && !SameKey(later[i], later[j]) {
      assert !SameKey(shots[i], shots[j]);
    }
    forall r | r in later ensures exists job | job in jobs :: job.shot == Core(r) {
      var i :| 0 <= i < |later| && later[i] == r;
      assert shots[i] in shots && Core(shots[i]) == Core(r);
    }
  }

  lemma BackfillKeepsFlags(shots: seq<Shot>, user: IdentityProtocol.User, canonicalUserId: string)
    requires FlagsAreJustified(shots)
    ensures FlagsAreJustified(IdentityProtocol.Backfilled(shots, user, canonicalUserId))
  {
    hide IdentityProtocol.Backfilled, FlagsAreJustified, HasNear, Core, Carried, Spared;
    var later := IdentityProtocol.Backfilled(shots, user, canonicalUserId);
    BackfillCarries(shots, user, canonicalUserId);
    forall r | r in later && r.duplicateOf.Some?
      ensures exists row | row in shots :: Core(row) == Core(r) && row.duplicateOf == r.duplicateOf
    {
      var i :| 0 <= i < |later| && later[i] == r;
      assert shots[i] in shots;
    }
    FlaggedRowsAreCarried(shots, later);
  }

  lemma BackfillKeeps(s: State, user: IdentityProtocol.User, canonicalUserId: string)
    requires Inv(s)
    ensures Inv(Apply(s, Backfill(user, canonicalUserId)))
  {
    hide JobsAreAdmitted, RowsAreJobs, OwnersAreDistinct, FlagsAreJustified, Deciding, Carried;
    hide Core, HasNear, KnownAs, Holds, Spared, WorkerIsHonest, IdentityProtocol.Backfilled;
    var later := IdentityProtocol.Backfilled(s.tables.shots, user, canonicalUserId);
    BackfillCarries(s.tables.shots, user, canonicalUserId);
    BackfillKeepsRows(s.tables.shots, s.jobs, user, canonicalUserId);
    BackfillKeepsFlags(s.tables.shots, user, canonicalUserId);
    forall v | v in s.workers ensures WorkerIsHonest(later, s.workers[v]) {
      HonestyIsCarried(s.tables.shots, later, s.workers[v]);
    }
  }

  lemma StepKeeps(s: State, a: Action)
    requires Enabled(s, a)
    requires Inv(s)
    ensures Inv(Apply(s, a))
  {
    hide RowsAreJobs, FlagsAreJustified, OwnersAreDistinct, WorkersAreHonest, JobsAreAdmitted, Deciding;
    match a
    case Admit(job) => AdmitKeeps(s, job);
    case Start(w, job) => StartKeeps(s, w, job);
    case Prepare(w, user) => PrepareKeeps(s, w, user);
    case Upsert(w, now) =>
      if Stored(s.tables.shots, s.workers[w].pc.shot) { ExactDuplicateKeeps(s, w, now); } else { InsertKeeps(s, w, now); }
    case Look(w, found) =>
      if found.Some? { OriginFoundKeeps(s, w, found); } else { AcceptKeeps(s, w, found); }
    case FlagShot(w) => FlagKeeps(s, w);
    case AnnounceOrigin(w) => AnnounceKeeps(s, w);
    case Crash(w) => CrashKeeps(s, w);
    case ClaimBatch(_, _) =>
    case Emit(_, _) =>
    case Commit(_) =>
    case Rollback(_) =>
    case Backfill(user, canonicalUserId) => BackfillKeeps(s, user, canonicalUserId);
  }

  lemma {:induction false} RunsKeep(s: State, actions: seq<Action>, t: State)
    requires Inv(s) && Runs(s, actions, t)
    ensures Inv(t)
    decreases actions
  {
    hide Inv, Enabled, Apply;
    if actions != [] {
      StepKeeps(s, actions[0]);
      RunsKeep(Apply(s, actions[0]), actions[1..], t);
    }
  }

  /** The invariant holds in every reachable state. */
  lemma ReachableStatesAreSafe(s: State)
    requires Reachable(s)
    ensures Inv(s)
  {
    hide Runs;
    var actions :| Runs(INIT, actions, s);
    RunsKeep(INIT, actions, s);
  }

  /** In every reachable state a key has one row, a job that a controller admitted is never rejected for its
      clock, and the rows are the accepted and the near-duplicate ones, those still being checked, and those
      whose worker crashed before its check was over. */
  lemma ExactDeduplication(s: State)
    requires Reachable(s)
    ensures forall i, j | 0 <= i < j < |s.tables.shots| ::
              && (s.tables.shots[i].vendor != s.tables.shots[j].vendor || s.tables.shots[i].key != s.tables.shots[j].key)
              && s.tables.shots[i].id != s.tables.shots[j].id
    ensures forall w | w in s.workers && s.workers[w].pc.Finished? :: s.workers[w].pc.outcome != RejectedClock
    ensures |s.tables.shots|
         == s.accepted + s.near + s.abandoned
            + |set w | w in s.workers && (s.workers[w].pc.Unchecked? || s.workers[w].pc.OriginFound?)|
  {
    hide Reachable, FlagsAreJustified, OwnersAreDistinct, JobsAreAdmitted, KnownAs, HasNear, Core;
    ReachableStatesAreSafe(s);
    assert Deciding(s.workers) == set w | w in s.workers && (s.workers[w].pc.Unchecked? || s.workers[w].pc.OriginFound?);
    forall w | w in s.workers && s.workers[w].pc.Finished? ensures s.workers[w].pc.outcome != RejectedClock {
      assert WorkerIsHonest(s.tables.shots, s.workers[w]);
    }
  }

  /** Whoever is named as the original is another stored shot of the same vendor, with the same user, club and
      rounded measures, and at most a minute away. */
  lemma FlagsNameNearShots(s: State, row: Shot) returns (origin: Shot)
    requires Reachable(s) && row in s.tables.shots && row.duplicateOf.Some?
    ensures origin in s.tables.shots && origin.id == row.duplicateOf.value
    ensures origin.id != row.id && origin.vendor == row.vendor && SameContent(row, origin)
    ensures -60_000 <= origin.capturedAt - row.capturedAt <= 60_000
  {
    hide Reachable, WorkersAreHonest, OwnersAreDistinct, JobsAreAdmitted, RowsAreJobs, Deciding;
    hide HashAt, WellHashed, SameContent, Candidate, Core;
    ReachableStatesAreSafe(s);
    origin :| origin in s.tables.shots && origin.id == row.duplicateOf.value && Candidate(row, origin);
    StoredShotsAreWellHashed(s.tables.shots, s.jobs, row);
    StoredShotsAreWellHashed(s.tables.shots, s.jobs, origin);
    CandidatesAreNearShotsOfTwoMinutes(row, origin);
  }

  lemma StoredShotsAreWellHashed(shots: seq<Shot>, jobs: set<Job>, row: Shot)
    requires JobsAreAdmitted(jobs) && RowsAreJobs(shots, jobs) && row in shots
    ensures WellHashed(row)
  {
    hide Round, Preimage;
    var job :| job in jobs && job.shot == Core(row);
    assert InputAt(row, row.capturedAt) == InputAt(Core(row), row.capturedAt);
  }
}
