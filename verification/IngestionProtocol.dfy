/** The ingestion protocol as a transition system: workers and publishers on shared tables.

    Every transaction and every single statement is one step; the steps of different workers and
    publishers interleave freely.  A worker may crash between any two of its steps, and any number of
    workers may run the same job, one after the other or at the same time: this covers the retries, the
    replicas and the redelivery of stalled jobs. */
module IngestionProtocol {
  import opened Domain
  import opened ContentHash
  import opened NearDuplicates
  import opened ShotRepository
  import opened ShotProcessor
  import opened OutboxPublisher
  import IdentityProtocol

  // ----- States -----

  datatype Job = Job(shot: Shot, receivedAt: int)

  /** Where a worker stands: before the upsert, after it, after finding an origin, after flagging, or done. */
  datatype Pc =
    | Fetched
    | Ready(shot: Shot)
    | Unchecked(shot: Shot)
    | OriginFound(shot: Shot, origin: nat)
    | Flagged(shot: Shot, origin: nat)
    | Finished(outcome: Outcome, id: nat)

  datatype Worker = Worker(job: Job, pc: Pc)

  /** The open transaction of a publisher: the rows it locked, how many it has handled, and which it will delete. */
  datatype Claim = Claim(batch: seq<Event>, handled: nat, successful: seq<nat>)

  datatype State = State(
    tables: Tables,
    jobs: set<Job>,
    workers: map<nat, Worker>,
    claims: map<nat, Claim>,
    emitted: seq<Event>,
    rolledBack: multiset<nat>,  // emissions of transactions that did not commit, by event
    accepted: nat,              // the counters of the two outcomes that follow an insert,
    near: nat,                  // and the inserts whose worker crashed before deciding
    abandoned: nat)

  const INIT := State(Tables([], [], 0), {}, map[], map[], [], multiset{}, 0, 0, 0)

  predicate Undecided(pc: Pc) {
    pc.Unchecked? || pc.OriginFound?
  }

  function Locked(claims: map<nat, Claim>): set<nat> {
    set p, e | p in claims && e in claims[p].batch :: e.id
  }

  // ----- Steps -----

  datatype Action =
    | Admit(job: Job)
    | Start(w: nat, job: Job)
    | Prepare(w: nat, canonicalUserId: Option<string>)
    | Upsert(w: nat, now: int)
    | Look(w: nat, found: Option<Shot>)
    | FlagShot(w: nat)
    | AnnounceOrigin(w: nat)
    | Crash(w: nat)
    | ClaimBatch(p: nat, batch: seq<Event>)
    | Emit(p: nat, throws: bool)
    | Commit(p: nat)
    | Rollback(p: nat)
    | Backfill(user: IdentityProtocol.User, linkedTo: string)

  ghost predicate Enabled(s: State, a: Action) {
    match a
    case Admit(job) =>
      // The controller has parsed the shot, rejected a skewed clock, and given it a fresh id.
      && !HasExcessiveClockSkew(job.shot.capturedAt, job.receivedAt)
      && WellHashed(job.shot) && job.shot.canonicalUserId.None? && job.shot.duplicateOf.None?
      && forall j | j in s.jobs :: j.shot.id != job.shot.id
    case Start(w, job) => w !in s.workers && job in s.jobs
    case Prepare(w, _) => w in s.workers && s.workers[w].pc.Fetched?
    case Upsert(w, _) => w in s.workers && s.workers[w].pc.Ready?
    case Look(w, found) =>
      && w in s.workers && s.workers[w].pc.Unchecked?
      && var shot := s.workers[w].pc.shot;
         if HasCandidate(s.tables.shots, shot)
         then found.Some? && IsOrigin(s.tables.shots, shot, found.value)
         else found.None?
    case FlagShot(w) => w in s.workers && s.workers[w].pc.OriginFound?
    case AnnounceOrigin(w) =>
      // The update waits for the row lock of a publisher.
      && w in s.workers && s.workers[w].pc.Flagged?
      && forall e | e in s.tables.outbox && Announces(e, s.workers[w].pc.shot.id) :: e.id !in Locked(s.claims)
    case Crash(w) => w in s.workers && !s.workers[w].pc.Finished?
    case ClaimBatch(p, batch) => p !in s.claims && ValidClaim(s.tables.outbox, Locked(s.claims), batch)
    case Emit(p, _) => p in s.claims && s.claims[p].handled < |s.claims[p].batch|
    case Commit(p) => p in s.claims && s.claims[p].handled == |s.claims[p].batch|
    case Rollback(p) => p in s.claims
    case Backfill(_, _) => true  // the identity service may run its backfill at any time
  }

  function Moved(s: State, w: nat, pc: Pc): map<nat, Worker>
    requires w in s.workers
  {
    s.workers[w := s.workers[w].(pc := pc)]
  }

  ghost function ExistingId(shots: seq<Shot>, shot: Shot): (id: nat)
    requires Stored(shots, shot)
    ensures exists row :: row in shots && SameKey(row, shot) && row.id == id
  {
    var row :| row in shots && SameKey(row, shot);
    row.id
  }

  ghost function Prepared(s: State, w: nat, canonicalUserId: Option<string>): State
    requires Enabled(s, Prepare(w, canonicalUserId))
  {
    var Job(shot, receivedAt) := s.workers[w].job;
    if HasExcessiveClockSkew(shot.capturedAt, receivedAt)
    then s.(workers := Moved(s, w, Finished(RejectedClock, shot.id)))
    else s.(workers := Moved(s, w, Ready(Resolved(shot, canonicalUserId))))
  }

  ghost function Upserted(s: State, w: nat, now: int): State
    requires Enabled(s, Upsert(w, now))
  {
    var shot := s.workers[w].pc.shot;
    if Stored(s.tables.shots, shot)
    then s.(workers := Moved(s, w, Finished(DuplicateExact, ExistingId(s.tables.shots, shot))))
    else s.(workers := Moved(s, w, Unchecked(shot)), tables := Inserted(s.tables, shot, now))
  }

  ghost function Looked(s: State, w: nat, found: Option<Shot>): State
    requires Enabled(s, Look(w, found))
  {
    var shot := s.workers[w].pc.shot;
    if found.Some?
    then s.(workers := Moved(s, w, OriginFound(shot, found.value.id)))
    else s.(workers := Moved(s, w, Finished(Accepted, shot.id)), accepted := s.accepted + 1)
  }

  ghost function FlaggedShot(s: State, w: nat): State
    requires Enabled(s, FlagShot(w))
  {
    var OriginFound(shot, origin) := s.workers[w].pc;
    s.(workers := Moved(s, w, Flagged(shot, origin)), near := s.near + 1,
       tables := s.tables.(shots := Flag(s.tables.shots, shot.id, origin)))
  }

  ghost function AnnouncedOrigin(s: State, w: nat): State
    requires Enabled(s, AnnounceOrigin(w))
  {
    var Flagged(shot, origin) := s.workers[w].pc;
    s.(workers := Moved(s, w, Finished(DuplicateNear, shot.id)),
       tables := s.tables.(outbox := Announce(s.tables.outbox, shot.id, origin)))
  }

  ghost function Emitted(s: State, p: nat, throws: bool): State
    requires Enabled(s, Emit(p, throws))
  {
    var Claim(batch, handled, successful) := s.claims[p];
    var row := batch[handled];
    var known := row.eventType == SHOT_PERSISTED;
    if known && throws
    then s.(claims := s.claims[p := Claim(batch, handled + 1, successful)])
    else s.(claims := s.claims[p := Claim(batch, handled + 1, successful + [row.id])],
            emitted := s.emitted + if known then [row] else [])
  }

  function SetOf(ids: seq<nat>): set<nat> {
    set id: nat | id in ids
  }

  ghost function Apply(s: State, a: Action): State
    requires Enabled(s, a)
  {
    match a
    case Admit(job) => s.(jobs := s.jobs + {job})
    case Start(w, job) => s.(workers := s.workers[w := Worker(job, Fetched)])
    case Prepare(w, canonicalUserId) => Prepared(s, w, canonicalUserId)
    case Upsert(w, now) => Upserted(s, w, now)
    case Look(w, found) => Looked(s, w, found)
    case FlagShot(w) => FlaggedShot(s, w)
    case AnnounceOrigin(w) => AnnouncedOrigin(s, w)
    case Crash(w) =>
      s.(workers := s.workers - {w}, abandoned := s.abandoned + if Undecided(s.workers[w].pc) then 1 else 0)
    case ClaimBatch(p, batch) => s.(claims := s.claims[p := Claim(batch, 0, [])])
    case Emit(p, throws) => Emitted(s, p, throws)
    case Commit(p) =>
      s.(claims := s.claims - {p},
         tables := s.tables.(outbox := Without(s.tables.outbox, SetOf(s.claims[p].successful))))
    case Rollback(p) =>
      s.(claims := s.claims - {p}, rolledBack := s.rolledBack + multiset(s.claims[p].successful))
    case Backfill(user, canonicalUserId) =>
      s.(tables := s.tables.(shots := IdentityProtocol.Backfilled(s.tables.shots, user, canonicalUserId)))
  }

  /** The actions lead from state s to state t. */
  ghost predicate Runs(s: State, actions: seq<Action>, t: State)
    decreases actions
  {
    if actions == [] then s == t
    else Enabled(s, actions[0]) && Runs(Apply(s, actions[0]), actions[1..], t)
  }

  ghost predicate Reachable(s: State) {
    exists actions :: Runs(INIT, actions, s)
  }

  lemma {:induction false} RunsExtend(s: State, actions: seq<Action>, t: State, a: Action)
    requires Runs(s, actions, t) && Enabled(t, a)
    ensures Runs(s, actions + [a], Apply(t, a))
    decreases actions
  {
    hide Enabled, Apply;
    if actions == [] {
      assert Runs(Apply(s, a), [], Apply(s, a));
      assert ([] + [a])[1..] == [];
    } else {
      RunsExtend(Apply(s, actions[0]), actions[1..], t, a);
      assert (actions + [a])[1..] == actions[1..] + [a];
    }
  }

  lemma ReachableSteps(s: State, a: Action)
    requires Reachable(s) && Enabled(s, a)
    ensures Reachable(Apply(s, a))
  {
    hide Runs, Enabled, Apply;
    var actions :| Runs(INIT, actions, s);
    RunsExtend(INIT, actions, s, a);
  }
}
