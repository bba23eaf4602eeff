/** Runs of the ingestion protocol that are written out step by step, to show what can happen. */
module ScriptedRuns {
  import opened Domain
  import opened ContentHash
  import opened NearDuplicates
  import opened ShotRepository
  import opened ShotProcessor
  import opened IngestionProtocol

  ghost predicate Admissible(jobs: set<Job>, job: Job) {
    && !HasExcessiveClockSkew(job.shot.capturedAt, job.receivedAt)
    && WellHashed(job.shot) && job.shot.canonicalUserId.None? && job.shot.duplicateOf.None?
    && forall j | j in jobs :: j.shot.id != job.shot.id
  }

  ghost function Introduced(s: State, w: nat, job: Job): State {
    s.(jobs := s.jobs + {job},
       tables := Inserted(s.tables, job.shot, 0),
       workers := s.workers[w := Worker(job, Unchecked(job.shot))])
  }

  /** A new job can always be run up to the insert of its shot. */
  lemma Introduce(s: State, w: nat, job: Job)
    requires Reachable(s) && w !in s.workers && Admissible(s.jobs, job) && !Stored(s.tables.shots, job.shot)
    ensures Reachable(Introduced(s, w, job))
  {
    hide Reachable, WellHashed, HasExcessiveClockSkew, Stored, Inserted;
    ReachableSteps(s, Admit(job));
    var s1 := Apply(s, Admit(job));
    ReachableSteps(s1, Start(w, job));
    var s2 := Apply(s1, Start(w, job));
    ReachableSteps(s2, Prepare(w, None));
    var s3 := Apply(s2, Prepare(w, None));
    assert s3.workers[w] == Worker(job, Ready(job.shot));
    ReachableSteps(s3, Upsert(w, 0));
    assert Apply(s3, Upsert(w, 0)) == Introduced(s, w, job);
  }

  /** Two jobs that a controller can admit one after the other, with different keys. */
  ghost predicate TwoJobs(a: Job, b: Job) {
    Admissible({}, a) && Admissible({a}, b) && !SameKey(a.shot, b.shot)
  }

  ghost function BothInserted(a: Job, b: Job): State {
    Introduced(Introduced(INIT, 0, a), 1, b)
  }

  lemma InsertBoth(a: Job, b: Job)
    requires TwoJobs(a, b)
    ensures var s := BothInserted(a, b);
            && Reachable(s)
            && s.tables == Tables([a.shot, b.shot], [Event(0, SHOT_PERSISTED, a.shot, 0), Event(1, SHOT_PERSISTED, b.shot, 0)], 2)
            && s.workers == map[0 := Worker(a, Unchecked(a.shot)), 1 := Worker(b, Unchecked(b.shot))]
            && s.claims == map[] && s.emitted == []
  {
    hide WellHashed, HasExcessiveClockSkew;
    assert Runs(INIT, [], INIT);
    Introduce(INIT, 0, a);
    assert Introduced(INIT, 0, a).tables.shots == [a.shot];
    Introduce(Introduced(INIT, 0, a), 1, b);
    assert BothInserted(a, b).tables.shots == [a.shot, b.shot];
  }

  /** A swing received at the moment it was captured. */
  function SwingJob(id: nat, ms: int): Job {
    Job(Swing(id, ms), ms)
  }

  /** Two equal swings a second apart, in one minute: each is a candidate of the other. */
  lemma TwinsAreMutualCandidates()
    ensures var a, b := SwingJob(0, 1000), SwingJob(1, 2000);
            TwoJobs(a, b) && Candidate(a.shot, b.shot) && Candidate(b.shot, a.shot)
  {
    var a, b := SwingJob(0, 1000), SwingJob(1, 2000);
    TwinsHaveEqualContent();
    hide WellHashed, SameContent, Candidate, Digits;
    EarlierNearShotsAreFound(b.shot, a.shot);
    LaterNearShotsAreFoundIffTheyShareTheMinute(a.shot, b.shot);
    TwinsHaveDifferentKeys();
  }

  lemma TwinsHaveEqualContent()
    ensures var a, b := Swing(0, 1000), Swing(1, 2000);
            WellHashed(a) && WellHashed(b) && SameContent(a, b) && SameContent(b, a)
  {
    hide Preimage, Digits, Integer;
    var a, b := Swing(0, 1000), Swing(1, 2000);
    assert "7I" in VALID_CLUB_CODES;
    assert InputAt(a, a.capturedAt) == InputAt(a.(contentHash := ""), a.capturedAt);
    assert InputAt(b, b.capturedAt) == InputAt(b.(contentHash := ""), b.capturedAt);
  }

  lemma TwinsHaveDifferentKeys()
    ensures Swing(0, 1000).key != Swing(1, 2000).key
  {
    hide HashAt;
    assert Digits(0) == "0" && Digits(1) == "1";
    assert Swing(0, 1000).key[3] == '0' && Swing(1, 2000).key[3] == '1';
  }
}
