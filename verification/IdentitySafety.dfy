/** What the identity service keeps under every interleaving of links, unlinks, cache traffic and workers. */
module IdentitySafety {
  import opened Domain
  import opened ShotRepository
  import opened ShotProcessor
  import opened IdentityProtocol

  // ----- The invariant -----

  /** The value is what the table held after the first version entries of the audit log. */
  ghost predicate Historical(audit: seq<AuditEntry>, key: CacheKey, value: Cached, version: nat) {
    version <= |audit| && value == Answer(Fold(audit[..version]), key)
  }

  ghost predicate CacheIsHistorical(s: State) {
    forall key | key in s.cache ::
      && Historical(s.audit, key, s.cache[key].value, s.cache[key].version)
      && s.cache[key].filledAt <= s.clock
  }

  predicate Reads(reader: Reader) {
    reader.Holding? || reader.Served?
  }

  ghost predicate ReadersAreHistorical(audit: seq<AuditEntry>, readers: map<nat, Reader>) {
    forall r | r in readers && Reads(readers[r]) ::
      Historical(audit, readers[r].key, readers[r].value, readers[r].version)
  }

  ghost predicate BackfillsAreLinked(audit: seq<AuditEntry>, writers: map<nat, Writer>) {
    forall w | w in writers && (writers[w].Evicted? || writers[w].links) ::
      Linked(writers[w].user, writers[w].canonicalUserId) in audit
  }

  /** Every stamp was authorised by a link of exactly that user to that canonical id. */
  ghost predicate StampsAreJustified(audit: seq<AuditEntry>, shots: seq<Shot>) {
    forall shot | shot in shots && shot.canonicalUserId.Some? ::
      Linked(UserOf(shot), shot.canonicalUserId.value) in audit
  }

  ghost predicate Inv(s: State) {
    && s.table == Fold(s.audit)
    && CacheIsHistorical(s)
    && ReadersAreHistorical(s.audit, s.readers)
    && BackfillsAreLinked(s.audit, s.writers)
    && StampsAreJustified(s.audit, s.shots)
  }

  // ----- The audit log only grows -----

  lemma LongerAudit(audit: seq<AuditEntry>, entry: AuditEntry)
    ensures forall key, value, version: nat | Historical(audit, key, value, version) ::
              Historical(audit + [entry], key, value, version)
    ensures (audit + [entry])[..|audit|] == audit
  {
    var longer := audit + [entry];
    forall key, value, version: nat | Historical(audit, key, value, version)
      ensures Historical(longer, key, value, version)
    {
      assert longer[..version] == audit[..version];
    }
    assert audit[..|audit|] == audit;
    assert longer[..|audit|] == audit;
  }

  lemma AppendKeeps(s: State, entry: AuditEntry, table: Mapping, writers: map<nat, Writer>)
    requires Inv(s) && table == Fold(s.audit + [entry]) && BackfillsAreLinked(s.audit + [entry], writers)
    ensures Inv(s.(audit := s.audit + [entry], table := table, writers := writers))
  {
    hide Fold, Historical, Answer;
    LongerAudit(s.audit, entry);
  }

  lemma {:induction false} MappedUsersWereLinked(audit: seq<AuditEntry>, user: User)
    requires user in Fold(audit)
    ensures Linked(user, Fold(audit)[user]) in audit
  {
    if audit != [] {
      var before := audit[..|audit| - 1];
      if user in Fold(before) && Fold(before)[user] == Fold(audit)[user] {
        MappedUsersWereLinked(before, user);
      }
    }
  }

  // ----- Every step keeps the invariant -----

  lemma LinkKeeps(s: State, w: nat, user: User, canonicalUserId: string)
    requires Enabled(s, Link(w, user, canonicalUserId))
    requires Inv(s)
    ensures Inv(Apply(s, Link(w, user, canonicalUserId)))
  {
    hide CacheIsHistorical, ReadersAreHistorical, StampsAreJustified;
    var entry := Linked(user, canonicalUserId);
    LongerAudit(s.audit, entry);
    var t := Apply(s, Link(w, user, canonicalUserId));
    AppendKeeps(s, entry, t.table, t.writers);
  }

  lemma UnlinkKeeps(s: State, w: nat, user: User, canonicalUserId: string)
    requires Enabled(s, Unlink(w, user, canonicalUserId))
    requires Inv(s)
    ensures Inv(Apply(s, Unlink(w, user, canonicalUserId)))
  {
    hide CacheIsHistorical, ReadersAreHistorical, StampsAreJustified;
    var entry := Unlinked(user, canonicalUserId);
    LongerAudit(s.audit, entry);
    var t := Apply(s, Unlink(w, user, canonicalUserId));
    if t != s { AppendKeeps(s, entry, t.table, t.writers); }
  }

  lemma RecordListKeeps(s: State, canonicalUserId: string)
    requires Inv(s)
    ensures Inv(Apply(s, RecordList(canonicalUserId)))
  {
    hide CacheIsHistorical, ReadersAreHistorical, StampsAreJustified;
    LongerAudit(s.audit, Listed(canonicalUserId));
    AppendKeeps(s, Listed(canonicalUserId), s.table, s.writers);
  }

  lemma QueryKeeps(s: State, r: nat)
    requires Enabled(s, Query(r))
    requires Inv(s)
    ensures Inv(Apply(s, Query(r)))
  {
    hide Fold, Answer, BackfillsAreLinked, StampsAreJustified;
    assert s.audit[..|s.audit|] == s.audit;
  }

  lemma BackfillKeeps(s: State, w: nat)
    requires Enabled(s, Backfill(w))
    requires Inv(s)
    ensures Inv(Apply(s, Backfill(w)))
  {
    hide Fold, Historical, Answer;
    var later := Backfilled(s.shots, s.writers[w].user, s.writers[w].canonicalUserId);
    forall shot | shot in later && shot.canonicalUserId.Some?
      ensures Linked(UserOf(shot), shot.canonicalUserId.value) in s.audit
    {
      var i :| 0 <= i < |later| && later[i] == shot;
      assert s.shots[i] in s.shots;
    }
  }

  lemma StoreKeeps(s: State, r: nat, shot: Shot)
    requires Enabled(s, Store(r, shot))
    requires Inv(s)
    ensures Inv(Apply(s, Store(r, shot)))
  {
    hide Fold, BackfillsAreLinked, Stored;
    var reader := s.readers[r];
    var user := UserOf(shot);
    var past := s.audit[..reader.version];
    if user in Fold(past) { MappedUsersWereLinked(past, user); }
    assert forall entry | entry in past :: entry in s.audit;
  }

  lemma CacheStepKeeps(s: State, a: Action)
    requires Enabled(s, a) && (a.Ask? || a.Hit? || a.Miss? || a.Fill? || a.FillFails? || a.ReaderLeaves? || a.Tick?)
    requires Inv(s)
    ensures Inv(Apply(s, a))
  {
    hide Fold, Historical, Answer, StampsAreJustified, BackfillsAreLinked;
  }

  lemma WriterStepKeeps(s: State, a: Action)
    requires Enabled(s, a) && (a.Evict? || a.WriterFails?)
    requires Inv(s)
    ensures Inv(Apply(s, a))
  {
    hide Fold, Historical, Answer, StampsAreJustified, ReadersAreHistorical;
  }

  lemma StepKeeps(s: State, a: Action)
    requires Enabled(s, a)
    requires Inv(s)
    ensures Inv(Apply(s, a))
  {
    hide Inv, Apply;
    match a
    case Link(w, user, c) => LinkKeeps(s, w, user, c);
    case Unlink(w, user, c) => UnlinkKeeps(s, w, user, c);
    case RecordList(c) => RecordListKeeps(s, c);
    case Query(r) => QueryKeeps(s, r);
    case Backfill(w) => BackfillKeeps(s, w);
    case Store(r, shot) => StoreKeeps(s, r, shot);
    case Evict(_) => WriterStepKeeps(s, a);
    case WriterFails(_) => WriterStepKeeps(s, a);
    case Ask(_, _) => CacheStepKeeps(s, a);
    case Hit(_) => CacheStepKeeps(s, a);
    case Miss(_) => CacheStepKeeps(s, a);
    case Fill(_) => CacheStepKeeps(s, a);
    case FillFails(_) => CacheStepKeeps(s, a);
    case ReaderLeaves(_) => CacheStepKeeps(s, a);
    case Tick(_) => CacheStepKeeps(s, a);
  }

  lemma {:induction false} RunsKeep(s: State, actions: seq<Action>, t: State)
    requires Inv(s) && Runs(s, actions, t)
    ensures Inv(t)
    decreases actions
  {
    hide Inv, Enabled, Apply;
    if actions != [] {
      StepKeeps(s, actions[0]);
      RunsKeep(Apply(s, actions[0]), actions[1..], t);
    }
  }

  lemma ReachableStatesAreSafe(s: State)
    requires Reachable(s)
    ensures Inv(s)
  {
    hide Runs;
    var actions :| Runs(INIT, actions, s);
    RunsKeep(INIT, actions, s);
  }

  // ----- Event sourcing and justified stamps -----

  /** The mapping table can be rebuilt from the audit log alone. */
  lemma TableIsTheFoldOfTheAuditLog(s: State)
    requires Reachable(s)
    ensures s.table == Fold(s.audit)
  {
    hide Reachable, CacheIsHistorical, ReadersAreHistorical, BackfillsAreLinked, StampsAreJustified;
    ReachableStatesAreSafe(s);
  }

  lemma StampsWereAuthorised(s: State, shot: Shot)
    requires Reachable(s) && shot in s.shots && shot.canonicalUserId.Some?
    ensures Linked(User(shot.vendor, shot.vendorUserId), shot.canonicalUserId.value) in s.audit
  {
    hide Reachable, CacheIsHistorical, ReadersAreHistorical, BackfillsAreLinked, Fold;
    ReachableStatesAreSafe(s);
  }

  /** Rows are only appended, and only a missing canonical id is ever written. */
  ghost predicate WrittenOnce(shots: seq<Shot>, later: seq<Shot>) {
    && |shots| <= |later|
    && forall i | 0 <= i < |shots| ::
         if shots[i].canonicalUserId.Some? then later[i] == shots[i]
         else later[i].(canonicalUserId := None) == shots[i]
  }

  lemma StepWritesOnce(s: State, a: Action)
    requires Enabled(s, a)
    ensures WrittenOnce(s.shots, Apply(s, a).shots) && s.audit <= Apply(s, a).audit
  {
    hide Stored, Answer, Lookup;
  }

  /** A stamp survives re-links, unlinks, retries and delayed backfills, and the audit log is only extended. */
  lemma {:induction false} StampsAreWrittenOnce(s: State, actions: seq<Action>, t: State)
    requires Runs(s, actions, t)
    ensures s.audit <= t.audit && |s.shots| <= |t.shots|
    ensures forall i | 0 <= i < |s.shots| ::
              if s.shots[i].canonicalUserId.Some? then t.shots[i] == s.shots[i]
              else t.shots[i].(canonicalUserId := None) == s.shots[i]
    decreases actions
  {
    hide Enabled, Apply;
    if actions != [] {
      StepWritesOnce(s, actions[0]);
      StampsAreWrittenOnce(Apply(s, actions[0]), actions[1..], t);
    }
  }

  // ----- How stale a cache hit can be -----

  /** A hit returns what the table held when the entry's query ran, less than the key's lifetime after the fill. */
  lemma HitsAreBounded(s: State, r: nat)
    requires Enabled(s, Hit(r))
    requires Reachable(s)
    ensures var key := s.readers[r].key;
            var entry := s.cache[key];
            var served := Apply(s, Hit(r)).readers[r];
            && served == Served(key, entry.value, entry.version)
            && entry.filledAt <= s.clock < entry.filledAt + (if key.ForUser? then 60_000 else 30_000)
            && entry.version <= |s.audit|
            && var past := Fold(s.audit[..entry.version]);
               && (key.ForUser? ==> served.value == Text(if key.user in past then past[key.user] else ""))
               && (key.ForList? ==> served.value == Users(set user | user in past && past[user] == key.canonicalUserId))
  {
    hide Reachable, Fold, ReadersAreHistorical, BackfillsAreLinked, StampsAreJustified;
    ReachableStatesAreSafe(s);
  }

  /** Nobody still holds, and the cache does not contain, an answer about the key older than the version. */
  ghost predicate UpToDate(s: State, key: CacheKey, version: nat) {
    && (key in s.cache ==> version <= s.cache[key].version)
    && forall r | r in s.readers && Reads(s.readers[r]) && s.readers[r].key == key :: version <= s.readers[r].version
  }

  lemma StepStaysUpToDate(s: State, a: Action, key: CacheKey, version: nat)
    requires Enabled(s, a)
    requires UpToDate(s, key, version) && version <= |s.audit|
    ensures UpToDate(Apply(s, a), key, version)
  {
    hide Stored, Answer, Lookup;
  }

  /** Once no older answer is in flight, a link or unlink is visible to every later call. */
  lemma {:induction false} RunsStayUpToDate(s: State, actions: seq<Action>, t: State, key: CacheKey, version: nat)
    requires Runs(s, actions, t) && UpToDate(s, key, version) && version <= |s.audit|
    ensures UpToDate(t, key, version)
    decreases actions
  {
    hide Enabled, Apply, UpToDate;
    if actions != [] {
      StepStaysUpToDate(s, actions[0], key, version);
      StepWritesOnce(s, actions[0]);
      RunsStayUpToDate(Apply(s, actions[0]), actions[1..], t, key, version);
    }
  }

  /** A call about the key is answered with what the table held before that version of the audit log. */
  predicate AnswersOlder(s: State, key: CacheKey, version: nat) {
    exists r :: r in s.readers && s.readers[r].Served? && s.readers[r].key == key && s.readers[r].version < version
  }

  predicate HoldsOlder(s: State, key: CacheKey, version: nat) {
    exists r :: r in s.readers && s.readers[r].Holding? && s.readers[r].key == key && s.readers[r].version < version
  }

  predicate CachesOlder(s: State, key: CacheKey, version: nat) {
    key in s.cache && s.cache[key].version < version
  }

  predicate Evicts(writer: Writer, key: CacheKey) {
    key == ForUser(writer.user) || key == ForList(writer.canonicalUserId)
  }

  ghost predicate CanReach(s: State, t: State) {
    exists actions :: Runs(s, actions, t)
  }

  lemma EvictionLeavesReaders(s: State, w: nat, key: CacheKey)
    requires Enabled(s, Evict(w)) && Evicts(s.writers[w], key)
    ensures var t := Apply(s, Evict(w)); t.readers == s.readers && t.audit == s.audit && t.clock == s.clock && key !in t.cache
  {
  }

  lemma FillNow(s: State, r: nat)
    requires r in s.readers && s.readers[r].Holding?
    ensures CanReach(s, Apply(s, Fill(r)))
  {
    assert Runs(Apply(s, Fill(r)), [], Apply(s, Fill(r)));
    assert [Fill(r)][1..] == [];
    assert Runs(s, [Fill(r)], Apply(s, Fill(r)));
  }

  lemma StayHere(s: State)
    ensures CanReach(s, s)
  {
    assert Runs(s, [], s);
  }

  /** After the eviction of a link or unlink some call is still answered with an older value exactly if, at
      that moment, a call is between its query and its answer with one. */
  lemma OldAnswersComeFromReadsInFlight(s: State, w: nat, key: CacheKey)
    requires Enabled(s, Evict(w)) && Evicts(s.writers[w], key)
    ensures (exists t :: CanReach(Apply(s, Evict(w)), t) && AnswersOlder(t, key, |s.audit|))
       <==> AnswersOlder(s, key, |s.audit|) || HoldsOlder(s, key, |s.audit|)
  {
    EvictionLeavesReaders(s, w, key);
    var evicted, n := Apply(s, Evict(w)), |s.audit|;
    hide Enabled, Apply, Runs;
    if t :| CanReach(evicted, t) && AnswersOlder(t, key, n) {
      var actions :| Runs(evicted, actions, t);
      if !AnswersOlder(s, key, n) && !HoldsOlder(s, key, n) {
        assert UpToDate(evicted, key, n);
        RunsStayUpToDate(evicted, actions, t, key, n);
      }
    }
    if AnswersOlder(s, key, n) {
      var r :| r in s.readers && s.readers[r].Served? && s.readers[r].key == key && s.readers[r].version < n;
      StayHere(evicted);
      assert r in evicted.readers && AnswersOlder(evicted, key, n);
    } else if HoldsOlder(s, key, n) {
      var r :| r in s.readers && s.readers[r].Holding? && s.readers[r].key == key && s.readers[r].version < n;
      FillNow(evicted, r);
      FillServes(evicted, r);
      var filled := Apply(evicted, Fill(r));
      assert r in filled.readers && AnswersOlder(filled, key, n);
    }
  }

  lemma FillServes(s: State, r: nat)
    requires r in s.readers && s.readers[r].Holding?
    ensures Enabled(s, Fill(r))
    ensures var t, reader := Apply(s, Fill(r)), s.readers[r];
            && t.readers == s.readers[r := Served(reader.key, reader.value, reader.version)]
            && t.cache == s.cache[reader.key := Entry(reader.value, reader.version, s.clock)]
            && t.audit == s.audit && t.clock == s.clock && t.shots == s.shots && t.table == s.table
  {
  }

  lemma StepCachesNothingOlder(s: State, a: Action, key: CacheKey, version: nat)
    requires Enabled(s, a)
    requires !CachesOlder(s, key, version) && !HoldsOlder(s, key, version) && version <= |s.audit|
    ensures !CachesOlder(Apply(s, a), key, version) && !HoldsOlder(Apply(s, a), key, version)
  {
    hide Stored, Answer, Lookup;
  }

  lemma {:induction false} RunsCacheNothingOlder(s: State, actions: seq<Action>, t: State, key: CacheKey, version: nat)
    requires Runs(s, actions, t) && !CachesOlder(s, key, version) && !HoldsOlder(s, key, version) && version <= |s.audit|
    ensures !CachesOlder(t, key, version)
    decreases actions
  {
    hide Enabled, Apply, CachesOlder, HoldsOlder;
    if actions != [] {
      StepCachesNothingOlder(s, actions[0], key, version);
      StepWritesOnce(s, actions[0]);
      RunsCacheNothingOlder(Apply(s, actions[0]), actions[1..], t, key, version);
    }
  }

  /** The evicted key is filled with an older value again exactly if a call holds one that it has yet to write. */
  lemma StaleEntriesComeFromUnwrittenReads(s: State, w: nat, key: CacheKey)
    requires Enabled(s, Evict(w)) && Evicts(s.writers[w], key)
    ensures (exists t :: CanReach(Apply(s, Evict(w)), t) && CachesOlder(t, key, |s.audit|))
       <==> HoldsOlder(s, key, |s.audit|)
  {
    EvictionLeavesReaders(s, w, key);
    var evicted, n := Apply(s, Evict(w)), |s.audit|;
    hide Enabled, Apply, Runs;
    if t :| CanReach(evicted, t) && CachesOlder(t, key, n) {
      var actions :| Runs(evicted, actions, t);
      if !HoldsOlder(s, key, n) { RunsCacheNothingOlder(evicted, actions, t, key, n); }
    }
    if HoldsOlder(s, key, n) {
      var r :| r in s.readers && s.readers[r].Holding? && s.readers[r].key == key && s.readers[r].version < n;
      FillNow(evicted, r);
      FillServes(evicted, r);
      var filled := Apply(evicted, Fill(r));
      assert CachesOlder(filled, key, n);
    }
  }

  // ----- When linked users have no unstamped shots -----

  ghost predicate AllStamped(shots: seq<Shot>, user: User) {
    forall shot | shot in shots && UserOf(shot) == user :: shot.canonicalUserId.Some?
  }

  /** The user has been mapped to some non-empty canonical id ever since that version. */
  ghost predicate MappedSince(audit: seq<AuditEntry>, user: User, version: nat) {
    forall m | version <= m <= |audit| :: MappedAt(audit, user, m)
  }

  predicate MappedAt(audit: seq<AuditEntry>, user: User, m: nat)
    requires m <= |audit|
  {
    user in Fold(audit[..m]) && Fold(audit[..m])[user] != ""
  }

  lemma BackfillStampsAll(s: State, w: nat)
    requires Enabled(s, Backfill(w))
    ensures AllStamped(Apply(s, Backfill(w)).shots, s.writers[w].user)
  {
    var later := Apply(s, Backfill(w)).shots;
    forall shot | shot in later && UserOf(shot) == s.writers[w].user ensures shot.canonicalUserId.Some? {
      var i :| 0 <= i < |later| && later[i] == shot;
    }
  }

  lemma StepStampsAll(s: State, a: Action, user: User, version: nat)
    requires Enabled(s, a)
    requires Inv(s) && UpToDate(s, ForUser(user), version) && MappedSince(s.audit, user, version)
    requires AllStamped(s.shots, user)
    ensures AllStamped(Apply(s, a).shots, user)
  {
    hide Fold, CacheIsHistorical, BackfillsAreLinked, StampsAreJustified, Stored;
    if a.Store? && UserOf(a.shot) == user {
      var reader := s.readers[a.r];
      assert MappedAt(s.audit, user, reader.version);
      assert reader.value == Text(Fold(s.audit[..reader.version])[user]);
    } else if a.Backfill? {
      var later := Apply(s, a).shots;
      forall shot | shot in later && UserOf(shot) == user ensures shot.canonicalUserId.Some? {
        var i :| 0 <= i < |later| && later[i] == shot;
        assert s.shots[i] in s.shots;
      }
    }
  }

  lemma MappedEarlier(audit: seq<AuditEntry>, later: seq<AuditEntry>, user: User, version: nat)
    requires audit <= later && MappedSince(later, user, version)
    ensures MappedSince(audit, user, version)
  {
    hide Fold;
    forall m | version <= m <= |audit| ensures MappedAt(audit, user, m) {
      assert MappedAt(later, user, m) && later[..m] == audit[..m];
    }
  }

  /** After a link's backfill, and with no older answer in flight, every shot of the user is stamped on
      arrival for as long as the user stays mapped. */
  lemma {:induction false} LinkedUsersStayStamped(s: State, actions: seq<Action>, t: State, user: User, version: nat)
    requires Inv(s) && Runs(s, actions, t)
    requires AllStamped(s.shots, user) && UpToDate(s, ForUser(user), version) && version <= |s.audit|
    requires MappedSince(t.audit, user, version)
    ensures AllStamped(t.shots, user)
    decreases actions
  {
    hide Inv, Enabled, Apply, UpToDate, AllStamped, MappedSince;
    if actions != [] {
      StampsAreWrittenOnce(s, actions, t);
      MappedEarlier(s.audit, t.audit, user, version);
      StepStampsAll(s, actions[0], user, version);
      StepStaysUpToDate(s, actions[0], ForUser(user), version);
      StepWritesOnce(s, actions[0]);
      StepKeeps(s, actions[0]);
      LinkedUsersStayStamped(Apply(s, actions[0]), actions[1..], t, user, version);
    }
  }

  // ----- Exactly when a later shot of a linked user stays unstamped -----

  /** Some call would answer that the user has no mapping: a reader that holds the empty answer, or the cache. */
  predicate MayAnswerNothing(s: State, user: User) {
    || (exists r :: r in s.readers && Reads(s.readers[r]) && s.readers[r].key == ForUser(user) && s.readers[r].value == Text(""))
    || (Live(s, ForUser(user)) && s.cache[ForUser(user)].value == Text(""))
  }

  lemma StepNeverAnswersNothing(s: State, a: Action, user: User)
    requires Enabled(s, a)
    requires !MayAnswerNothing(s, user) && user in s.table && s.table[user] != ""
    ensures !MayAnswerNothing(Apply(s, a), user)
  {
    hide Stored, Lookup, UserOf;
  }

  lemma StampedUnlessNothing(s: State, a: Action, user: User)
    requires Enabled(s, a)
    requires Inv(s) && !MayAnswerNothing(s, user) && AllStamped(s.shots, user)
    ensures AllStamped(Apply(s, a).shots, user)
  {
    hide Fold, CacheIsHistorical, BackfillsAreLinked, StampsAreJustified, Stored;
    if a.Store? && UserOf(a.shot) == user {
      assert s.readers[a.r].value.Text?;
    } else if a.Backfill? {
      var later := Apply(s, a).shots;
      forall shot | shot in later && UserOf(shot) == user ensures shot.canonicalUserId.Some? {
        var i :| 0 <= i < |later| && later[i] == shot;
        assert s.shots[i] in s.shots;
      }
    }
  }

  lemma MappedNow(s: State, later: seq<AuditEntry>, user: User)
    requires s.table == Fold(s.audit) && s.audit <= later && MappedSince(later, user, |s.audit|)
    ensures user in s.table && s.table[user] != ""
  {
    hide Fold;
    assert MappedAt(later, user, |s.audit|) && later[..|s.audit|] == s.audit;
  }

  lemma MappedLater(audit: seq<AuditEntry>, user: User, version: nat, later: nat)
    requires MappedSince(audit, user, version) && version <= later
    ensures MappedSince(audit, user, later)
  {
    hide Fold;
  }

  lemma {:induction false} RunsStampAll(s: State, actions: seq<Action>, t: State, user: User)
    requires Inv(s) && Runs(s, actions, t)
    requires !MayAnswerNothing(s, user) && AllStamped(s.shots, user) && MappedSince(t.audit, user, |s.audit|)
    ensures AllStamped(t.shots, user)
    decreases actions
  {
    hide CacheIsHistorical, ReadersAreHistorical, BackfillsAreLinked, StampsAreJustified;
    hide Enabled, Apply, AllStamped, MappedSince, MayAnswerNothing;
    if actions != [] {
      var next := Apply(s, actions[0]);
      StampsAreWrittenOnce(s, actions, t);
      MappedNow(s, t.audit, user);
      StepNeverAnswersNothing(s, actions[0], user);
      StampedUnlessNothing(s, actions[0], user);
      StepWritesOnce(s, actions[0]);
      StepKeeps(s, actions[0]);
      MappedLater(t.audit, user, |s.audit|, |next.audit|);
      RunsStampAll(next, actions[1..], t, user);
    }
  }

  function NewKey(shots: seq<Shot>): (key: string)
    ensures forall shot | shot in shots :: |shot.key| < |key|
  {
    if shots == [] then "k"
    else
      var rest := NewKey(shots[1..]);
      assert shots == [shots[0]] + shots[1..];
      if |shots[0].key| < |rest| then rest else shots[0].key + "k"
  }

  /** A shot of the user that is not stored yet. */
  function NewShot(shots: seq<Shot>, user: User): (shot: Shot)
    ensures UserOf(shot) == user && shot.canonicalUserId.None? && !Stored(shots, shot)
  {
    Shot(0, user.vendor, NewKey(shots), user.vendorUserId, None, 0, "7I", 0.0, 0.0, 0.0, 0.0, None, "", None)
  }

  ghost predicate CanMissAStamp(s: State, user: User) {
    exists t :: CanReach(s, t) && MissesAStamp(t, user, |s.audit|)
  }

  /** The user has been mapped all along, and yet a stored shot of the user is unstamped. */
  ghost predicate MissesAStamp(s: State, user: User, version: nat) {
    MappedSince(s.audit, user, version) && !AllStamped(s.shots, user)
  }

  lemma OneStepBefore(s: State, a: Action, t: State)
    requires Enabled(s, a) && CanReach(Apply(s, a), t)
    ensures CanReach(s, t)
  {
    hide Enabled, Apply;
    var actions :| Runs(Apply(s, a), actions, t);
    assert ([a] + actions)[1..] == actions;
    assert Runs(s, [a] + actions, t);
  }

  lemma ServedNothingMissesAStamp(s: State, r: nat, user: User)
    requires r in s.readers && s.readers[r].Served? && s.readers[r].key == ForUser(user) && s.readers[r].value == Text("")
    requires MappedAt(s.audit, user, |s.audit|)
    ensures CanMissAStamp(s, user)
  {
    hide Fold;
    var shot := NewShot(s.shots, user);
    var t := Apply(s, Store(r, shot));
    assert shot in t.shots by { assert t.shots[|s.shots|] == shot; }
    assert MissesAStamp(t, user, |s.audit|);
    StayHere(t);
    OneStepBefore(s, Store(r, shot), t);
  }

  lemma EarlierStep(s: State, a: Action, user: User)
    requires Enabled(s, a) && Apply(s, a).audit == s.audit && CanMissAStamp(Apply(s, a), user)
    ensures CanMissAStamp(s, user)
  {
    hide Enabled, Apply, MissesAStamp, CanReach;
    var t :| CanReach(Apply(s, a), t) && MissesAStamp(t, user, |s.audit|);
    OneStepBefore(s, a, t);
  }

  lemma {:induction false} NewNumber(numbers: set<nat>) returns (n: nat)
    ensures forall m | m in numbers :: m < n
  {
    if numbers == {} { return 0; }
    var m :| m in numbers;
    n := NewNumber(numbers - {m});
    if n <= m { n := m + 1; }
    assert forall k | k in numbers :: k == m || k in numbers - {m};
  }

  lemma NothingServedMissesAStamp(s: State, user: User)
    requires MayAnswerNothing(s, user) && MappedAt(s.audit, user, |s.audit|)
    ensures CanMissAStamp(s, user)
  {
    hide CanMissAStamp, MappedAt, Runs;
    var key := ForUser(user);
    if r :| r in s.readers && Reads(s.readers[r]) && s.readers[r].key == key && s.readers[r].value == Text("") {
      if s.readers[r].Served? {
        ServedNothingMissesAStamp(s, r, user);
      } else {
        FillServes(s, r);
        ServedNothingMissesAStamp(Apply(s, Fill(r)), r, user);
        EarlierStep(s, Fill(r), user);
      }
    } else {
      var r := NewNumber(s.readers.Keys);
      assert r !in s.readers.Keys;
      var s1 := Apply(s, Ask(r, key));
      assert Enabled(s1, Hit(r));
      ServedNothingMissesAStamp(Apply(s1, Hit(r)), r, user);
      EarlierStep(s1, Hit(r), user);
      EarlierStep(s, Ask(r, key), user);
    }
  }

  /** After the backfill of a link all shots of the user are stamped.  Some later shot stays unstamped although
      the user is mapped all along exactly if, at the backfill, a call or the cache still says that there is
      no mapping. */
  lemma UnstampedShotsComeFromEmptyAnswers(s: State, w: nat)
    requires Enabled(s, Backfill(w))
    requires Reachable(s)
    ensures CanMissAStamp(Apply(s, Backfill(w)), s.writers[w].user)
       <==> MayAnswerNothing(s, s.writers[w].user) && MappedAt(s.audit, s.writers[w].user, |s.audit|)
  {
    var user, filled := s.writers[w].user, Apply(s, Backfill(w));
    assert filled.readers == s.readers && filled.cache == s.cache && filled.audit == s.audit && filled.clock == s.clock;
    BackfillStampsAll(s, w);
    ReachableStatesAreSafe(s);
    StepKeeps(s, Backfill(w));
    assert MayAnswerNothing(filled, user) <==> MayAnswerNothing(s, user);
    hide Inv, Enabled, Apply, Reachable, Runs, AllStamped, MayAnswerNothing, MappedAt;
    if CanMissAStamp(filled, user) {
      var t :| CanReach(filled, t) && MissesAStamp(t, user, |filled.audit|);
      var actions :| Runs(filled, actions, t);
      StampsAreWrittenOnce(filled, actions, t);
      StillMappedBefore(filled.audit, t.audit, user);
      if !MayAnswerNothing(filled, user) { RunsStampAll(filled, actions, t, user); }
    }
    if MayAnswerNothing(s, user) && MappedAt(s.audit, user, |s.audit|) { NothingServedMissesAStamp(filled, user); }
  }

  lemma StillMappedBefore(audit: seq<AuditEntry>, later: seq<AuditEntry>, user: User)
    requires audit <= later && MappedSince(later, user, |audit|)
    ensures MappedAt(audit, user, |audit|)
  {
    hide Fold;
    assert MappedAt(later, user, |audit|) && later[..|audit|] == audit && audit[..|audit|] == audit;
  }

  // ----- The race that the condition excludes -----

  lemma {:induction false} RunsExtend(s: State, actions: seq<Action>, t: State, a: Action)
    requires Runs(s, actions, t) && Enabled(t, a)
    ensures Runs(s, actions + [a], Apply(t, a))
    decreases actions
  {
    hide Enabled, Apply;
    if actions == [] {
      assert Runs(Apply(s, a), [], Apply(s, a));
      assert ([] + [a])[1..] == [];
    } else {
      RunsExtend(Apply(s, actions[0]), actions[1..], t, a);
      assert (actions + [a])[1..] == actions[1..] + [a];
    }
  }

  lemma ReachableSteps(s: State, a: Action)
    requires Reachable(s) && Enabled(s, a)
    ensures Reachable(Apply(s, a))
  {
    hide Runs, Enabled, Apply;
    var actions :| Runs(INIT, actions, s);
    RunsExtend(INIT, actions, s, a);
  }

  /** All calls have returned and the user is mapped, yet a shot stored after the link carries no canonical
      id, and the next resolve will still be told that there is none. */
  ghost predicate LeftBehind(s: State, user: User, canonicalUserId: string, shot: Shot) {
    && s.readers == map[] && s.writers == map[]
    && Lookup(s.table, user) == Some(canonicalUserId)
    && shot in s.shots && UserOf(shot) == user && shot.canonicalUserId.None?
    && Live(s, ForUser(user)) && s.cache[ForUser(user)].value == Text("")
  }

  /** A worker asks before the link and answers after its backfill. */
  lemma ReadsInFlightDefeatTheLink(canonicalUserId: string, shot: Shot)
    requires shot.canonicalUserId.None? && canonicalUserId != ""
    ensures exists s :: Reachable(s) && LeftBehind(s, UserOf(shot), canonicalUserId, shot)
  {
    var user := UserOf(shot);
    var key := ForUser(user);
    assert Runs(INIT, [], INIT);
    hide Reachable, UserOf, LeftBehind;
    ReachableSteps(INIT, Ask(0, key));
    var s1 := Apply(INIT, Ask(0, key));
    ReachableSteps(s1, Miss(0));
    var s2 := Apply(s1, Miss(0));
    ReachableSteps(s2, Query(0));
    var s3 := Apply(s2, Query(0));
    assert s3 == State(map[], [], map[], [], map[0 := Holding(key, Text(""), 0)], map[], 0);
    LinkedMeanwhile(s3, user, canonicalUserId, shot);
  }

  lemma LinkedMeanwhile(s: State, user: User, canonicalUserId: string, shot: Shot)
    requires Reachable(s) && shot.canonicalUserId.None? && canonicalUserId != "" && user == UserOf(shot)
    requires s == State(map[], [], map[], [], map[0 := Holding(ForUser(user), Text(""), 0)], map[], 0)
    ensures exists t :: Reachable(t) && LeftBehind(t, user, canonicalUserId, shot)
  {
    hide Reachable, UserOf, LeftBehind;
    ReachableSteps(s, Link(0, user, canonicalUserId));
    var s1 := Apply(s, Link(0, user, canonicalUserId));
    ReachableSteps(s1, Evict(0));
    var s2 := Apply(s1, Evict(0));
    ReachableSteps(s2, Backfill(0));
    var s3 := Apply(s2, Backfill(0));
    assert s3.shots == [] && s3.writers == map[] && s3.table == map[user := canonicalUserId] && s3.readers == s.readers;
    LateAnswer(s3, user, canonicalUserId, shot);
  }

  lemma LateAnswer(s: State, user: User, canonicalUserId: string, shot: Shot)
    requires Reachable(s) && shot.canonicalUserId.None? && user == UserOf(shot)
    requires s.shots == [] && s.writers == map[] && s.table == map[user := canonicalUserId]
    requires s.readers == map[0 := Holding(ForUser(user), Text(""), 0)]
    ensures exists t :: Reachable(t) && LeftBehind(t, user, canonicalUserId, shot)
  {
    hide Reachable;
    ReachableSteps(s, Fill(0));
    var t := Apply(s, Fill(0));
    ReachableSteps(t, Store(0, shot));
    var u := Apply(t, Store(0, shot));
    assert u.shots == [shot] && u.readers == map[];
    assert LeftBehind(u, user, canonicalUserId, shot);
  }
}
