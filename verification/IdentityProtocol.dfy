/** The identity service as a transition system (src/identity/identity.service.ts, src/shared/audit/audit-log.service.ts).

    Each transaction, each Redis command and each statement outside a transaction is one step, and the
    steps of any number of calls and workers interleave freely.  The two caches share their logic, so a
    reader is either a resolve or a list call; a worker is a resolve call followed by its insert. */
module IdentityProtocol {
  import opened Domain
  import opened ShotRepository
  import opened ShotProcessor

  // ----- The mapping and its audit log -----

  datatype User = User(vendor: Vendor, vendorUserId: string)

  datatype AuditEntry =
    | Linked(user: User, canonicalUserId: string)
    | Unlinked(user: User, canonicalUserId: string)
    | Listed(canonicalUserId: string)

  type Mapping = map<User, string>

  /** The mapping that the audit log describes: a link sets, an unlink removes, a list does nothing. */
  function Fold(audit: seq<AuditEntry>): Mapping {
    if audit == [] then map[]
    else
      var before := Fold(audit[..|audit| - 1]);
      match audit[|audit| - 1]
      case Linked(user, canonicalUserId) => before[user := canonicalUserId]
      case Unlinked(user, _) => before - {user}
      case Listed(_) => before
  }

  function Lookup(table: Mapping, user: User): Option<string> {
    if user in table then Some(table[user]) else None
  }

  // ----- The caches -----

  datatype CacheKey = ForUser(user: User) | ForList(canonicalUserId: string)

  /** What Redis holds: the canonical id, "" for none, or the printed list of identities. */
  datatype Cached = Text(text: string) | Users(users: set<User>)

  datatype Entry = Entry(value: Cached, version: nat, filledAt: int)

  function UsersOf(table: Mapping, canonicalUserId: string): set<User> {
    set user | user in table && table[user] == canonicalUserId
  }

  /** The value that a query of the table would put into the cache. */
  function Answer(table: Mapping, key: CacheKey): Cached {
    match key
    case ForUser(user) => Text(if user in table then table[user] else "")
    case ForList(canonicalUserId) => Users(UsersOf(table, canonicalUserId))
  }

  function Ttl(key: CacheKey): int {
    if key.ForUser? then 60_000 else 30_000
  }

  // ----- States -----

  /** A call that reads: version is the length of the audit log when the table was queried. */
  datatype Reader =
    | Asked(key: CacheKey)
    | Missed(key: CacheKey)
    | Holding(key: CacheKey, value: Cached, version: nat)
    | Served(key: CacheKey, value: Cached, version: nat)

  /** A call that has committed its transaction: it evicts two cache entries, and a link then backfills. */
  datatype Writer =
    | Committed(user: User, canonicalUserId: string, links: bool)
    | Evicted(user: User, canonicalUserId: string)

  datatype State = State(
    table: Mapping,
    audit: seq<AuditEntry>,
    cache: map<CacheKey, Entry>,
    shots: seq<Shot>,
    readers: map<nat, Reader>,
    writers: map<nat, Writer>,
    clock: int)

  const INIT := State(map[], [], map[], [], map[], map[], 0)

  predicate Live(s: State, key: CacheKey) {
    key in s.cache && s.clock < s.cache[key].filledAt + Ttl(key)
  }

  function UserOf(shot: Shot): User {
    User(shot.vendor, shot.vendorUserId)
  }

  /** UPDATE shots SET canonical_user_id = c WHERE the shot is the user's AND canonical_user_id IS NULL. */
  function Backfilled(shots: seq<Shot>, user: User, canonicalUserId: string): (filled: seq<Shot>)
    ensures |filled| == |shots|
    ensures forall i | 0 <= i < |shots| ::
              filled[i] == if && shots[i].vendor == user.vendor && shots[i].vendorUserId == user.vendorUserId
                              && shots[i].canonicalUserId.None?
                           then shots[i].(canonicalUserId := Some(canonicalUserId))
                           else shots[i]
  {
    seq(|shots|, i requires 0 <= i < |shots| =>
      if UserOf(shots[i]) == user && shots[i].canonicalUserId.None?
      then shots[i].(canonicalUserId := Some(canonicalUserId))
      else shots[i])
  }

  /** The worker's insert: the shot is stamped with the served id, and dropped if its key is stored. */
  function StoredBy(shots: seq<Shot>, shot: Shot, served: Cached): seq<Shot> {
    if Stored(shots, shot) then shots
    else shots + [Resolved(shot, if served.Text? then Some(served.text) else None)]
  }

  // ----- Steps -----

  datatype Action =
    | Link(w: nat, user: User, canonicalUserId: string)
    | Unlink(w: nat, user: User, canonicalUserId: string)
    | Evict(w: nat)
    | Backfill(w: nat)
    | WriterFails(w: nat)
    | RecordList(canonicalUserId: string)
    | Ask(r: nat, key: CacheKey)
    | Hit(r: nat)
    | Miss(r: nat)
    | Query(r: nat)
    | Fill(r: nat)
    | FillFails(r: nat)
    | Store(r: nat, shot: Shot)
    | ReaderLeaves(r: nat)
    | Tick(ms: nat)

  predicate Enabled(s: State, a: Action) {
    match a
    case Link(w, _, _) => w !in s.writers
    case Unlink(w, _, _) => w !in s.writers
    case Evict(w) => w in s.writers && s.writers[w].Committed?
    case Backfill(w) => w in s.writers && s.writers[w].Evicted?
    case WriterFails(w) => w in s.writers
    case RecordList(_) => true
    case Ask(r, _) => r !in s.readers
    case Hit(r) => r in s.readers && s.readers[r].Asked? && Live(s, s.readers[r].key)
    case Miss(r) => r in s.readers && s.readers[r].Asked? && !Live(s, s.readers[r].key)
    case Query(r) => r in s.readers && s.readers[r].Missed?
    case Fill(r) => r in s.readers && s.readers[r].Holding?
    case FillFails(r) => r in s.readers && s.readers[r].Holding? && s.readers[r].key.ForList?
    case Store(r, shot) =>
      && r in s.readers && s.readers[r].Served? && s.readers[r].key == ForUser(UserOf(shot))
      && shot.canonicalUserId.None?
    case ReaderLeaves(r) => r in s.readers
    case Tick(_) => true
  }

  function ReaderAt(s: State, r: nat, reader: Reader): State {
    s.(readers := s.readers[r := reader])
  }

  function Apply(s: State, a: Action): State
    requires Enabled(s, a)
  {
    match a
    case Link(w, user, canonicalUserId) =>
      s.(table := s.table[user := canonicalUserId],
         audit := s.audit + [Linked(user, canonicalUserId)],
         writers := s.writers[w := Committed(user, canonicalUserId, true)])
    case Unlink(w, user, canonicalUserId) =>
      // When no row is deleted the transaction rolls back and the call fails.
      if Lookup(s.table, user) != Some(canonicalUserId) then s
      else
        s.(table := s.table - {user},
           audit := s.audit + [Unlinked(user, canonicalUserId)],
           writers := s.writers[w := Committed(user, canonicalUserId, false)])
    case Evict(w) =>
      var Committed(user, canonicalUserId, links) := s.writers[w];
      s.(cache := s.cache - {ForUser(user), ForList(canonicalUserId)},
         writers := if links then s.writers[w := Evicted(user, canonicalUserId)] else s.writers - {w})
    case Backfill(w) =>
      s.(shots := Backfilled(s.shots, s.writers[w].user, s.writers[w].canonicalUserId), writers := s.writers - {w})
    case WriterFails(w) => s.(writers := s.writers - {w})
    case RecordList(canonicalUserId) => s.(audit := s.audit + [Listed(canonicalUserId)])
    case Ask(r, key) => ReaderAt(s, r, Asked(key))
    case Hit(r) =>
      var key := s.readers[r].key;
      ReaderAt(s, r, Served(key, s.cache[key].value, s.cache[key].version))
    case Miss(r) => ReaderAt(s, r, Missed(s.readers[r].key))
    case Query(r) =>
      var key := s.readers[r].key;
      ReaderAt(s, r, Holding(key, Answer(s.table, key), |s.audit|))
    case Fill(r) =>
      var Holding(key, value, version) := s.readers[r];
      ReaderAt(s, r, Served(key, value, version)).(cache := s.cache[key := Entry(value, version, s.clock)])
    case FillFails(r) =>
      var Holding(key, value, version) := s.readers[r];
      ReaderAt(s, r, Served(key, value, version))
    case Store(r, shot) =>
      s.(shots := StoredBy(s.shots, shot, s.readers[r].value), readers := s.readers - {r})
    case ReaderLeaves(r) => s.(readers := s.readers - {r})
    case Tick(ms) => s.(clock := s.clock + ms)
  }

  ghost predicate Runs(s: State, actions: seq<Action>, t: State)
    decreases actions
  {
    if actions == [] then s == t
    else Enabled(s, actions[0]) && Runs(Apply(s, actions[0]), actions[1..], t)
  }

  ghost predicate Reachable(s: State) {
    exists actions :: Runs(INIT, actions, s)
  }
}
