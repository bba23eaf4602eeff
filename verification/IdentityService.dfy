/** The identity service with its mapping table, audit log and Redis caches (src/identity/identity.service.ts).

    Calls run one at a time here; IdentityProtocol lets their steps interleave. */
module IdentityService {
  import opened Domain
  import opened IdentityProtocol

  // ----- Cache keys -----

  function VendorName(vendor: Vendor): string {
    match vendor
    case TrackPro => "trackpro"
    case SwingMetric => "swingmetric"
    case ProSwing => "proswing"
  }

  function ParseVendor(name: string): (vendor: Option<Vendor>)
    ensures vendor.Some? ==> VendorName(vendor.value) == name
    ensures vendor.None? ==> forall v :: VendorName(v) != name
  {
    if name == "trackpro" then Some(TrackPro)
    else if name == "swingmetric" then Some(SwingMetric)
    else if name == "proswing" then Some(ProSwing)
    else None
  }

  function ResolveKey(user: User): string {
    "identity:" + VendorName(user.vendor) + ":" + user.vendorUserId
  }

  function ListKey(canonicalUserId: string): string {
    "identity-list:" + canonicalUserId
  }

  lemma ResolveKeysAreInjective(x: User, y: User)
    requires ResolveKey(x) == ResolveKey(y)
    ensures x == y
  {
    var key := ResolveKey(x);
    assert key[9] == VendorName(x.vendor)[0] == VendorName(y.vendor)[0];
    assert x.vendor == y.vendor;
    var n := 10 + |VendorName(x.vendor)|;
    assert key[n..] == x.vendorUserId && ResolveKey(y)[n..] == y.vendorUserId;
  }

  lemma KeysAreDisjoint(user: User, canonicalUserId: string)
    ensures ResolveKey(user) != ListKey(canonicalUserId)
  {
    assert ResolveKey(user)[8] == ':' && ListKey(canonicalUserId)[8] == '-';
  }

  lemma ListKeysAreInjective(x: string, y: string)
    requires ListKey(x) == ListKey(y)
    ensures x == y
  {
    assert ListKey(x)[14..] == x && ListKey(y)[14..] == y;
  }

  /** No two cached values share a key, whatever characters the ids contain. */
  lemma KeysDoNotCollide()
    ensures forall x, y | ResolveKey(x) == ResolveKey(y) :: x == y
    ensures forall x, y | ListKey(x) == ListKey(y) :: x == y
    ensures forall x, y :: ResolveKey(x) != ListKey(y)
  {
    forall x, y | ResolveKey(x) == ResolveKey(y) ensures x == y { ResolveKeysAreInjective(x, y); }
    forall x, y | ListKey(x) == ListKey(y) ensures x == y { ListKeysAreInjective(x, y); }
    forall x, y ensures ResolveKey(x) != ListKey(y) { KeysAreDisjoint(x, y); }
  }

  // ----- Tables -----

  datatype Identity = Identity(id: nat, user: User, canonicalUserId: string, createdAt: int, updatedAt: int)

  type Rows = map<User, Identity>

  /** What a Redis key holds: a text, or the printed rows of a list. */
  datatype Stored = TextOf(text: string) | RowsOf(rows: seq<Identity>)

  datatype Slot = Slot(stored: Stored, expiresAt: int)

  datatype Error = IdentityNotFound(user: User, canonicalUserId: string)

  function Mapped(rows: Rows): Mapping {
    map user | user in rows :: rows[user].canonicalUserId
  }

  /** An answer to SELECT * WHERE canonical_user_id = c ORDER BY created_at. */
  ghost predicate Listing(rows: Rows, canonicalUserId: string, answer: seq<Identity>) {
    && (forall i, j | 0 <= i < j < |answer| ::
          answer[i].user != answer[j].user && answer[i].createdAt <= answer[j].createdAt)
    && (forall row | row in answer :: IsMapped(rows, canonicalUserId, row))
    && (forall user | user in rows && rows[user].canonicalUserId == canonicalUserId :: rows[user] in answer)
  }

  predicate IsMapped(rows: Rows, canonicalUserId: string, row: Identity) {
    row.user in rows && rows[row.user] == row && row.canonicalUserId == canonicalUserId
  }

  /** Some listed identity is no longer mapped to the canonical id. */
  ghost predicate Outdated(rows: Rows, canonicalUserId: string, answer: seq<Identity>) {
    exists row | row in answer :: !(row.user in rows && rows[row.user].canonicalUserId == canonicalUserId)
  }

  lemma OutdatedIsNoListing(rows: Rows, canonicalUserId: string, answer: seq<Identity>)
    requires Outdated(rows, canonicalUserId, answer)
    ensures !Listing(rows, canonicalUserId, answer)
  {
    var row :| row in answer && !(row.user in rows && rows[row.user].canonicalUserId == canonicalUserId);
    assert !IsMapped(rows, canonicalUserId, row);
  }

  ghost predicate ResolvesAgree(rows: Rows, redis: map<string, Slot>) {
    forall user: User | ResolveKey(user) in redis ::
      redis[ResolveKey(user)].stored == TextOf(if user in rows then rows[user].canonicalUserId else "")
  }

  /** A cached list answers the query of now, unless a re-link has moved an identity away since it was cached. */
  ghost predicate ListsAgree(rows: Rows, redis: map<string, Slot>, moved: set<string>) {
    forall c: string | ListKey(c) in redis ::
      && redis[ListKey(c)].stored.RowsOf?
      && if c in moved then Outdated(rows, c, redis[ListKey(c)].stored.rows)
         else Listing(rows, c, redis[ListKey(c)].stored.rows)
  }

  /** The table is what the audit log says, and the caches are what the table says. */
  ghost predicate Consistent(rows: Rows, audit: seq<AuditEntry>, redis: map<string, Slot>, moved: set<string>) {
    && (forall user | user in rows :: rows[user].user == user)
    && Mapped(rows) == Fold(audit)
    && ResolvesAgree(rows, redis)
    && ListsAgree(rows, redis, moved)
  }

  /** A cached value lives for a fixed time after the database answered. */
  ghost predicate LifetimesAreFixed(redis: map<string, Slot>, resolvedAt: map<User, int>, listedAt: map<string, int>) {
    && (forall user: User | ResolveKey(user) in redis ::
          user in resolvedAt && redis[ResolveKey(user)].expiresAt == resolvedAt[user] + 60_000)
    && (forall c: string | ListKey(c) in redis ::
          c in listedAt && redis[ListKey(c)].expiresAt == listedAt[c] + 30_000)
  }

  // ----- How the mutations affect the cached lists -----

  lemma LinkSparesOtherLists(rows: Rows, user: User, row: Identity, c: string, answer: seq<Identity>)
    requires row.user == user && c != row.canonicalUserId && (user in rows ==> rows[user].canonicalUserId != c)
    ensures Listing(rows, c, answer) ==> Listing(rows[user := row], c, answer)
    ensures Outdated(rows, c, answer) ==> Outdated(rows[user := row], c, answer)
  {
    var later := rows[user := row];
    if Listing(rows, c, answer) {
      forall r | r in answer ensures IsMapped(later, c, r) { assert IsMapped(rows, c, r); }
    }
  }

  lemma LinkOutdatesTheFormerList(rows: Rows, user: User, row: Identity, c: string, answer: seq<Identity>)
    requires row.user == user && user in rows && rows[user].user == user
    requires rows[user].canonicalUserId == c && c != row.canonicalUserId
    requires Listing(rows, c, answer) || Outdated(rows, c, answer)
    ensures Outdated(rows[user := row], c, answer)
  {
    var later := rows[user := row];
    if Listing(rows, c, answer) {
      assert rows[user] in answer && later[user].canonicalUserId != c;
    } else {
      var r :| r in answer && !(r.user in rows && rows[r.user].canonicalUserId == c);
      assert !(r.user in later && later[r.user].canonicalUserId == c);
    }
  }

  lemma UnlinkSparesOtherLists(rows: Rows, user: User, c: string, answer: seq<Identity>)
    requires user in rows && rows[user].canonicalUserId != c
    ensures Listing(rows, c, answer) ==> Listing(rows - {user}, c, answer)
    ensures Outdated(rows, c, answer) ==> Outdated(rows - {user}, c, answer)
  {
    var later := rows - {user};
    if Listing(rows, c, answer) {
      forall r | r in answer ensures IsMapped(later, c, r) { assert IsMapped(rows, c, r); }
    }
    if Outdated(rows, c, answer) {
      var r :| r in answer && !(r.user in rows && rows[r.user].canonicalUserId == c);
      assert !(r.user in later && later[r.user].canonicalUserId == c);
    }
  }

  lemma LinkKeepsLists(rows: Rows, redis: map<string, Slot>, moved: set<string>, user: User, row: Identity)
    requires ListsAgree(rows, redis, moved) && row.user == user && (user in rows ==> rows[user].user == user)
    ensures ListsAgree(rows[user := row], redis - {ResolveKey(user), ListKey(row.canonicalUserId)},
                       MovedBy(rows, moved, user, row.canonicalUserId))
  {
    KeysDoNotCollide();
    hide Listing, Outdated, ResolveKey, ListKey;
    var later := redis - {ResolveKey(user), ListKey(row.canonicalUserId)};
    forall c: string | ListKey(c) in later
      ensures redis[ListKey(c)].stored.RowsOf?
      ensures var answer := redis[ListKey(c)].stored.rows;
              if c in MovedBy(rows, moved, user, row.canonicalUserId)
              then Outdated(rows[user := row], c, answer) else Listing(rows[user := row], c, answer)
    {
      var answer := redis[ListKey(c)].stored.rows;
      if user in rows && rows[user].canonicalUserId == c {
        LinkOutdatesTheFormerList(rows, user, row, c, answer);
      } else {
        LinkSparesOtherLists(rows, user, row, c, answer);
      }
    }
  }

  /** A re-link evicts the list of the new owner only. */
  function MovedBy(rows: Rows, moved: set<string>, user: User, canonicalUserId: string): set<string> {
    moved - {canonicalUserId}
    + if user in rows && rows[user].canonicalUserId != canonicalUserId then {rows[user].canonicalUserId} else {}
  }

  lemma UnlinkKeepsLists(rows: Rows, redis: map<string, Slot>, moved: set<string>, user: User)
    requires ListsAgree(rows, redis, moved) && user in rows
    ensures ListsAgree(rows - {user}, redis - {ResolveKey(user), ListKey(rows[user].canonicalUserId)}, moved)
  {
    KeysDoNotCollide();
    hide Listing, Outdated, ResolveKey, ListKey;
    var later := redis - {ResolveKey(user), ListKey(rows[user].canonicalUserId)};
    forall c: string | ListKey(c) in later
      ensures redis[ListKey(c)].stored.RowsOf?
      ensures var answer := redis[ListKey(c)].stored.rows;
              if c in moved then Outdated(rows - {user}, c, answer) else Listing(rows - {user}, c, answer)
    {
      UnlinkSparesOtherLists(rows, user, c, redis[ListKey(c)].stored.rows);
    }
  }

  lemma EvictedResolvesAgree(rows: Rows, redis: map<string, Slot>, user: User, later: Rows, c: string)
    requires ResolvesAgree(rows, redis)
    requires forall u | u != user :: (u in later <==> u in rows) && (u in rows ==> later[u] == rows[u])
    ensures ResolvesAgree(later, redis - {ResolveKey(user), ListKey(c)})
  {
    hide ResolveKey, ListKey;
  }

  lemma MappedFollows(rows: Rows, user: User, row: Identity)
    ensures Mapped(rows[user := row]) == Mapped(rows)[user := row.canonicalUserId]
    ensures Mapped(rows - {user}) == Mapped(rows) - {user}
  {
  }

  lemma FoldExtends(audit: seq<AuditEntry>, entry: AuditEntry)
    ensures entry.Linked? ==> Fold(audit + [entry]) == Fold(audit)[entry.user := entry.canonicalUserId]
    ensures entry.Unlinked? ==> Fold(audit + [entry]) == Fold(audit) - {entry.user}
    ensures entry.Listed? ==> Fold(audit + [entry]) == Fold(audit)
  {
    assert (audit + [entry])[..|audit|] == audit;
  }

  lemma LinkKeepsConsistent(rows: Rows, audit: seq<AuditEntry>, redis: map<string, Slot>, moved: set<string>,
                            user: User, row: Identity)
    requires Consistent(rows, audit, redis, moved) && row.user == user
    ensures Consistent(rows[user := row], audit + [Linked(user, row.canonicalUserId)],
                       redis - {ResolveKey(user), ListKey(row.canonicalUserId)},
                       MovedBy(rows, moved, user, row.canonicalUserId))
  {
    hide ResolveKey, ListKey, Fold, ListsAgree, ResolvesAgree, Mapped, MovedBy;
    FoldExtends(audit, Linked(user, row.canonicalUserId));
    MappedFollows(rows, user, row);
    LinkKeepsLists(rows, redis, moved, user, row);
    EvictedResolvesAgree(rows, redis, user, rows[user := row], row.canonicalUserId);
  }

  lemma UnlinkKeepsConsistent(rows: Rows, audit: seq<AuditEntry>, redis: map<string, Slot>, moved: set<string>, user: User)
    requires Consistent(rows, audit, redis, moved) && user in rows
    ensures Consistent(rows - {user}, audit + [Unlinked(user, rows[user].canonicalUserId)],
                       redis - {ResolveKey(user), ListKey(rows[user].canonicalUserId)}, moved)
  {
    hide ResolveKey, ListKey, Fold, ListsAgree, ResolvesAgree, Mapped;
    FoldExtends(audit, Unlinked(user, rows[user].canonicalUserId));
    MappedFollows(rows, user, rows[user]);
    UnlinkKeepsLists(rows, redis, moved, user);
    EvictedResolvesAgree(rows, redis, user, rows - {user}, rows[user].canonicalUserId);
  }

  lemma EvictionKeepsLifetimes(redis: map<string, Slot>, resolvedAt: map<User, int>, listedAt: map<string, int>, keys: set<string>)
    requires LifetimesAreFixed(redis, resolvedAt, listedAt)
    ensures LifetimesAreFixed(redis - keys, resolvedAt, listedAt)
  {
    hide ResolveKey, ListKey;
  }

  lemma OtherKeys(redis: map<string, Slot>, key: string, slot: Slot)
    ensures forall k :: k in redis[key := slot] <==> k in redis || k == key
    ensures forall k | k in redis && k != key :: redis[key := slot][k] == redis[k]
  {
  }

  lemma ResolveFillKeepsConsistent(rows: Rows, audit: seq<AuditEntry>, redis: map<string, Slot>, moved: set<string>,
                                   user: User, slot: Slot)
    requires Consistent(rows, audit, redis, moved)
    requires slot.stored == TextOf(if user in rows then rows[user].canonicalUserId else "")
    ensures Consistent(rows, audit, redis[ResolveKey(user) := slot], moved)
  {
    OtherKeys(redis, ResolveKey(user), slot);
    forall u ensures ResolveKey(u) == ResolveKey(user) <==> u == user { KeysDoNotCollide(); }
    forall c ensures ListKey(c) != ResolveKey(user) { KeysDoNotCollide(); }
    hide ResolveKey, ListKey, Fold, Mapped, Listing, Outdated;
  }

  lemma ListFillKeepsConsistent(rows: Rows, audit: seq<AuditEntry>, redis: map<string, Slot>, moved: set<string>,
                                c: string, slot: Slot)
    requires Consistent(rows, audit, redis, moved)
    requires slot.stored.RowsOf? && Listing(rows, c, slot.stored.rows)
    ensures Consistent(rows, audit, redis[ListKey(c) := slot], moved - {c})
  {
    OtherKeys(redis, ListKey(c), slot);
    forall d ensures ListKey(d) == ListKey(c) <==> d == c { KeysDoNotCollide(); }
    forall u ensures ResolveKey(u) != ListKey(c) { KeysDoNotCollide(); }
    hide ResolveKey, ListKey, Fold, Mapped, Listing, Outdated;
  }

  lemma ResolveFillKeepsLifetimes(redis: map<string, Slot>, resolvedAt: map<User, int>, listedAt: map<string, int>,
                                  user: User, slot: Slot, now: int)
    requires LifetimesAreFixed(redis, resolvedAt, listedAt) && slot.expiresAt == now + 60_000
    ensures LifetimesAreFixed(redis[ResolveKey(user) := slot], resolvedAt[user := now], listedAt)
  {
    hide ResolveKey, ListKey;
    var later := redis[ResolveKey(user) := slot];
    forall c | ListKey(c) in later ensures c in listedAt && later[ListKey(c)].expiresAt == listedAt[c] + 30_000 {
      KeysAreDisjoint(user, c);
    }
    forall u | u != user && ResolveKey(u) in later
      ensures u in resolvedAt && later[ResolveKey(u)].expiresAt == resolvedAt[u] + 60_000
    {
      if ResolveKey(u) == ResolveKey(user) { ResolveKeysAreInjective(u, user); }
    }
  }

  lemma ListFillKeepsLifetimes(redis: map<string, Slot>, resolvedAt: map<User, int>, listedAt: map<string, int>,
                               c: string, slot: Slot, now: int)
    requires LifetimesAreFixed(redis, resolvedAt, listedAt) && slot.expiresAt == now + 30_000
    ensures LifetimesAreFixed(redis[ListKey(c) := slot], resolvedAt, listedAt[c := now])
  {
    KeysDoNotCollide();
    hide ResolveKey, ListKey;
    var later := redis[ListKey(c) := slot];
    forall u | ResolveKey(u) in later ensures u in resolvedAt && later[ResolveKey(u)].expiresAt == resolvedAt[u] + 60_000 {
    }
  }

  lemma ResolveHit(rows: Rows, audit: seq<AuditEntry>, redis: map<string, Slot>, moved: set<string>,
                   resolvedAt: map<User, int>, listedAt: map<string, int>, user: User)
    requires Consistent(rows, audit, redis, moved) && LifetimesAreFixed(redis, resolvedAt, listedAt)
    requires ResolveKey(user) in redis
    ensures redis[ResolveKey(user)].stored == TextOf(if user in rows then rows[user].canonicalUserId else "")
    ensures user in resolvedAt && redis[ResolveKey(user)].expiresAt == resolvedAt[user] + 60_000
  {
    hide ResolveKey, ListKey, Fold, Mapped, Listing, Outdated;
  }

  lemma ListHit(rows: Rows, audit: seq<AuditEntry>, redis: map<string, Slot>, moved: set<string>,
                resolvedAt: map<User, int>, listedAt: map<string, int>, c: string)
    requires Consistent(rows, audit, redis, moved) && LifetimesAreFixed(redis, resolvedAt, listedAt)
    requires ListKey(c) in redis
    ensures redis[ListKey(c)].stored.RowsOf? && (Listing(rows, c, redis[ListKey(c)].stored.rows) <==> c !in moved)
    ensures c in listedAt && redis[ListKey(c)].expiresAt == listedAt[c] + 30_000
  {
    hide ResolveKey, ListKey, Fold, Mapped, Listing, Outdated;
    if c in moved { OutdatedIsNoListing(rows, c, redis[ListKey(c)].stored.rows); }
  }

  lemma ListedRows(rows: Rows, c: string, answer: seq<Identity>)
    requires Listing(rows, c, answer) && forall user | user in rows :: rows[user].user == user
    ensures forall row :: row in answer <==> row.user in rows && rows[row.user] == row && row.canonicalUserId == c
    ensures forall i, j | 0 <= i < j < |answer| :: answer[i] != answer[j] && answer[i].createdAt <= answer[j].createdAt
  {
    forall row ensures row in answer <==> row.user in rows && rows[row.user] == row && row.canonicalUserId == c {
      if row in answer { assert IsMapped(rows, c, row); }
    }
  }

  // ----- The service -----

  class Service {
    var rows: Rows
    var nextId: nat
    var audit: seq<AuditEntry>
    var redis: map<string, Slot>
    var shots: seq<Shot>
    ghost var moved: set<string>  // canonical ids that a re-link took an identity from since their list was evicted
    ghost var resolvedAt: map<User, int>   // when the database last answered for the user,
    ghost var listedAt: map<string, int>   // and for the list of the canonical id

    ghost predicate Valid()
      reads this
    {
      Consistent(rows, audit, redis, moved) && LifetimesAreFixed(redis, resolvedAt, listedAt)
    }

    predicate Cached(key: string, now: int)
      reads this`redis
    {
      key in redis && now < redis[key].expiresAt
    }

    constructor ()
      ensures Valid() && rows == map[] && audit == [] && redis == map[] && shots == [] && moved == {}
      ensures resolvedAt == map[] && listedAt == map[]
    {
      rows, nextId, audit, redis, shots, moved := map[], 1, [], map[], [], {};
      resolvedAt, listedAt := map[], map[];
    }

    /** With the cache or without it, the answer is the one of the table; only an empty canonical id, which
        the cache cannot tell from a missing one, is lost on a hit. */
    method ResolveCanonicalUserId(vendor: string, vendorUserId: string, now: int) returns (r: Option<string>)
      requires Valid()
      modifies this`redis, this`resolvedAt
      ensures Valid()
      ensures vendor !in {"trackpro", "swingmetric", "proswing"} ==>
                r.None? && redis == old(redis) && resolvedAt == old(resolvedAt)
      ensures vendor in {"trackpro", "swingmetric", "proswing"} ==>
                var user := User(if vendor == "trackpro" then TrackPro
                                 else if vendor == "swingmetric" then SwingMetric else ProSwing, vendorUserId);
                var key := "identity:" + vendor + ":" + vendorUserId;
                var inTable := if user in rows then Some(rows[user].canonicalUserId) else None;
                var hit := key in old(redis) && now < old(redis)[key].expiresAt;
                && r == (if hit && inTable == Some("") then None else inTable)
                && redis == (if hit then old(redis)
                             else old(redis)[key := Slot(TextOf(if inTable.Some? then inTable.value else ""), now + 60_000)])
                && resolvedAt == (if hit then old(resolvedAt) else old(resolvedAt)[user := now])
                && (hit ==> user in old(resolvedAt) && now < old(resolvedAt)[user] + 60_000)
    {
      hide Consistent, LifetimesAreFixed;
      var known := ParseVendor(vendor);
      if known.None? { return None; }
      var user := User(known.value, vendorUserId);
      var cacheKey := ResolveKey(user);
      assert cacheKey == "identity:" + vendor + ":" + vendorUserId;
      hide ResolveKey;
      if Cached(cacheKey, now) {
        ResolveHit(rows, audit, redis, moved, resolvedAt, listedAt, user);
        var cached := redis[cacheKey].stored.text;
        return if cached == "" then None else Some(cached);
      }
      r := if user in rows then Some(rows[user].canonicalUserId) else None;
      var slot := Slot(TextOf(if r.Some? then r.value else ""), now + 60_000);
      ResolveFillKeepsConsistent(rows, audit, redis, moved, user, slot);
      ResolveFillKeepsLifetimes(redis, resolvedAt, listedAt, user, slot, now);
      redis := redis[cacheKey := slot];
      resolvedAt := resolvedAt[user := now];
    }

    /** An upsert and its audit entry in one transaction; then the eviction; then the backfill. */
    method LinkIdentity(user: User, canonicalUserId: string, now: int) returns (row: Identity)
      requires Valid()
      modifies this
      ensures Valid()
      ensures rows == old(rows)[user := row]
      ensures row.user == user && row.canonicalUserId == canonicalUserId && row.updatedAt == now
      ensures user in old(rows) ==> row.id == old(rows)[user].id && row.createdAt == old(rows)[user].createdAt
      ensures user !in old(rows) ==> row.id == old(nextId) && row.createdAt == now
      ensures audit == old(audit) + [Linked(user, canonicalUserId)]
      ensures redis == old(redis) - {ResolveKey(user), ListKey(canonicalUserId)}
      ensures moved == MovedBy(old(rows), old(moved), user, canonicalUserId)
      ensures shots == Backfilled(old(shots), user, canonicalUserId)
      ensures nextId == old(nextId) + 1
      ensures resolvedAt == old(resolvedAt) && listedAt == old(listedAt)
    {
      hide LifetimesAreFixed;
      row := if user in rows then rows[user].(canonicalUserId := canonicalUserId, updatedAt := now)
             else Identity(nextId, user, canonicalUserId, now, now);
      LinkKeepsConsistent(rows, audit, redis, moved, user, row);
      hide Consistent, ResolveKey, ListKey, Backfilled, MovedBy;
      EvictionKeepsLifetimes(redis, resolvedAt, listedAt, {ResolveKey(user), ListKey(canonicalUserId)});
      moved := MovedBy(rows, moved, user, canonicalUserId);
      rows, nextId := rows[user := row], nextId + 1;
      audit := audit + [Linked(user, canonicalUserId)];
      redis := redis - {ResolveKey(user), ListKey(canonicalUserId)};
      shots := Backfilled(shots, user, canonicalUserId);
    }

    /** The answer of a hit is the answer of the table exactly when no re-link has moved an identity away
        from this canonical id since the list was cached.  selected is what the database would answer now. */
    method ListByCanonicalUser(canonicalUserId: string, selected: seq<Identity>, now: int) returns (r: seq<Identity>)
      requires Valid() && Listing(rows, canonicalUserId, selected)
      modifies this`redis, this`audit, this`moved, this`listedAt
      ensures Valid()
      ensures var key := "identity-list:" + canonicalUserId;
              var hit := key in old(redis) && now < old(redis)[key].expiresAt;
              && (Listing(rows, canonicalUserId, r) <==> !(hit && canonicalUserId in old(moved)))
              && (hit ==> && redis == old(redis) && redis[key].stored == RowsOf(r)
                          && moved == old(moved) && listedAt == old(listedAt)
                          && canonicalUserId in old(listedAt) && now < old(listedAt)[canonicalUserId] + 30_000)
              && (!hit ==> && r == selected && redis == old(redis)[key := Slot(RowsOf(selected), now + 30_000)]
                           && moved == old(moved) - {canonicalUserId}
                           && listedAt == old(listedAt)[canonicalUserId := now])
      // Half a minute after the database was asked for the list, the answer is the one of the table.
      ensures canonicalUserId !in old(listedAt) || now >= old(listedAt)[canonicalUserId] + 30_000 ==>
                && (forall row :: row in r <==>
                      row.user in rows && rows[row.user] == row && row.canonicalUserId == canonicalUserId)
                && forall i, j | 0 <= i < j < |r| :: r[i] != r[j] && r[i].createdAt <= r[j].createdAt
      ensures audit == old(audit) + [Listed(canonicalUserId)]
    {
      hide LifetimesAreFixed;
      var listKey := ListKey(canonicalUserId);
      assert listKey == "identity-list:" + canonicalUserId;
      FoldExtends(audit, Listed(canonicalUserId));
      assert Consistent(rows, audit + [Listed(canonicalUserId)], redis, moved);
      assert forall u | u in rows :: rows[u].user == u;
      hide ListKey, Consistent, Listing;
      if Cached(listKey, now) {
        ListHit(rows, audit, redis, moved, resolvedAt, listedAt, canonicalUserId);
        r := redis[listKey].stored.rows;
      } else {
        r := selected;
        ListedRows(rows, canonicalUserId, r);
        var slot := Slot(RowsOf(r), now + 30_000);
        ListFillKeepsConsistent(rows, audit + [Listed(canonicalUserId)], redis, moved, canonicalUserId, slot);
        ListFillKeepsLifetimes(redis, resolvedAt, listedAt, canonicalUserId, slot, now);
        redis := redis[listKey := slot];
        moved := moved - {canonicalUserId};
        listedAt := listedAt[canonicalUserId := now];
      }
      audit := audit + [Listed(canonicalUserId)];
    }

    /** A mapping to another canonical id, or none at all, is left alone: the transaction rolls back. */
    method UnlinkIdentity(user: User, canonicalUserId: string) returns (r: Result<(), Error>)
      requires Valid()
      modifies this`rows, this`audit, this`redis
      ensures Valid()
      ensures r.Ok? <==> user in old(rows) && old(rows)[user].canonicalUserId == canonicalUserId
      ensures r.Err? ==> r.error == IdentityNotFound(user, canonicalUserId)
                         && rows == old(rows) && audit == old(audit) && redis == old(redis)
      ensures r.Ok? ==> && rows == old(rows) - {user}
                        && audit == old(audit) + [Unlinked(user, canonicalUserId)]
                        && redis == old(redis) - {ResolveKey(user), ListKey(canonicalUserId)}
    {
      hide LifetimesAreFixed;
      if user !in rows || rows[user].canonicalUserId != canonicalUserId {
        return Err(IdentityNotFound(user, canonicalUserId));
      }
      UnlinkKeepsConsistent(rows, audit, redis, moved, user);
      hide Consistent, ResolveKey, ListKey;
      EvictionKeepsLifetimes(redis, resolvedAt, listedAt, {ResolveKey(user), ListKey(canonicalUserId)});
      rows := rows - {user};
      audit := audit + [Unlinked(user, canonicalUserId)];
      redis := redis - {ResolveKey(user), ListKey(canonicalUserId)};
      return Ok(());
    }
  }
}
