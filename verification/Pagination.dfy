/** Keyset pagination over the shots table (src/shots/shots.service.ts). */
module Pagination {
  import opened Domain

  // ----- The query the database runs -----

  /** The keyset: rows are listed by captured_at_utc, newest first, and by id among equals. */
  datatype Key = Key(capturedAt: int, id: nat)

  function KeyOf(row: Shot): Key {
    Key(row.capturedAt, row.id)
  }

  predicate Before(a: Key, b: Key) {
    a.capturedAt < b.capturedAt || (a.capturedAt == b.capturedAt && a.id < b.id)
  }

  /** The WHERE clause; None means that the condition is not there. */
  datatype Criteria = Criteria(
    since: int,
    until: int,
    canonicalUserId: Option<string>,
    vendor: Option<Vendor>,
    vendorUserId: Option<string>,
    club: Option<string>,
    onlyOriginals: bool,
    before: Option<Key>)

  predicate Matches(c: Criteria, row: Shot) {
    && c.since <= row.capturedAt <= c.until
    && (c.canonicalUserId.Some? ==> row.canonicalUserId == c.canonicalUserId)
    && (c.vendor.Some? ==> row.vendor == c.vendor.value)
    && (c.vendorUserId.Some? ==> row.vendorUserId == c.vendorUserId.value)
    && (c.club.Some? ==> row.club == c.club.value)
    && (c.onlyOriginals ==> row.duplicateOf.None?)
    && (c.before.Some? ==> Before(KeyOf(row), c.before.value))
  }

  function Where(rows: seq<Shot>, c: Criteria): seq<Shot> {
    if rows == [] then []
    else (if Matches(c, rows[0]) then [rows[0]] else []) + Where(rows[1..], c)
  }

  function Insert(row: Shot, rows: seq<Shot>): seq<Shot> {
    if rows == [] then [row]
    else if Before(KeyOf(rows[0]), KeyOf(row)) then [row] + rows
    else [rows[0]] + Insert(row, rows[1..])
  }

  function OrderedNewestFirst(rows: seq<Shot>): seq<Shot> {
    if rows == [] then [] else Insert(rows[0], OrderedNewestFirst(rows[1..]))
  }

  function Listing(db: seq<Shot>, c: Criteria): seq<Shot> {
    OrderedNewestFirst(Where(db, c))
  }

  function Take(rows: seq<Shot>, n: nat): seq<Shot> {
    if |rows| <= n then rows else rows[..n]
  }

  // ----- One page -----

  datatype Date = Absent | Unparsable | At(ms: int)

  /** The cursor parameter: encodeCursor and decodeCursor are inverse on the keys the service hands out. */
  datatype Cursor = NoCursor | Malformed | Encoded(key: Key)

  datatype Limit = Default | NotANumber | Given(n: int)

  datatype Filter = Filter(canonicalUserId: Option<string>, vendor: Option<Vendor>, vendorUserId: Option<string>)

  datatype Query = Query(
    since: Date,
    until: Date,
    club: Option<string>,
    cursor: Cursor,
    limit: Limit,
    includeNearDuplicates: Option<bool>)

  datatype Error = InvalidDate | UnknownClubCode | InvalidCursor | NegativeLimit

  datatype Page = Page(data: seq<Shot>, nextCursor: Option<Key>, hasMore: bool)

  const DEFAULT_LIMIT := 50
  const MAX_LIMIT := 100
  const DEFAULT_WINDOW_MS := 30 * 86400 * 1000

  function EffectiveLimit(limit: Limit): int {
    match limit
    case Given(n) => if n <= MAX_LIMIT then n else MAX_LIMIT
    case _ => DEFAULT_LIMIT
  }

  /** JavaScript treats the empty string as absent. */
  function Truthy(s: Option<string>): Option<string> {
    if s == Some("") then None else s
  }

  predicate KnownClub(club: Option<string>) {
    Truthy(club).Some? ==> club.value in VALID_CLUB_CODES
  }

  function WindowDate(d: Date, default: int): int
    requires !d.Unparsable?
  {
    if d.At? then d.ms else default
  }

  predicate Acceptable(query: Query) {
    && !query.since.Unparsable?
    && !query.until.Unparsable?
    && KnownClub(query.club)
    && !query.cursor.Malformed?
    && EffectiveLimit(query.limit) >= -1
  }

  function CriteriaOf(filter: Filter, query: Query, now: int): Criteria
    requires Acceptable(query)
  {
    Criteria(
      WindowDate(query.since, now - DEFAULT_WINDOW_MS),
      WindowDate(query.until, now),
      Truthy(filter.canonicalUserId),
      filter.vendor,
      Truthy(filter.vendorUserId),
      Truthy(query.club),
      query.includeNearDuplicates != Some(true),
      if query.cursor.Encoded? then Some(query.cursor.key) else None)
  }

  /** The page that lookahead is meant to produce: the first rows of the listing, and whether it goes on. */
  function PageOf(db: seq<Shot>, c: Criteria, limit: nat): Page
    requires limit >= 1
  {
    var rows := Listing(db, c);
    if |rows| <= limit then Page(rows, None, false)
    else Page(rows[..limit], Some(KeyOf(rows[limit - 1])), true)
  }

  method ExecuteQuery(db: seq<Shot>, filter: Filter, query: Query, now: int) returns (r: Result<Page, Error>)
    ensures r.Ok? <==>
              && !query.since.Unparsable? && !query.until.Unparsable? && !query.cursor.Malformed?
              && (query.club.Some? && query.club.value != "" ==> query.club.value in VALID_CLUB_CODES)
              && (query.limit.Given? ==> query.limit.n >= -1)
    ensures r.Ok? && EffectiveLimit(query.limit) >= 1 ==>
              r.value == PageOf(db, CriteriaOf(filter, query, now), EffectiveLimit(query.limit))
    // The same written out: which rows are on the page, in which order, and how many.
    ensures r.Ok? && (query.limit.Given? ==> query.limit.n >= 1) && UniqueIds(db) ==>
              && (forall row | row in r.value.data :: row in db)
              && (forall row | row in db ::
                    row in r.value.data <==>
                    && (if query.since.At? then query.since.ms else now - 2_592_000_000) <= row.capturedAt
                    && row.capturedAt <= (if query.until.At? then query.until.ms else now)
                    && (filter.canonicalUserId.Some? && filter.canonicalUserId.value != "" ==>
                          row.canonicalUserId == filter.canonicalUserId)
                    && (filter.vendor.Some? ==> row.vendor == filter.vendor.value)
                    && (filter.vendorUserId.Some? && filter.vendorUserId.value != "" ==>
                          row.vendorUserId == filter.vendorUserId.value)
                    && (query.club.Some? && query.club.value != "" ==> row.club == query.club.value)
                    && (query.includeNearDuplicates != Some(true) ==> row.duplicateOf.None?)
                    && (query.cursor.Encoded? ==>
                          || row.capturedAt < query.cursor.key.capturedAt
                          || (row.capturedAt == query.cursor.key.capturedAt && row.id < query.cursor.key.id))
                    && (r.value.hasMore && r.value.data != [] ==>
                          || r.value.data[|r.value.data| - 1].capturedAt < row.capturedAt
                          || (r.value.data[|r.value.data| - 1].capturedAt == row.capturedAt
                              && r.value.data[|r.value.data| - 1].id <= row.id)))
    ensures r.Ok? && (query.limit.Given? ==> query.limit.n >= 1) && UniqueIds(db) ==>
              && (forall i, j | 0 <= i < j < |r.value.data| ::
                    || r.value.data[i].capturedAt > r.value.data[j].capturedAt
                    || (r.value.data[i].capturedAt == r.value.data[j].capturedAt && r.value.data[i].id > r.value.data[j].id))
              && |r.value.data| <= (if !query.limit.Given? then 50 else if query.limit.n <= 100 then query.limit.n else 100)
              && (r.value.hasMore ==>
                    && |r.value.data| == (if !query.limit.Given? then 50 else if query.limit.n <= 100 then query.limit.n else 100)
                    && r.value.nextCursor == Some(Key(r.value.data[|r.value.data| - 1].capturedAt,
                                                      r.value.data[|r.value.data| - 1].id)))
              && (!r.value.hasMore ==> r.value.nextCursor.None?)
    // With a limit of 0 or -1 the page is empty and carries no cursor, whatever the table holds.
    ensures r.Ok? && query.limit.Given? && query.limit.n == 0 ==>
              r.value == Page([], None, Listing(db, CriteriaOf(filter, query, now)) != [])
    ensures r.Ok? && query.limit.Given? && query.limit.n == -1 ==> r.value == Page([], None, true)
    ensures r == Err(InvalidDate) <==> query.since.Unparsable? || query.until.Unparsable?
    ensures r == Err(UnknownClubCode) <==>
              && r != Err(InvalidDate)
              && query.club.Some? && query.club.value != "" && query.club.value !in VALID_CLUB_CODES
    ensures r == Err(InvalidCursor) <==>
              r != Err(InvalidDate) && r != Err(UnknownClubCode) && query.cursor.Malformed?
    ensures r == Err(NegativeLimit) ==> query.limit.Given? && query.limit.n < -1
  {
    hide Listing, PageOf, Matches, CriteriaOf, WindowDate;
    var built := BuildQuery(filter, query, now);
    if built.Err? { return Err(built.error); }
    var page := FetchPage(db, built.value, EffectiveLimit(query.limit));
    if EffectiveLimit(query.limit) >= 1 && UniqueIds(db) { PageOfQuery(db, filter, query, now); }
    r := Ok(page);
  }

  /** The parameters are checked one after the other, and each that is there adds a condition. */
  method BuildQuery(filter: Filter, query: Query, now: int) returns (r: Result<Criteria, Error>)
    ensures r.Ok? <==> Acceptable(query)
    ensures r.Ok? ==> r.value == CriteriaOf(filter, query, now)
    ensures r == Err(InvalidDate) <==> query.since.Unparsable? || query.until.Unparsable?
    ensures r == Err(UnknownClubCode) <==> r != Err(InvalidDate) && !KnownClub(query.club)
    ensures r == Err(InvalidCursor) <==> r != Err(InvalidDate) && KnownClub(query.club) && query.cursor.Malformed?
    ensures r == Err(NegativeLimit) ==> EffectiveLimit(query.limit) < -1
  {
    var includeNearDuplicates := if query.includeNearDuplicates.Some? then query.includeNearDuplicates.value else false;

    if query.since.Unparsable? { return Err(InvalidDate); }
    var since := WindowDate(query.since, now - DEFAULT_WINDOW_MS);
    if query.until.Unparsable? { return Err(InvalidDate); }
    var until := WindowDate(query.until, now);

    var club := Truthy(query.club);
    if club.Some? && club.value !in VALID_CLUB_CODES { return Err(UnknownClubCode); }

    var qb := Criteria(since, until, None, None, None, None, false, None);
    if Truthy(filter.canonicalUserId).Some? { qb := qb.(canonicalUserId := filter.canonicalUserId); }
    if filter.vendor.Some? { qb := qb.(vendor := filter.vendor); }
    if Truthy(filter.vendorUserId).Some? { qb := qb.(vendorUserId := filter.vendorUserId); }
    if club.Some? { qb := qb.(club := club); }
    if !includeNearDuplicates { qb := qb.(onlyOriginals := true); }
    match query.cursor {
      case NoCursor =>
      case Malformed => return Err(InvalidCursor);
      case Encoded(key) => qb := qb.(before := Some(key));
    }

    if EffectiveLimit(query.limit) + 1 < 0 { return Err(NegativeLimit); }
    r := Ok(qb);
  }

  /** The query with one row of lookahead. */
  method FetchPage(db: seq<Shot>, qb: Criteria, limit: int) returns (page: Page)
    requires limit >= -1
    ensures limit >= 1 ==> page == PageOf(db, qb, limit)
    ensures limit == 0 ==> page == Page([], None, Listing(db, qb) != [])
    ensures limit == -1 ==> page == Page([], None, true)
  {
    hide Listing;
    var rows := Take(Listing(db, qb), limit + 1);
    var hasMore := |rows| > limit;
    // Array.prototype.slice counts a negative end from the back.
    var data := if hasMore then rows[..if limit < 0 then |rows| else limit] else rows;

    var nextCursor := None;
    if hasMore && |data| > 0 {
      nextCursor := Some(KeyOf(data[|data| - 1]));
    }
    page := Page(data, nextCursor, hasMore);
  }

  ghost predicate Asked(filter: Filter, query: Query, now: int, row: Shot) {
    && (if query.since.At? then query.since.ms else now - 2_592_000_000) <= row.capturedAt
    && row.capturedAt <= (if query.until.At? then query.until.ms else now)
    && (filter.canonicalUserId.Some? && filter.canonicalUserId.value != "" ==> row.canonicalUserId == filter.canonicalUserId)
    && (filter.vendor.Some? ==> row.vendor == filter.vendor.value)
    && (filter.vendorUserId.Some? && filter.vendorUserId.value != "" ==> row.vendorUserId == filter.vendorUserId.value)
    && (query.club.Some? && query.club.value != "" ==> row.club == query.club.value)
    && (query.includeNearDuplicates != Some(true) ==> row.duplicateOf.None?)
    && (query.cursor.Encoded? ==>
          || row.capturedAt < query.cursor.key.capturedAt
          || (row.capturedAt == query.cursor.key.capturedAt && row.id < query.cursor.key.id))
  }

  lemma AskedIsMatched(filter: Filter, query: Query, now: int, row: Shot)
    requires Acceptable(query)
    ensures Asked(filter, query, now, row) <==> Matches(CriteriaOf(filter, query, now), row)
  {
  }

  lemma PageOfQuery(db: seq<Shot>, filter: Filter, query: Query, now: int)
    requires Acceptable(query) && EffectiveLimit(query.limit) >= 1 && UniqueIds(db)
    ensures var p := PageOf(db, CriteriaOf(filter, query, now), EffectiveLimit(query.limit));
            && (forall row | row in p.data :: row in db)
            && (forall row | row in db :: row in p.data <==>
                  && Asked(filter, query, now, row)
                  && (p.hasMore && p.data != [] ==>
                        || p.data[|p.data| - 1].capturedAt < row.capturedAt
                        || (p.data[|p.data| - 1].capturedAt == row.capturedAt && p.data[|p.data| - 1].id <= row.id)))
            && (forall i, j | 0 <= i < j < |p.data| ::
                  || p.data[i].capturedAt > p.data[j].capturedAt
                  || (p.data[i].capturedAt == p.data[j].capturedAt && p.data[i].id > p.data[j].id))
            && |p.data| <= EffectiveLimit(query.limit)
            && (p.hasMore ==> && |p.data| == EffectiveLimit(query.limit)
                              && p.nextCursor == Some(Key(p.data[|p.data| - 1].capturedAt, p.data[|p.data| - 1].id)))
            && (!p.hasMore ==> p.nextCursor.None?)
  {
    hide Asked, Matches, PageOf, CriteriaOf, Acceptable, EffectiveLimit;
    PageIsExact(db, CriteriaOf(filter, query, now), EffectiveLimit(query.limit));
    forall row | row in db
      ensures Asked(filter, query, now, row) <==> Matches(CriteriaOf(filter, query, now), row)
    {
      AskedIsMatched(filter, query, now, row);
    }
  }

  // ----- The listing is the sorted selection -----

  ghost predicate Descending(rows: seq<Shot>) {
    forall i, j | 0 <= i < j < |rows| :: Before(KeyOf(rows[j]), KeyOf(rows[i]))
  }

  lemma {:induction false} WhereSelects(db: seq<Shot>, c: Criteria)
    ensures forall r :: r in Where(db, c) <==> r in db && Matches(c, r)
    ensures UniqueIds(db) ==> UniqueIds(Where(db, c))
  {
    if db != [] {
      WhereSelects(db[1..], c);
      assert db == [db[0]] + db[1..];
      if UniqueIds(db) {
        assert UniqueIds(db[1..]);
        forall r | r in Where(db[1..], c) ensures r.id != db[0].id {
          var i :| 0 <= i < |db[1..]| && db[1..][i] == r;
          assert db[i + 1] == r;
        }
      }
    }
  }

  lemma {:induction false} InsertAdds(row: Shot, rows: seq<Shot>)
    ensures multiset(Insert(row, rows)) == multiset(rows) + multiset{row}
    ensures forall r :: r in Insert(row, rows) <==> r == row || r in rows
  {
    if rows != [] {
      assert rows == [rows[0]] + rows[1..];
      InsertAdds(row, rows[1..]);
    }
  }

  lemma DescendingCons(row: Shot, rows: seq<Shot>)
    requires Descending(rows) && forall r | r in rows :: Before(KeyOf(r), KeyOf(row))
    ensures Descending([row] + rows)
  {
  }

  lemma {:induction false} InsertKeepsOrder(row: Shot, rows: seq<Shot>)
    requires Descending(rows) && forall r | r in rows :: r.id != row.id
    ensures Descending(Insert(row, rows))
  {
    if rows == [] {
    } else if Before(KeyOf(rows[0]), KeyOf(row)) {
      forall r | r in rows ensures Before(KeyOf(r), KeyOf(row)) {
        var i :| 0 <= i < |rows| && rows[i] == r;
      }
      DescendingCons(row, rows);
    } else {
      InsertKeepsOrder(row, rows[1..]);
      InsertAdds(row, rows[1..]);
      forall r | r in Insert(row, rows[1..]) ensures Before(KeyOf(r), KeyOf(rows[0])) {
        if r != row {
          var i :| 0 <= i < |rows[1..]| && rows[1..][i] == r;
          assert rows[i + 1] == r;
        }
      }
      DescendingCons(rows[0], Insert(row, rows[1..]));
    }
  }

  lemma {:induction false} OrderingSorts(rows: seq<Shot>)
    requires UniqueIds(rows)
    ensures Descending(OrderedNewestFirst(rows))
    ensures multiset(OrderedNewestFirst(rows)) == multiset(rows)
    ensures forall r :: r in OrderedNewestFirst(rows) <==> r in rows
  {
    if rows != [] {
      assert rows == [rows[0]] + rows[1..];
      OrderingSorts(rows[1..]);
      InsertAdds(rows[0], OrderedNewestFirst(rows[1..]));
      InsertKeepsOrder(rows[0], OrderedNewestFirst(rows[1..]));
    }
  }

  /** The listing holds exactly the matching rows, each once, in strictly descending key order. */
  lemma ListingIsTheSortedSelection(db: seq<Shot>, c: Criteria)
    requires UniqueIds(db)
    ensures Descending(Listing(db, c))
    ensures forall r :: r in Listing(db, c) <==> r in db && Matches(c, r)
  {
    WhereSelects(db, c);
    OrderingSorts(Where(db, c));
  }

  lemma TailMembers(a: seq<Shot>, r: Shot)
    requires Descending(a) && a != []
    ensures r in a[1..] <==> r in a && r != a[0]
  {
    assert a == [a[0]] + a[1..];
    if r in a[1..] {
      var i :| 0 <= i < |a[1..]| && a[1..][i] == r;
      assert Before(KeyOf(a[i + 1]), KeyOf(a[0]));
    }
  }

  /** Two strictly descending lists of the same rows are the same list. */
  lemma {:induction false} DescendingListsAreUnique(a: seq<Shot>, b: seq<Shot>)
    requires Descending(a) && Descending(b)
    requires forall r :: r in a <==> r in b
    ensures a == b
  {
    assert b != [] ==> b[0] in a;
    if a != [] {
      assert a[0] in b;
      assert b[0] in a;
      assert a[0] == b[0];
      forall r ensures r in a[1..] <==> r in b[1..] {
        TailMembers(a, r);
        TailMembers(b, r);
      }
      DescendingListsAreUnique(a[1..], b[1..]);
    }
  }

  // ----- Walking from page to page -----

  /** A walk that finds the table as history[k] when it fetches page k. */
  ghost predicate Walk(history: seq<seq<Shot>>, c: Criteria, limit: nat, pages: seq<Page>)
    requires limit >= 1
  {
    && 0 < |pages| == |history|
    && (forall k | 0 <= k < |pages| :: UniqueIds(history[k]))
    && (forall k | 0 <= k < |pages| :: pages[k] == PageOf(history[k], c.(before := CursorOf(c, pages, k)), limit))
    && (forall k | 0 <= k < |pages| - 1 :: pages[k].hasMore)
  }

  function CursorOf(c: Criteria, pages: seq<Page>, k: nat): Option<Key>
    requires k < |pages|
  {
    if k == 0 then c.before else pages[k - 1].nextCursor
  }

  ghost predicate Finished(pages: seq<Page>) {
    pages != [] && !pages[|pages| - 1].hasMore
  }

  function Rows(pages: seq<Page>): seq<Shot> {
    if pages == [] then [] else pages[0].data + Rows(pages[1..])
  }

  ghost predicate HoldsMatch(db: seq<Shot>, c: Criteria, key: Key) {
    exists r :: r in db && Matches(c, r) && KeyOf(r) == key
  }

  ghost predicate HasKey(rows: seq<Shot>, key: Key) {
    exists i :: 0 <= i < |rows| && KeyOf(rows[i]) == key
  }

  /** A page is the top of the listing; what it leaves out comes after its last row. */
  lemma PageIsTheTop(db: seq<Shot>, c: Criteria, limit: nat)
    requires limit >= 1 && UniqueIds(db)
    ensures var p := PageOf(db, c, limit); var next := c.(before := p.nextCursor);
            && Descending(p.data)
            && (forall r | r in p.data :: r in db && Matches(c, r))
            && (p.hasMore ==> |p.data| == limit && p.nextCursor == Some(KeyOf(p.data[limit - 1])))
            && (forall r | r in db && Matches(c, r) ::
                  r in p.data || (p.hasMore && Matches(next, r)))
            && (p.hasMore ==> forall r | Matches(next, r) :: Matches(c, r))
  {
    var p := PageOf(db, c, limit);
    var rows := Listing(db, c);
    ListingIsTheSortedSelection(db, c);
    forall r | r in db && Matches(c, r)
      ensures r in p.data || (p.hasMore && Matches(c.(before := p.nextCursor), r))
    {
      var i :| 0 <= i < |rows| && rows[i] == r;
      if i < |p.data| { assert p.data[i] == r; }
    }
    if p.hasMore { assert rows[limit - 1] in rows; }
  }

  /** The rows of a page are the matching ones that do not come after its last row. */
  lemma PageIsExact(db: seq<Shot>, c: Criteria, limit: nat)
    requires limit >= 1 && UniqueIds(db)
    ensures var p := PageOf(db, c, limit);
            && Descending(p.data) && |p.data| <= limit
            && (forall row | row in p.data :: row in db)
            && (forall row | row in db :: row in p.data <==>
                  Matches(c, row) && (p.hasMore && p.data != [] ==> !Before(KeyOf(row), KeyOf(p.data[|p.data| - 1]))))
            && (p.hasMore ==> |p.data| == limit && p.nextCursor == Some(KeyOf(p.data[limit - 1])))
            && (!p.hasMore ==> p.nextCursor.None?)
  {
    hide Listing;
    PageIsTheTop(db, c, limit);
    var p := PageOf(db, c, limit);
    forall row | row in p.data && p.hasMore ensures !Before(KeyOf(row), KeyOf(p.data[|p.data| - 1])) {
      var i :| 0 <= i < |p.data| && p.data[i] == row;
    }
  }

  lemma WalkTail(history: seq<seq<Shot>>, c: Criteria, limit: nat, pages: seq<Page>)
    requires limit >= 1 && Walk(history, c, limit, pages) && |pages| > 1
    ensures Walk(history[1..], c.(before := pages[0].nextCursor), limit, pages[1..])
  {
    var c1, tail := c.(before := pages[0].nextCursor), pages[1..];
    forall k | 0 <= k < |tail|
      ensures tail[k] == PageOf(history[1..][k], c1.(before := CursorOf(c1, tail, k)), limit)
    {
      assert CursorOf(c1, tail, k) == CursorOf(c, pages, k + 1);
      assert c1.(before := CursorOf(c1, tail, k)) == c.(before := CursorOf(c, pages, k + 1));
    }
  }

  /** Every returned row matched, and the rows come in strictly descending key order over all pages
      together, so that no row can be returned twice, however the table changes between the pages. */
  lemma {:induction false} WalkRowsDescend(history: seq<seq<Shot>>, c: Criteria, limit: nat, pages: seq<Page>)
    requires limit >= 1 && Walk(history, c, limit, pages)
    ensures Descending(Rows(pages))
    ensures forall r | r in Rows(pages) :: Matches(c, r)
    ensures forall k, r | 0 <= k < |pages| && r in pages[k].data :: r in history[k]
  {
    assert c.(before := CursorOf(c, pages, 0)) == c;
    PageIsTheTop(history[0], c, limit);
    var data := pages[0].data;
    if |pages| == 1 {
      assert Rows(pages) == data + [];
    } else {
      var next := c.(before := pages[0].nextCursor);
      WalkTail(history, c, limit, pages);
      WalkRowsDescend(history[1..], next, limit, pages[1..]);
      var rest := Rows(pages[1..]);
      assert Rows(pages) == data + rest;
      forall i, j | 0 <= i < j < |data + rest| ensures Before(KeyOf((data + rest)[j]), KeyOf((data + rest)[i])) {
        if i < |data| <= j {
          assert Matches(next, rest[j - |data|]);
          assert i < limit - 1 ==> Before(KeyOf(data[limit - 1]), KeyOf(data[i]));
        }
      }
      forall k, r | 0 <= k < |pages| && r in pages[k].data ensures r in history[k] {
        if k > 0 { assert pages[1..][k - 1] == pages[k] && history[1..][k - 1] == history[k]; }
      }
    }
  }

  /** A row that matches whenever a page is fetched is returned, whatever else is inserted, updated or
      removed between the pages, and by WalkRowsDescend it is returned only once. */
  lemma {:induction false} StableRowsAreReturned(history: seq<seq<Shot>>, c: Criteria, limit: nat, pages: seq<Page>, key: Key)
    requires limit >= 1 && Walk(history, c, limit, pages) && Finished(pages)
    requires forall k | 0 <= k < |history| :: HoldsMatch(history[k], c, key)
    ensures HasKey(Rows(pages), key)
  {
    hide Matches, Listing, PageOf, Descending, Before, UniqueIds, HasKey, Rows;
    FirstPage(history, c, limit, pages);
    PageIsTheTop(history[0], c, limit);
    var data := pages[0].data;
    var r :| r in history[0] && Matches(c, r) && KeyOf(r) == key;
    if r in data {
      OnTheFirstPage(pages, r);
    } else {
      var next := c.(before := pages[0].nextCursor);
      WalkTail(history, c, limit, pages);
      forall k | 0 <= k < |history[1..]| ensures HoldsMatch(history[1..][k], next, key) {
        StillMatches(history[k + 1], c, r, pages[0].nextCursor);
      }
      StableRowsAreReturned(history[1..], next, limit, pages[1..], key);
      OnALaterPage(pages, key);
    }
  }

  lemma OnTheFirstPage(pages: seq<Page>, r: Shot)
    requires pages != [] && r in pages[0].data
    ensures HasKey(Rows(pages), KeyOf(r))
  {
    var i :| 0 <= i < |pages[0].data| && pages[0].data[i] == r;
    assert Rows(pages)[i] == r;
  }

  lemma OnALaterPage(pages: seq<Page>, key: Key)
    requires pages != [] && HasKey(Rows(pages[1..]), key)
    ensures HasKey(Rows(pages), key)
  {
    var i :| 0 <= i < |Rows(pages[1..])| && KeyOf(Rows(pages[1..])[i]) == key;
    assert Rows(pages)[|pages[0].data| + i] == Rows(pages[1..])[i];
  }

  lemma StillMatches(db: seq<Shot>, c: Criteria, r: Shot, cursor: Option<Key>)
    requires HoldsMatch(db, c, KeyOf(r)) && Matches(c.(before := cursor), r)
    ensures HoldsMatch(db, c.(before := cursor), KeyOf(r))
  {
    var s :| s in db && Matches(c, s) && KeyOf(s) == KeyOf(r);
    assert Matches(c.(before := cursor), s);
  }

  // ----- Walking over a table that does not change -----

  /** Asking for what comes after row i of the listing gives the rest of the listing. */
  lemma ListingAfterCursor(db: seq<Shot>, c: Criteria, i: nat)
    requires UniqueIds(db) && i < |Listing(db, c)|
    ensures Listing(db, c.(before := Some(KeyOf(Listing(db, c)[i])))) == Listing(db, c)[i + 1..]
  {
    var rows := Listing(db, c);
    var next := c.(before := Some(KeyOf(rows[i])));
    ListingIsTheSortedSelection(db, c);
    ListingIsTheSortedSelection(db, next);
    assert rows[i] in rows;
    forall r ensures r in Listing(db, next) <==> r in rows[i + 1..] {
      if r in rows[i + 1..] {
        var j :| 0 <= j < |rows[i + 1..]| && rows[i + 1..][j] == r;
        assert rows[i + 1 + j] == r && r in rows;
      }
      if r in Listing(db, next) {
        var j :| 0 <= j < |rows| && rows[j] == r;
        assert j > i;
        assert rows[i + 1..][j - i - 1] == r;
      }
    }
    DescendingListsAreUnique(Listing(db, next), rows[i + 1..]);
  }

  /** One page for an empty listing, else as many as it takes. */
  function PageCount(n: nat, limit: nat): nat
    requires limit >= 1
    decreases n
  {
    if n <= limit then 1 else 1 + PageCount(n - limit, limit)
  }

  lemma FirstPage(history: seq<seq<Shot>>, c: Criteria, limit: nat, pages: seq<Page>)
    requires limit >= 1 && Walk(history, c, limit, pages)
    ensures |pages| == |history| > 0
    ensures pages[0] == PageOf(history[0], c, limit) && UniqueIds(history[0])
  {
    assert c.(before := CursorOf(c, pages, 0)) == c;
  }

  /** On a table that does not change a walk ends after exactly PageCount pages, and then the pages put
      together are the whole listing in order. */
  lemma {:induction false} WalkOverUnchangingTable(
    db: seq<Shot>, history: seq<seq<Shot>>, c: Criteria, limit: nat, pages: seq<Page>)
    requires limit >= 1 && Walk(history, c, limit, pages)
    requires forall k | 0 <= k < |history| :: history[k] == db
    ensures |pages| <= PageCount(|Listing(db, c)|, limit)
    ensures Finished(pages) <==> |pages| == PageCount(|Listing(db, c)|, limit)
    ensures Rows(pages) <= Listing(db, c)
    ensures Finished(pages) ==> Rows(pages) == Listing(db, c)
  {
    hide Listing, Walk, Matches;
    FirstPage(history, c, limit, pages);
    var rows := Listing(db, c);
    if |pages| == 1 {
      assert Rows(pages) == pages[0].data + [];
    } else {
      WalkGoesOn(history, c, limit, pages);
      var next := c.(before := pages[0].nextCursor);
      WalkTail(history, c, limit, pages);
      ListingAfterCursor(db, c, limit - 1);
      WalkOverUnchangingTable(db, history[1..], next, limit, pages[1..]);
      assert rows == rows[..limit] + rows[limit..];
    }
  }

  lemma WalkGoesOn(history: seq<seq<Shot>>, c: Criteria, limit: nat, pages: seq<Page>)
    requires limit >= 1 && Walk(history, c, limit, pages) && |pages| > 1
    ensures pages[0].hasMore
  {
  }
}
