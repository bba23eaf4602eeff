/** The data shared by the services: shots, vendors and club codes
    (src/shared/domain/shot.ts, src/shared/domain/club-code.ts). */
module Domain {

  datatype Option<+T> = None | Some(value: T)

  datatype Result<+T, +E> = Ok(value: T) | Err(error: E)

  datatype Vendor = TrackPro | SwingMetric | ProSwing

  const VALID_CLUB_CODES: set<string> :=
    {"DR", "3W", "4W", "5W", "7W", "2H", "3H", "4H", "5H",
     "1I", "2I", "3I", "4I", "5I", "6I", "7I", "8I", "9I",
     "PW", "GW", "AW", "SW", "LW", "PT", "UNKNOWN"}

  /** A normalised shot, which is also a row of the shots table.  Instants are milliseconds since the
      epoch; the ULID of a shot is a number, since only its uniqueness and its order are used. */
  datatype Shot = Shot(
    id: nat,
    vendor: Vendor,
    key: string,
    vendorUserId: string,
    canonicalUserId: Option<string>,
    capturedAt: int,
    club: string,
    ballSpeed: real,
    launchAngle: real,
    carry: real,
    lateral: real,
    spin: Option<int>,
    contentHash: string,
    duplicateOf: Option<nat>)

  ghost predicate UniqueIds(shots: seq<Shot>) {
    forall i, j | 0 <= i < j < |shots| :: shots[i].id != shots[j].id
  }
}
