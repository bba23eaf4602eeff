/** The three wire formats of ProSwing and the dispatch between them (src/webhooks/proswing/proswing.schema.ts). */
module ProswingDispatch {
  import opened Domain

  // ----- JSON -----

  /** The object keys that the schemas know; any other key is Other. */
  datatype Key =
    | Type | Data | UserToken | Player | Device | ShotKey
    | Id | OccurredAt | ClubCode | BallSpeed | ClubSpeed | Launch | LaunchAngle | SpinRpm | Carry | Total | Deviation
    | BallSpeedMph | BallSpeedKph | BallSpeedMps | ClubSpeedMph | ClubSpeedKph | ClubSpeedMps | LaunchDeg
    | CarryYd | CarryM | TotalYd | TotalM | DeviationYd | DeviationM | DeviationFt
    | ValueKey | Unit
    | Other(name: string)

  datatype Json =
    | Null
    | Bool(b: bool)
    | Num(n: real)
    | Str(s: string)
    | Arr(items: seq<Json>)
    | Obj(fields: map<Key, Json>)

  predicate Has(j: Json, key: Key) {
    j.Obj? && key in j.fields
  }

  // ----- The validators that the schemas are made of -----

  /** z.object({...}).strict() */
  predicate Strict(j: Json, required: set<Key>, optional: set<Key>) {
    j.Obj? && required <= j.fields.Keys <= required + optional
  }

  predicate NumberIn(j: Json, low: real, high: real) {
    j.Num? && low <= j.n <= high
  }

  predicate TextOf(j: Json, min: nat, max: nat) {
    j.Str? && min <= |j.s| <= max
  }

  predicate OptionalNumber(j: Json, key: Key, low: real, high: real)
    requires j.Obj?
  {
    key in j.fields ==> NumberIn(j.fields[key], low, high)
  }

  /** A nested {value, unit} measurement. */
  predicate Measured(j: Json, low: real, high: real, units: set<string>) {
    && Strict(j, {ValueKey, Unit}, {})
    && NumberIn(j.fields[ValueKey], low, high)
    && j.fields[Unit].Str? && j.fields[Unit].s in units
  }

  const SPEEDS := {"mph", "kph", "mps"}
  const LENGTHS := {"yd", "m", "ft"}

  predicate BallSpeedOk(j: Json) {
    Measured(j, 0.0, 500.0, SPEEDS) && (j.fields[Unit].s == "mps" ==> j.fields[ValueKey].n <= 120.0)
  }

  predicate ClubSpeedOk(j: Json) {
    Measured(j, 0.0, 300.0, SPEEDS)
  }

  predicate DistanceOk(j: Json) {
    Measured(j, -500.0, 700.0, LENGTHS)
  }

  /** The fields that all three shot schemas share. */
  predicate ShotHead(shot: Json, datetime: string -> bool)
    requires shot.Obj? && {Id, OccurredAt, ClubCode} <= shot.fields.Keys
  {
    && TextOf(shot.fields[Id], 1, 255)
    && shot.fields[OccurredAt].Str? && datetime(shot.fields[OccurredAt].s)
    && TextOf(shot.fields[ClubCode], 1, 64)
  }

  /** The measurements that V1 and V3 share. */
  predicate NestedMeasurements(shot: Json)
    requires shot.Obj? && {BallSpeed, Carry, Deviation} <= shot.fields.Keys
  {
    && BallSpeedOk(shot.fields[BallSpeed])
    && (ClubSpeed in shot.fields ==> ClubSpeedOk(shot.fields[ClubSpeed]))
    && DistanceOk(shot.fields[Carry])
    && (Total in shot.fields ==> DistanceOk(shot.fields[Total]))
    && DistanceOk(shot.fields[Deviation])
  }

  predicate Envelope(raw: Json, required: set<Key>, optional: set<Key>) {
    && Strict(raw, {Type, Data}, {})
    && raw.fields[Type] == Str("shot.recorded")
    && Strict(raw.fields[Data], required, optional)
  }

  // ----- The schemas -----

  predicate ShotV1(shot: Json, datetime: string -> bool) {
    && Strict(shot, {Id, OccurredAt, ClubCode, BallSpeed, Launch, Carry, Deviation}, {ClubSpeed, Total})
    && ShotHead(shot, datetime)
    && NestedMeasurements(shot)
    && Measured(shot.fields[Launch], -10.0, 90.0, {"deg"})
  }

  predicate NumbersV2(shot: Json)
    requires Has(shot, LaunchDeg)
  {
    && OptionalNumber(shot, BallSpeedMph, 0.0, 268.0)
    && OptionalNumber(shot, BallSpeedKph, 0.0, 430.0)
    && OptionalNumber(shot, BallSpeedMps, 0.0, 120.0)
    && OptionalNumber(shot, ClubSpeedMph, 0.0, 230.0)
    && OptionalNumber(shot, ClubSpeedKph, 0.0, 370.0)
    && OptionalNumber(shot, ClubSpeedMps, 0.0, 103.0)
    && NumberIn(shot.fields[LaunchDeg], -10.0, 90.0)
    && OptionalNumber(shot, CarryYd, 0.0, 600.0)
    && OptionalNumber(shot, CarryM, 0.0, 550.0)
    && OptionalNumber(shot, TotalYd, 0.0, 700.0)
    && OptionalNumber(shot, TotalM, 0.0, 640.0)
    && OptionalNumber(shot, DeviationYd, -500.0, 500.0)
    && OptionalNumber(shot, DeviationM, -500.0, 500.0)
    && OptionalNumber(shot, DeviationFt, -1500.0, 1500.0)
  }

  predicate ShotV2(shot: Json, datetime: string -> bool) {
    && Strict(shot, {Id, OccurredAt, ClubCode, LaunchDeg},
              {BallSpeedMph, BallSpeedKph, BallSpeedMps, ClubSpeedMph, ClubSpeedKph, ClubSpeedMps,
               CarryYd, CarryM, TotalYd, TotalM, DeviationYd, DeviationM, DeviationFt})
    && ShotHead(shot, datetime)
    && NumbersV2(shot)
    && (BallSpeedMph in shot.fields || BallSpeedKph in shot.fields || BallSpeedMps in shot.fields)
    && (CarryYd in shot.fields || CarryM in shot.fields)
    && (DeviationYd in shot.fields || DeviationM in shot.fields || DeviationFt in shot.fields)
  }

  predicate ShotV3(shot: Json, datetime: string -> bool) {
    && Strict(shot, {Id, OccurredAt, ClubCode, BallSpeed, LaunchAngle, Carry, Deviation}, {ClubSpeed, SpinRpm, Total})
    && ShotHead(shot, datetime)
    && NestedMeasurements(shot)
    && NumberIn(shot.fields[LaunchAngle], -10.0, 90.0)
    && OptionalNumber(shot, SpinRpm, 0.0, 15000.0)
    && (SpinRpm in shot.fields ==> shot.fields[SpinRpm].n.Floor as real == shot.fields[SpinRpm].n)
  }

  predicate AcceptsV1(raw: Json, datetime: string -> bool) {
    && Envelope(raw, {UserToken, ShotKey}, {})
    && TextOf(raw.fields[Data].fields[UserToken], 8, 255)
    && ShotV1(raw.fields[Data].fields[ShotKey], datetime)
  }

  predicate AcceptsV2(raw: Json, datetime: string -> bool) {
    && Envelope(raw, {UserToken, ShotKey}, {})
    && TextOf(raw.fields[Data].fields[UserToken], 8, 255)
    && ShotV2(raw.fields[Data].fields[ShotKey], datetime)
  }

  predicate Identified(j: Json) {
    Strict(j, {Id}, {}) && TextOf(j.fields[Id], 1, 255)
  }

  predicate AcceptsV3(raw: Json, datetime: string -> bool) {
    && Envelope(raw, {Player, ShotKey}, {Device})
    && Identified(raw.fields[Data].fields[Player])
    && (Device in raw.fields[Data].fields ==> Identified(raw.fields[Data].fields[Device]))
    && ShotV3(raw.fields[Data].fields[ShotKey], datetime)
  }

  // ----- Canonical payloads -----

  datatype Measure = Measure(value: real, unit: string)

  datatype Canonical = Canonical(
    userToken: string,
    id: string,
    occurredAt: string,
    clubCode: string,
    ballSpeed: Measure,
    clubSpeed: Option<Measure>,
    launch: Measure,
    spinRpm: Option<real>,
    carry: Measure,
    total: Option<Measure>,
    deviation: Measure)

  function MeasureOf(j: Json): Measure
    requires Strict(j, {ValueKey, Unit}, {}) && j.fields[ValueKey].Num? && j.fields[Unit].Str?
  {
    Measure(j.fields[ValueKey].n, j.fields[Unit].s)
  }

  function FromV1(raw: Json, datetime: string -> bool): Canonical
    requires AcceptsV1(raw, datetime)
  {
    var s := raw.fields[Data].fields[ShotKey].fields;
    Canonical(raw.fields[Data].fields[UserToken].s, s[Id].s, s[OccurredAt].s, s[ClubCode].s,
              MeasureOf(s[BallSpeed]),
              if ClubSpeed in s then Some(MeasureOf(s[ClubSpeed])) else None,
              MeasureOf(s[Launch]),
              None,
              MeasureOf(s[Carry]),
              if Total in s then Some(MeasureOf(s[Total])) else None,
              MeasureOf(s[Deviation]))
  }

  function FromV2(raw: Json, datetime: string -> bool): Canonical
    requires AcceptsV2(raw, datetime)
  {
    var s := raw.fields[Data].fields[ShotKey].fields;
    Canonical(raw.fields[Data].fields[UserToken].s, s[Id].s, s[OccurredAt].s, s[ClubCode].s,
              if BallSpeedMph in s then Measure(s[BallSpeedMph].n, "mph")
              else if BallSpeedKph in s then Measure(s[BallSpeedKph].n, "kph")
              else Measure(s[BallSpeedMps].n, "mps"),
              if ClubSpeedMph in s then Some(Measure(s[ClubSpeedMph].n, "mph"))
              else if ClubSpeedKph in s then Some(Measure(s[ClubSpeedKph].n, "kph"))
              else if ClubSpeedMps in s then Some(Measure(s[ClubSpeedMps].n, "mps"))
              else None,
              Measure(s[LaunchDeg].n, "deg"),
              None,
              if CarryYd in s then Measure(s[CarryYd].n, "yd") else Measure(s[CarryM].n, "m"),
              if TotalYd in s then Some(Measure(s[TotalYd].n, "yd"))
              else if TotalM in s then Some(Measure(s[TotalM].n, "m"))
              else None,
              if DeviationYd in s then Measure(s[DeviationYd].n, "yd")
              else if DeviationM in s then Measure(s[DeviationM].n, "m")
              else Measure(s[DeviationFt].n, "ft"))
  }

  function FromV3(raw: Json, datetime: string -> bool): Canonical
    requires AcceptsV3(raw, datetime)
  {
    var s := raw.fields[Data].fields[ShotKey].fields;
    Canonical(raw.fields[Data].fields[Player].fields[Id].s, s[Id].s, s[OccurredAt].s, s[ClubCode].s,
              MeasureOf(s[BallSpeed]),
              if ClubSpeed in s then Some(MeasureOf(s[ClubSpeed])) else None,
              Measure(s[LaunchAngle].n, "deg"),
              if SpinRpm in s then Some(s[SpinRpm].n) else None,
              MeasureOf(s[Carry]),
              if Total in s then Some(MeasureOf(s[Total])) else None,
              MeasureOf(s[Deviation]))
  }

  // ----- Dispatch -----

  datatype Version = V1 | V2 | V3

  function DetectVersion(raw: Json): Version {
    if !Has(raw, Data) then V1
    else
      var data := raw.fields[Data];
      if Has(data, Player) then V3
      else if Has(data, ShotKey)
           && (Has(data.fields[ShotKey], BallSpeedMph)
               || Has(data.fields[ShotKey], BallSpeedKph)
               || Has(data.fields[ShotKey], BallSpeedMps)) then V2
      else V1
  }

  datatype ParseError = SchemaMismatch(version: Version)

  function ParseProswingRaw(raw: Json, datetime: string -> bool): Result<Canonical, ParseError> {
    match DetectVersion(raw)
    case V3 => if AcceptsV3(raw, datetime) then Ok(FromV3(raw, datetime)) else Err(SchemaMismatch(V3))
    case V2 => if AcceptsV2(raw, datetime) then Ok(FromV2(raw, datetime)) else Err(SchemaMismatch(V2))
    case V1 => if AcceptsV1(raw, datetime) then Ok(FromV1(raw, datetime)) else Err(SchemaMismatch(V1))
  }

  /** A payload that a schema accepts carries the marker of that version, and no other marker. */
  lemma AcceptedPayloadsAreDetected(raw: Json, datetime: string -> bool)
    ensures AcceptsV1(raw, datetime) ==> DetectVersion(raw) == V1
    ensures AcceptsV2(raw, datetime) ==> DetectVersion(raw) == V2
    ensures AcceptsV3(raw, datetime) ==> DetectVersion(raw) == V3
  {
    hide ShotHead, NestedMeasurements, OptionalNumber, NumberIn, TextOf, Measured, Identified;
  }

  /** Looking at two markers is as good as trying all three schemas, of which at most one accepts. */
  lemma DispatchRefinesTryAll(raw: Json, datetime: string -> bool)
    ensures ParseProswingRaw(raw, datetime).Ok?
       <==> AcceptsV1(raw, datetime) || AcceptsV2(raw, datetime) || AcceptsV3(raw, datetime)
    ensures !(AcceptsV1(raw, datetime) && AcceptsV2(raw, datetime))
    ensures !(AcceptsV1(raw, datetime) && AcceptsV3(raw, datetime))
    ensures !(AcceptsV2(raw, datetime) && AcceptsV3(raw, datetime))
    ensures AcceptsV1(raw, datetime) ==> ParseProswingRaw(raw, datetime) == Ok(FromV1(raw, datetime))
    ensures AcceptsV2(raw, datetime) ==> ParseProswingRaw(raw, datetime) == Ok(FromV2(raw, datetime))
    ensures AcceptsV3(raw, datetime) ==> ParseProswingRaw(raw, datetime) == Ok(FromV3(raw, datetime))
  {
    hide AcceptsV1, AcceptsV2, AcceptsV3, DetectVersion, FromV1, FromV2, FromV3;
    AcceptedPayloadsAreDetected(raw, datetime);
  }

  // ----- Canonical payloads written in the V1 format -----

  function MeasureJson(m: Measure): Json {
    Obj(map[ValueKey := Num(m.value), Unit := Str(m.unit)])
  }

  function OptionalField(key: Key, m: Option<Measure>): map<Key, Json> {
    if m.Some? then map[key := MeasureJson(m.value)] else map[]
  }

  function MandatoryFields(c: Canonical): map<Key, Json> {
    map[Id := Str(c.id), OccurredAt := Str(c.occurredAt), ClubCode := Str(c.clubCode),
        BallSpeed := MeasureJson(c.ballSpeed), Launch := MeasureJson(c.launch),
        Carry := MeasureJson(c.carry), Deviation := MeasureJson(c.deviation)]
  }

  function ShotJson(c: Canonical): Json {
    Obj(MandatoryFields(c) + OptionalField(ClubSpeed, c.clubSpeed) + OptionalField(Total, c.total))
  }

  function Rendered(c: Canonical): Json {
    Obj(map[Type := Str("shot.recorded"), Data := Obj(map[UserToken := Str(c.userToken), ShotKey := ShotJson(c)])])
  }

  lemma MeasureRoundTrip(j: Json)
    requires Strict(j, {ValueKey, Unit}, {}) && j.fields[ValueKey].Num? && j.fields[Unit].Str?
    ensures MeasureJson(MeasureOf(j)) == j
  {
    assert j.fields == map[ValueKey := Num(MeasureOf(j).value), Unit := Str(MeasureOf(j).unit)];
  }

  function OptionalMeasure(fields: map<Key, Json>, key: Key): Option<Measure>
    requires key in fields ==>
               Strict(fields[key], {ValueKey, Unit}, {}) && fields[key].fields[ValueKey].Num? && fields[key].fields[Unit].Str?
  {
    if key in fields then Some(MeasureOf(fields[key])) else None
  }

  lemma OptionalFieldRoundTrip(fields: map<Key, Json>, key: Key)
    requires key in fields ==>
               Strict(fields[key], {ValueKey, Unit}, {}) && fields[key].fields[ValueKey].Num? && fields[key].fields[Unit].Str?
    ensures OptionalField(key, OptionalMeasure(fields, key)) == map k | k in fields && k == key :: fields[k]
  {
    if key in fields { MeasureRoundTrip(fields[key]); }
  }

  /** The canonical form has the head and the measurements of the shot. */
  ghost predicate CanonicalOf(c: Canonical, shot: Json, datetime: string -> bool)
    requires ShotV1(shot, datetime)
  {
    && c.id == shot.fields[Id].s && c.occurredAt == shot.fields[OccurredAt].s && c.clubCode == shot.fields[ClubCode].s
    && c.ballSpeed == MeasureOf(shot.fields[BallSpeed]) && c.launch == MeasureOf(shot.fields[Launch])
    && c.carry == MeasureOf(shot.fields[Carry]) && c.deviation == MeasureOf(shot.fields[Deviation])
    && c.clubSpeed == OptionalMeasure(shot.fields, ClubSpeed) && c.total == OptionalMeasure(shot.fields, Total)
  }

  lemma ShotRoundTrip(shot: Json, datetime: string -> bool, c: Canonical)
    requires ShotV1(shot, datetime) && CanonicalOf(c, shot, datetime)
    ensures ShotJson(c) == shot
  {
    hide *;
    MandatoryRoundTrip(shot, datetime, c);
    OptionalsRoundTrip(shot, datetime, c);
    AssembledFields(shot.fields, MandatoryFields(c), ClubSpeed, Total);
    ShotJsonIsAssembled(c);
  }

  lemma ShotJsonIsAssembled(c: Canonical)
    ensures ShotJson(c) == Obj(MandatoryFields(c) + OptionalField(ClubSpeed, c.clubSpeed) + OptionalField(Total, c.total))
  {
  }

  lemma OptionalsRoundTrip(shot: Json, datetime: string -> bool, c: Canonical)
    requires ShotV1(shot, datetime) && CanonicalOf(c, shot, datetime)
    ensures shot.Obj?
    ensures OptionalField(ClubSpeed, c.clubSpeed) == map k | k in shot.fields && k == ClubSpeed :: shot.fields[k]
    ensures OptionalField(Total, c.total) == map k | k in shot.fields && k == Total :: shot.fields[k]
  {
    hide MeasureOf, OptionalField;
    OptionalFieldRoundTrip(shot.fields, ClubSpeed);
    OptionalFieldRoundTrip(shot.fields, Total);
  }

  lemma MandatoryRoundTrip(shot: Json, datetime: string -> bool, c: Canonical)
    requires ShotV1(shot, datetime) && CanonicalOf(c, shot, datetime)
    ensures shot.Obj? && ClubSpeed !in MandatoryFields(c) && Total !in MandatoryFields(c)
    ensures MandatoryFields(c).Keys <= shot.fields.Keys <= MandatoryFields(c).Keys + {ClubSpeed, Total}
    ensures forall k | k in MandatoryFields(c) :: MandatoryFields(c)[k] == shot.fields[k]
  {
    hide MandatoryFields;
    MeasureRoundTrip(shot.fields[BallSpeed]);
    MeasureRoundTrip(shot.fields[Launch]);
    MeasureRoundTrip(shot.fields[Carry]);
    MeasureRoundTrip(shot.fields[Deviation]);
    MandatoryAgree(shot.fields, c);
  }

  lemma MandatoryAgree(fields: map<Key, Json>, c: Canonical)
    requires {Id, OccurredAt, ClubCode, BallSpeed, Launch, Carry, Deviation} <= fields.Keys
    requires Str(c.id) == fields[Id] && Str(c.occurredAt) == fields[OccurredAt] && Str(c.clubCode) == fields[ClubCode]
    requires MeasureJson(c.ballSpeed) == fields[BallSpeed] && MeasureJson(c.launch) == fields[Launch]
    requires MeasureJson(c.carry) == fields[Carry] && MeasureJson(c.deviation) == fields[Deviation]
    ensures MandatoryFields(c).Keys == {Id, OccurredAt, ClubCode, BallSpeed, Launch, Carry, Deviation}
    ensures forall k | k in MandatoryFields(c) :: MandatoryFields(c)[k] == fields[k]
  {
    hide MeasureJson;
  }

  lemma AssembledFields(fields: map<Key, Json>, mandatory: map<Key, Json>, a: Key, b: Key)
    requires a !in mandatory && b !in mandatory
    requires mandatory.Keys <= fields.Keys <= mandatory.Keys + {a, b}
    requires forall k | k in mandatory :: mandatory[k] == fields[k]
    ensures mandatory + (map k | k in fields && k == a :: fields[k]) + (map k | k in fields && k == b :: fields[k]) == fields
  {
  }

  lemma EnvelopeRoundTrip(raw: Json, token: string, shot: Json)
    requires Envelope(raw, {UserToken, ShotKey}, {})
    requires raw.fields[Data].fields[UserToken] == Str(token) && raw.fields[Data].fields[ShotKey] == shot
    ensures raw == Obj(map[Type := Str("shot.recorded"), Data := Obj(map[UserToken := Str(token), ShotKey := shot])])
  {
    var data := raw.fields[Data];
    assert data.fields == map[UserToken := Str(token), ShotKey := shot];
    assert raw.fields == map[Type := Str("shot.recorded"), Data := data];
  }

  /** A V1 payload is its own canonical form: the strict schema leaves nothing out. */
  lemma V1IsCanonical(raw: Json, datetime: string -> bool)
    requires AcceptsV1(raw, datetime)
    ensures Rendered(FromV1(raw, datetime)) == raw
  {
    hide MeasureOf, ShotJson, ShotHead;
    var shot, c := raw.fields[Data].fields[ShotKey], FromV1(raw, datetime);
    ShotRoundTrip(shot, datetime, c);
    hide NestedMeasurements, Measured;
    EnvelopeRoundTrip(raw, c.userToken, shot);
  }

  // ----- The limits of the formats -----

  lemma MeasureLimits(m: Measure, low: real, high: real, units: set<string>)
    ensures Measured(MeasureJson(m), low, high, units) <==> low <= m.value <= high && m.unit in units
  {
  }

  lemma BallSpeedLimits(m: Measure)
    ensures BallSpeedOk(MeasureJson(m)) <==>
              && 0.0 <= m.value <= 500.0 && m.unit in {"mph", "kph", "mps"} && (m.unit == "mps" ==> m.value <= 120.0)
  {
    MeasureLimits(m, 0.0, 500.0, SPEEDS);
  }

  lemma ShotJsonKeys(c: Canonical)
    ensures ShotJson(c).Obj?
    ensures var keys := ShotJson(c).fields.Keys;
            && {Id, OccurredAt, ClubCode, BallSpeed, Launch, Carry, Deviation} <= keys
            && keys <= {Id, OccurredAt, ClubCode, BallSpeed, Launch, Carry, Deviation} + {ClubSpeed, Total}
            && (ClubSpeed in keys <==> c.clubSpeed.Some?) && (Total in keys <==> c.total.Some?)
  {
    hide MeasureJson;
    assert MandatoryFields(c).Keys == {Id, OccurredAt, ClubCode, BallSpeed, Launch, Carry, Deviation};
    hide MandatoryFields;
  }

  lemma ShotJsonFields(c: Canonical)
    requires ShotJson(c).Obj?
    requires {Id, OccurredAt, ClubCode, BallSpeed, Launch, Carry, Deviation} <= ShotJson(c).fields.Keys
    requires ClubSpeed in ShotJson(c).fields <==> c.clubSpeed.Some?
    requires Total in ShotJson(c).fields <==> c.total.Some?
    ensures var s := ShotJson(c).fields;
            && s[Id] == Str(c.id) && s[OccurredAt] == Str(c.occurredAt) && s[ClubCode] == Str(c.clubCode)
            && s[BallSpeed] == MeasureJson(c.ballSpeed) && s[Launch] == MeasureJson(c.launch)
            && s[Carry] == MeasureJson(c.carry) && s[Deviation] == MeasureJson(c.deviation)
            && (c.clubSpeed.Some? ==> s[ClubSpeed] == MeasureJson(c.clubSpeed.value))
            && (c.total.Some? ==> s[Total] == MeasureJson(c.total.value))
  {
    hide MeasureJson;
  }

  lemma ShotLimits(c: Canonical, datetime: string -> bool)
    ensures ShotV1(ShotJson(c), datetime) <==>
              && 1 <= |c.id| <= 255 && 1 <= |c.clubCode| <= 64 && datetime(c.occurredAt)
              && BallSpeedOk(MeasureJson(c.ballSpeed)) && DistanceOk(MeasureJson(c.carry)) && DistanceOk(MeasureJson(c.deviation))
              && (c.clubSpeed.Some? ==> ClubSpeedOk(MeasureJson(c.clubSpeed.value)))
              && (c.total.Some? ==> DistanceOk(MeasureJson(c.total.value)))
              && Measured(MeasureJson(c.launch), -10.0, 90.0, {"deg"})
  {
    hide ShotJson, MeasureJson, BallSpeedOk, ClubSpeedOk, DistanceOk, Measured;
    ShotJsonKeys(c);
    ShotJsonFields(c);
  }

  lemma RenderedIsAccepted(c: Canonical, datetime: string -> bool)
    ensures AcceptsV1(Rendered(c), datetime) <==> 8 <= |c.userToken| <= 255 && ShotV1(ShotJson(c), datetime)
  {
    EnvelopeOf(Str(c.userToken), ShotJson(c));
    hide ShotJson, ShotV1, Envelope;
  }

  /** Exactly which payloads the V1 schema accepts: those written out from values within these limits. */
  lemma LimitsOfV1(c: Canonical, datetime: string -> bool)
    ensures AcceptsV1(Rendered(c), datetime) <==>
              && 8 <= |c.userToken| <= 255 && 1 <= |c.id| <= 255 && 1 <= |c.clubCode| <= 64 && datetime(c.occurredAt)
              && c.ballSpeed.unit in {"mph", "kph", "mps"}
              && 0.0 <= c.ballSpeed.value <= (if c.ballSpeed.unit == "mps" then 120.0 else 500.0)
              && (c.clubSpeed.Some? ==>
                    c.clubSpeed.value.unit in {"mph", "kph", "mps"} && 0.0 <= c.clubSpeed.value.value <= 300.0)
              && c.launch.unit == "deg" && -10.0 <= c.launch.value <= 90.0
              && c.carry.unit in {"yd", "m", "ft"} && -500.0 <= c.carry.value <= 700.0
              && (c.total.Some? ==> c.total.value.unit in {"yd", "m", "ft"} && -500.0 <= c.total.value.value <= 700.0)
              && c.deviation.unit in {"yd", "m", "ft"} && -500.0 <= c.deviation.value <= 700.0
  {
    RenderedIsAccepted(c, datetime);
    ShotLimits(c, datetime);
    hide AcceptsV1, Rendered, ShotJson, MeasureJson, BallSpeedOk, Measured, ShotV1;
    BallSpeedLimits(c.ballSpeed);
    MeasureLimits(c.launch, -10.0, 90.0, {"deg"});
    MeasureLimits(c.carry, -500.0, 700.0, LENGTHS);
    MeasureLimits(c.deviation, -500.0, 700.0, LENGTHS);
    if c.clubSpeed.Some? { MeasureLimits(c.clubSpeed.value, 0.0, 300.0, SPEEDS); }
    if c.total.Some? { MeasureLimits(c.total.value, -500.0, 700.0, LENGTHS); }
  }

  /** The shot of a payload with the number of one field replaced. */
  function WithNumber(raw: Json, key: Key, x: real): Json
    requires Has(raw, Data) && Has(raw.fields[Data], ShotKey) && raw.fields[Data].fields[ShotKey].Obj?
  {
    var data := raw.fields[Data];
    var shot := data.fields[ShotKey];
    Obj(raw.fields[Data := Obj(data.fields[ShotKey := Obj(shot.fields[key := Num(x)])])])
  }

  /** The ranges of the numbers of a V2 shot. */
  function RangeV2(key: Key): Option<(real, real)> {
    match key
    case BallSpeedMph => Some((0.0, 268.0))
    case BallSpeedKph => Some((0.0, 430.0))
    case BallSpeedMps => Some((0.0, 120.0))
    case ClubSpeedMph => Some((0.0, 230.0))
    case ClubSpeedKph => Some((0.0, 370.0))
    case ClubSpeedMps => Some((0.0, 103.0))
    case LaunchDeg => Some((-10.0, 90.0))
    case CarryYd => Some((0.0, 600.0))
    case CarryM => Some((0.0, 550.0))
    case TotalYd => Some((0.0, 700.0))
    case TotalM => Some((0.0, 640.0))
    case DeviationYd => Some((-500.0, 500.0))
    case DeviationM => Some((-500.0, 500.0))
    case DeviationFt => Some((-1500.0, 1500.0))
    case _ => None
  }

  lemma NumberLimitsV2(shot: Json, key: Key, x: real)
    requires Has(shot, LaunchDeg) && NumbersV2(shot) && key in shot.fields && RangeV2(key).Some?
    ensures NumbersV2(Obj(shot.fields[key := Num(x)])) <==> RangeV2(key).value.0 <= x <= RangeV2(key).value.1
  {
    hide OptionalNumber;
    ReplacedNumber(shot, key, x);
  }

  lemma ShotLimitsV2(shot: Json, key: Key, x: real, datetime: string -> bool)
    requires ShotV2(shot, datetime) && key in shot.fields && RangeV2(key).Some?
    ensures ShotV2(Obj(shot.fields[key := Num(x)]), datetime) <==> RangeV2(key).value.0 <= x <= RangeV2(key).value.1
  {
    var later := Obj(shot.fields[key := Num(x)]);
    assert later.fields.Keys == shot.fields.Keys;
    NumberLimitsV2(shot, key, x);
    assert ShotHead(later, datetime) by { hide NumbersV2; }
    hide NumbersV2, RangeV2;
  }

  lemma ReplacedNumber(shot: Json, key: Key, x: real)
    requires shot.Obj? && key in shot.fields
    ensures forall k, low, high ::
              OptionalNumber(Obj(shot.fields[key := Num(x)]), k, low, high)
              == (if k == key then low <= x <= high else OptionalNumber(shot, k, low, high))
  {
    var later := Obj(shot.fields[key := Num(x)]);
    forall k, low, high
      ensures OptionalNumber(later, k, low, high) == if k == key then low <= x <= high else OptionalNumber(shot, k, low, high)
    {
      if k != key { assert k in later.fields <==> k in shot.fields; }
    }
  }

  lemma EnvelopeWithNumber(raw: Json, key: Key, x: real)
    requires Envelope(raw, {UserToken, ShotKey}, {}) && raw.fields[Data].fields[ShotKey].Obj?
    ensures Envelope(WithNumber(raw, key, x), {UserToken, ShotKey}, {})
    ensures var data, later := raw.fields[Data], WithNumber(raw, key, x).fields[Data];
            && later.fields[UserToken] == data.fields[UserToken]
            && later.fields[ShotKey] == Obj(data.fields[ShotKey].fields[key := Num(x)])
  {
    var data, later := raw.fields[Data], WithNumber(raw, key, x).fields[Data];
    assert later.fields.Keys == data.fields.Keys && WithNumber(raw, key, x).fields.Keys == raw.fields.Keys;
  }

  /** In an accepted V2 payload each number can be replaced by any other of its range, and by no other. */
  lemma LimitsOfV2(raw: Json, key: Key, x: real, datetime: string -> bool)
    requires AcceptsV2(raw, datetime) && key in raw.fields[Data].fields[ShotKey].fields && RangeV2(key).Some?
    ensures AcceptsV2(WithNumber(raw, key, x), datetime) <==> RangeV2(key).value.0 <= x <= RangeV2(key).value.1
  {
    ShotLimitsV2(raw.fields[Data].fields[ShotKey], key, x, datetime);
    EnvelopeWithNumber(raw, key, x);
    hide ShotV2, RangeV2, WithNumber, Envelope;
  }

  lemma ShotLimitsV3(shot: Json, key: Key, x: real, datetime: string -> bool)
    requires ShotV3(shot, datetime) && key in shot.fields && (key == LaunchAngle || key == SpinRpm)
    ensures ShotV3(Obj(shot.fields[key := Num(x)]), datetime) <==>
              if key == LaunchAngle then -10.0 <= x <= 90.0 else 0.0 <= x <= 15000.0 && x.Floor as real == x
  {
    hide BallSpeedOk, ClubSpeedOk, DistanceOk;
    var later := Obj(shot.fields[key := Num(x)]);
    assert later.fields.Keys == shot.fields.Keys;
    assert ShotHead(later, datetime) && NestedMeasurements(later);
  }

  /** In an accepted V3 payload the launch angle can be any angle from -10 to 90 degrees, the spin any whole
      number up to 15000, and the player's id any text of 1 to 255 characters, and nothing else. */
  lemma LimitsOfV3(raw: Json, key: Key, x: real, id: Json, datetime: string -> bool)
    requires AcceptsV3(raw, datetime)
    ensures key in raw.fields[Data].fields[ShotKey].fields && (key == LaunchAngle || key == SpinRpm) ==>
              (AcceptsV3(WithNumber(raw, key, x), datetime) <==>
                 if key == LaunchAngle then -10.0 <= x <= 90.0 else 0.0 <= x <= 15000.0 && x.Floor as real == x)
    ensures AcceptsV3(WithPlayer(raw, id), datetime) <==> id.Str? && 1 <= |id.s| <= 255
  {
    PlayerLimits(raw, id, datetime);
    if key in raw.fields[Data].fields[ShotKey].fields && (key == LaunchAngle || key == SpinRpm) {
      NumberLimitsV3(raw, key, x, datetime);
    }
    hide AcceptsV3, WithNumber, WithPlayer;
  }

  function WithPlayer(raw: Json, id: Json): Json
    requires Has(raw, Data) && raw.fields[Data].Obj?
  {
    Obj(raw.fields[Data := Obj(raw.fields[Data].fields[Player := Obj(map[Id := id])])])
  }

  lemma PlayerLimits(raw: Json, id: Json, datetime: string -> bool)
    requires AcceptsV3(raw, datetime)
    ensures AcceptsV3(WithPlayer(raw, id), datetime) <==> id.Str? && 1 <= |id.s| <= 255
  {
    hide ShotV3;
    var data, later := raw.fields[Data], WithPlayer(raw, id);
    assert later.fields.Keys == raw.fields.Keys && later.fields[Data].fields.Keys == data.fields.Keys;
    assert Identified(later.fields[Data].fields[Player]) <==> id.Str? && 1 <= |id.s| <= 255;
    hide Identified;
  }

  lemma NumberLimitsV3(raw: Json, key: Key, x: real, datetime: string -> bool)
    requires AcceptsV3(raw, datetime) && key in raw.fields[Data].fields[ShotKey].fields
    requires key == LaunchAngle || key == SpinRpm
    ensures AcceptsV3(WithNumber(raw, key, x), datetime) <==>
              if key == LaunchAngle then -10.0 <= x <= 90.0 else 0.0 <= x <= 15000.0 && x.Floor as real == x
  {
    var data, later := raw.fields[Data], WithNumber(raw, key, x);
    ShotLimitsV3(data.fields[ShotKey], key, x, datetime);
    hide ShotV3, Identified;
    assert later.fields.Keys == raw.fields.Keys && later.fields[Data].fields.Keys == data.fields.Keys;
  }

  // ----- V3 payloads written in the V1 format -----

  /** launch_angle becomes a nested launch in degrees, and spin_rpm has no place in V1. */
  function ShotV3AsV1(shot: Json): Json
    requires Has(shot, LaunchAngle)
  {
    Obj((shot.fields - {LaunchAngle, SpinRpm})
          [Launch := Obj(map[ValueKey := shot.fields[LaunchAngle], Unit := Str("deg")])])
  }

  /** The player's id becomes the user token, and the device is dropped. */
  function AsV1(raw: Json, datetime: string -> bool): Json
    requires AcceptsV3(raw, datetime)
  {
    var data := raw.fields[Data].fields;
    Obj(map[Type := Str("shot.recorded"),
            Data := Obj(map[UserToken := data[Player].fields[Id], ShotKey := ShotV3AsV1(data[ShotKey])])])
  }

  lemma V3ShotBecomesV1(shot: Json, datetime: string -> bool)
    requires ShotV3(shot, datetime)
    ensures ShotV1(ShotV3AsV1(shot), datetime)
  {
    hide BallSpeedOk, ClubSpeedOk, DistanceOk;
    var later := ShotV3AsV1(shot);
    assert later.fields.Keys == (shot.fields.Keys - {LaunchAngle, SpinRpm}) + {Launch};
    assert Measured(later.fields[Launch], -10.0, 90.0, {"deg"});
  }

  lemma V3ShotIsCanonical(raw: Json, datetime: string -> bool)
    requires AcceptsV3(raw, datetime)
    ensures var shot := raw.fields[Data].fields[ShotKey];
            ShotV1(ShotV3AsV1(shot), datetime) && CanonicalOf(FromV3(raw, datetime), ShotV3AsV1(shot), datetime)
  {
    V3ShotBecomesV1(raw.fields[Data].fields[ShotKey], datetime);
    hide NestedMeasurements, ShotHead, ShotV1;
  }

  /** Converting a V3 payload loses the device, and the spin is kept beside it; nothing else changes. */
  lemma V3IsV1InDisguise(raw: Json, datetime: string -> bool)
    requires AcceptsV3(raw, datetime)
    ensures Rendered(FromV3(raw, datetime)) == AsV1(raw, datetime)
    ensures var spin, fields := FromV3(raw, datetime).spinRpm, raw.fields[Data].fields[ShotKey].fields;
            (spin.Some? <==> SpinRpm in fields) && (spin.Some? ==> fields[SpinRpm] == Num(spin.value))
  {
    var c, shot := FromV3(raw, datetime), raw.fields[Data].fields[ShotKey];
    V3ShotIsCanonical(raw, datetime);
    assert Str(c.userToken) == raw.fields[Data].fields[Player].fields[Id];
    hide ShotV1, CanonicalOf, ShotJson, ShotV3AsV1, ShotV3, FromV3;
    ShotRoundTrip(ShotV3AsV1(shot), datetime, c);
  }

  lemma EnvelopeOf(token: Json, shot: Json)
    ensures var raw := Obj(map[Type := Str("shot.recorded"), Data := Obj(map[UserToken := token, ShotKey := shot])]);
            && Envelope(raw, {UserToken, ShotKey}, {})
            && raw.fields[Data].fields[UserToken] == token && raw.fields[Data].fields[ShotKey] == shot
  {
  }

  lemma PlayerOf(raw: Json, datetime: string -> bool)
    requires AcceptsV3(raw, datetime)
    ensures TextOf(raw.fields[Data].fields[Player].fields[Id], 1, 255)
  {
    hide ShotV3, TextOf;
  }

  /** As a V1 payload it would be rejected exactly when the player's id is shorter than a user token. */
  lemma V3AsV1IsAcceptedIffTheIdIsLong(raw: Json, datetime: string -> bool)
    requires AcceptsV3(raw, datetime)
    ensures AcceptsV1(AsV1(raw, datetime), datetime) <==> 8 <= |raw.fields[Data].fields[Player].fields[Id].s|
  {
    var token, shot := raw.fields[Data].fields[Player].fields[Id], raw.fields[Data].fields[ShotKey];
    PlayerOf(raw, datetime);
    V3ShotBecomesV1(shot, datetime);
    EnvelopeOf(token, ShotV3AsV1(shot));
    hide Envelope, AcceptsV3, ShotV1, ShotV3, ShotV3AsV1, Strict, Identified;
  }

  // ----- Which variant of a V2 field is taken -----

  /** The variants of a measurement, the preferred one first. */
  const BALL_SPEEDS := [(BallSpeedMph, "mph"), (BallSpeedKph, "kph"), (BallSpeedMps, "mps")]
  const CLUB_SPEEDS := [(ClubSpeedMph, "mph"), (ClubSpeedKph, "kph"), (ClubSpeedMps, "mps")]
  const CARRIES := [(CarryYd, "yd"), (CarryM, "m")]
  const TOTALS := [(TotalYd, "yd"), (TotalM, "m")]
  const DEVIATIONS := [(DeviationYd, "yd"), (DeviationM, "m"), (DeviationFt, "ft")]

  /** The measure is the stated one of the first variant that is present. */
  ghost predicate Chosen(fields: map<Key, Json>, variants: seq<(Key, string)>, m: Measure) {
    exists i | 0 <= i < |variants| ::
      && variants[i].0 in fields && fields[variants[i].0] == Num(m.value) && m.unit == variants[i].1
      && forall j | 0 <= j < i :: variants[j].0 !in fields
  }

  ghost predicate ChosenIfAny(fields: map<Key, Json>, variants: seq<(Key, string)>, m: Option<Measure>) {
    if m.Some? then Chosen(fields, variants, m.value)
    else forall v | v in variants :: v.0 !in fields
  }

  lemma ChosenAt(fields: map<Key, Json>, variants: seq<(Key, string)>, i: nat, m: Measure)
    requires i < |variants| && variants[i].0 in fields && fields[variants[i].0] == Num(m.value) && m.unit == variants[i].1
    requires forall j | 0 <= j < i :: variants[j].0 !in fields
    ensures Chosen(fields, variants, m)
  {
  }

  lemma V2TakesThePreferredVariants(raw: Json, datetime: string -> bool)
    requires AcceptsV2(raw, datetime)
    ensures var c, fields := FromV2(raw, datetime), raw.fields[Data].fields[ShotKey].fields;
            && Chosen(fields, BALL_SPEEDS, c.ballSpeed)
            && Chosen(fields, CARRIES, c.carry)
            && Chosen(fields, DEVIATIONS, c.deviation)
            && ChosenIfAny(fields, CLUB_SPEEDS, c.clubSpeed)
            && ChosenIfAny(fields, TOTALS, c.total)
            && raw.fields[Data].fields[UserToken] == Str(c.userToken)
            && fields[Id] == Str(c.id) && fields[OccurredAt] == Str(c.occurredAt) && fields[ClubCode] == Str(c.clubCode)
            && fields[LaunchDeg] == Num(c.launch.value) && c.launch.unit == "deg" && c.spinRpm.None?
  {
    hide Chosen, ChosenIfAny;
    var c, s := FromV2(raw, datetime), raw.fields[Data].fields[ShotKey].fields;
    ChosenAt(s, BALL_SPEEDS, if BallSpeedMph in s then 0 else if BallSpeedKph in s then 1 else 2, c.ballSpeed);
    ChosenAt(s, CARRIES, if CarryYd in s then 0 else 1, c.carry);
    ChosenAt(s, DEVIATIONS, if DeviationYd in s then 0 else if DeviationM in s then 1 else 2, c.deviation);
    V2TakesThePreferredOptionals(raw, datetime);
  }

  lemma V2TakesThePreferredOptionals(raw: Json, datetime: string -> bool)
    requires AcceptsV2(raw, datetime)
    ensures var c, fields := FromV2(raw, datetime), raw.fields[Data].fields[ShotKey].fields;
            ChosenIfAny(fields, CLUB_SPEEDS, c.clubSpeed) && ChosenIfAny(fields, TOTALS, c.total)
  {
    hide Chosen;
    var c, s := FromV2(raw, datetime), raw.fields[Data].fields[ShotKey].fields;
    if c.clubSpeed.Some? {
      ChosenAt(s, CLUB_SPEEDS, if ClubSpeedMph in s then 0 else if ClubSpeedKph in s then 1 else 2, c.clubSpeed.value);
    }
    if c.total.Some? {
      ChosenAt(s, TOTALS, if TotalYd in s then 0 else 1, c.total.value);
    }
  }
}
