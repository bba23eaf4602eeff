/** The content hash of a shot and the keys of its job (src/ingestion/content-hash.ts and the parsers).

    SHA-256 is taken to be injective, so a hash is modelled by its preimage.  Calendar printing is left
    out: the minute of an instant is printed as a number where the program prints "2024-03-15T10:30";
    all that is used of either text is that it determines the minute and contains no '|'. */
module ContentHash {
  import opened Domain

  // ----- Printing numbers -----

  function Digits(n: nat): (s: string)
    ensures s != "" && forall c | c in s :: '0' <= c <= '9'
  {
    var last := [('0' as int + n % 10) as char];
    if n < 10 then last else Digits(n / 10) + last
  }

  function Integer(n: int): (s: string)
    ensures '|' !in s
  {
    if n < 0 then "-" + Digits(-n) else Digits(n)
  }

  /** Number.prototype.toFixed(1) of n tenths. */
  function Tenths(n: int): (s: string)
    ensures '|' !in s
  {
    var m: nat := if n < 0 then -n else n;
    (if n < 0 then "-" else "") + Digits(m / 10) + "." + Digits(m % 10)
  }

  lemma {:induction false} DigitsDetermineTheNumber(m: nat, n: nat)
    requires Digits(m) == Digits(n)
    ensures m == n
  {
    var s, t := Digits(m), Digits(n);
    LastDigit(m);
    LastDigit(n);
    if m >= 10 && n >= 10 {
      assert Digits(m / 10) == s[..|s| - 1] == t[..|t| - 1] == Digits(n / 10);
      DigitsDetermineTheNumber(m / 10, n / 10);
    }
  }

  lemma LastDigit(n: nat)
    ensures var s := Digits(n); s[|s| - 1] as int == '0' as int + n % 10
    ensures var s := Digits(n); |s| == 1 <==> n < 10
  {
  }

  function Abs(n: int): nat {
    if n < 0 then -n else n
  }

  lemma DigitsHaveNoSign(n: nat)
    ensures Digits(n)[0] != '-'
  {
    assert Digits(n)[0] in Digits(n);
  }

  /** A sign and the digits that follow it are told apart by the first character. */
  lemma SignedDigits(m: int, x: string, n: int, y: string)
    requires x != "" && x[0] != '-' && y != "" && y[0] != '-'
    requires (if m < 0 then "-" else "") + x == (if n < 0 then "-" else "") + y
    ensures (m < 0 <==> n < 0) && x == y
  {
    var s, t := (if m < 0 then "-" else "") + x, (if n < 0 then "-" else "") + y;
    assert s[0] == t[0];
    assert x == s[if m < 0 then 1 else 0..] && y == t[if n < 0 then 1 else 0..];
  }

  lemma IntegerDeterminesTheNumber(m: int, n: int)
    requires Integer(m) == Integer(n)
    ensures m == n
  {
    hide Digits;
    DigitsHaveNoSign(Abs(m));
    DigitsHaveNoSign(Abs(n));
    assert "" + Digits(Abs(m)) == Digits(Abs(m)) && "" + Digits(Abs(n)) == Digits(Abs(n));
    SignedDigits(m, Digits(Abs(m)), n, Digits(Abs(n)));
    DigitsDetermineTheNumber(Abs(m), Abs(n));
  }

  // ----- Taking joined texts apart -----

  lemma LastFieldIsDetermined(x: string, f: string, y: string, g: string, c: char)
    requires x + [c] + f == y + [c] + g && c !in f && c !in g
    ensures x == y && f == g
  {
    var s := x + [c] + f;
    assert s[|x|] == c && s[|y|] == c;
    assert forall i | |x| < i < |s| :: s[i] == f[i - |x| - 1];
    assert forall i | |y| < i < |s| :: s[i] == g[i - |y| - 1];
    assert x == s[..|x|] && y == s[..|y|];
    assert f == s[|x| + 1..] && g == s[|y| + 1..];
  }

  lemma TenthsDetermineTheNumber(m: int, n: int)
    requires Tenths(m) == Tenths(n)
    ensures m == n
  {
    hide Digits;
    var a, b := Digits(Abs(m) / 10), Digits(Abs(n) / 10);
    var x, y := (if m < 0 then "-" else "") + a, (if n < 0 then "-" else "") + b;
    LastFieldIsDetermined(x, Digits(Abs(m) % 10), y, Digits(Abs(n) % 10), '.');
    DigitsHaveNoSign(Abs(m) / 10);
    DigitsHaveNoSign(Abs(n) / 10);
    SignedDigits(m, a, n, b);
    DigitsDetermineTheNumber(Abs(m) / 10, Abs(n) / 10);
    DigitsDetermineTheNumber(Abs(m) % 10, Abs(n) % 10);
  }

  // ----- The preimage -----

  datatype HashInput = HashInput(
    vendorUserId: string,
    club: string,
    minute: int,
    speedTenths: int,
    angleTenths: int,
    carryUnits: int,
    lateralUnits: int)

  function Preimage(h: HashInput): string {
    h.vendorUserId + "|" + h.club + "|" + Integer(h.minute)
    + "|" + Tenths(h.speedTenths) + "|" + Tenths(h.angleTenths)
    + "|" + Integer(h.carryUnits) + "|" + Integer(h.lateralUnits)
  }

  /** The joined text determines all seven parts, also when the user id itself contains '|'. */
  lemma PreimageIsInjective(a: HashInput, b: HashInput)
    requires '|' !in a.club && '|' !in b.club
    requires Preimage(a) == Preimage(b)
    ensures a == b
  {
    var a1, b1 := a.vendorUserId + "|" + a.club, b.vendorUserId + "|" + b.club;
    var a2, b2 := a1 + "|" + Integer(a.minute), b1 + "|" + Integer(b.minute);
    var a3, b3 := a2 + "|" + Tenths(a.speedTenths), b2 + "|" + Tenths(b.speedTenths);
    var a4, b4 := a3 + "|" + Tenths(a.angleTenths), b3 + "|" + Tenths(b.angleTenths);
    var a5, b5 := a4 + "|" + Integer(a.carryUnits), b4 + "|" + Integer(b.carryUnits);
    hide Integer, Tenths;
    LastFieldIsDetermined(a5, Integer(a.lateralUnits), b5, Integer(b.lateralUnits), '|');
    LastFieldIsDetermined(a4, Integer(a.carryUnits), b4, Integer(b.carryUnits), '|');
    LastFieldIsDetermined(a3, Tenths(a.angleTenths), b3, Tenths(b.angleTenths), '|');
    LastFieldIsDetermined(a2, Tenths(a.speedTenths), b2, Tenths(b.speedTenths), '|');
    LastFieldIsDetermined(a1, Integer(a.minute), b1, Integer(b.minute), '|');
    LastFieldIsDetermined(a.vendorUserId, a.club, b.vendorUserId, b.club, '|');
    IntegerDeterminesTheNumber(a.lateralUnits, b.lateralUnits);
    IntegerDeterminesTheNumber(a.carryUnits, b.carryUnits);
    IntegerDeterminesTheNumber(a.minute, b.minute);
    TenthsDetermineTheNumber(a.angleTenths, b.angleTenths);
    TenthsDetermineTheNumber(a.speedTenths, b.speedTenths);
  }

  /** Math.round: to the nearest integer, halves upwards. */
  function Round(x: real): (n: int)
    ensures x - 0.5 < n as real <= x + 0.5
  {
    (x + 0.5).Floor
  }

  function Minute(ms: int): (minute: int)
    ensures 60_000 * minute <= ms < 60_000 * (minute + 1)
  {
    ms / 60_000
  }

  /** The hash input of a shot, with its instant replaced by the given one. */
  function InputAt(shot: Shot, ms: int): HashInput {
    HashInput(shot.vendorUserId, shot.club, Minute(ms),
              Round(10.0 * shot.ballSpeed), Round(10.0 * shot.launchAngle), Round(shot.carry), Round(shot.lateral))
  }

  function HashAt(shot: Shot, ms: int): string {
    Preimage(InputAt(shot, ms))
  }

  /** What every parser guarantees of the shots it produces. */
  predicate WellHashed(shot: Shot) {
    shot.club in VALID_CLUB_CODES && shot.contentHash == HashAt(shot, shot.capturedAt)
  }

  /** Equal user, club and rounded measurements. */
  predicate SameContent(a: Shot, b: Shot) {
    && a.vendorUserId == b.vendorUserId && a.club == b.club
    && Round(10.0 * a.ballSpeed) == Round(10.0 * b.ballSpeed)
    && Round(10.0 * a.launchAngle) == Round(10.0 * b.launchAngle)
    && Round(a.carry) == Round(b.carry)
    && Round(a.lateral) == Round(b.lateral)
  }

  /** Equal hashes are equal users, clubs and minutes, speeds and angles that agree to a tenth, and distances
      that agree to a unit. */
  lemma EqualHashes(a: Shot, s: int, b: Shot, t: int)
    requires a.club in VALID_CLUB_CODES && b.club in VALID_CLUB_CODES
    ensures HashAt(a, s) == HashAt(b, t) <==> SameContent(a, b) && s / 60_000 == t / 60_000
    ensures HashAt(a, s) == HashAt(b, t) <==>
              && a.vendorUserId == b.vendorUserId && a.club == b.club && s / 60_000 == t / 60_000
              && (10.0 * a.ballSpeed + 0.5).Floor == (10.0 * b.ballSpeed + 0.5).Floor
              && (10.0 * a.launchAngle + 0.5).Floor == (10.0 * b.launchAngle + 0.5).Floor
              && (a.carry + 0.5).Floor == (b.carry + 0.5).Floor
              && (a.lateral + 0.5).Floor == (b.lateral + 0.5).Floor
  {
    hide Preimage;
    assert '|' !in a.club && '|' !in b.club;
    if HashAt(a, s) == HashAt(b, t) {
      PreimageIsInjective(InputAt(a, s), InputAt(b, t));
    } else {
      assert InputAt(a, s) != InputAt(b, t);
    }
  }

  // ----- Job keys -----

  datatype Source =
    | TrackProShot(uid: string)
    | SwingMetricShot(player: string, device: string, second: int)
    | ProSwingShot(token: string, shotId: string)

  function JobKey(s: Source): string {
    match s
    case TrackProShot(uid) => "tp|" + uid
    case SwingMetricShot(player, device, second) => "sm|" + player + "|" + device + "|" + Integer(second)
    case ProSwingShot(token, shotId) => "ps|" + token + "|" + shotId
  }

  /** The two texts that a key joins, for the vendors that join two. */
  function First(s: Source): string
    requires !s.TrackProShot?
  {
    if s.SwingMetricShot? then s.player else s.token
  }

  function Second(s: Source): string
    requires !s.TrackProShot?
  {
    if s.SwingMetricShot? then s.device else s.shotId
  }

  function Joined(s: Source): string
    requires !s.TrackProShot?
  {
    First(s) + "|" + Second(s)
  }

  /** Equal keys: the same vendor, the same joined texts and, for SwingMetric, the same second. */
  lemma EqualKeys(a: Source, b: Source)
    ensures JobKey(a) == JobKey(b) <==>
              if a.TrackProShot? then b == a
              else if a.SwingMetricShot? then b.SwingMetricShot? && b.second == a.second && Joined(b) == Joined(a)
              else b.ProSwingShot? && Joined(b) == Joined(a)
  {
    match a
    case TrackProShot(uid) => EqualTrackProKeys(uid, b);
    case SwingMetricShot(_, _, _) => EqualSwingMetricKeys(a, b);
    case ProSwingShot(_, _) => EqualProSwingKeys(a, b);
  }

  lemma EqualTrackProKeys(uid: string, b: Source)
    ensures JobKey(TrackProShot(uid)) == JobKey(b) <==> b == TrackProShot(uid)
  {
    var k := JobKey(TrackProShot(uid));
    assert k[0] == 't' && k[3..] == uid;
    if b.TrackProShot? { assert JobKey(b)[3..] == b.uid; } else { assert JobKey(b)[0] != 't'; }
  }

  lemma SwingMetricKey(s: Source)
    requires s.SwingMetricShot?
    ensures JobKey(s) == "sm|" + Joined(s) + "|" + Integer(s.second)
  {
    var i := Integer(s.second);
    hide Integer;
    assert "sm|" + s.player + "|" + s.device + "|" + i == "sm|" + (s.player + "|" + s.device) + "|" + i;
  }

  lemma EqualSwingMetricKeys(a: Source, b: Source)
    requires a.SwingMetricShot?
    ensures JobKey(a) == JobKey(b) <==> b.SwingMetricShot? && b.second == a.second && Joined(b) == Joined(a)
  {
    SwingMetricKey(a);
    assert JobKey(a)[0] == 's';
    if b.SwingMetricShot? {
      SwingMetricKey(b);
      hide Integer, JobKey, Joined;
      var x, y := "sm|" + Joined(a), "sm|" + Joined(b);
      assert x[3..] == Joined(a) && y[3..] == Joined(b);
      if JobKey(a) == JobKey(b) {
        LastFieldIsDetermined(x, Integer(a.second), y, Integer(b.second), '|');
        IntegerDeterminesTheNumber(a.second, b.second);
      }
    } else {
      assert JobKey(b)[0] != 's';
    }
  }

  lemma EqualProSwingKeys(a: Source, b: Source)
    requires a.ProSwingShot?
    ensures JobKey(a) == JobKey(b) <==> b.ProSwingShot? && Joined(b) == Joined(a)
  {
    assert JobKey(a)[0] == 'p';
    assert JobKey(a) == "ps|" + Joined(a);
    assert JobKey(a)[3..] == Joined(a);
    if b.ProSwingShot? {
      assert JobKey(b) == "ps|" + Joined(b);
      assert JobKey(b)[3..] == Joined(b);
    } else {
      assert JobKey(b)[0] != 'p';
    }
  }

  /** The same joined texts, divided at another separator. */
  function Redivided(s: Source, p: nat): Source
    requires !s.TrackProShot? && p < |Joined(s)|
  {
    var first, second := Joined(s)[..p], Joined(s)[p + 1..];
    if s.SwingMetricShot? then SwingMetricShot(first, second, s.second) else ProSwingShot(first, second)
  }

  lemma RedividedKey(s: Source, p: nat)
    requires !s.TrackProShot? && p < |Joined(s)| && Joined(s)[p] == '|'
    ensures JobKey(Redivided(s, p)) == JobKey(s)
    ensures Redivided(s, p) == s <==> p == |First(s)|
  {
    var joined, r := Joined(s), Redivided(s, p);
    assert joined[..p] + "|" + joined[p + 1..] == joined;
    assert joined[..|First(s)|] == First(s) && joined[|First(s)| + 1..] == Second(s);
    assert |First(r)| == p;
    hide JobKey, Joined;
    EqualKeys(s, r);
  }

  lemma SharedKeysAreRedivided(a: Source, b: Source)
    requires !a.TrackProShot? && JobKey(a) == JobKey(b)
    ensures !b.TrackProShot? && |First(b)| < |Joined(a)|
    ensures Joined(a)[|First(b)|] == '|' && b == Redivided(a, |First(b)|)
  {
    hide JobKey;
    EqualKeys(a, b);
    assert Joined(b)[..|First(b)|] == First(b) && Joined(b)[|First(b)| + 1..] == Second(b);
  }

  /** A joined text contains the separator. */
  predicate HasSeparator(s: Source) {
    !s.TrackProShot? && ('|' in First(s) || '|' in Second(s))
  }

  lemma SeparatorElsewhere(s: Source)
    requires !s.TrackProShot?
    ensures HasSeparator(s) <==> exists p :: 0 <= p < |Joined(s)| && Joined(s)[p] == '|' && p != |First(s)|
  {
    var joined, n := Joined(s), |First(s)|;
    if '|' in First(s) {
      var q :| 0 <= q < n && First(s)[q] == '|';
      assert joined[q] == '|';
    } else if '|' in Second(s) {
      var q :| 0 <= q < |Second(s)| && Second(s)[q] == '|';
      assert joined[n + 1 + q] == '|';
    }
    if p :| 0 <= p < |joined| && joined[p] == '|' && p != n {
      assert if p < n then First(s)[p] == '|' else Second(s)[p - n - 1] == '|';
    }
  }

  /** A shot shares its key with another one exactly if one of the joined texts contains the separator; in
      particular keys of different vendors never collide. */
  lemma KeysAreSharedIffATextHasTheSeparator(a: Source)
    ensures (exists b :: b != a && JobKey(b) == JobKey(a)) <==> HasSeparator(a)
  {
    hide JobKey, HasSeparator, Joined, Redivided;
    if a.TrackProShot? {
      forall b | b != a ensures JobKey(b) != JobKey(a) { EqualTrackProKeys(a.uid, b); }
      NoSeparatorInTrackPro(a);
    } else {
      SeparatorElsewhere(a);
      if b :| b != a && JobKey(b) == JobKey(a) {
        SharedKeysAreRedivided(a, b);
        RedividedKey(a, |First(b)|);
      }
      if HasSeparator(a) {
        var p :| 0 <= p < |Joined(a)| && Joined(a)[p] == '|' && p != |First(a)|;
        RedividedKey(a, p);
      }
    }
  }

  lemma NoSeparatorInTrackPro(a: Source)
    requires a.TrackProShot?
    ensures !HasSeparator(a)
  {
  }

  /** The lengths that the schemas allow; a ProSwing token is a user_token or a player id. */
  predicate WithinLimits(s: Source) {
    !s.TrackProShot? ==> 1 <= |First(s)| <= 255 && 1 <= |Second(s)| <= 255
  }

  /** Among the shots that can be received, the separator must also leave two texts of admissible length. */
  lemma ReceivedKeysAreSharedIff(a: Source)
    requires !a.TrackProShot? && WithinLimits(a)
    ensures (exists b :: WithinLimits(b) && b != a && JobKey(b) == JobKey(a))
       <==> exists p :: 1 <= p <= 255 && 1 <= |Joined(a)| - p - 1 <= 255 && Joined(a)[p] == '|' && p != |First(a)|
  {
    hide JobKey, Joined, Redivided, WithinLimits;
    if b :| WithinLimits(b) && b != a && JobKey(b) == JobKey(a) {
      SharedKeysAreRedivided(a, b);
      RedividedKey(a, |First(b)|);
      RedividedLimits(a, |First(b)|);
    }
    if p :| 1 <= p <= 255 && 1 <= |Joined(a)| - p - 1 <= 255 && Joined(a)[p] == '|' && p != |First(a)| {
      RedividedKey(a, p);
      RedividedLimits(a, p);
    }
  }

  lemma RedividedLimits(s: Source, p: nat)
    requires !s.TrackProShot? && p < |Joined(s)|
    ensures WithinLimits(Redivided(s, p)) <==> 1 <= p <= 255 && 1 <= |Joined(s)| - p - 1 <= 255
  {
  }

  /** Two pairs of shots that can be received; the first ProSwing shot is a V3 one of that player. */
  lemma SharedKeys()
    ensures JobKey(SwingMetricShot("a|b", "c", 0)) == JobKey(SwingMetricShot("a", "b|c", 0))
    ensures JobKey(ProSwingShot("player-1|b", "c")) == JobKey(ProSwingShot("player-1", "b|c"))
  {
    assert "sm|" + "a|b" + "|" + "c" == "sm|" + "a" + "|" + "b|c";
    assert "ps|" + "player-1|b" + "|" + "c" == "ps|" + "player-1" + "|" + "b|c";
  }
}
