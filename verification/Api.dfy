/** The check-in endpoint of the web API: validation of one posted check-in
    against the station directory and the clock, the insert that follows,
    and the classification of a station lookup query. The request body is
    the parsed JSON value; `now` is the server's local wall-clock time. */
module Api {
  import opened Base
  import opened Numbers
  import opened Calendar
  import opened Values
  import opened TimeFields
  import opened TimeExamples
  import opened Stations
  import opened Checkins

  /** Why a request fails: the rejections the endpoint reports with status
      400 and a message, or an exception nothing catches (status 500). */
  datatype ApiError =
    | InvalidData
    | InvalidNumber
    | LimitExceeded
    | InvalidLocation
    | InvalidDate
    | FutureTime
    | Uncaught(exception: PyException)

  function Message(e: ApiError): string
  {
    match e
    case InvalidData => "Invalid data received"
    case InvalidNumber => "Invalid number"
    case LimitExceeded => "Charging/blocked cannot be larger than stalls"
    case InvalidLocation => "Invalid location"
    case InvalidDate => "Invalid date"
    case FutureTime => "Time cannot be in the future"
    case Uncaught(_) => "Internal Server Error"
  }

  function StatusCode(e: ApiError): nat
  {
    if e.Uncaught? then 500 else 400
  }

  /** An exception raised by a Python operation, passed on uncaught. */
  function Raise<T>(r: Result<T, PyException>): (q: Result<T, ApiError>)
    ensures r.Ok? ==> q == Ok(r.value)
    ensures r.Err? ==> q == Err(Uncaught(r.error))
  {
    match r
    case Ok(v) => Ok(v)
    case Err(e) => Err(Uncaught(e))
  }

  const RequiredKeys: seq<string> := ["time", "locationId", "title", "stalls", "charging", "blocked", "waiting"]
  const CountKeys: seq<string> := ["stalls", "charging", "blocked", "waiting"]

  /** `all(k in body for k in keys)`: stops at the first missing key; `in`
      on a value that is not a container raises at the first key. */
  function AllKeysPresent(body: Value, keys: seq<string>): (r: Result<bool, PyException>)
    ensures r.Err? <==> |keys| > 0 && !(body.VDict? || body.VList? || body.VStr?)
    ensures body.VDict? ==> r == Ok(forall i :: 0 <= i < |keys| ==> HasKey(body.entries, keys[i]))
  {
    if |keys| == 0 then Ok(true)
    else
      var here :- Contains(body, keys[0]);
      if !here then Ok(false)
      else
        var rest := AllKeysPresent(body, keys[1..]);
        assert body.VDict? ==> (forall i :: 0 <= i < |keys| ==> HasKey(body.entries, keys[i])) ==
          (forall i :: 0 <= i < |keys[1..]| ==> HasKey(body.entries, keys[1..][i])) by {
          if body.VDict? && forall i :: 0 <= i < |keys[1..]| ==> HasKey(body.entries, keys[1..][i]) {
            forall i | 0 < i < |keys| ensures HasKey(body.entries, keys[i]) {
              assert keys[i] == keys[1..][i - 1];
            }
          }
        }
        rest
  }

  /** Python's `int(v)` on a JSON value: integers as they are, booleans as
      0 and 1, text through `int()` parsing (ValueError when it is not a
      number); anything else is a TypeError. */
  function PyInt(v: Value): (r: Result<int, PyException>)
    ensures r.Err? ==> r.error == (if v.VStr? then ValueError else TypeError)
    ensures v.VStr? ==> (r.Ok? <==> ParseInt(v.s).Some?) && (r.Ok? ==> r.value == ParseInt(v.s).value)
    ensures v.VInt? ==> r == Ok(v.i)
    ensures v.VBool? ==> r == Ok(if v.b then 1 else 0)
    ensures !(v.VInt? || v.VBool? || v.VStr?) ==> r == Err(TypeError)
  {
    match v
    case VInt(i) => Ok(i)
    case VBool(b) => Ok(if b then 1 else 0)
    case VStr(s) =>
      (match ParseInt(s)
       case Some(n) => Ok(n)
       case None => Err(ValueError))
    case _ => Err(TypeError)
  }

  /** `validate_int`: the parsed value when it is not negative. */
  function ValidateInt(v: Value): (r: Result<int, ApiError>)
    ensures r.Ok? <==> PyInt(v).Ok? && PyInt(v).value >= 0
    ensures r.Ok? ==> r.value == PyInt(v).value
    ensures r == Err(InvalidNumber) <==> PyInt(v).Ok? && PyInt(v).value < 0
    ensures PyInt(v).Err? ==> r == Err(Uncaught(PyInt(v).error))
  {
    var n :- Raise(PyInt(v));
    if n < 0 then Err(InvalidNumber) else Ok(n)
  }

  /** A count sent as its decimal text comes back unchanged. */
  lemma ValidateIntOfText(n: nat)
    ensures ValidateInt(VStr(ShowNat(n))) == Ok(n as int)
  {
    ParseIntShowNat(n);
    assert PyInt(VStr(ShowNat(n))) == Ok(n as int);
  }

  /** A negative count sent as text is rejected as an invalid number. */
  lemma ValidateIntOfNegativeText(m: string)
    requires |m| > 1 && m[0] == '-' && AllDigits(m[1..]) && DigitsValue(m[1..]) > 0
    ensures ValidateInt(VStr(m)) == Err(InvalidNumber)
  {
    ParseIntOfMinusDigits(m);
    assert PyInt(VStr(m)) == Ok(-(DigitsValue(m[1..]) as int));
  }

  /** A count whose sign is followed by a space is not a number: the
      request ends with an uncaught ValueError, not "Invalid number". */
  lemma ValidateIntSpaceAfterSign(sign: char, r: string)
    requires sign == '+' || sign == '-'
    ensures ValidateInt(VStr([sign, ' '] + r)) == Err(Uncaught(ValueError))
  {
    SpaceAfterSignRejected(sign, r);
  }

  /** `validate_date`: the shape check, the parse, and the rejection of a
      time later than one hour from `now`. */
  function ValidateDate(v: Value, now: DateTime): (r: Result<DateTime, ApiError>)
    requires Valid(now)
    ensures r.Ok? ==> v.VStr? && MatchesTimePattern(v.s) && ParseIso(v.s) == Some(r.value)
    ensures r.Ok? ==> AddHour(now).Some? && !After(r.value, AddHour(now).value)
    ensures r == Err(InvalidDate) <==> v.VStr? && !MatchesTimePattern(v.s)
    ensures !v.VStr? ==> r == Err(Uncaught(TypeError))
    ensures v.VStr? && MatchesTimePattern(v.s) && ParseIso(v.s).None? ==> r == Err(Uncaught(ValueError))
    ensures v.VStr? && MatchesTimePattern(v.s) && ParseIso(v.s).Some? && AddHour(now).None? ==> r == Err(Uncaught(OverflowError))
    ensures r.Err? ==> r.error in {InvalidDate, FutureTime} || r.error.Uncaught?
  {
    if !v.VStr? then Err(Uncaught(TypeError))
    else if !MatchesTimePattern(v.s) then Err(InvalidDate)
    else
      match ParseIso(v.s)
      case None => Err(Uncaught(ValueError))
      case Some(d) =>
        match AddHour(now)
        case None => Err(Uncaught(OverflowError))
        case Some(limit) => if After(d, limit) then Err(FutureTime) else Ok(d)
  }

  /** The future check on the timeline: a well-formed time is rejected as
      being in the future exactly when it lies more than one hour after
      `now`, and accepted otherwise. */
  lemma ValidateDateWindow(s: string, now: DateTime)
    requires Valid(now) && AddHour(now).Some?
    requires MatchesTimePattern(s) && ParseIso(s).Some?
    ensures var d := ParseIso(s).value;
      && (ValidateDate(VStr(s), now) == Err(FutureTime) <==> Instant(d) > Instant(now) + HourMicros)
      && (ValidateDate(VStr(s), now) == Ok(d) <==> Instant(d) <= Instant(now) + HourMicros)
  {
    AfterIsTimelineOrder(ParseIso(s).value, AddHour(now).value);
  }

  /** A time exactly one hour from `now` passes, and so does any earlier
      time, however far back: there is no lower bound. */
  lemma ValidateDateBounds(now: DateTime, d: DateTime)
    requires Valid(now) && now.micro % 1000 == 0 && AddHour(now).Some?
    requires Valid(d) && d.micro % 1000 == 0 && Instant(d) <= Instant(now)
    ensures ValidateDate(VStr(FormatIso(AddHour(now).value)), now) == Ok(AddHour(now).value)
    ensures ValidateDate(VStr(FormatIso(d)), now) == Ok(d)
  {
    var limit := AddHour(now).value;
    FormatIsoParses(limit);
    ValidateDateWindow(FormatIso(limit), now);
    FormatIsoParses(d);
    ValidateDateWindow(FormatIso(d), now);
  }

  /** In the last hour of year 9999 `now + 1 hour` overflows, so every
      well-formed time fails with an uncaught OverflowError. */
  lemma ValidateDateOverflow(s: string)
    requires MatchesTimePattern(s) && ParseIso(s).Some?
    ensures ValidateDate(VStr(s), DateTime(9999, 12, 31, 23, 0, 0, 0)) == Err(Uncaught(OverflowError))
  {
  }

  /** Position `i` holds the first station with id `id`. */
  predicate FirstWithId(dir: seq<Station>, id: Value, i: int)
  {
    0 <= i < |dir| && dir[i].locationId == id && forall j :: 0 <= j < i ==> dir[j].locationId != id
  }

  /** `find_one({'locationId': id})`: the first station in the directory
      with that id, of either kind. */
  function FindStation(dir: seq<Station>, id: Value): (r: Option<Station>)
    ensures r.None? <==> forall i :: 0 <= i < |dir| ==> dir[i].locationId != id
    ensures r.Some? ==> exists i :: FirstWithId(dir, id, i) && dir[i] == r.value
  {
    if |dir| == 0 then None
    else if dir[0].locationId == id then Some(dir[0])
    else
      var r := FindStation(dir[1..], id);
      assert r.Some? ==> exists i :: FirstWithId(dir, id, i) && dir[i] == r.value by {
        if r.Some? {
          var i :| FirstWithId(dir[1..], id, i) && dir[1..][i] == r.value;
          assert dir[i + 1] == r.value;
          forall j | 0 <= j < i + 1 ensures dir[j].locationId != id {
            if j > 0 { assert dir[j] == dir[1..][j - 1]; }
          }
        }
      }
      assert r.None? ==> forall i :: 0 <= i < |dir| ==> dir[i].locationId != id by {
        if r.None? {
          forall i | 0 < i < |dir| ensures dir[i].locationId != id {
            assert dir[i] == dir[1..][i - 1];
          }
        }
      }
      r
  }

  /** `validate_location`: the id, unchanged, when the station found for it
      has exactly the submitted stall count and title. */
  function ValidateLocation(dir: seq<Station>, id: Value, stalls: int, title: Value): (r: Result<Value, ApiError>)
    ensures r.Ok? ==> r.value == id
    ensures r.Err? ==> r.error == InvalidLocation
    ensures r.Ok? <==> exists i :: FirstWithId(dir, id, i) && dir[i].stalls == Some(stalls) && dir[i].title == title
  {
    match FindStation(dir, id)
    case None => Err(InvalidLocation)
    case Some(st) =>
      if st.stalls != Some(stalls) || st.title != title then Err(InvalidLocation) else Ok(id)
  }

  /** A station whose stall count could not be read from its listing
      (stored as None) rejects every submission for it. */
  lemma UnknownStallsNeverMatch(dir: seq<Station>, id: Value, stalls: int, title: Value)
    requires FindStation(dir, id).Some? && FindStation(dir, id).value.stalls.None?
    ensures ValidateLocation(dir, id, stalls, title) == Err(InvalidLocation)
  {
  }

  /** The value under `k` in a request body, or null. */
  function Field(body: Value, k: string): Value
  {
    if body.VDict? then
      match Get(body.entries, k)
      case Some(v) => v
      case None => VNull
    else VNull
  }

  /** `validate_int(body[k])`. */
  function ValidateCount(body: Value, k: string): (r: Result<int, ApiError>)
    ensures body.VDict? && HasKey(body.entries, k) ==> r == ValidateInt(Field(body, k))
    ensures !body.VDict? ==> r == Err(Uncaught(TypeError))
  {
    var v :- Raise(Subscript(body, k));
    ValidateInt(v)
  }

  predicate KeysPresent(body: Value)
  {
    body.VDict? && forall i :: 0 <= i < |RequiredKeys| ==> HasKey(body.entries, RequiredKeys[i])
  }

  predicate CountsValid(body: Value)
  {
    && ValidateInt(Field(body, "stalls")).Ok?
    && ValidateInt(Field(body, "charging")).Ok?
    && ValidateInt(Field(body, "blocked")).Ok?
    && ValidateInt(Field(body, "waiting")).Ok?
  }

  datatype Counts = Counts(stalls: int, charging: int, blocked: int, waiting: int)

  function CountsOf(body: Value): Counts
    requires CountsValid(body)
  {
    Counts(ValidateInt(Field(body, "stalls")).value, ValidateInt(Field(body, "charging")).value,
           ValidateInt(Field(body, "blocked")).value, ValidateInt(Field(body, "waiting")).value)
  }

  predicate WithinLimits(n: Counts)
  {
    n.charging <= n.stalls && n.blocked <= n.stalls
  }

  /** The answer of `validate_int` for the first of `keys` whose value it
      refuses, if any. */
  function FirstCountFailure(body: Value, keys: seq<string>): Option<ApiError>
  {
    if |keys| == 0 then None
    else
      match ValidateInt(Field(body, keys[0]))
      case Err(e) => Some(e)
      case Ok(_) => FirstCountFailure(body, keys[1..])
  }

  lemma CountKeysInOrder()
    ensures CountKeys[0] == "stalls" && CountKeys[1..] == ["charging", "blocked", "waiting"]
    ensures CountKeys[1..][1..] == ["blocked", "waiting"] && CountKeys[1..][1..][1..] == ["waiting"]
    ensures CountKeys[1..][1..][1..][1..] == []
  {
  }

  /** The first refused count, spelled out for the four count keys. */
  lemma FirstCountFailureOfCounts(body: Value)
    ensures FirstCountFailure(body, CountKeys) ==
      if ValidateInt(Field(body, "stalls")).Err? then Some(ValidateInt(Field(body, "stalls")).error)
      else if ValidateInt(Field(body, "charging")).Err? then Some(ValidateInt(Field(body, "charging")).error)
      else if ValidateInt(Field(body, "blocked")).Err? then Some(ValidateInt(Field(body, "blocked")).error)
      else if ValidateInt(Field(body, "waiting")).Err? then Some(ValidateInt(Field(body, "waiting")).error)
      else None
  {
    CountKeysInOrder();
    var k1 := CountKeys[1..];
    var k2 := k1[1..];
    var k3 := k2[1..];
    assert FirstCountFailure(body, k3[1..]) == None;
    assert FirstCountFailure(body, k3) ==
      if ValidateInt(Field(body, "waiting")).Err? then Some(ValidateInt(Field(body, "waiting")).error) else None;
    assert FirstCountFailure(body, k2) ==
      if ValidateInt(Field(body, "blocked")).Err? then Some(ValidateInt(Field(body, "blocked")).error)
      else FirstCountFailure(body, k3);
    assert FirstCountFailure(body, k1) ==
      if ValidateInt(Field(body, "charging")).Err? then Some(ValidateInt(Field(body, "charging")).error)
      else FirstCountFailure(body, k2);
  }

  /** The loop over the four counts, in the order stalls, charging,
      blocked, waiting. */
  function ReadCounts(body: Value): (r: Result<Counts, ApiError>)
    ensures KeysPresent(body) ==> (r.Ok? <==> CountsValid(body))
    ensures KeysPresent(body) ==> (r.Err? <==> FirstCountFailure(body, CountKeys).Some?)
    ensures KeysPresent(body) && r.Err? ==> r.error == FirstCountFailure(body, CountKeys).value
    ensures KeysPresent(body) && r.Ok? ==> r.value == CountsOf(body)
    ensures r.Ok? ==> r.value.stalls >= 0 && r.value.charging >= 0 && r.value.blocked >= 0 && r.value.waiting >= 0
    ensures r.Err? ==> r.error == InvalidNumber || r.error.Uncaught?
    ensures !body.VDict? ==> r == Err(Uncaught(TypeError))
  {
    FirstCountFailureOfCounts(body);
    assert KeysPresent(body) ==>
      (&& HasKey(body.entries, RequiredKeys[3]) && HasKey(body.entries, RequiredKeys[4])
       && HasKey(body.entries, RequiredKeys[5]) && HasKey(body.entries, RequiredKeys[6]));
    var stalls :- ValidateCount(body, "stalls");
    var charging :- ValidateCount(body, "charging");
    var blocked :- ValidateCount(body, "blocked");
    var waiting :- ValidateCount(body, "waiting");
    Ok(Counts(stalls, charging, blocked, waiting))
  }

  /** What a stored check-in must satisfy for a request: every required key
      is present; each count is `int()` of the submitted value and not
      negative; charging and blocked do not exceed the stalls; the first
      station with the submitted id has that stall count and title; the time
      is the parse of a well-formed timestamp no more than one hour after
      `now`. */
  ghost predicate Admissible(body: Value, dir: seq<Station>, now: DateTime, c: LiveCheckin)
    requires Valid(now)
  {
    && KeysPresent(body)
    && PyInt(Field(body, "stalls")) == Ok(c.stalls) && c.stalls >= 0
    && PyInt(Field(body, "charging")) == Ok(c.charging) && c.charging >= 0
    && PyInt(Field(body, "blocked")) == Ok(c.blocked) && c.blocked >= 0
    && PyInt(Field(body, "waiting")) == Ok(c.waiting) && c.waiting >= 0
    && c.charging <= c.stalls && c.blocked <= c.stalls
    && c.locationId == Field(body, "locationId") && c.title == Field(body, "title")
    && (exists i :: FirstWithId(dir, c.locationId, i) && dir[i].stalls == Some(c.stalls) && dir[i].title == c.title)
    && Field(body, "time").VStr? && MatchesTimePattern(Field(body, "time").s)
    && ParseIso(Field(body, "time").s) == Some(c.time)
    && AddHour(now).Some? && Instant(c.time) <= Instant(now) + HourMicros
  }

  /** The checks after the counts: the location, then the date; on success
      the store with the new check-in appended. */
  function StoreCheckin(body: Value, dir: seq<Station>, store: seq<StoredCheckin>, now: DateTime, n: Counts): (r: Result<seq<StoredCheckin>, ApiError>)
    requires Valid(now) && KeysPresent(body) && CountsValid(body) && n == CountsOf(body) && WithinLimits(n)
    ensures r.Ok? ==> exists c :: r.value == store + [Live(c)] && Admissible(body, dir, now, c)
    ensures r.Err? ==> r.error in {InvalidLocation, InvalidDate, FutureTime} || r.error.Uncaught?
    ensures r == Err(InvalidLocation) <==> ValidateLocation(dir, Field(body, "locationId"), n.stalls, Field(body, "title")).Err?
    ensures ValidateLocation(dir, Field(body, "locationId"), n.stalls, Field(body, "title")).Ok? ==>
      (r.Err? <==> ValidateDate(Field(body, "time"), now).Err?) &&
      (r.Err? ==> r.error == ValidateDate(Field(body, "time"), now).error)
  {
    // With every key present, `body[k]` cannot raise.
    var id := Field(body, "locationId");
    var title := Field(body, "title");
    var locationId :- ValidateLocation(dir, id, n.stalls, title);
    var t := Field(body, "time");
    var time :- ValidateDate(t, now);
    var c := LiveCheckin(n.stalls, n.charging, n.blocked, n.waiting, locationId, title, time);
    ChecksAdmit(body, dir, now, n, c);
    Ok(store + [Live(c)])
  }

  /** A check-in built from counts, location and time that passed their
      checks is admissible for the body. */
  lemma ChecksAdmit(body: Value, dir: seq<Station>, now: DateTime, n: Counts, c: LiveCheckin)
    requires Valid(now) && KeysPresent(body) && CountsValid(body) && n == CountsOf(body) && WithinLimits(n)
    requires c.stalls == n.stalls && c.charging == n.charging && c.blocked == n.blocked && c.waiting == n.waiting
    requires c.locationId == Field(body, "locationId") && c.title == Field(body, "title")
    requires ValidateLocation(dir, c.locationId, n.stalls, c.title).Ok?
    requires ValidateDate(Field(body, "time"), now) == Ok(c.time)
    ensures Admissible(body, dir, now, c)
  {
    ValidateDateWindow(Field(body, "time").s, now);
  }

  /** The POST branch of the check-in endpoint: the checks in the order
      keys, counts, limits, location, date, the first failure ending the
      request, and on success the store with exactly one new check-in. */
  function Submit(body: Value, dir: seq<Station>, store: seq<StoredCheckin>, now: DateTime): (r: Result<seq<StoredCheckin>, ApiError>)
    requires Valid(now)
    ensures r == Err(InvalidData) <==> AllKeysPresent(body, RequiredKeys) == Ok(false)
    ensures r.Err? && r.error in {InvalidNumber, LimitExceeded, InvalidLocation, InvalidDate, FutureTime} ==> KeysPresent(body)
    ensures r.Err? && r.error in {LimitExceeded, InvalidLocation, InvalidDate, FutureTime} ==> CountsValid(body)
    ensures r == Err(LimitExceeded) ==> !WithinLimits(CountsOf(body))
    ensures r.Err? && r.error in {InvalidLocation, InvalidDate, FutureTime} ==> WithinLimits(CountsOf(body))
    ensures r.Err? && r.error in {InvalidDate, FutureTime} ==>
      ValidateLocation(dir, Field(body, "locationId"), CountsOf(body).stalls, Field(body, "title")).Ok?
    ensures r.Ok? ==> exists c :: r.value == store + [Live(c)] && Admissible(body, dir, now, c)
    ensures AllKeysPresent(body, RequiredKeys).Err? ==> r == Err(Uncaught(AllKeysPresent(body, RequiredKeys).error))
    ensures KeysPresent(body) && FirstCountFailure(body, CountKeys).Some? ==> r == Err(FirstCountFailure(body, CountKeys).value)
    ensures KeysPresent(body) && CountsValid(body) ==> (r == Err(LimitExceeded) <==> !WithinLimits(CountsOf(body)))
    ensures KeysPresent(body) && CountsValid(body) && WithinLimits(CountsOf(body)) ==>
      (r == Err(InvalidLocation) <==>
       ValidateLocation(dir, Field(body, "locationId"), CountsOf(body).stalls, Field(body, "title")).Err?)
    ensures (&& KeysPresent(body) && CountsValid(body) && WithinLimits(CountsOf(body))
             && ValidateLocation(dir, Field(body, "locationId"), CountsOf(body).stalls, Field(body, "title")).Ok?) ==>
      (r.Err? <==> ValidateDate(Field(body, "time"), now).Err?) &&
      (r.Err? ==> r.error == ValidateDate(Field(body, "time"), now).error)
  {
    var present :- Raise(AllKeysPresent(body, RequiredKeys));
    if !present then Err(InvalidData)
    else
      var n :- ReadCounts(body);
      if n.charging > n.stalls || n.blocked > n.stalls then Err(LimitExceeded)
      else StoreCheckin(body, dir, store, now, n)
  }

  /** The converse: every admissible check-in is accepted and stored. */
  lemma SubmitAcceptsAdmissible(body: Value, dir: seq<Station>, store: seq<StoredCheckin>, now: DateTime, c: LiveCheckin)
    requires Valid(now) && Admissible(body, dir, now, c)
    ensures Submit(body, dir, store, now) == Ok(store + [Live(c)])
  {
    StoreAcceptsAdmissible(body, dir, store, now, c);
    assert ReadCounts(body) == Ok(Counts(c.stalls, c.charging, c.blocked, c.waiting));
  }

  /** The checks after the counts accept an admissible check-in. */
  lemma StoreAcceptsAdmissible(body: Value, dir: seq<Station>, store: seq<StoredCheckin>, now: DateTime, c: LiveCheckin)
    requires Valid(now) && Admissible(body, dir, now, c)
    ensures CountsValid(body) && CountsOf(body) == Counts(c.stalls, c.charging, c.blocked, c.waiting)
    ensures StoreCheckin(body, dir, store, now, CountsOf(body)) == Ok(store + [Live(c)])
  {
    assert CountsValid(body);
    ValidateDateWindow(Field(body, "time").s, now);
    assert ValidateLocation(dir, c.locationId, c.stalls, c.title) == Ok(c.locationId);
  }

  /** A body without one of the required keys is rejected as invalid data,
      whatever else it holds. */
  lemma MissingKeyRejected(body: Value, dir: seq<Station>, store: seq<StoredCheckin>, now: DateTime, k: nat)
    requires Valid(now) && body.VDict?
    requires k < |RequiredKeys| && !HasKey(body.entries, RequiredKeys[k])
    ensures Submit(body, dir, store, now) == Err(InvalidData)
  {
  }

  /** With every key present and every count valid, charging or blocked
      above stalls is rejected before the location and the time are looked
      at. */
  lemma AboveStallsRejected(body: Value, dir: seq<Station>, store: seq<StoredCheckin>, now: DateTime)
    requires Valid(now) && KeysPresent(body) && CountsValid(body)
    requires CountsOf(body).charging > CountsOf(body).stalls || CountsOf(body).blocked > CountsOf(body).stalls
    ensures Submit(body, dir, store, now) == Err(LimitExceeded)
  {
  }

  const X1Station := Station("supercharger", VStr("X1"), VStr("Neuberg"), map[], Some(8), None)

  /** A body carrying time, locationId, stalls 8, charging 10, blocked 0,
      waiting 0, tffUserId and notes, but no title. */
  const UntitledBody := VDict([
    Entry("time", VStr("2024-01-01T10:00:00.000Z")), Entry("locationId", VStr("X1")),
    Entry("stalls", VInt(8)), Entry("charging", VInt(10)), Entry("blocked", VInt(0)),
    Entry("waiting", VInt(0)), Entry("tffUserId", VStr("u1")), Entry("notes", VStr(""))])

  /** The same body with the station's title added. */
  const TitledBody := VDict([
    Entry("time", VStr("2024-01-01T10:00:00.000Z")), Entry("locationId", VStr("X1")),
    Entry("title", VStr("Neuberg")),
    Entry("stalls", VInt(8)), Entry("charging", VInt(10)), Entry("blocked", VInt(0)),
    Entry("waiting", VInt(0)), Entry("tffUserId", VStr("u1")), Entry("notes", VStr(""))])

  /** Charging and blocked equal to stalls (blocked sent as text), waiting
      above stalls. */
  const AtLimitBody := VDict([
    Entry("time", VStr("2016-07-28T11:05:00.000Z")), Entry("locationId", VStr("X1")),
    Entry("title", VStr("Neuberg")),
    Entry("stalls", VInt(8)), Entry("charging", VInt(8)), Entry("blocked", VStr("8")),
    Entry("waiting", VInt(20))])

  /** The key check comes first, so the untitled body is answered with
      "Invalid data received", not with the limit. */
  lemma ScenarioWithoutTitle(store: seq<StoredCheckin>, now: DateTime)
    requires Valid(now)
    ensures Submit(UntitledBody, [X1Station], store, now) == Err(InvalidData)
  {
    assert RequiredKeys[2] == "title";
    assert !HasKey(UntitledBody.entries, "title") by {
      forall i | 0 <= i < |UntitledBody.entries| ensures UntitledBody.entries[i].key != "title" {
      }
    }
    MissingKeyRejected(UntitledBody, [X1Station], store, now, 2);
  }

  lemma TitledBodyKeys()
    ensures KeysPresent(TitledBody)
  {
    var es := TitledBody.entries;
    assert es[0].key == RequiredKeys[0] && es[1].key == RequiredKeys[1] && es[2].key == RequiredKeys[2];
    assert es[3].key == RequiredKeys[3] && es[4].key == RequiredKeys[4];
    assert es[5].key == RequiredKeys[5] && es[6].key == RequiredKeys[6];
  }

  // One lookup per lemma keeps each literal evaluation small.
  lemma TitledStalls() ensures Field(TitledBody, "stalls") == VInt(8) { GetLast(TitledBody.entries, "stalls", 3); }
  lemma TitledCharging() ensures Field(TitledBody, "charging") == VInt(10) { GetLast(TitledBody.entries, "charging", 4); }
  lemma TitledBlocked() ensures Field(TitledBody, "blocked") == VInt(0) { GetLast(TitledBody.entries, "blocked", 5); }
  lemma TitledWaiting() ensures Field(TitledBody, "waiting") == VInt(0) { GetLast(TitledBody.entries, "waiting", 6); }

  lemma TitledCounts()
    ensures CountsValid(TitledBody) && CountsOf(TitledBody) == Counts(8, 10, 0, 0)
  {
    TitledStalls(); TitledCharging(); TitledBlocked(); TitledWaiting();
  }

  /** With a title, charging 10 above stalls 8 is rejected with the limit
      message. */
  lemma ScenarioChargingAboveStalls(store: seq<StoredCheckin>, now: DateTime)
    requires Valid(now)
    ensures Submit(TitledBody, [X1Station], store, now) == Err(LimitExceeded)
  {
    TitledBodyKeys();
    TitledCounts();
    AboveStallsRejected(TitledBody, [X1Station], store, now);
  }

  lemma AtLimitBodyKeys()
    ensures KeysPresent(AtLimitBody)
  {
    var es := AtLimitBody.entries;
    assert es[0].key == RequiredKeys[0] && es[1].key == RequiredKeys[1] && es[2].key == RequiredKeys[2];
    assert es[3].key == RequiredKeys[3] && es[4].key == RequiredKeys[4];
    assert es[5].key == RequiredKeys[5] && es[6].key == RequiredKeys[6];
  }

  lemma AtLimitTime() ensures Field(AtLimitBody, "time") == VStr("2016-07-28T11:05:00.000Z") { GetLast(AtLimitBody.entries, "time", 0); }
  lemma AtLimitId() ensures Field(AtLimitBody, "locationId") == VStr("X1") { GetLast(AtLimitBody.entries, "locationId", 1); }
  lemma AtLimitTitle() ensures Field(AtLimitBody, "title") == VStr("Neuberg") { GetLast(AtLimitBody.entries, "title", 2); }
  lemma AtLimitStalls() ensures Field(AtLimitBody, "stalls") == VInt(8) { GetLast(AtLimitBody.entries, "stalls", 3); }
  lemma AtLimitCharging() ensures Field(AtLimitBody, "charging") == VInt(8) { GetLast(AtLimitBody.entries, "charging", 4); }
  lemma AtLimitBlocked() ensures Field(AtLimitBody, "blocked") == VStr("8") { GetLast(AtLimitBody.entries, "blocked", 5); }
  lemma AtLimitWaiting() ensures Field(AtLimitBody, "waiting") == VInt(20) { GetLast(AtLimitBody.entries, "waiting", 6); }

  lemma AtLimitDate()
    ensures ValidateDate(VStr("2016-07-28T11:05:00.000Z"), DateTime(2016, 7, 28, 12, 0, 0, 0)) ==
      Ok(DateTime(2016, 7, 28, 11, 5, 0, 0))
  {
    TestTimestamp();
    assert AddHour(DateTime(2016, 7, 28, 12, 0, 0, 0)) == Some(DateTime(2016, 7, 28, 13, 0, 0, 0));
  }

  lemma AtLimitAdmissible()
    ensures Admissible(AtLimitBody, [X1Station], DateTime(2016, 7, 28, 12, 0, 0, 0),
      LiveCheckin(8, 8, 8, 20, VStr("X1"), VStr("Neuberg"), DateTime(2016, 7, 28, 11, 5, 0, 0)))
  {
    AtLimitBodyKeys();
    AtLimitTime(); AtLimitId(); AtLimitTitle();
    AtLimitStalls(); AtLimitCharging(); AtLimitBlocked(); AtLimitWaiting();
    ValidateIntOfText(8);
    assert ShowNat(8) == "8";
    TestTimestamp();
    AtLimitDate();
    ValidateDateWindow("2016-07-28T11:05:00.000Z", DateTime(2016, 7, 28, 12, 0, 0, 0));
    assert FirstWithId([X1Station], VStr("X1"), 0);
  }

  /** Charging and blocked equal to stalls pass, and waiting is not bounded
      by stalls: the check-in is stored with exactly the submitted fields. */
  lemma ScenarioAtTheLimit(store: seq<StoredCheckin>)
    ensures Submit(AtLimitBody, [X1Station], store, DateTime(2016, 7, 28, 12, 0, 0, 0)) ==
      Ok(store + [Live(LiveCheckin(8, 8, 8, 20, VStr("X1"), VStr("Neuberg"), DateTime(2016, 7, 28, 11, 5, 0, 0)))])
  {
    AtLimitAdmissible();
    SubmitAcceptsAdmissible(AtLimitBody, [X1Station], store, DateTime(2016, 7, 28, 12, 0, 0, 0),
      LiveCheckin(8, 8, 8, 20, VStr("X1"), VStr("Neuberg"), DateTime(2016, 7, 28, 11, 5, 0, 0)));
  }
}
