/** The station directory and the import that fills it from the listing
    source: the charger count pulled out of free text, the mapping of one
    listing record to a station document, and the insert into a collection
    with a unique index on (type, locationId). Two importers exist: one
    swallows the duplicate-key error and carries on, the other stops at it. */
module Stations {
  import opened Base
  import opened Numbers
  import opened Values

  /** A GeoJSON point; the coordinates are kept as listed, [lng, lat]. */
  datatype Point = Point(coordinates: seq<Value>)

  datatype Station = Station(
    kind: string,                  // "supercharger" or "destination_charger"
    locationId: Value,
    title: Value,
    raw: map<string, Value>,       // the listing record as received
    stalls: Option<int>,
    loc: Option<Point>)

  /** A listing record: a JSON object. */
  type Listing = map<string, Value>

  function RawField(st: Station, k: string): Option<Value>
  {
    if k in st.raw then Some(st.raw[k]) else None
  }

  // ---------------------------------------------------------------------
  // chargers: `.*(\d+) Supercharger.*`, then `.*(\d+) Tesla Connector.*`

  const SuperchargerMarker := " Supercharger"
  const ConnectorMarker := " Tesla Connector"

  /** The pattern `.*(\d+)<marker>.*` can match `s` with the group spanning
      `s[i..j]`, its digits read as ASCII digits. */
  predicate Capture(s: string, marker: string, i: int, j: int)
  {
    0 <= i < j <= |s| && AllDigits(s[i..j]) && marker <= s[j..]
  }

  /** A digit at `i` immediately followed by the marker. */
  predicate CountBefore(s: string, marker: string, i: int)
  {
    0 <= i < |s| && IsDigit(s[i]) && marker <= s[i + 1..]
  }

  /** The last position below `k` holding a digit followed by the marker. */
  function LastCountBefore(s: string, marker: string, k: nat): (r: Option<nat>)
    requires k <= |s|
    ensures r.Some? ==> r.value < k && CountBefore(s, marker, r.value)
    ensures r.Some? ==> forall j :: r.value < j < k ==> !CountBefore(s, marker, j)
    ensures r.None? ==> forall j :: 0 <= j < k ==> !CountBefore(s, marker, j)
  {
    if k == 0 then None
    else if CountBefore(s, marker, k - 1) then Some(k - 1)
    else LastCountBefore(s, marker, k - 1)
  }

  /** `int(m.group(1))` when the pattern matches, None otherwise. The
      backtracking search gives the leading `.*` as much as it can, so the
      group is the single digit before the last occurrence of the marker. */
  function CountFor(s: string, marker: string): (r: Option<nat>)
    ensures r.Some? ==> r.value < 10
  {
    match LastCountBefore(s, marker, |s|)
    case Some(i) => Some(DigitValue(s[i]))
    case None => None
  }

  /** `n` is the group greedy matching yields: the digit of a one-digit
      capture that starts at or after every other capture. At most one
      position qualifies, so `n` is determined by `s` and `marker`. */
  ghost predicate GreedyCount(s: string, marker: string, n: int)
  {
    exists p :: Capture(s, marker, p, p + 1) && IsDigit(s[p]) && n == DigitValue(s[p]) &&
      forall i, j :: Capture(s, marker, i, j) ==> i <= p
  }

  /** `chargers(s)`: the Supercharger pattern first, then the Tesla
      Connector pattern, else None. Whatever the text says, the count is a
      single digit. */
  function Chargers(s: string): (r: Option<int>)
    ensures r.Some? ==> 0 <= r.value <= 9
    ensures r.None? <==>
      (forall i, j :: !Capture(s, SuperchargerMarker, i, j)) &&
      (forall i, j :: !Capture(s, ConnectorMarker, i, j))
    ensures (exists i, j :: Capture(s, SuperchargerMarker, i, j)) ==>
      r.Some? && GreedyCount(s, SuperchargerMarker, r.value)
    ensures (forall i, j :: !Capture(s, SuperchargerMarker, i, j)) && (exists i, j :: Capture(s, ConnectorMarker, i, j)) ==>
      r.Some? && GreedyCount(s, ConnectorMarker, r.value)
  {
    CaptureIffCount(s, SuperchargerMarker);
    CaptureIffCount(s, ConnectorMarker);
    match CountFor(s, SuperchargerMarker)
    case Some(n) => GreedyCountOf(s, SuperchargerMarker); Some(n)
    case None =>
      match CountFor(s, ConnectorMarker)
      case Some(n) => GreedyCountOf(s, ConnectorMarker); Some(n)
      case None => None
  }

  lemma GreedyCountOf(s: string, marker: string)
    requires CountFor(s, marker).Some?
    ensures GreedyCount(s, marker, CountFor(s, marker).value)
  {
    CountIsGreedyCapture(s, marker);
    var p := LastCountBefore(s, marker, |s|).value;
    assert Capture(s, marker, p, p + 1) && IsDigit(s[p]);
  }

  /** Two positions cannot both be the greedy one: the count is unique. */
  lemma GreedyCountUnique(s: string, marker: string, m: int, n: int)
    requires GreedyCount(s, marker, m) && GreedyCount(s, marker, n)
    ensures m == n
  {
    var p :| Capture(s, marker, p, p + 1) && IsDigit(s[p]) && m == DigitValue(s[p]) &&
      forall i, j :: Capture(s, marker, i, j) ==> i <= p;
    var q :| Capture(s, marker, q, q + 1) && IsDigit(s[q]) && n == DigitValue(s[q]) &&
      forall i, j :: Capture(s, marker, i, j) ==> i <= q;
    assert p <= q && q <= p;
  }

  lemma CaptureIffCount(s: string, marker: string)
    ensures (exists i, j :: Capture(s, marker, i, j)) <==> LastCountBefore(s, marker, |s|).Some?
  {
    var p := LastCountBefore(s, marker, |s|);
    if p.Some? {
      assert s[p.value..p.value + 1] == [s[p.value]];
      assert Capture(s, marker, p.value, p.value + 1);
    } else if exists i, j :: Capture(s, marker, i, j) {
      var i, j :| Capture(s, marker, i, j);
      assert s[i..j][j - 1 - i] == s[j - 1];
      assert CountBefore(s, marker, j - 1);
    }
  }

  /** What greedy backtracking picks: among all the ways the pattern can
      match, the group starts as far right as possible, and there it is
      exactly one digit wide. */
  lemma {:induction false} CountIsGreedyCapture(s: string, marker: string)
    requires LastCountBefore(s, marker, |s|).Some?
    ensures var p := LastCountBefore(s, marker, |s|).value;
      && Capture(s, marker, p, p + 1)
      && CountFor(s, marker) == Some(DigitValue(s[p]))
      && forall i, j :: Capture(s, marker, i, j) ==> i <= p && (i == p ==> j == p + 1)
  {
    var p := LastCountBefore(s, marker, |s|).value;
    assert s[p..p + 1] == [s[p]];
    forall i, j | Capture(s, marker, i, j)
      ensures i <= p && (i == p ==> j == p + 1)
    {
      assert s[i..j][j - 1 - i] == s[j - 1];
      assert CountBefore(s, marker, j - 1);
    }
  }

  /** A count before the marker with no digit after it up to `k` is the
      last one below `k`. */
  lemma {:induction false} LastCountAt(s: string, marker: string, k: nat, p: nat)
    requires p < k <= |s| && CountBefore(s, marker, p)
    requires forall j :: p < j < k ==> !IsDigit(s[j])
    ensures LastCountBefore(s, marker, k) == Some(p)
    decreases k
  {
    if k - 1 > p {
      LastCountAt(s, marker, k - 1, p);
    }
  }

  /** A two-digit count loses its tens digit. */
  lemma TwoDigitCountLosesTens()
    ensures Chargers("12 Superchargers") == Some(2)
  {
    var s := "12 Superchargers";
    var tail := " Superchargers";
    assert s[2..] == tail;
    assert SuperchargerMarker <= tail;
    forall j | 1 < j < |s| ensures !IsDigit(s[j]) {
      assert s[j] == tail[j - 2];
    }
    LastCountAt(s, SuperchargerMarker, |s|, 1);
  }

  /** The Supercharger count wins over a Tesla Connector count wherever it
      stands in the text. */
  lemma SuperchargerCountFirst()
    ensures Chargers("2 Tesla Connectors, 8 Superchargers") == Some(8)
  {
    var t := "2 Tesla Connectors, 8 Superchargers";
    var tail := " Superchargers";
    assert t[21..] == tail;
    assert SuperchargerMarker <= tail;
    forall j | 20 < j < |t| ensures !IsDigit(t[j]) {
      assert t[j] == tail[j - 21];
    }
    LastCountAt(t, SuperchargerMarker, |t|, 20);
  }

  // ---------------------------------------------------------------------
  // import_from_url, one record at a time

  /** The body of the import loop up to the insert: None for a record
      without `location_id` (skipped with a warning); KeyError when it has
      no `title`; TypeError when `chargers` is present but not a text. The
      `float()` of latitude and longitude is not modelled: the listed values
      are kept as they are. */
  function MapListing(kind: string, r: Listing): (res: Result<Option<Station>, PyException>)
    ensures "location_id" !in r ==> res == Ok(None)
    ensures "location_id" in r && res.Ok? ==> res.value.Some?
    ensures res.Err? <==>
      "location_id" in r && ("title" !in r || ("chargers" in r && !r["chargers"].VStr?))
    ensures res.Err? ==> res.error == (if "title" !in r then KeyError else TypeError)
    ensures res.Ok? && res.value.Some? ==>
      var st := res.value.value;
      && st.kind == kind && st.locationId == r["location_id"] && st.title == r["title"] && st.raw == r
      && (st.stalls == if "chargers" in r then Chargers(r["chargers"].s) else None)
      && (st.loc.Some? <==> "latitude" in r && "longitude" in r)
      && (st.loc.Some? ==> st.loc.value.coordinates == [r["longitude"], r["latitude"]])
  {
    if "location_id" !in r then Ok(None)
    else if "title" !in r then Err(KeyError)
    else
      var stalls :- if "chargers" !in r then Ok(None)
                    else if r["chargers"].VStr? then Ok(Chargers(r["chargers"].s))
                    else Err(TypeError);
      var loc := if "latitude" in r && "longitude" in r
                 then Some(Point([r["longitude"], r["latitude"]])) else None;
      Ok(Some(Station(kind, r["location_id"], r["title"], r, stalls, loc)))
  }

  /** The pair the unique index is on. */
  function Key(st: Station): (string, Value)
  {
    (st.kind, st.locationId)
  }

  predicate KeyTaken(dir: seq<Station>, key: (string, Value))
  {
    exists i :: 0 <= i < |dir| && Key(dir[i]) == key
  }

  predicate UniqueKeys(dir: seq<Station>)
  {
    forall i, j :: 0 <= i < j < |dir| ==> Key(dir[i]) != Key(dir[j])
  }

  /** `suc_collection.insert(d)` under the unique (type, locationId) index. */
  function Insert(dir: seq<Station>, st: Station): (r: Result<seq<Station>, PyException>)
    ensures r.Err? <==> KeyTaken(dir, Key(st))
    ensures r.Err? ==> r.error == DuplicateKeyError
    ensures r.Ok? ==> r.value == dir + [st]
    ensures r.Ok? && UniqueKeys(dir) ==> UniqueKeys(r.value)
  {
    if KeyTaken(dir, Key(st)) then Err(DuplicateKeyError)
    else
      assert forall i :: 0 <= i < |dir| ==> Key((dir + [st])[i]) == Key(dir[i]);
      Ok(dir + [st])
  }

  /** The directory as an import left it, and the exception that ended the
      import early, if any. Documents inserted before it stay. */
  datatype ImportRun = ImportRun(directory: seq<Station>, raised: Option<PyException>)

  /** `import_from_url` of run_import.py after the fetch: a duplicate key is
      logged and the loop goes on, so the first station with a key stays. */
  function ImportSkippingDuplicates(kind: string, records: seq<Listing>, dir: seq<Station>): (run: ImportRun)
    ensures dir <= run.directory
    ensures UniqueKeys(dir) ==> UniqueKeys(run.directory)
    ensures run.raised != Some(DuplicateKeyError)
  {
    if |records| == 0 then ImportRun(dir, None)
    else
      match MapListing(kind, records[0])
      case Err(e) => ImportRun(dir, Some(e))
      case Ok(None) => ImportSkippingDuplicates(kind, records[1..], dir)
      case Ok(Some(st)) =>
        var dir' := match Insert(dir, st) case Ok(d) => d case Err(_) => dir;
        ImportSkippingDuplicates(kind, records[1..], dir')
  }

  /** `import_from_url` of import.py after the fetch: the insert is not
      guarded, so the first duplicate key ends the import. */
  function ImportStoppingAtDuplicate(kind: string, records: seq<Listing>, dir: seq<Station>): (run: ImportRun)
    ensures dir <= run.directory
    ensures UniqueKeys(dir) ==> UniqueKeys(run.directory)
  {
    if |records| == 0 then ImportRun(dir, None)
    else
      match MapListing(kind, records[0])
      case Err(e) => ImportRun(dir, Some(e))
      case Ok(None) => ImportStoppingAtDuplicate(kind, records[1..], dir)
      case Ok(Some(st)) =>
        match Insert(dir, st)
        case Err(e) => ImportRun(dir, Some(e))
        case Ok(dir') => ImportStoppingAtDuplicate(kind, records[1..], dir')
  }

  /** `run_import()`: the directory is emptied, then the supercharger and
      the destination charger listings are imported in turn. The result is
      unique on (type, locationId). */
  function RunImport(superchargers: seq<Listing>, destinations: seq<Listing>): (run: ImportRun)
    ensures UniqueKeys(run.directory)
    ensures run.raised != Some(DuplicateKeyError)
  {
    var first := ImportSkippingDuplicates("supercharger", superchargers, []);
    if first.raised.Some? then first
    else ImportSkippingDuplicates("destination_charger", destinations, first.directory)
  }

  /** A completed skipping import holds a station for every record that
      mapped to one: a duplicate does not stop later records. */
  lemma {:induction false} SkippingImportCoversRecords(kind: string, records: seq<Listing>, dir: seq<Station>, k: nat)
    requires k < |records|
    requires ImportSkippingDuplicates(kind, records, dir).raised.None?
    requires MapListing(kind, records[k]).Ok? && MapListing(kind, records[k]).value.Some?
    ensures KeyTaken(ImportSkippingDuplicates(kind, records, dir).directory,
                   Key(MapListing(kind, records[k]).value.value))
  {
    var run := ImportSkippingDuplicates(kind, records, dir);
    match MapListing(kind, records[0])
    case Err(e) =>
    case Ok(None) =>
      assert records[1..][k - 1] == records[k];
      SkippingImportCoversRecords(kind, records[1..], dir, k - 1);
    case Ok(Some(st)) =>
      var dir' := match Insert(dir, st) case Ok(d) => d case Err(_) => dir;
      if k == 0 {
        assert KeyTaken(dir', Key(st)) by {
          if Insert(dir, st).Ok? { assert Key(dir'[|dir|]) == Key(st); }
        }
        PrefixKeepsKey(dir', run.directory, Key(st));
      } else {
        assert records[1..][k - 1] == records[k];
        SkippingImportCoversRecords(kind, records[1..], dir', k - 1);
      }
  }

  lemma PrefixKeepsKey(a: seq<Station>, b: seq<Station>, key: (string, Value))
    requires a <= b && KeyTaken(a, key)
    ensures KeyTaken(b, key)
  {
    var i :| 0 <= i < |a| && Key(a[i]) == key;
    assert b[i] == a[i];
  }

  /** The stopping importer never gets further than the skipping one: its
      directory is a prefix of the other's, and the two agree whenever it
      completes. */
  lemma {:induction false} StoppingImportIsPrefix(kind: string, records: seq<Listing>, dir: seq<Station>)
    ensures ImportStoppingAtDuplicate(kind, records, dir).directory <=
            ImportSkippingDuplicates(kind, records, dir).directory
    ensures ImportStoppingAtDuplicate(kind, records, dir).raised.None? ==>
            ImportStoppingAtDuplicate(kind, records, dir) == ImportSkippingDuplicates(kind, records, dir)
  {
    if |records| > 0 {
      match MapListing(kind, records[0])
      case Err(e) =>
      case Ok(None) => StoppingImportIsPrefix(kind, records[1..], dir);
      case Ok(Some(st)) =>
        match Insert(dir, st)
        case Err(e) =>
        case Ok(dir') => StoppingImportIsPrefix(kind, records[1..], dir');
    }
  }

  /** Record `rec` maps to a station whose key is `key`. */
  predicate MapsToKey(kind: string, rec: Listing, key: (string, Value))
  {
    MapListing(kind, rec).Ok? && MapListing(kind, rec).value.Some? && Key(MapListing(kind, rec).value.value) == key
  }

  /** Every station the skipping importer adds is the mapping of a record,
      its key was not in the directory before, and no earlier record maps
      to that key: of several records with one key the first one stays. */
  lemma {:induction false} SkippingImportKeepsFirst(kind: string, records: seq<Listing>, dir: seq<Station>, n: nat)
    requires |dir| <= n < |ImportSkippingDuplicates(kind, records, dir).directory|
    ensures var st := ImportSkippingDuplicates(kind, records, dir).directory[n];
      && !KeyTaken(dir, Key(st))
      && exists k :: 0 <= k < |records| && MapListing(kind, records[k]) == Ok(Some(st)) &&
           forall j :: 0 <= j < k ==> !MapsToKey(kind, records[j], Key(st))
  {
    var run := ImportSkippingDuplicates(kind, records, dir);
    var st := run.directory[n];
    match MapListing(kind, records[0])
    case Err(e) =>
    case Ok(None) =>
      SkippingImportKeepsFirst(kind, records[1..], dir, n);
      var k :| 0 <= k < |records[1..]| && MapListing(kind, records[1..][k]) == Ok(Some(st)) &&
        forall j :: 0 <= j < k ==> !MapsToKey(kind, records[1..][j], Key(st));
      ShiftFirst(kind, records, k, st);
    case Ok(Some(first)) =>
      var dir' := match Insert(dir, first) case Ok(d) => d case Err(_) => dir;
      if Insert(dir, first).Ok? && n == |dir| {
        assert run.directory[..|dir'|] == dir';
        assert st == first;
        assert !KeyTaken(dir, Key(st));
        assert MapListing(kind, records[0]) == Ok(Some(st));
      } else {
        SkippingImportKeepsFirst(kind, records[1..], dir', n);
        InsertedKeyFree(dir, first, Key(st));
        var k :| 0 <= k < |records[1..]| && MapListing(kind, records[1..][k]) == Ok(Some(st)) &&
          forall j :: 0 <= j < k ==> !MapsToKey(kind, records[1..][j], Key(st));
        ShiftFirst(kind, records, k, st);
      }
  }

  /** A key still free after an insert, or after its duplicate-key
      refusal, was free before and is not the key of the station offered. */
  lemma InsertedKeyFree(dir: seq<Station>, st: Station, key: (string, Value))
    requires !KeyTaken(match Insert(dir, st) case Ok(d) => d case Err(_) => dir, key)
    ensures !KeyTaken(dir, key) && Key(st) != key
  {
    if Insert(dir, st).Ok? {
      var d := dir + [st];
      assert Key(d[|dir|]) == Key(st);
      forall i | 0 <= i < |dir| ensures Key(dir[i]) != key {
        assert d[i] == dir[i];
      }
    }
  }

  /** A first occurrence in `records[1..]` is one in `records` when the head
      does not map to the same key. */
  lemma ShiftFirst(kind: string, records: seq<Listing>, k: nat, st: Station)
    requires 0 < |records| && k < |records| - 1
    requires !MapsToKey(kind, records[0], Key(st))
    requires MapListing(kind, records[1..][k]) == Ok(Some(st))
    requires forall j :: 0 <= j < k ==> !MapsToKey(kind, records[1..][j], Key(st))
    ensures exists k' :: (&& 0 <= k' < |records| && MapListing(kind, records[k']) == Ok(Some(st))
                          && forall j :: 0 <= j < k' ==> !MapsToKey(kind, records[j], Key(st)))
  {
    assert records[k + 1] == records[1..][k];
    forall j | 0 < j < k + 1 ensures !MapsToKey(kind, records[j], Key(st)) {
      assert records[j] == records[1..][j - 1];
    }
  }

  /** The stopping importer reaches record `k` (every record up to it maps
      without an exception), `k` maps to a station, and that station's key
      is already in the directory or belongs to an earlier record. */
  predicate ClashAt(kind: string, records: seq<Listing>, dir: seq<Station>, k: int)
  {
    && 0 <= k < |records|
    && (forall j :: 0 <= j <= k ==> MapListing(kind, records[j]).Ok?)
    && MapListing(kind, records[k]).value.Some?
    && var key := Key(MapListing(kind, records[k]).value.value);
       KeyTaken(dir, key) || exists j :: 0 <= j < k && MapsToKey(kind, records[j], key)
  }

  /** The stopping importer raises DuplicateKeyError exactly when it meets a
      record whose key the directory or an earlier record already holds. */
  lemma {:induction false} StoppingImportRaisesOnClash(kind: string, records: seq<Listing>, dir: seq<Station>)
    ensures ImportStoppingAtDuplicate(kind, records, dir).raised == Some(DuplicateKeyError) <==>
      exists k :: ClashAt(kind, records, dir, k)
  {
    if |records| > 0 {
      match MapListing(kind, records[0])
      case Err(e) =>
        assert e != DuplicateKeyError;
        assert forall k :: !ClashAt(kind, records, dir, k);
      case Ok(None) =>
        StoppingImportRaisesOnClash(kind, records[1..], dir);
        ClashShift(kind, records, dir, dir);
      case Ok(Some(st)) =>
        if KeyTaken(dir, Key(st)) {
          assert ClashAt(kind, records, dir, 0);
        } else {
          var dir' := dir + [st];
          assert Insert(dir, st) == Ok(dir');
          StoppingImportRaisesOnClash(kind, records[1..], dir');
          assert !ClashAt(kind, records, dir, 0);
          ClashShift(kind, records, dir, dir');
        }
    }
  }

  /** After the head record, a clash in `records` is a clash in the rest
      against the directory the head left behind. */
  lemma ClashShift(kind: string, records: seq<Listing>, dir: seq<Station>, dir': seq<Station>)
    requires 0 < |records| && MapListing(kind, records[0]).Ok?
    requires MapListing(kind, records[0]).value.None? ==> dir' == dir
    requires MapListing(kind, records[0]).value.Some? ==>
      dir' == dir + [MapListing(kind, records[0]).value.value] && !KeyTaken(dir, Key(MapListing(kind, records[0]).value.value))
    ensures (exists k :: ClashAt(kind, records, dir, k)) <==> exists k :: ClashAt(kind, records[1..], dir', k)
  {
    var rest := records[1..];
    forall key ensures KeyTaken(dir', key) <==> KeyTaken(dir, key) || MapsToKey(kind, records[0], key) {
      if KeyTaken(dir, key) {
        var i :| 0 <= i < |dir| && Key(dir[i]) == key;
        assert dir'[i] == dir[i];
      }
      if MapsToKey(kind, records[0], key) {
        assert Key(dir'[|dir|]) == key;
      }
    }
    if exists k :: ClashAt(kind, records, dir, k) {
      var k :| ClashAt(kind, records, dir, k);
      assert k > 0;
      assert rest[k - 1] == records[k];
      forall j | 0 <= j <= k - 1 ensures MapListing(kind, rest[j]).Ok? { assert rest[j] == records[j + 1]; }
      var key := Key(MapListing(kind, records[k]).value.value);
      if !KeyTaken(dir, key) {
        var j :| 0 <= j < k && MapsToKey(kind, records[j], key);
        if j > 0 { assert rest[j - 1] == records[j]; }
      }
      assert ClashAt(kind, rest, dir', k - 1);
    }
    if exists k :: ClashAt(kind, rest, dir', k) {
      var k :| ClashAt(kind, rest, dir', k);
      assert records[k + 1] == rest[k];
      forall j | 0 <= j <= k + 1 ensures MapListing(kind, records[j]).Ok? { if j > 0 { assert records[j] == rest[j - 1]; } }
      var key := Key(MapListing(kind, rest[k]).value.value);
      if !KeyTaken(dir', key) {
        var j :| 0 <= j < k && MapsToKey(kind, rest[j], key);
        assert records[j + 1] == rest[j];
      }
      assert ClashAt(kind, records, dir, k + 1);
    }
  }

  /** Two records with the same key: the skipping importer keeps the first
      and completes; the stopping importer raises DuplicateKeyError. */
  lemma DuplicateListing(kind: string, a: Listing, b: Listing)
    requires "location_id" in a && "title" in a && "chargers" !in a
    requires "location_id" in b && "title" in b && "chargers" !in b
    requires a["location_id"] == b["location_id"]
    ensures var st := MapListing(kind, a).value.value;
      && ImportSkippingDuplicates(kind, [a, b], []) == ImportRun([st], None)
      && ImportStoppingAtDuplicate(kind, [a, b], []) == ImportRun([st], Some(DuplicateKeyError))
  {
    var st := MapListing(kind, a).value.value;
    var st' := MapListing(kind, b).value.value;
    assert [a, b][0] == a && [a, b][1..] == [b];
    assert [b][0] == b && [b][1..] == [];
    assert Key(st) == Key(st');
    assert KeyTaken([st], Key(st')) by { assert Key([st][0]) == Key(st'); }
    assert !KeyTaken([], Key(st));
    assert [] + [st] == [st];
    assert Insert([], st) == Ok([st]);
    assert Insert([st], st') == Err(DuplicateKeyError);
    assert ImportSkippingDuplicates(kind, [b], [st]) == ImportSkippingDuplicates(kind, [], [st]);
  }
}
