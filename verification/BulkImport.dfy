/** The bulk import of historical check-ins: a text of comma-separated
    lines `date,time,place,stalls,charging,waiting,blocked`. Each line
    becomes one stored document; the place is corrected through a fixed
    table and looked up among the European superchargers, the date and time
    are parsed as Zurich wall-clock time, and what went wrong is kept in an
    `error` field rather than rejecting the line. A line with fewer than
    seven fields raises IndexError while the lines are being parsed, before
    anything is stored. */
module BulkImport {
  import opened Base
  import opened Numbers
  import opened Calendar
  import opened Values
  import opened Stations
  import opened Checkins
  import opened Text
  import opened LocalTime

  /** The correction table: place names in the historical data and the
      name to search for instead. `None` for a name the table does not
      list. */
  function Correction(name: string): Option<string>
  {
    match name
    case "Hiltpoltstein" => Some("poltstein")
    case "Hamburg SEC" => Some("Hamburg-Essener Stra\U{DF}e")
    case "Aix en Provence" => Some("Aix-en-Provence")
    case "Mosjoen" => Some("Mosj\U{F8}en")
    case "Orange" => Some("Orange Supercharger")
    case "Anif" => Some("Salzburg")
    case "Modena" => Some("Modena Supercharger")
    case "Stj\U{F6}rdal" => Some("stjordalsupercharger")
    case "Service Center Sch\U{F6}nefeld" => Some("Berlin-Sch\U{F6}nefeld")
    case "Berlin Sec" => Some("Berlin-Sch\U{F6}nefeld")
    case "Gol" => Some("golsupercharger")
    case "Vystrkov" => Some("Humpolec")
    case "Eselsf\U{FC}rth" => Some("Kaiserslautern")
    case "Carpiano" => Some("Melegnano")
    case "Rivera" => Some("Monte Ceneri")
    case "Stockholm Infracity" => Some("Sollentuna")
    case "Palmanova" => Some("Palmanova Supercharger 2")
    case "Hamburg" => Some("Hamburg Supercharger")
    case _ => None
  }

  /** The replacement for a place name listed in the table, the name
      itself otherwise. The lookup is by the exact name. */
  function Correct(text: string): (r: string)
    ensures Correction(text).Some? ==> r == Correction(text).value
    ensures Correction(text).None? ==> r == text
  {
    match Correction(text)
    case Some(name) => name
    case None => text
  }

  /** No replacement is itself a listed name. */
  lemma ReplacementsAreFinal(k: string)
    ensures Correction(k).Some? ==> Correction(Correction(k).value).None?
  {
  }

  /** Correcting twice is correcting once. */
  lemma CorrectIdempotent(text: string)
    ensures Correct(Correct(text)) == Correct(text)
  {
    ReplacementsAreFinal(text);
  }

  /** The table is keyed by whole names: "Hamburg SEC" and "Hamburg" have
      different replacements. */
  lemma HamburgNames()
    ensures Correct("Hamburg SEC") == "Hamburg-Essener Stra\U{DF}e"
    ensures Correct("Hamburg") == "Hamburg Supercharger"
  {
  }

  /** The station query of one line: a European supercharger whose title,
      locationId or listed common name matches the place name.
      `matches(text, v)` stands for the database's `$regex` search with
      options "-i" for the escaped text in the value `v`. */
  predicate Eligible(st: Station, text: string, matches: (string, Value) -> bool)
  {
    && st.kind == "supercharger"
    && RawField(st, "region") == Some(VStr("europe"))
    && (|| matches(text, st.title)
        || matches(text, st.locationId)
        || (RawField(st, "common_name").Some? && matches(text, RawField(st, "common_name").value)))
  }

  /** The stations the query returns, in directory order. */
  function Candidates(dir: seq<Station>, text: string, matches: (string, Value) -> bool): (r: seq<Station>)
    ensures |r| <= |dir|
    ensures forall i :: 0 <= i < |r| ==> Eligible(r[i], text, matches)
    ensures forall st :: st in r <==> st in dir && Eligible(st, text, matches)
  {
    if |dir| == 0 then []
    else
      var rest := Candidates(dir[1..], text, matches);
      assert forall st :: st in dir <==> st == dir[0] || st in dir[1..];
      if Eligible(dir[0], text, matches) then [dir[0]] + rest else rest
  }

  /** The query returns each eligible station as often as the directory
      holds it and no other station, so the number of candidates is the
      number of matching entries. */
  lemma {:induction false} CandidatesMultiplicity(dir: seq<Station>, text: string, matches: (string, Value) -> bool, st: Station)
    ensures multiset(Candidates(dir, text, matches))[st] == if Eligible(st, text, matches) then multiset(dir)[st] else 0
  {
    if |dir| > 0 {
      assert dir == [dir[0]] + dir[1..];
      CandidatesMultiplicity(dir[1..], text, matches, st);
    }
  }

  /** The query keeps directory order: the candidates of two stretches of
      the directory are those of the first followed by those of the second. */
  lemma {:induction false} CandidatesAppend(a: seq<Station>, b: seq<Station>, text: string, matches: (string, Value) -> bool)
    ensures Candidates(a + b, text, matches) == Candidates(a, text, matches) + Candidates(b, text, matches)
  {
    if |a| == 0 {
      assert a + b == b;
    } else {
      assert (a + b)[0] == a[0] && (a + b)[1..] == a[1..] + b;
      CandidatesAppend(a[1..], b, text, matches);
    }
  }

  /** `parse(item)` for the fields of one line. The checks run in the order
      field count, station, time, and each failing one overwrites `error`,
      so the last failure is the one reported. */
  function ParseLine(fields: seq<string>, dir: seq<Station>, matches: (string, Value) -> bool): (r: Result<ImportRecord, PyException>)
    ensures r.Err? <==> |fields| < 7
    ensures r.Err? ==> r.error == IndexError
    ensures r.Ok? ==>
      var rec := r.value;
      var text := Correct(fields[2]);
      var cands := Candidates(dir, text, matches);
      && rec.time == ParseLocalTime(fields[0], fields[1])
      && rec.stalls == fields[3] && rec.charging == fields[4]
      && rec.waiting == fields[5] && rec.blocked == fields[6]
      && (|cands| == 1 ==> rec.locationId == cands[0].locationId && rec.title == cands[0].title)
      && (|cands| != 1 ==> rec.locationId == VNull && rec.title == VStr(text))
      && (rec.error.None? <==> |fields| == 7 && |cands| == 1 && rec.time.Some?)
      && (rec.time.None? ==> rec.error == Some("Invalid time: " + fields[0] + " " + fields[1]))
      && (rec.time.Some? && |cands| != 1 ==> rec.error == Some("Invalid supercharger, len=" + ShowNat(|cands|)))
      && (rec.time.Some? && |cands| == 1 && |fields| != 7 ==> rec.error == Some("len=" + ShowNat(|fields|)))
  {
    if |fields| < 7 then Err(IndexError)
    else
      var lengthError := if |fields| != 7 then Some("len=" + ShowNat(|fields|)) else None;
      var text := Correct(fields[2]);
      var cands := Candidates(dir, text, matches);
      var stationError := if |cands| != 1 then Some("Invalid supercharger, len=" + ShowNat(|cands|)) else lengthError;
      var locationId := if |cands| != 1 then VNull else cands[0].locationId;
      var title := if |cands| != 1 then VStr(text) else cands[0].title;
      var time := ParseLocalTime(fields[0], fields[1]);
      var error := if time.None? then Some("Invalid time: " + fields[0] + " " + fields[1]) else stationError;
      Ok(ImportRecord(locationId, title, time, fields[3], fields[4], fields[5], fields[6], error))
  }

  /** `[parse(i) for i in items]`: the first short line ends the whole
      comprehension with IndexError. */
  function ParseAll(items: seq<seq<string>>, dir: seq<Station>, matches: (string, Value) -> bool): (r: Result<seq<ImportRecord>, PyException>)
    ensures r.Err? <==> exists i :: 0 <= i < |items| && |items[i]| < 7
    ensures r.Err? ==> r.error == IndexError
    ensures r.Ok? ==> |r.value| == |items|
    ensures r.Ok? ==> forall i :: 0 <= i < |items| ==> ParseLine(items[i], dir, matches) == Ok(r.value[i])
  {
    if |items| == 0 then Ok([])
    else
      match ParseLine(items[0], dir, matches)
      case Err(e) => Err(e)
      case Ok(first) =>
        match ParseAll(items[1..], dir, matches)
        case Err(e) =>
          assert exists i :: 0 <= i < |items| && |items[i]| < 7 by {
            var i :| 0 <= i < |items[1..]| && |items[1..][i]| < 7;
            assert items[i + 1] == items[1..][i];
          }
          Err(e)
        case Ok(rest) =>
          assert forall i :: 1 <= i < |items| ==> items[i] == items[1..][i - 1];
          Ok([first] + rest)
  }

  /** Each line cut at the commas. */
  function FieldsOf(lines: seq<string>): (items: seq<seq<string>>)
    ensures |items| == |lines|
    ensures forall i :: 0 <= i < |lines| ==> items[i] == Split(lines[i], ',')
  {
    if |lines| == 0 then [] else [Split(lines[0], ',')] + FieldsOf(lines[1..])
  }

  /** The lines of the text that hold anything, each cut at the commas. */
  function Items(data: string): seq<seq<string>>
  {
    FieldsOf(NonEmpty(Split(data, '\n')))
  }

  /** The stored documents for the parsed records. */
  function AsStored(recs: seq<ImportRecord>): (r: seq<StoredCheckin>)
    ensures |r| == |recs|
    ensures forall i :: 0 <= i < |recs| ==> r[i] == Imported(recs[i])
  {
    if |recs| == 0 then [] else [Imported(recs[0])] + AsStored(recs[1..])
  }

  /** The check-in collection after a completed import, and the count the
      import returns. */
  datatype Batch = Batch(store: seq<StoredCheckin>, count: nat)

  /** `import_chargings(data)`: every line is parsed first, then each record
      is appended to the store, and the number of records is returned. An
      IndexError leaves the store as it was. */
  function ImportChargings(data: string, dir: seq<Station>, store: seq<StoredCheckin>, matches: (string, Value) -> bool): (r: Result<Batch, PyException>)
    ensures r.Err? <==> exists i :: 0 <= i < |Items(data)| && |Items(data)[i]| < 7
    ensures r.Err? ==> r.error == IndexError
    ensures r.Ok? ==> r.value.count == |Items(data)|
    ensures r.Ok? ==> |r.value.store| == |store| + r.value.count && r.value.store[..|store|] == store
    ensures r.Ok? ==> forall i :: 0 <= i < r.value.count ==>
      r.value.store[|store| + i] == Imported(ParseLine(Items(data)[i], dir, matches).value)
  {
    var recs :- ParseAll(Items(data), dir, matches);
    var stored := store + AsStored(recs);
    assert stored[..|store|] == store;
    Ok(Batch(stored, |recs|))
  }

  /** The count returned is the number of lines of the text that are not
      empty, the empty rest after a final newline included among the empty. */
  lemma ImportCountsNonEmptyLines(data: string, dir: seq<Station>, store: seq<StoredCheckin>, matches: (string, Value) -> bool)
    ensures ImportChargings(data, dir, store, matches).Ok? ==>
      ImportChargings(data, dir, store, matches).value.count
        == |Split(data, '\n')| - multiset(Split(data, '\n'))[""]
  {
    NonEmptyLength(Split(data, '\n'));
  }
}
