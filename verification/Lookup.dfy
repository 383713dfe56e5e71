/** The station lookup endpoint: which directory query a `query` parameter
    turns into. A text that starts with two decimals separated by a comma
    is a position (latitude, longitude); any other text longer than two
    characters is a title search. The directory's evaluation of the query
    is not modelled. */
module Lookup {
  import opened Base
  import opened Numbers

  const MaxDistance: nat := 20000

  /** The query sent to the station directory. Coordinates stay the texts
      the request carried, ordered [longitude, latitude] as GeoJSON wants. */
  datatype LookupQuery =
    | NoLookup                                       // answered with []
    | Near(coordinates: seq<string>, maxDistance: nat, kind: string)
    | TitleSearch(pattern: string, options: string, kind: string)

  /** Length of the run of ASCII digits `s` starts with. */
  function DigitRun(s: string): (n: nat)
    ensures n <= |s|
    ensures forall j :: 0 <= j < n ==> IsDigit(s[j])
    ensures n == |s| || !IsDigit(s[n])
  {
    if |s| == 0 || !IsDigit(s[0]) then 0 else 1 + DigitRun(s[1..])
  }

  /** Digits, a point, digits. */
  predicate IsDecimal(t: string)
  {
    exists p :: 0 < p < |t| - 1 && t[p] == '.' && AllDigits(t[..p]) && AllDigits(t[p + 1..])
  }

  /** `\d+\.\d+` at the start of `s`, with ASCII digits: the length of the match. Digits and
      `.` are disjoint, so each greedy run is maximal and no backtracking
      can help. */
  function DecimalPrefix(s: string): (e: Option<nat>)
    ensures e.Some? ==> 0 < e.value <= |s| && IsDecimal(s[..e.value])
    ensures e.Some? ==> e.value == |s| || !IsDigit(s[e.value])
  {
    var a := DigitRun(s);
    if a == 0 || a == |s| || s[a] != '.' then None
    else
      var b := DigitRun(s[a + 1..]);
      if b == 0 then None
      else
        assert IsDecimal(s[..a + 1 + b]) by {
          var t := s[..a + 1 + b];
          assert t[a] == '.';
          assert t[..a] == s[..a];
          assert t[a + 1..] == s[a + 1..][..b];
        }
        Some(a + 1 + b)
  }

  /** `(\d+\.\d+),(\d+\.\d+)` matched at the start of `s`: the two groups. */
  function LatLngPrefix(s: string): (r: Option<(string, string)>)
    ensures r.Some? ==> IsDecimal(r.value.0) && IsDecimal(r.value.1)
    ensures r.Some? ==> r.value.0 + "," + r.value.1 <= s
  {
    match DecimalPrefix(s)
    case None => None
    case Some(e1) =>
      if e1 == |s| || s[e1] != ',' then None
      else
        match DecimalPrefix(s[e1 + 1..])
        case None => None
        case Some(n) =>
          PrefixAroundComma(s, e1, n);
          Some((s[..e1], s[e1 + 1..][..n]))
  }

  /** The text before a comma, the comma and what follows it start `s`. */
  lemma PrefixAroundComma(s: string, e: nat, n: nat)
    requires e < |s| && s[e] == ',' && e + 1 + n <= |s|
    ensures s[..e] + "," + s[e + 1..][..n] <= s
  {
    assert s[..e] + "," + s[e + 1..][..n] == s[..e + 1 + n];
  }

  /** `lookup_query`: no query for an absent or short parameter; a near
      query around a leading position; otherwise a title search with the
      `$regex` operator and options "-i". Both queries are restricted to superchargers. */
  function Classify(param: Option<string>): (q: LookupQuery)
    ensures param.None? || |param.value| <= 2 ==> q == NoLookup
    ensures q.Near? ==> q.maxDistance == 20000 && q.kind == "supercharger"
    ensures q.Near? ==> exists lat, lng :: LatLngPrefix(param.value) == Some((lat, lng)) && q.coordinates == [lng, lat]
    ensures q.TitleSearch? ==> q.pattern == param.value && q.options == "-i" && q.kind == "supercharger"
    ensures q.TitleSearch? <==> param.Some? && |param.value| > 2 && LatLngPrefix(param.value).None?
  {
    if param.None? || |param.value| <= 2 then NoLookup
    else
      match LatLngPrefix(param.value)
      case Some((lat, lng)) => Near([lng, lat], MaxDistance, "supercharger")
      case None => TitleSearch(param.value, "-i", "supercharger")
  }

  /** The digit run has length `n` when `n` digits come first and no
      digit follows them. */
  lemma {:induction false} DigitRunAt(s: string, n: nat)
    requires n <= |s| && (forall j :: 0 <= j < n ==> IsDigit(s[j]))
    requires n == |s| || !IsDigit(s[n])
    ensures DigitRun(s) == n
  {
    if n > 0 {
      assert forall j :: 0 <= j < n - 1 ==> s[1..][j] == s[j + 1];
      DigitRunAt(s[1..], n - 1);
    }
  }

  /** Digits up to a point at `p`, digits from there to `q`, and no digit
      at `q`: the decimal at the start of `s` ends at `q`. */
  lemma DecimalPrefixAt(s: string, p: nat, q: nat)
    requires 0 < p && p + 1 < q <= |s| && s[p] == '.'
    requires forall j :: 0 <= j < q && j != p ==> IsDigit(s[j])
    requires q == |s| || !IsDigit(s[q])
    ensures DecimalPrefix(s) == Some(q)
  {
    DigitRunAt(s, p);
    var u := s[p + 1..];
    assert forall j :: 0 <= j < q - p - 1 ==> u[j] == s[p + 1 + j];
    DigitRunAt(u, q - p - 1);
  }

  lemma LatLngOfParts(x: string, tail: string, n: nat)
    requires DecimalPrefix(x + "," + tail) == Some(|x|)
    requires DecimalPrefix(tail) == Some(n)
    ensures LatLngPrefix(x + "," + tail) == Some((x, tail[..n]))
  {
    var s := x + "," + tail;
    assert s[|x|] == ',';
    assert s[|x| + 1..] == tail;
    assert s[..|x|] == x;
  }

  lemma DecimalPrefixOfDecimal(t: string, rest: string)
    requires IsDecimal(t) && (|rest| == 0 || !IsDigit(rest[0]))
    ensures DecimalPrefix(t + rest) == Some(|t|)
  {
    var p :| 0 < p < |t| - 1 && t[p] == '.' && AllDigits(t[..p]) && AllDigits(t[p + 1..]);
    var s := t + rest;
    forall j | 0 <= j < |t| && j != p
      ensures IsDigit(s[j])
    {
      if j < p {
        assert t[..p][j] == t[j];
      } else {
        assert t[p + 1..][j - p - 1] == t[j];
      }
    }
    assert |t| < |s| ==> s[|t|] == rest[0];
    DecimalPrefixAt(s, p, |t|);
  }

  /** Any text that starts with two decimals `lat,lng` followed by
      something other than a digit is a near query with coordinates
      [lng, lat]: the pattern matches and its groups are the two decimals. */
  lemma PositionQuery(lat: string, lng: string, rest: string)
    requires IsDecimal(lat) && IsDecimal(lng)
    requires |rest| == 0 || !IsDigit(rest[0])
    ensures Classify(Some(lat + "," + lng + rest)) == Near([lng, lat], 20000, "supercharger")
  {
    var tail := lng + rest;
    DecimalPrefixOfDecimal(lat, "," + tail);
    assert lat + ("," + tail) == lat + "," + tail;
    DecimalPrefixOfDecimal(lng, rest);
    LatLngOfParts(lat, tail, |lng|);
    assert tail[..|lng|] == lng;
    assert lat + "," + tail == lat + "," + lng + rest;
  }

  lemma DecimalOf(a: string, b: string)
    requires |a| > 0 && |b| > 0 && AllDigits(a) && AllDigits(b)
    ensures IsDecimal(a + "." + b)
  {
    var t := a + "." + b;
    assert t[..|a|] == a && t[|a| + 1..] == b;
  }

  lemma ExampleDecimals()
    ensures IsDecimal("46.5") && IsDecimal("7.3")
  {
    DecimalOf("46", "5");
    assert "46" + "." + "5" == "46.5";
    DecimalOf("7", "3");
    assert "7" + "." + "3" == "7.3";
  }

  /** "46.5,7.3 Bern" asks for the stations near longitude 7.3, latitude
      46.5. */
  lemma PositionExample()
    ensures Classify(Some("46.5" + "," + "7.3" + " Bern")) == Near(["7.3", "46.5"], 20000, "supercharger")
  {
    ExampleDecimals();
    PositionQuery("46.5", "7.3", " Bern");
  }

  /** A coordinate pair without the decimal points is not a position. */
  lemma IntegersAreTitles()
    ensures Classify(Some("46,8")) == TitleSearch("46,8", "-i", "supercharger")
  {
    DigitRunAt("46,8", 2);
  }
}
