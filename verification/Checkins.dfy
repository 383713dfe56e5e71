/** The two kinds of document the check-in collection receives, and the
    order the listing endpoint returns them in. */
module Checkins {
  import opened Base
  import opened Calendar
  import opened Values

  /** A live submission after validation: counts as integers, the station
      reference and title as submitted, and a naive UTC time. */
  datatype LiveCheckin = LiveCheckin(
    stalls: int, charging: int, blocked: int, waiting: int,
    locationId: Value, title: Value, time: DateTime)

  /** One line of a bulk import: the counts stay the raw texts, the time is
      a Zurich wall-clock time when it parsed, and `error` holds the last
      check that failed. */
  datatype ImportRecord = ImportRecord(
    locationId: Value, title: Value, time: Option<DateTime>,
    stalls: string, charging: string, waiting: string, blocked: string,
    error: Option<string>)

  datatype StoredCheckin = Live(live: LiveCheckin) | Imported(record: ImportRecord)

  /** The stored `time` a document sorts by, as a UTC datetime. A live time
      is already UTC; a bulk time is a Zurich wall-clock time, converted by
      `zurichToUtc` (the time-zone rules are a parameter of the model). */
  function SortKey(c: StoredCheckin, zurichToUtc: DateTime -> DateTime): Option<DateTime>
  {
    match c
    case Live(l) => Some(l.time)
    case Imported(r) => if r.time.Some? then Some(zurichToUtc(r.time.value)) else None
  }

  /** Descending order on `time`: a date comes before a missing time (BSON
      orders null below dates), later dates first. */
  predicate NotOlder(a: Option<DateTime>, b: Option<DateTime>)
  {
    match a
    case None => b.None?
    case Some(x) => b.None? || !After(b.value, x)
  }

  predicate NewestFirstOrder(cs: seq<StoredCheckin>, zurichToUtc: DateTime -> DateTime)
  {
    forall i :: 0 < i < |cs| ==> NotOlder(SortKey(cs[i - 1], zurichToUtc), SortKey(cs[i], zurichToUtc))
  }

  /** Python's datetime comparison is total: of two distinct datetimes one
      is after the other. */
  lemma AfterTotal(x: DateTime, y: DateTime)
    ensures After(x, y) || After(y, x) || x == y
  {
  }

  lemma NotAfterTransitive(x: DateTime, y: DateTime, z: DateTime)
    requires !After(y, x) && !After(z, y)
    ensures !After(z, x)
  {
  }

  lemma NotOlderTransitive(a: Option<DateTime>, b: Option<DateTime>, c: Option<DateTime>)
    requires NotOlder(a, b) && NotOlder(b, c)
    ensures NotOlder(a, c)
  {
    if a.Some? && b.Some? && c.Some? {
      NotAfterTransitive(a.value, b.value, c.value);
    }
  }

  /** Place one document into a list already in newest-first order. */
  function InsertByTime(c: StoredCheckin, cs: seq<StoredCheckin>, zurichToUtc: DateTime -> DateTime): (r: seq<StoredCheckin>)
    requires NewestFirstOrder(cs, zurichToUtc)
    ensures NewestFirstOrder(r, zurichToUtc)
    ensures multiset(r) == multiset(cs) + multiset{c}
    ensures |r| > 0 && (r[0] == c || (|cs| > 0 && r[0] == cs[0]))
  {
    if |cs| == 0 then [c]
    else if NotOlder(SortKey(c, zurichToUtc), SortKey(cs[0], zurichToUtc)) then [c] + cs
    else
      var rest := InsertByTime(c, cs[1..], zurichToUtc);
      var r := [cs[0]] + rest;
      assert NotOlder(SortKey(cs[0], zurichToUtc), SortKey(c, zurichToUtc)) by {
        var a, b := SortKey(cs[0], zurichToUtc), SortKey(c, zurichToUtc);
        if a.Some? && b.Some? { AfterTotal(a.value, b.value); }
      }
      assert cs == [cs[0]] + cs[1..];
      r
  }

  /** The GET branch of the check-in endpoint: every stored document once,
      ordered by `time` descending. */
  function NewestFirst(store: seq<StoredCheckin>, zurichToUtc: DateTime -> DateTime): (r: seq<StoredCheckin>)
    ensures multiset(r) == multiset(store)
    ensures NewestFirstOrder(r, zurichToUtc)
  {
    if |store| == 0 then []
    else
      assert store == [store[0]] + store[1..];
      InsertByTime(store[0], NewestFirst(store[1..], zurichToUtc), zurichToUtc)
  }

  /** Adjacent order is enough: every document is at least as new as every
      document after it. */
  lemma {:induction false} NewestFirstPairwise(cs: seq<StoredCheckin>, zurichToUtc: DateTime -> DateTime, i: nat, j: nat)
    requires NewestFirstOrder(cs, zurichToUtc)
    requires i < j < |cs|
    ensures NotOlder(SortKey(cs[i], zurichToUtc), SortKey(cs[j], zurichToUtc))
    decreases j - i
  {
    if j > i + 1 {
      NewestFirstPairwise(cs, zurichToUtc, i, j - 1);
      NotOlderTransitive(SortKey(cs[i], zurichToUtc), SortKey(cs[j - 1], zurichToUtc), SortKey(cs[j], zurichToUtc));
    }
  }
}
