/** The millisecond UTC timestamp text used by the API (`TimePattern`,
    `TimeFormat`) and `convert_time_fields`, which rewrites such texts into
    datetimes throughout a nested dict, in place. */
module TimeFields {
  import opened Base
  import opened Numbers
  import opened Calendar
  import opened Values

  /** The text has the fixed shape DDDD-DD-DDTDD:DD:DD.DDDZ (D an ASCII digit). */
  predicate HasIsoShape(s: string)
  {
    && |s| == 24
    && IsDigit(s[0]) && IsDigit(s[1]) && IsDigit(s[2]) && IsDigit(s[3]) && s[4] == '-'
    && IsDigit(s[5]) && IsDigit(s[6]) && s[7] == '-'
    && IsDigit(s[8]) && IsDigit(s[9]) && s[10] == 'T'
    && IsDigit(s[11]) && IsDigit(s[12]) && s[13] == ':'
    && IsDigit(s[14]) && IsDigit(s[15]) && s[16] == ':'
    && IsDigit(s[17]) && IsDigit(s[18]) && s[19] == '.'
    && IsDigit(s[20]) && IsDigit(s[21]) && IsDigit(s[22]) && s[23] == 'Z'
  }

  /** `TimePattern.match(s)`. The pattern is anchored by `^` and `$`, and
      Python's `$` also matches just before one final newline. */
  predicate MatchesTimePattern(s: string)
  {
    HasIsoShape(s) || (|s| == 25 && s[24] == '\n' && HasIsoShape(s[..24]))
  }

  /** The two-digit field starting at `i`. */
  function Two(s: string, i: nat): nat
    requires i + 1 < |s| && IsDigit(s[i]) && IsDigit(s[i + 1])
  {
    10 * DigitValue(s[i]) + DigitValue(s[i + 1])
  }

  /** The seven fields a shaped text spells, milliseconds scaled to microseconds. */
  function IsoFields(s: string): DateTime
    requires HasIsoShape(s)
  {
    DateTime(100 * Two(s, 0) + Two(s, 2), Two(s, 5), Two(s, 8), Two(s, 11), Two(s, 14), Two(s, 17),
             (10 * Two(s, 20) + DigitValue(s[22])) * 1000)
  }

  /** `datetime.strptime(s, TimeFormat)` on a text that passed TimePattern.
      On a fixed-width field strptime accepts exactly the in-range values,
      the datetime constructor then rejects impossible days and seconds 60
      and 61, and a trailing newline is "unconverted data": None stands for
      the ValueError in each case. */
  function ParseIso(s: string): (r: Option<DateTime>)
    requires MatchesTimePattern(s)
    ensures r.Some? ==> |s| == 24 && Valid(r.value) && r.value.micro % 1000 == 0
  {
    if |s| == 24 && Valid(IsoFields(s)) then Some(IsoFields(s)) else None
  }

  /** The decimal digit of `n` at the given place value. */
  function DigitOf(n: nat, place: nat): char
    requires place >= 1
  {
    DigitChar(n / place % 10)
  }

  /** A millisecond-precision datetime written in the shape TimePattern describes. */
  function FormatIso(dt: DateTime): (s: string)
    requires Valid(dt) && dt.micro % 1000 == 0
    ensures |s| == 24
  {
    var ms := dt.micro / 1000;
    [DigitOf(dt.year, 1000), DigitOf(dt.year, 100), DigitOf(dt.year, 10), DigitOf(dt.year, 1), '-',
     DigitOf(dt.month, 10), DigitOf(dt.month, 1), '-',
     DigitOf(dt.day, 10), DigitOf(dt.day, 1), 'T',
     DigitOf(dt.hour, 10), DigitOf(dt.hour, 1), ':',
     DigitOf(dt.minute, 10), DigitOf(dt.minute, 1), ':',
     DigitOf(dt.second, 10), DigitOf(dt.second, 1), '.',
     DigitOf(ms, 100), DigitOf(ms, 10), DigitOf(ms, 1), 'Z']
  }

  lemma TwoDigitsOf(n: nat)
    requires n < 100
    ensures 10 * (n / 10 % 10) + n / 1 % 10 == n
  {
  }

  lemma ThreeDigitsOf(n: nat)
    requires n < 1000
    ensures 10 * (10 * (n / 100 % 10) + n / 10 % 10) + n / 1 % 10 == n
  {
    var m1 := n / 10;
    assert n == 10 * m1 + n % 10;
    assert m1 / 10 == n / 100;
  }

  lemma FourDigitsOf(n: nat)
    requires n < 10000
    ensures 100 * (10 * (n / 1000 % 10) + n / 100 % 10) + (10 * (n / 10 % 10) + n / 1 % 10) == n
  {
    var m1 := n / 10;
    var m2 := m1 / 10;
    assert n == 10 * m1 + n % 10;
    assert m1 == 10 * m2 + m1 % 10;
    assert m2 == n / 100 && m2 / 10 == n / 1000;
  }

  /** A two-digit field written from `n` reads back as `n`. */
  lemma TwoOfPlaces(s: string, i: nat, n: nat)
    requires n < 100 && i + 1 < |s| && s[i] == DigitOf(n, 10) && s[i + 1] == DigitOf(n, 1)
    ensures IsDigit(s[i]) && IsDigit(s[i + 1]) && Two(s, i) == n
  {
    TwoDigitsOf(n);
  }

  /** A four-digit year written from `y` reads back as `y`. */
  lemma YearOfPlaces(s: string, y: nat)
    requires y < 10000 && 3 < |s|
    requires s[0] == DigitOf(y, 1000) && s[1] == DigitOf(y, 100) && s[2] == DigitOf(y, 10) && s[3] == DigitOf(y, 1)
    ensures IsDigit(s[0]) && IsDigit(s[1]) && IsDigit(s[2]) && IsDigit(s[3])
    ensures 100 * Two(s, 0) + Two(s, 2) == y
  {
    FourDigitsOf(y);
  }

  /** A three-digit millisecond field written from `ms` reads back as `ms`. */
  lemma MilliOfPlaces(s: string, ms: nat)
    requires ms < 1000 && 22 < |s|
    requires s[20] == DigitOf(ms, 100) && s[21] == DigitOf(ms, 10) && s[22] == DigitOf(ms, 1)
    ensures IsDigit(s[20]) && IsDigit(s[21]) && IsDigit(s[22])
    ensures 10 * Two(s, 20) + DigitValue(s[22]) == ms
  {
    ThreeDigitsOf(ms);
  }

  lemma IsoFieldsOfFormat(dt: DateTime)
    requires Valid(dt) && dt.micro % 1000 == 0
    ensures HasIsoShape(FormatIso(dt))
    ensures IsoFields(FormatIso(dt)) == dt
  {
    var s := FormatIso(dt);
    var ms := dt.micro / 1000;
    YearOfPlaces(s, dt.year);
    TwoOfPlaces(s, 5, dt.month);
    TwoOfPlaces(s, 8, dt.day);
    TwoOfPlaces(s, 11, dt.hour);
    TwoOfPlaces(s, 14, dt.minute);
    TwoOfPlaces(s, 17, dt.second);
    MilliOfPlaces(s, ms);
    assert HasIsoShape(s);
  }

  /** Every millisecond-precision datetime has a text that passes the
      pattern and parses back to it. */
  lemma FormatIsoParses(dt: DateTime)
    requires Valid(dt) && dt.micro % 1000 == 0
    ensures MatchesTimePattern(FormatIso(dt))
    ensures ParseIso(FormatIso(dt)) == Some(dt)
  {
    IsoFieldsOfFormat(dt);
  }

  lemma PlacesOfTwo(a: nat, b: nat)
    requires a < 10 && b < 10
    ensures (10 * a + b) / 10 % 10 == a && (10 * a + b) / 1 % 10 == b
  {
  }

  lemma PlacesOfThree(a: nat, b: nat, c: nat)
    requires a < 10 && b < 10 && c < 10
    ensures var n := 10 * (10 * a + b) + c;
      n / 100 % 10 == a && n / 10 % 10 == b && n / 1 % 10 == c
  {
    var n := 10 * (10 * a + b) + c;
    assert n / 10 == 10 * a + b;
    assert n / 100 == a;
  }

  lemma PlacesOfFour(a: nat, b: nat, c: nat, d: nat)
    requires a < 10 && b < 10 && c < 10 && d < 10
    ensures var n := 100 * (10 * a + b) + (10 * c + d);
      n / 1000 % 10 == a && n / 100 % 10 == b && n / 10 % 10 == c && n / 1 % 10 == d
  {
    var n := 100 * (10 * a + b) + (10 * c + d);
    assert n / 10 == 100 * a + 10 * b + c;
    assert n / 100 == 10 * a + b;
    assert n / 1000 == a;
  }

  lemma DigitCharOfValue(c: char)
    requires IsDigit(c)
    ensures DigitChar(DigitValue(c)) == c
  {
  }

  /** The two places of a two-digit field give back its digits. */
  lemma TwoPlacesOf(s: string, i: nat)
    requires i + 1 < |s| && IsDigit(s[i]) && IsDigit(s[i + 1])
    ensures DigitOf(Two(s, i), 10) == s[i] && DigitOf(Two(s, i), 1) == s[i + 1]
  {
    PlacesOfTwo(DigitValue(s[i]), DigitValue(s[i + 1]));
    DigitCharOfValue(s[i]);
    DigitCharOfValue(s[i + 1]);
  }

  lemma YearPlacesOf(s: string)
    requires HasIsoShape(s)
    ensures var y := IsoFields(s).year;
      DigitOf(y, 1000) == s[0] && DigitOf(y, 100) == s[1] && DigitOf(y, 10) == s[2] && DigitOf(y, 1) == s[3]
  {
    PlacesOfFour(DigitValue(s[0]), DigitValue(s[1]), DigitValue(s[2]), DigitValue(s[3]));
    DigitCharOfValue(s[0]);
    DigitCharOfValue(s[1]);
    DigitCharOfValue(s[2]);
    DigitCharOfValue(s[3]);
  }

  lemma MilliPlacesOf(s: string)
    requires HasIsoShape(s)
    ensures var ms := IsoFields(s).micro / 1000;
      DigitOf(ms, 100) == s[20] && DigitOf(ms, 10) == s[21] && DigitOf(ms, 1) == s[22]
  {
    PlacesOfThree(DigitValue(s[20]), DigitValue(s[21]), DigitValue(s[22]));
    assert IsoFields(s).micro / 1000 == 10 * Two(s, 20) + DigitValue(s[22]);
    DigitCharOfValue(s[20]);
    DigitCharOfValue(s[21]);
    DigitCharOfValue(s[22]);
  }

  /** Conversely a text that parses is the rendering of what it parses to:
      the pattern and the parse admit no second spelling of a datetime. */
  lemma ParseIsoFormats(s: string)
    requires MatchesTimePattern(s) && ParseIso(s).Some?
    ensures FormatIso(ParseIso(s).value) == s
  {
    var dt := IsoFields(s);
    var f := FormatIso(dt);
    YearPlacesOf(s);
    TwoPlacesOf(s, 5);
    TwoPlacesOf(s, 8);
    TwoPlacesOf(s, 11);
    TwoPlacesOf(s, 14);
    TwoPlacesOf(s, 17);
    MilliPlacesOf(s);
    assert forall i :: 0 <= i < 24 ==> f[i] == s[i];
  }

  /** The pattern checks the shape only: a text of the right shape with
      a month above 12 passes it, and the parse refuses the text. */
  lemma PatternIgnoresRanges(s: string)
    requires HasIsoShape(s) && Two(s, 5) > 12
    ensures MatchesTimePattern(s)
    ensures ParseIso(s) == None
  {
  }

  /** Any text the parse accepts passes the pattern again with a newline
      appended, and the parse refuses that text. */
  lemma PatternAdmitsTrailingNewline(s: string)
    requires HasIsoShape(s)
    ensures MatchesTimePattern(s + "\n")
    ensures ParseIso(s + "\n") == None
  {
    assert (s + "\n")[..24] == s;
  }

  /** `dt.strftime(TimeFormat)`, as the API's JSON encoder writes datetimes:
      the year in four digits, `%f` as six fractional digits. The result
      never passes TimePattern. */
  function EncodeJson(dt: DateTime): (r: string)
    requires Valid(dt)
    ensures |r| == 27 && !MatchesTimePattern(r)
    ensures r[4] == '-' && r[10] == 'T' && r[19] == '.' && r[26] == 'Z'
  {
    Padded(dt.year, 4) + "-" + Padded(dt.month, 2) + "-" + Padded(dt.day, 2) + "T"
      + Padded(dt.hour, 2) + ":" + Padded(dt.minute, 2) + ":" + Padded(dt.second, 2) + "."
      + Padded(dt.micro, 6) + "Z"
  }

  // ---------------------------------------------------------------------
  // convert_time_fields

  /** The tree after the call, and the exception that ended it early, if
      any. The conversion is in place, so the entries handled before the
      exception stay converted. */
  datatype Conversion = Conversion(tree: Value, raised: Option<PyException>)

  /** `convert_time_fields(item)` as Python 2 runs it: a false item is left
      alone, a dict is converted entry by entry through `iteritems`, and
      anything else has no `iteritems`. */
  function ConvertTimeFields(item: Value): (c: Conversion)
    ensures Falsy(item) ==> c == Conversion(item, None)
    ensures !Falsy(item) && !item.VDict? ==> c == Conversion(item, Some(AttributeError))
  {
    if Falsy(item) then Conversion(item, None)
    else match item
      case VDict(entries) =>
        var (entries', raised) := ConvertEntries(entries);
        Conversion(VDict(entries'), raised)
      case _ => Conversion(item, Some(AttributeError))
  }

  /** The loop over the entries, stopping at the first exception. */
  function ConvertEntries(entries: seq<Entry>): (seq<Entry>, Option<PyException>)
  {
    if |entries| == 0 then ([], None)
    else
      var (v, raised) := ConvertValue(entries[0].val);
      var head := Entry(entries[0].key, v);
      if raised.Some? then ([head] + entries[1..], raised)
      else
        var (rest, raised') := ConvertEntries(entries[1..]);
        ([head] + rest, raised')
  }

  /** One entry's value: None is skipped, a dict is recursed into, a text is
      replaced by its datetime when it passes the pattern, and any other
      value reaches `TimePattern.match`, which wants a text. */
  function ConvertValue(v: Value): (Value, Option<PyException>)
  {
    match v
    case VNull => (v, None)
    case VDict(inner) =>
      var (inner', raised) := ConvertEntries(inner);
      (VDict(inner'), raised)
    case VStr(s) =>
      if !MatchesTimePattern(s) then (v, None)
      else (match ParseIso(s)
            case Some(t) => (VTime(t), None)
            case None => (v, Some(ValueError)))
    case _ => (v, Some(TypeError))
  }

  // The reference description the conversion is proved against.

  /** Both trees have dicts in the same places with the same keys in the
      same order, and None in the same places. */
  predicate SameShape(a: Value, b: Value)
  {
    match a
    case VNull => b == VNull
    case VDict(es) => b.VDict? && SameShapeEntries(es, b.entries)
    case _ => b != VNull && !b.VDict?
  }

  predicate SameShapeEntries(es: seq<Entry>, fs: seq<Entry>)
  {
    && |es| == |fs|
    && forall i :: 0 <= i < |es| ==> es[i].key == fs[i].key && SameShape(es[i].val, fs[i].val)
  }

  /** The conversion can run to completion: every value below the dict is
      None, a dict, a text that fails the pattern, or a text that parses. */
  predicate Convertible(v: Value)
  {
    match v
    case VNull => true
    case VDict(es) => forall i :: 0 <= i < |es| ==> Convertible(es[i].val)
    case VStr(s) => !MatchesTimePattern(s) || ParseIso(s).Some?
    case _ => false
  }

  /** `b` is `a` with exactly the pattern-matching texts replaced by their
      datetimes. */
  predicate FullyConverted(a: Value, b: Value)
  {
    match a
    case VDict(es) =>
      && b.VDict? && |b.entries| == |es|
      && forall i :: 0 <= i < |es| ==>
           b.entries[i].key == es[i].key && FullyConverted(es[i].val, b.entries[i].val)
    case VStr(s) =>
      if MatchesTimePattern(s) && ParseIso(s).Some? then b == VTime(ParseIso(s).value) else b == a
    case _ => b == a
  }

  /** Keys are never added, removed or reordered and None stays None, even
      when the conversion stops on an exception. */
  lemma {:induction false} ConvertKeepsShape(v: Value)
    ensures SameShape(v, ConvertValue(v).0)
  {
    match v
    case VDict(es) => ConvertEntriesKeepShape(es);
    case _ =>
  }

  lemma {:induction false} ConvertEntriesKeepShape(es: seq<Entry>)
    ensures SameShapeEntries(es, ConvertEntries(es).0)
  {
    if |es| > 0 {
      ConvertKeepsShape(es[0].val);
      var (v, raised) := ConvertValue(es[0].val);
      if raised.Some? {
        forall i | 1 <= i < |es| ensures SameShape(es[i].val, es[i].val) {
          SameShapeReflexive(es[i].val);
        }
      } else {
        ConvertEntriesKeepShape(es[1..]);
        var rest := ConvertEntries(es[1..]).0;
        forall i | 1 <= i < |es|
          ensures es[i].key == ([Entry(es[0].key, v)] + rest)[i].key
          ensures SameShape(es[i].val, ([Entry(es[0].key, v)] + rest)[i].val)
        {
          assert es[1..][i - 1] == es[i];
        }
      }
    }
  }

  lemma {:induction false} SameShapeReflexive(v: Value)
    ensures SameShape(v, v)
  {
    match v
    case VDict(es) =>
      forall i | 0 <= i < |es| ensures SameShape(es[i].val, es[i].val) {
        SameShapeReflexive(es[i].val);
      }
    case _ =>
  }

  /** The conversion raises nothing exactly when the tree is convertible,
      and then it has replaced exactly the texts that pass the pattern. */
  lemma {:induction false} ConvertValueSpec(v: Value)
    ensures ConvertValue(v).1.None? <==> Convertible(v)
    ensures Convertible(v) ==> FullyConverted(v, ConvertValue(v).0)
  {
    match v
    case VDict(es) => ConvertEntriesSpec(es);
    case _ =>
  }

  lemma {:induction false} ConvertEntriesSpec(es: seq<Entry>)
    ensures ConvertEntries(es).1.None? <==> forall i :: 0 <= i < |es| ==> Convertible(es[i].val)
    ensures (forall i :: 0 <= i < |es| ==> Convertible(es[i].val)) ==>
      var fs := ConvertEntries(es).0;
      |fs| == |es| && forall i :: 0 <= i < |es| ==> fs[i].key == es[i].key && FullyConverted(es[i].val, fs[i].val)
  {
    if |es| > 0 {
      ConvertValueSpec(es[0].val);
      ConvertEntriesSpec(es[1..]);
      var (v, raised) := ConvertValue(es[0].val);
      if raised.None? {
        var rest := ConvertEntries(es[1..]).0;
        var fs := [Entry(es[0].key, v)] + rest;
        assert forall i :: 1 <= i < |es| ==> es[1..][i - 1] == es[i];
        assert (forall i :: 0 <= i < |es| ==> Convertible(es[i].val)) <==>
               Convertible(es[0].val) && (forall i :: 0 <= i < |es[1..]| ==> Convertible(es[1..][i].val));
        if forall i :: 0 <= i < |es| ==> Convertible(es[i].val) {
          forall i | 1 <= i < |es|
            ensures fs[i].key == es[i].key && FullyConverted(es[i].val, fs[i].val)
          {
            assert fs[i] == rest[i - 1];
          }
        }
      }
    }
  }

  /** The top-level call on a dict: it completes exactly when the dict is
      convertible, keeps the shape either way, and on completion has
      rewritten exactly the matching texts. */
  lemma ConvertTimeFieldsSpec(item: Value)
    requires item.VDict?
    ensures var c := ConvertTimeFields(item);
      && SameShape(item, c.tree)
      && (c.raised.None? <==> Convertible(item))
      && (c.raised.None? ==> FullyConverted(item, c.tree))
  {
    ConvertKeepsShape(item);
    ConvertValueSpec(item);
    if Falsy(item) {
      SameShapeReflexive(item);
    }
  }
}

/** Concrete timestamps and trees: what the pattern, the parse and the
    conversion make of them. */
module TimeExamples {
  import opened Base
  import opened Numbers
  import opened Calendar
  import opened Values
  import opened TimeFields

  /** The timestamp used by the date test: it passes the pattern and
      parses to 11:05 on 2016-07-28. */
  lemma TestTimestamp()
    ensures MatchesTimePattern("2016-07-28T11:05:00.000Z")
    ensures ParseIso("2016-07-28T11:05:00.000Z") == Some(DateTime(2016, 7, 28, 11, 5, 0, 0))
  {
  }

  /** The conversion is not repeatable: a dict that has had a text replaced
      holds a datetime, and a second call stops on it with a TypeError. */
  lemma ConvertTwiceFails()
    ensures var item := VDict([Entry("time", VStr("2016-07-28T11:05:00.000Z"))]);
      var once := ConvertTimeFields(item);
      && once.raised == None
      && once.tree == VDict([Entry("time", VTime(DateTime(2016, 7, 28, 11, 5, 0, 0)))])
      && ConvertTimeFields(once.tree).raised == Some(TypeError)
  {
    TestTimestamp();
  }
}
