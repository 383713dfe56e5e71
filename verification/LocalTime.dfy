/** `datetime.strptime(text, "%m/%d/%Y %H:%M")` as Python 3's `_strptime`
    performs it on ASCII text: the format becomes the regular expression
      (1[0-2]|0[1-9]|[1-9])/(3[01]|[12]\d|0[1-9]|[1-9]| [1-9])/(\d\d\d\d)\s+(2[0-3]|[01]\d|\d):([0-5]\d|\d)
    matched at the start of the text, the whole text must be consumed, and
    the date must exist. The literal separators are never digits, so each
    field is the text between two separators and the regular expression
    admits it exactly when it is one of the listed spellings. */
module LocalTime {
  import opened Base
  import opened Numbers
  import opened Calendar
  import opened TimeFields

  /** The first position at or after `from` holding `c`. */
  function IndexFrom(t: string, c: char, from: nat): (r: Option<nat>)
    requires from <= |t|
    ensures r.Some? ==> from <= r.value < |t| && t[r.value] == c
    ensures r.Some? ==> forall j :: from <= j < r.value ==> t[j] != c
    ensures r.None? ==> forall j :: from <= j < |t| ==> t[j] != c
    decreases |t| - from
  {
    if from == |t| then None
    else if t[from] == c then Some(from)
    else IndexFrom(t, c, from + 1)
  }

  /** The end of the run of white space that starts at `k`: `\s`, read
      as ASCII white space. */
  function SkipSpaces(t: string, k: nat): (r: nat)
    requires k <= |t|
    ensures k <= r <= |t|
    ensures forall j :: k <= j < r ==> IsSpace(t[j])
    ensures r == |t| || !IsSpace(t[r])
    decreases |t| - k
  {
    if k < |t| && IsSpace(t[k]) then SkipSpaces(t, k + 1) else k
  }

  /** A field of one or two digits whose value lies in lo..hi. For the
      month, hour and minute alternatives this is exactly the set of
      spellings they admit. */
  function SmallNumber(tok: string, lo: nat, hi: nat): (r: Option<nat>)
    ensures r.Some? ==> lo <= r.value <= hi
    ensures r.Some? <==> 1 <= |tok| <= 2 && AllDigits(tok) && lo <= DigitsValue(tok) <= hi
  {
    if 1 <= |tok| <= 2 && AllDigits(tok) && lo <= DigitsValue(tok) <= hi then Some(DigitsValue(tok)) else None
  }

  /** The day alternatives also admit a space followed by one digit. */
  function DayNumber(tok: string): (r: Option<nat>)
    ensures r.Some? ==> 1 <= r.value <= 31
  {
    if |tok| == 2 && tok[0] == ' ' && '1' <= tok[1] <= '9' then Some(DigitValue(tok[1]))
    else SmallNumber(tok, 1, 31)
  }

  /** The parse of one text; None stands for the ValueError. */
  function ParseLocal(t: string): (r: Option<DateTime>)
    ensures r.Some? ==> Valid(r.value) && r.value.second == 0 && r.value.micro == 0
  {
    match IndexFrom(t, '/', 0)
    case None => None
    case Some(i) =>
      match IndexFrom(t, '/', i + 1)
      case None => None
      case Some(j) =>
        if j + 5 >= |t| || !AllDigits(t[j + 1..j + 5]) || !IsSpace(t[j + 5]) then None
        else
          var k := SkipSpaces(t, j + 5);
          match IndexFrom(t, ':', k)
          case None => None
          case Some(l) =>
            var month := SmallNumber(t[..i], 1, 12);
            var day := DayNumber(t[i + 1..j]);
            var hour := SmallNumber(t[k..l], 0, 23);
            var minute := SmallNumber(t[l + 1..], 0, 59);
            if month.None? || day.None? || hour.None? || minute.None? then None
            else
              var dt := DateTime(DigitsValue(t[j + 1..j + 5]), month.value, day.value, hour.value, minute.value, 0, 0);
              if Valid(dt) then Some(dt) else None
  }

  /** `strptime(date + ' ' + time, "%m/%d/%Y %H:%M")`. */
  function ParseLocalTime(date: string, time: string): Option<DateTime>
  {
    ParseLocal(date + " " + time)
  }

  /** The zero-padded date and time fields `strftime` writes for the same
      format. */
  function FormatLocal(dt: DateTime): (string, string)
  {
    ([DigitOf(dt.month, 10), DigitOf(dt.month, 1), '/', DigitOf(dt.day, 10), DigitOf(dt.day, 1), '/',
      DigitOf(dt.year, 1000), DigitOf(dt.year, 100), DigitOf(dt.year, 10), DigitOf(dt.year, 1)],
     [DigitOf(dt.hour, 10), DigitOf(dt.hour, 1), ':', DigitOf(dt.minute, 10), DigitOf(dt.minute, 1)])
  }

  lemma {:induction false} IndexFromAt(t: string, c: char, from: nat, i: nat)
    requires from <= i < |t| && t[i] == c
    requires forall j :: from <= j < i ==> t[j] != c
    ensures IndexFrom(t, c, from) == Some(i)
    decreases i - from
  {
    if from < i {
      IndexFromAt(t, c, from + 1, i);
    }
  }

  lemma TwoDigitValue(tok: string)
    requires |tok| == 2 && AllDigits(tok)
    ensures DigitsValue(tok) == 10 * DigitValue(tok[0]) + DigitValue(tok[1])
  {
    var p1 := tok[..1];
    assert p1[..0] == [];
    assert DigitsValue(p1) == DigitValue(tok[0]);
  }

  lemma FourDigitValue(tok: string)
    requires |tok| == 4 && AllDigits(tok)
    ensures DigitsValue(tok) == 100 * (10 * DigitValue(tok[0]) + DigitValue(tok[1])) + (10 * DigitValue(tok[2]) + DigitValue(tok[3]))
  {
    var p3 := tok[..3];
    var p2 := p3[..2];
    var p1 := p2[..1];
    assert p1[..0] == [];
    assert DigitsValue(p1) == DigitValue(tok[0]);
    assert DigitsValue(p2) == 10 * DigitValue(tok[0]) + DigitValue(tok[1]);
  }

  /** The zero-padded spelling MM/DD/YYYY HH:MM. */
  predicate LocalShape(t: string)
  {
    && |t| == 16
    && IsDigit(t[0]) && IsDigit(t[1]) && t[2] == '/' && IsDigit(t[3]) && IsDigit(t[4]) && t[5] == '/'
    && IsDigit(t[6]) && IsDigit(t[7]) && IsDigit(t[8]) && IsDigit(t[9]) && t[10] == ' '
    && IsDigit(t[11]) && IsDigit(t[12]) && t[13] == ':' && IsDigit(t[14]) && IsDigit(t[15])
  }

  function LocalFields(t: string): DateTime
    requires LocalShape(t)
  {
    DateTime(100 * Two(t, 6) + Two(t, 8), Two(t, 0), Two(t, 3), Two(t, 11), Two(t, 14), 0, 0)
  }

  lemma ShapeSeparators(t: string)
    requires LocalShape(t)
    ensures IndexFrom(t, '/', 0) == Some(2) && IndexFrom(t, '/', 3) == Some(5)
    ensures SkipSpaces(t, 10) == 11 && IndexFrom(t, ':', 11) == Some(13)
  {
    IndexFromAt(t, '/', 0, 2);
    IndexFromAt(t, '/', 3, 5);
    assert SkipSpaces(t, 11) == 11;
    IndexFromAt(t, ':', 11, 13);
  }

  lemma ShapeTokens(t: string)
    requires LocalShape(t)
    ensures SmallNumber(t[..2], 1, 12) == if 1 <= Two(t, 0) <= 12 then Some(Two(t, 0)) else None
    ensures DayNumber(t[3..5]) == if 1 <= Two(t, 3) <= 31 then Some(Two(t, 3)) else None
    ensures AllDigits(t[6..10]) && DigitsValue(t[6..10]) == 100 * Two(t, 6) + Two(t, 8)
    ensures SmallNumber(t[11..13], 0, 23) == if Two(t, 11) <= 23 then Some(Two(t, 11)) else None
    ensures SmallNumber(t[14..], 0, 59) == if Two(t, 14) <= 59 then Some(Two(t, 14)) else None
  {
    TwoDigitValue(t[..2]);
    TwoDigitValue(t[3..5]);
    FourDigitValue(t[6..10]);
    TwoDigitValue(t[11..13]);
    TwoDigitValue(t[14..]);
  }

  /** On the zero-padded spelling the parse reads the fields off their
      positions and accepts them exactly when they form a valid date-time. */
  lemma ParseLocalShaped(t: string)
    requires LocalShape(t)
    ensures ParseLocal(t) == if Valid(LocalFields(t)) then Some(LocalFields(t)) else None
  {
    ShapeSeparators(t);
    ShapeTokens(t);
  }

  lemma FormatLocalShape(dt: DateTime)
    requires Valid(dt) && dt.second == 0 && dt.micro == 0
    ensures LocalShape(FormatLocal(dt).0 + " " + FormatLocal(dt).1)
    ensures LocalFields(FormatLocal(dt).0 + " " + FormatLocal(dt).1) == dt
  {
    var t := FormatLocal(dt).0 + " " + FormatLocal(dt).1;
    assert LocalShape(t);
    TwoDigitsOf(dt.month);
    TwoDigitsOf(dt.day);
    FourDigitsOf(dt.year);
    TwoDigitsOf(dt.hour);
    TwoDigitsOf(dt.minute);
    assert Two(t, 6) == 10 * (dt.year / 1000 % 10) + dt.year / 100 % 10;
    assert Two(t, 8) == 10 * (dt.year / 10 % 10) + dt.year / 1 % 10;
  }

  /** Dates and times written by strftime with this format parse back to
      themselves. */
  lemma LocalTimeRoundTrip(dt: DateTime)
    requires Valid(dt) && dt.second == 0 && dt.micro == 0
    ensures ParseLocalTime(FormatLocal(dt).0, FormatLocal(dt).1) == Some(dt)
  {
    FormatLocalShape(dt);
    ParseLocalShaped(FormatLocal(dt).0 + " " + FormatLocal(dt).1);
  }

  /** The first line of the bulk-import example. */
  lemma NeubergTime()
    ensures ParseLocalTime("06/23/2013", "13:15") == Some(DateTime(2013, 6, 23, 13, 15, 0, 0))
  {
    var t := "06/23/2013" + " " + "13:15";
    assert t == "06/23/2013 13:15";
    assert LocalShape(t);
    assert LocalFields(t) == DateTime(2013, 6, 23, 13, 15, 0, 0);
    ParseLocalShaped(t);
  }

  /** The shape is right but the thirtieth of February does not exist. */
  lemma ImpossibleDay()
    ensures ParseLocalTime("02/30/2013", "10:00") == None
  {
    var t := "02/30/2013" + " " + "10:00";
    assert t == "02/30/2013 10:00";
    assert LocalShape(t);
    assert LocalFields(t) == DateTime(2013, 2, 30, 10, 0, 0, 0);
    ParseLocalShaped(t);
  }

  /** The spelling without leading zeros in month, day and hour:
      M/D/YYYY H:MM. */
  predicate ShortShape(t: string)
  {
    && |t| == 13
    && IsDigit(t[0]) && t[1] == '/' && IsDigit(t[2]) && t[3] == '/'
    && IsDigit(t[4]) && IsDigit(t[5]) && IsDigit(t[6]) && IsDigit(t[7]) && t[8] == ' '
    && IsDigit(t[9]) && t[10] == ':' && IsDigit(t[11]) && IsDigit(t[12])
  }

  function ShortFields(t: string): DateTime
    requires ShortShape(t)
  {
    DateTime(100 * Two(t, 4) + Two(t, 6), DigitValue(t[0]), DigitValue(t[2]), DigitValue(t[9]), Two(t, 11), 0, 0)
  }

  lemma OneDigitValue(tok: string)
    requires |tok| == 1 && AllDigits(tok)
    ensures DigitsValue(tok) == DigitValue(tok[0])
  {
    assert tok[..0] == [];
  }

  lemma ShortSeparators(t: string)
    requires ShortShape(t)
    ensures IndexFrom(t, '/', 0) == Some(1) && IndexFrom(t, '/', 2) == Some(3)
    ensures SkipSpaces(t, 8) == 9 && IndexFrom(t, ':', 9) == Some(10)
  {
    IndexFromAt(t, '/', 0, 1);
    IndexFromAt(t, '/', 2, 3);
    assert SkipSpaces(t, 9) == 9;
    IndexFromAt(t, ':', 9, 10);
  }

  lemma ShortTokens(t: string)
    requires ShortShape(t)
    ensures SmallNumber(t[..1], 1, 12) == if 1 <= DigitValue(t[0]) then Some(DigitValue(t[0])) else None
    ensures DayNumber(t[2..3]) == if 1 <= DigitValue(t[2]) then Some(DigitValue(t[2])) else None
    ensures AllDigits(t[4..8]) && DigitsValue(t[4..8]) == 100 * Two(t, 4) + Two(t, 6)
    ensures SmallNumber(t[9..10], 0, 23) == Some(DigitValue(t[9]))
    ensures SmallNumber(t[11..], 0, 59) == if Two(t, 11) <= 59 then Some(Two(t, 11)) else None
  {
    OneDigitValue(t[..1]);
    OneDigitValue(t[2..3]);
    FourDigitValue(t[4..8]);
    OneDigitValue(t[9..10]);
    TwoDigitValue(t[11..]);
  }

  /** Single-digit month, day and hour are read the same way. */
  lemma ParseLocalShort(t: string)
    requires ShortShape(t)
    ensures ParseLocal(t) == if Valid(ShortFields(t)) then Some(ShortFields(t)) else None
  {
    ShortSeparators(t);
    ShortTokens(t);
  }

  /** The fields may also come without leading zeros. */
  lemma UnpaddedTime()
    ensures ParseLocalTime("7/9/2014", "8:05") == Some(DateTime(2014, 7, 9, 8, 5, 0, 0))
  {
    var t := "7/9/2014" + " " + "8:05";
    assert t == "7/9/2014 8:05";
    assert ShortShape(t);
    assert ShortFields(t) == DateTime(2014, 7, 9, 8, 5, 0, 0);
    ParseLocalShort(t);
  }
}
