/** Decimal digits as the Python code reads and writes them: the digit
    runs captured by regular expressions and strptime, `str(n)` and
    `'%d' % n` for counts, and Python 3's `int()` applied to text. */
module Numbers {
  import opened Base

  /** An ASCII digit: `[0-9]`, and the part of `\d` this model reads. In a
      Python 3 text pattern `\d` also matches every other Unicode decimal
      digit, and those digits are not modelled. */
  predicate IsDigit(c: char) { '0' <= c <= '9' }

  predicate AllDigits(s: string) { forall i :: 0 <= i < |s| ==> IsDigit(s[i]) }

  function DigitValue(c: char): (d: nat)
    requires IsDigit(c)
    ensures d < 10
  {
    (c as int) - ('0' as int)
  }

  function DigitChar(d: nat): (c: char)
    requires d < 10
    ensures IsDigit(c) && DigitValue(c) == d
  {
    (('0' as int) + d) as char
  }

  function Pow10(n: nat): (p: nat)
    ensures p >= 1
  {
    if n == 0 then 1 else 10 * Pow10(n - 1)
  }

  /** The number a run of decimal digits denotes, most significant digit first. */
  function DigitsValue(s: string): nat
    requires AllDigits(s)
  {
    if |s| == 0 then 0 else DigitsValue(s[..|s| - 1]) * 10 + DigitValue(s[|s| - 1])
  }

  /** The last `width` decimal digits of `n`, zero-padded on the left
      (strftime's `%Y`, `%m`, `%d`, ... and the millisecond field). */
  function Padded(n: nat, width: nat): (r: string)
    ensures |r| == width && AllDigits(r)
  {
    if width == 0 then "" else Padded(n / 10, width - 1) + [DigitChar(n % 10)]
  }

  lemma {:induction false} DigitsValueBound(s: string)
    requires AllDigits(s)
    ensures DigitsValue(s) < Pow10(|s|)
  {
    if |s| > 0 {
      DigitsValueBound(s[..|s| - 1]);
    }
  }

  /** Reading back a padded rendering gives the number, when it fits the width. */
  lemma {:induction false} DigitsValueOfPadded(n: nat, width: nat)
    requires n < Pow10(width)
    ensures DigitsValue(Padded(n, width)) == n
  {
    if width > 0 {
      var r := Padded(n, width);
      assert r[..|r| - 1] == Padded(n / 10, width - 1);
      DigitsValueOfPadded(n / 10, width - 1);
    }
  }

  /** Rendering a digit run's value at the run's own width gives the run back,
      leading zeros included. */
  lemma {:induction false} PaddedOfDigitsValue(s: string)
    requires AllDigits(s)
    ensures Padded(DigitsValue(s), |s|) == s
  {
    if |s| > 0 {
      var init := s[..|s| - 1];
      PaddedOfDigitsValue(init);
      var n := DigitsValue(s);
      assert n / 10 == DigitsValue(init) && n % 10 == DigitValue(s[|s| - 1]);
      assert DigitChar(DigitValue(s[|s| - 1])) == s[|s| - 1];
      assert s == init + [s[|s| - 1]];
    }
  }

  /** Python's `str(n)` for a non-negative integer: its shortest decimal
      rendering. */
  function ShowNat(n: nat): (r: string)
    ensures |r| >= 1 && AllDigits(r)
    ensures DigitsValue(r) == n
    ensures r[0] == '0' ==> r == "0"
  {
    if n < 10 then [DigitChar(n)]
    else
      var init := ShowNat(n / 10);
      var r := init + [DigitChar(n % 10)];
      assert r[..|r| - 1] == init;
      r
  }

  /** The ASCII white space that Python 3's int() skips around a number. */
  predicate IsSpace(c: char)
  {
    c == ' ' || c == '\t' || c == '\n' || c == '\r' || c == '\U{B}' || c == '\U{C}'
  }

  function StripLeft(s: string): (r: string)
    ensures |r| <= |s| && r == s[|s| - |r|..]
    ensures |r| > 0 ==> !IsSpace(r[0])
  {
    if |s| > 0 && IsSpace(s[0]) then StripLeft(s[1..]) else s
  }

  function StripRight(s: string): (r: string)
    ensures |r| <= |s| && r == s[..|r|]
    ensures |r| > 0 ==> !IsSpace(r[|r| - 1])
  {
    if |s| > 0 && IsSpace(s[|s| - 1]) then StripRight(s[..|s| - 1]) else s
  }

  /** Python 3's `int(s)` on text in base 10: surrounding white space, an
      optional sign directly followed by the digits, and digits that may be
      grouped by single underscores. None stands for the ValueError it
      raises otherwise. */
  function ParseInt(s: string): Option<int>
  {
    Signed(StripLeft(s))
  }

  /** A sign, if any, and the number right after it. */
  function Signed(t: string): Option<int>
  {
    if |t| > 0 && t[0] == '-' then
      match Unsigned(t[1..])
      case Some(v) => Some(-(v as int))
      case None => None
    else if |t| > 0 && t[0] == '+' then Unsigned(t[1..])
    else Unsigned(t)
  }

  /** The digits of a grouped run, `digit (["_"] digit)*`: each underscore
      stands between two digits. None when the text is not such a run. */
  function Ungrouped(d: string): (r: Option<string>)
    ensures r.Some? ==> |r.value| > 0 && AllDigits(r.value)
    decreases |d|
  {
    if |d| == 0 || !IsDigit(d[0]) then None
    else if |d| == 1 then Some(d)
    else
      var rest := if d[1] == '_' then d[2..] else d[1..];
      match Ungrouped(rest)
      case None => None
      case Some(t) => Some([d[0]] + t)
  }

  /** The number left once trailing white space is gone, if that is all
      there is. */
  function Unsigned(u: string): Option<nat>
  {
    match Ungrouped(StripRight(u))
    case Some(t) => Some(DigitsValue(t))
    case None => None
  }

  /** A run of plain digits is grouped trivially and loses nothing. */
  lemma {:induction false} UngroupedOfDigits(s: string)
    requires |s| > 0 && AllDigits(s)
    ensures Ungrouped(s) == Some(s)
  {
    if |s| > 1 {
      assert !(s[1] == '_');
      UngroupedOfDigits(s[1..]);
      assert [s[0]] + s[1..] == s;
    }
  }

  lemma StripOfDigits(s: string)
    requires |s| > 0 && AllDigits(s)
    ensures StripLeft(s) == s && StripRight(s) == s
    ensures Unsigned(s) == Some(DigitsValue(s))
  {
    assert !IsSpace(s[0]) && !IsSpace(s[|s| - 1]);
    assert StripRight(s) == s;
    UngroupedOfDigits(s);
  }

  /** The digits of an unsigned, unpadded text are what int() reads. */
  lemma ParseIntOfDigits(r: string)
    requires |r| > 0 && AllDigits(r)
    ensures ParseInt(r) == Some(DigitsValue(r) as int)
  {
    StripOfDigits(r);
    assert r[0] != '-' && r[0] != '+';
  }

  /** `int()` reads back what `str()` writes. */
  lemma ParseIntShowNat(n: nat)
    ensures ParseInt(ShowNat(n)) == Some(n as int)
  {
    ParseIntOfDigits(ShowNat(n));
  }

  /** A minus sign in front of digits gives their negated value. */
  lemma ParseIntOfMinusDigits(m: string)
    requires |m| > 1 && m[0] == '-' && AllDigits(m[1..])
    ensures ParseInt(m) == Some(-(DigitsValue(m[1..]) as int))
  {
    var v := DigitsValue(m[1..]);
    UnsignedOfDigits(m[1..]);
    SignedMinus(m, v);
    ParseIntUnspaced(m);
  }

  lemma UnsignedOfDigits(s: string)
    requires |s| > 0 && AllDigits(s)
    ensures Unsigned(s) == Some(DigitsValue(s))
  {
    StripOfDigits(s);
  }

  lemma ParseIntUnspaced(t: string)
    requires |t| > 0 && !IsSpace(t[0])
    ensures ParseInt(t) == Signed(t)
  {
    assert StripLeft(t) == t;
  }

  lemma SignedMinus(t: string, v: nat)
    requires |t| > 0 && t[0] == '-' && Unsigned(t[1..]) == Some(v)
    ensures Signed(t) == Some(-(v as int))
  {
  }

  /** White space may surround the number but not follow the sign: "+ 8"
      and "- 1" raise ValueError. */
  lemma {:induction false} SpaceAfterSignRejected(sign: char, r: string)
    requires sign == '+' || sign == '-'
    ensures ParseInt([sign, ' '] + r) == None
  {
    var m := [sign, ' '] + r;
    assert StripLeft(m) == m;
    assert m[1..] == [' '] + r;
    var d := StripRight(m[1..]);
    assert |d| > 0 ==> d[0] == ' ';
  }

  /** Underscores group digits: "1_000" is a thousand. */
  lemma UnderscoreGrouping()
    ensures ParseInt("1_000") == Some(1000)
  {
    var s := "1_000";
    assert !IsSpace(s[0]) && !IsSpace(s[4]);
    ParseIntUnspaced(s);
    assert StripRight(s) == s;
    assert s[2..] == "000" && "000"[1..] == "00" && "00"[1..] == "0";
    UngroupedOfDigits("000");
    assert s[1] == '_' && s[2..] == "000";
    assert [s[0]] + "000" == "1000";
    assert Ungrouped(s) == Some("1000");
    assert "1"[..0] == "";
    assert "10"[..1] == "1";
    assert "100"[..2] == "10";
    assert "1000"[..3] == "100";
    assert DigitsValue("1") == 1;
    assert DigitsValue("10") == 10;
    assert DigitsValue("100") == 100;
    assert DigitsValue("1000") == 1000;
  }

  /** A doubled or trailing underscore is not grouping: "1__0" and "1_"
      raise ValueError. */
  lemma UnderscoreMisplaced()
    ensures ParseInt("1__0") == None
    ensures ParseInt("1_") == None
  {
    DoubledUnderscore();
    TrailingUnderscore();
  }

  lemma DoubledUnderscore()
    ensures ParseInt("1__0") == None
  {
    var s := "1__0";
    assert !IsSpace(s[0]) && !IsSpace(s[3]);
    ParseIntUnspaced(s);
    assert StripRight(s) == s;
    assert s[1] == '_' && s[2..] == "_0";
    assert Ungrouped("_0") == None;
    assert Ungrouped(s) == None;
  }

  lemma TrailingUnderscore()
    ensures ParseInt("1_") == None
  {
    var s := "1_";
    assert !IsSpace(s[0]) && !IsSpace(s[1]);
    ParseIntUnspaced(s);
    assert StripRight(s) == s;
    assert s[1] == '_' && s[2..] == "";
    assert Ungrouped(s) == None;
  }
}
