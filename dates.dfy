/**
 * `extract_month_year`: the first DD/MM/YYYY date on a page, parsed as
 * `strptime(..., "%d/%m/%Y")` and rendered as `strftime("%b %y").upper()`.
 */
module Dates {
  import opened Common
  import opened Text

  const UnknownDate: String := "UNKNOWN_DATE"

  /** The upper-cased `%b` abbreviation of month `m`. */
  function MonthName(m: nat): String
    requires 1 <= m <= 12
  {
    match m
    case 1 => "JAN" case 2 => "FEB" case 3 => "MAR" case 4 => "APR"
    case 5 => "MAY" case 6 => "JUN" case 7 => "JUL" case 8 => "AUG"
    case 9 => "SEP" case 10 => "OCT" case 11 => "NOV" case _ => "DEC"
  }

  /** `\b\d{2}/\d{2}/\d{4}\b` matches at index `i`. */
  predicate DateAt(s: String, i: nat) {
    && DateShapeAt(s, i)
    && (i == 0 || !IsWordChar(s[i - 1]))
    && (i + 10 == |s| || !IsWordChar(s[i + 10]))
  }

  /** `re.search`: the leftmost match at or after `i`. */
  function FindDate(s: String, i: nat): (r: Option<nat>)
    requires i <= |s|
    ensures r.None? ==> forall j :: i <= j ==> !DateAt(s, j)
    ensures r.Some? ==> i <= r.value && DateAt(s, r.value) && forall j :: i <= j < r.value ==> !DateAt(s, j)
    decreases |s| - i
  {
    if i + 10 > |s| then None
    else if DateAt(s, i) then Some(i)
    else FindDate(s, i + 1)
  }

  /** The value of the two decimal digits at `s[i..i + 2]`. */
  function TwoDigits(s: String, i: nat): (v: nat)
    requires i + 2 <= |s| && IsDigit(s[i]) && IsDigit(s[i + 1])
    ensures v < 100
  {
    10 * DigitValue(s[i]) + DigitValue(s[i + 1])
  }

  function DayOf(s: String, i: nat): nat requires DateShapeAt(s, i) { TwoDigits(s, i) }

  function MonthOf(s: String, i: nat): nat requires DateShapeAt(s, i) { TwoDigits(s, i + 3) }

  function YearOf(s: String, i: nat): nat requires DateShapeAt(s, i) {
    100 * TwoDigits(s, i + 6) + TwoDigits(s, i + 8)
  }

  /** Gregorian leap years, as in Python's `calendar.isleap`. */
  predicate IsLeap(y: int) {
    y % 4 == 0 && (y % 100 != 0 || y % 400 == 0)
  }

  function DaysInMonth(m: int, y: int): nat
    requires 1 <= m <= 12
  {
    if m == 2 then (if IsLeap(y) then 29 else 28)
    else if m == 4 || m == 6 || m == 9 || m == 11 then 30
    else 31
  }

  /** The dates `strptime` accepts; any other day, month or year 0 raises `ValueError`. */
  predicate ValidDate(d: int, m: int, y: int) {
    1 <= y && 1 <= m <= 12 && 1 <= d <= DaysInMonth(m, y)
  }

  /** The decimal digit for `n < 10`. */
  function DigitChar(n: nat): (c: char)
    requires n < 10
    ensures IsDigit(c) && DigitValue(c) == n
  {
    ('0' as int + n) as char
  }

  /** `n` as two digits with a leading zero, as `%y`, `%d` and `%m` print it. */
  function Pad2(n: nat): (r: String)
    requires n < 100
    ensures |r| == 2 && IsDigit(r[0]) && IsDigit(r[1]) && TwoDigits(r, 0) == n
  {
    [DigitChar(n / 10), DigitChar(n % 10)]
  }

  /** `strftime("%b %y").upper()`. */
  function MonthYear(m: nat, y: nat): (r: String)
    requires 1 <= m <= 12
    ensures |r| == 6 && r[..3] == MonthName(m) && r[3] == ' '
    ensures IsDigit(r[4]) && IsDigit(r[5]) && TwoDigits(r, 4) == y % 100
  {
    MonthName(m) + " " + Pad2(y % 100)
  }

  /**
   * Python's `extract_month_year(text)`: `UNKNOWN_DATE` without a match, the
   * month and two-digit year of the first match, or the `ValueError` that
   * `strptime` raises for an impossible date.
   */
  function ExtractMonthYear(text: String): Result<String> {
    match FindDate(text, 0)
    case None => Ok(UnknownDate)
    case Some(i) =>
      var d, m, y := DayOf(text, i), MonthOf(text, i), YearOf(text, i);
      if ValidDate(d, m, y) then Ok(MonthYear(m, y)) else Err(MalformedDate)
  }

  /**
   * The three outcomes: `UNKNOWN_DATE` exactly when no date matches, an
   * error exactly when the first match is not a real date, and otherwise
   * the month and year of the first match.
   */
  lemma MonthYearCases(text: String)
    ensures ExtractMonthYear(text) == Ok(UnknownDate) <==> forall j :: 0 <= j ==> !DateAt(text, j)
    ensures forall i: nat :: DateAt(text, i) && (forall j :: 0 <= j < i ==> !DateAt(text, j)) ==>
      ExtractMonthYear(text) ==
        if ValidDate(DayOf(text, i), MonthOf(text, i), YearOf(text, i))
        then Ok(MonthYear(MonthOf(text, i), YearOf(text, i)))
        else Err(MalformedDate)
  {
    match FindDate(text, 0)
    case None =>
    case Some(i) =>
      if ValidDate(DayOf(text, i), MonthOf(text, i), YearOf(text, i)) {
        assert MonthYear(MonthOf(text, i), YearOf(text, i))[3] == ' ';
      }
  }

  /** A successful result other than `UNKNOWN_DATE` is a month abbreviation, a space and two digits. */
  lemma MonthYearShape(text: String)
    ensures ExtractMonthYear(text).Ok? && ExtractMonthYear(text).value != UnknownDate ==>
      var v := ExtractMonthYear(text).value;
      |v| == 6 && (exists m :: 1 <= m <= 12 && v[..3] == MonthName(m)) && v[3] == ' ' && IsDigit(v[4]) && IsDigit(v[5])
  {
  }

  /** `DD/MM/YYYY` written out. */
  function RenderDate(d: nat, m: nat, y: nat): (s: String)
    requires d < 100 && m < 100 && y < 10000
    ensures |s| == 10 && DateShapeAt(s, 0)
  {
    Pad2(d) + "/" + Pad2(m) + "/" + Pad2(y / 100) + Pad2(y % 100)
  }

  /** Reading back a rendered date gives its day, month and year. */
  lemma RenderDateFields(d: nat, m: nat, y: nat)
    requires d < 100 && m < 100 && y < 10000
    ensures var s := RenderDate(d, m, y); DayOf(s, 0) == d && MonthOf(s, 0) == m && YearOf(s, 0) == y
  {
    var s := RenderDate(d, m, y);
    assert s[0..2] == Pad2(d) && s[3..5] == Pad2(m);
    assert s[6..8] == Pad2(y / 100) && s[8..10] == Pad2(y % 100);
    assert TwoDigits(s, 0) == TwoDigits(Pad2(d), 0);
    assert TwoDigits(s, 3) == TwoDigits(Pad2(m), 0);
    assert TwoDigits(s, 6) == TwoDigits(Pad2(y / 100), 0);
    assert TwoDigits(s, 8) == TwoDigits(Pad2(y % 100), 0);
  }

  /**
   * A date written between text without digits that ends in a non-word
   * character (or is empty) and text that starts with one (or is empty) is
   * the date the function reads: its month and year when valid, an error
   * otherwise.
   */
  lemma MonthYearOfRendered(pre: String, d: nat, m: nat, y: nat, post: String)
    requires d < 100 && m < 100 && y < 10000
    requires forall k :: 0 <= k < |pre| ==> !IsDigit(pre[k])
    requires pre == [] || !IsWordChar(pre[|pre| - 1])
    requires post == [] || !IsWordChar(post[0])
    ensures ExtractMonthYear(pre + RenderDate(d, m, y) + post) ==
      if ValidDate(d, m, y) then Ok(MonthYear(m, y)) else Err(MalformedDate)
  {
    var r := RenderDate(d, m, y);
    var s := pre + r + post;
    FirstDateAfter(pre, r, post);
    MonthYearCases(s);
    RenderDateFields(d, m, y);
    FieldsAfter(pre, r, post);
  }

  /** In `pre + r + post` the first match is the date `r` at index `|pre|`. */
  lemma FirstDateAfter(pre: String, r: String, post: String)
    requires |r| == 10 && DateShapeAt(r, 0)
    requires forall k :: 0 <= k < |pre| ==> !IsDigit(pre[k])
    requires pre == [] || !IsWordChar(pre[|pre| - 1])
    requires post == [] || !IsWordChar(post[0])
    ensures var s := pre + r + post;
      DateAt(s, |pre|) && forall j :: 0 <= j < |pre| ==> !DateAt(s, j)
  {
    var s := pre + r + post;
    var p := |pre|;
    forall k | 0 <= k < 10 ensures s[p + k] == r[k] {
    }
    assert p > 0 ==> s[p - 1] == pre[p - 1];
    assert p + 10 < |s| ==> s[p + 10] == post[0];
    forall j | 0 <= j < p ensures !DateAt(s, j) {
      assert s[j] == pre[j];
    }
  }

  /** The fields read at `|pre|` in `pre + r + post` are those of `r`. */
  lemma FieldsAfter(pre: String, r: String, post: String)
    requires |r| == 10 && DateShapeAt(r, 0)
    ensures var s := pre + r + post; var p := |pre|;
      && DateShapeAt(s, p)
      && DayOf(s, p) == DayOf(r, 0) && MonthOf(s, p) == MonthOf(r, 0) && YearOf(s, p) == YearOf(r, 0)
  {
    var s := pre + r + post;
    var p := |pre|;
    forall k | 0 <= k < 10 ensures s[p + k] == r[k] {
    }
  }

  /** A date preceded by text without digits that ends in a non-word character is the one read. */
  lemma MonthYearAfter(pre: String, r: String)
    requires |r| == 10 && DateShapeAt(r, 0)
    requires forall k :: 0 <= k < |pre| ==> !IsDigit(pre[k])
    requires pre == [] || !IsWordChar(pre[|pre| - 1])
    ensures ExtractMonthYear(pre + r) ==
      if ValidDate(DayOf(r, 0), MonthOf(r, 0), YearOf(r, 0))
      then Ok(MonthYear(MonthOf(r, 0), YearOf(r, 0)))
      else Err(MalformedDate)
  {
    assert pre + r + [] == pre + r;
    FirstDateAfter(pre, r, []);
    MonthYearCases(pre + r);
    FieldsAfter(pre, r, []);
  }

  /** The seventh of January 2024 reads as `JAN 24`. */
  lemma MonthYearJanuary()
    ensures ExtractMonthYear("Statement date 07/01/2024") == Ok("JAN 24")
  {
    var r := "07/01/2024";
    MonthYearAfter("Statement date ", r);
    assert "Statement date " + r == "Statement date 07/01/2024";
    assert DayOf(r, 0) == 7 && MonthOf(r, 0) == 1 && YearOf(r, 0) == 2024;
    assert MonthYear(1, 2024) == "JAN 24";
  }

  /** 29 February exists in 2024. */
  lemma MonthYearLeapDay()
    ensures ExtractMonthYear("29/02/2024") == Ok("FEB 24")
  {
    var r := "29/02/2024";
    MonthYearAfter("", r);
    assert "" + r == r;
    assert DayOf(r, 0) == 29 && MonthOf(r, 0) == 2 && YearOf(r, 0) == 2024;
    assert MonthYear(2, 2024) == "FEB 24";
  }

  /** 29 February does not exist in 2023: `strptime` raises. */
  lemma MonthYearNoLeapDay()
    ensures ExtractMonthYear("29/02/2023") == Err(MalformedDate)
  {
    var r := "29/02/2023";
    MonthYearAfter("", r);
    assert "" + r == r;
    assert DayOf(r, 0) == 29 && MonthOf(r, 0) == 2 && YearOf(r, 0) == 2023;
  }

  /** A zero month is rejected. */
  lemma MonthYearZeroMonth()
    ensures ExtractMonthYear("15/00/2024") == Err(MalformedDate)
  {
    var r := "15/00/2024";
    MonthYearAfter("", r);
    assert "" + r == r;
    assert MonthOf(r, 0) == 0;
  }

  /** A date glued to a word is not a match (`\b`), so the page has no date. */
  lemma MonthYearNeedsBoundary()
    ensures ExtractMonthYear("x07/01/2024") == Ok(UnknownDate)
  {
    var t := "x07/01/2024";
    forall j: nat ensures !DateAt(t, j) {
      if j == 0 {
        assert !IsDigit(t[0]);
      } else if j + 10 <= |t| {
        assert j == 1 && IsWordChar(t[0]);
      }
    }
    MonthYearCases(t);
  }
}
