/**
 * `datetime.strptime(token, '%Y%m%d')` and the `str(year)` / `strftime('%m')`
 * / `strftime('%d')` renderings used for the archive partition.
 *
 * Python compiles the format to the regular expression
 *   (?P<Y>\d\d\d\d)(?P<m>1[0-2]|0[1-9]|[1-9])(?P<d>3[01]|[12]\d|0[1-9]|[1-9]| [1-9])
 * and MATCHES it at the start of the token: alternatives are tried in order,
 * the first combination that matches wins, and if that match does not reach
 * the end of the token the parse fails ("unconverted data remains"). The
 * fields must then form a real calendar date with a year of at least 1.
 */
module Dates {
  import opened Wrappers

  datatype Date = Date(year: nat, month: nat, day: nat)

  predicate IsLeapYear(y: nat)
  {
    y % 4 == 0 && (y % 100 != 0 || y % 400 == 0)
  }

  function DaysInMonth(y: nat, m: nat): nat
    requires 1 <= m <= 12
  {
    if m == 2 then (if IsLeapYear(y) then 29 else 28)
    else if m == 4 || m == 6 || m == 9 || m == 11 then 30
    else 31
  }

  /** What `datetime.date` accepts. */
  predicate ValidDate(d: Date)
  {
    && 1 <= d.year <= 9999
    && 1 <= d.month <= 12
    && 1 <= d.day <= DaysInMonth(d.year, d.month)
  }

  predicate IsDigit(c: char)
  {
    '0' <= c <= '9'
  }

  function DigitValue(c: char): nat
    requires IsDigit(c)
  {
    c as int - '0' as int
  }

  function DigitChar(n: nat): (c: char)
    requires n < 10
    ensures IsDigit(c) && DigitValue(c) == n
  {
    ('0' as int + n) as char
  }

  /** One way a regular-expression alternative can match: the value it denotes and how many characters it used. */
  datatype Piece = Piece(value: nat, width: nat)

  /** `p` is what one or two characters at index `i` denote: a digit, two digits, or a blank and a digit. */
  predicate Denotes(s: string, i: nat, p: Piece)
  {
    && i + p.width <= |s|
    && (p.width == 1 ==> IsDigit(s[i]) && p.value == DigitValue(s[i]))
    && (p.width == 2 ==>
          && (IsDigit(s[i]) || s[i] == ' ') && IsDigit(s[i + 1])
          && p.value == (if s[i] == ' ' then 0 else 10 * DigitValue(s[i])) + DigitValue(s[i + 1]))
  }

  /** The `%m` alternatives `1[0-2]`, `0[1-9]`, `[1-9]` that match at index `i`, in the order they are tried. */
  function MonthPieces(s: string, i: nat): (ps: seq<Piece>)
    ensures forall k :: 0 <= k < |ps| ==> 1 <= ps[k].width <= 2 && 1 <= ps[k].value <= 12 && Denotes(s, i, ps[k])
  {
    (if i + 1 < |s| && s[i] == '1' && '0' <= s[i + 1] <= '2' then [Piece(10 + DigitValue(s[i + 1]), 2)] else [])
    + (if i + 1 < |s| && s[i] == '0' && '1' <= s[i + 1] <= '9' then [Piece(DigitValue(s[i + 1]), 2)] else [])
    + (if i < |s| && '1' <= s[i] <= '9' then [Piece(DigitValue(s[i]), 1)] else [])
  }

  /** The `%d` alternatives `3[01]`, `[12]\d`, `0[1-9]`, `[1-9]`, ` [1-9]` that match at index `i`, in the order they are tried. */
  function DayPieces(s: string, i: nat): (ps: seq<Piece>)
  {
    (if i + 1 < |s| && s[i] == '3' && '0' <= s[i + 1] <= '1' then [Piece(30 + DigitValue(s[i + 1]), 2)] else [])
    + (if i + 1 < |s| && '1' <= s[i] <= '2' && IsDigit(s[i + 1]) then [Piece(10 * DigitValue(s[i]) + DigitValue(s[i + 1]), 2)] else [])
    + (if i + 1 < |s| && s[i] == '0' && '1' <= s[i + 1] <= '9' then [Piece(DigitValue(s[i + 1]), 2)] else [])
    + (if i < |s| && '1' <= s[i] <= '9' then [Piece(DigitValue(s[i]), 1)] else [])
    + (if i + 1 < |s| && s[i] == ' ' && '1' <= s[i + 1] <= '9' then [Piece(DigitValue(s[i + 1]), 2)] else [])
  }

  /** Every reading of a month at `i` is among the alternatives, the two-character one first. */
  lemma MonthPiecesComplete(s: string, i: nat)
    ensures var ps := MonthPieces(s, i);
            && (forall p: Piece :: 1 <= p.width <= 2 && 1 <= p.value <= 12 && Denotes(s, i, p) && s[i] != ' ' ==> p in ps)
            && (forall a, b :: 0 <= a < b < |ps| ==> ps[a].width == 2 && ps[b].width == 1)
  {
  }

  /** Every day alternative at `i` is a reading of a day there. */
  lemma DayPiecesSound(s: string, i: nat)
    ensures var ps := DayPieces(s, i);
            forall k :: 0 <= k < |ps| ==> 1 <= ps[k].width <= 2 && 1 <= ps[k].value <= 31 && Denotes(s, i, ps[k])
  {
  }

  /** Every reading of a day at `i`, a blank-led one included, is among the alternatives, a two-character one first. */
  lemma DayPiecesComplete(s: string, i: nat)
    ensures var ps := DayPieces(s, i);
            && (forall p: Piece :: 1 <= p.width <= 2 && 1 <= p.value <= 31 && Denotes(s, i, p) ==> p in ps)
            && (forall a, b :: 0 <= a < b < |ps| ==> ps[a].width == 2 && ps[b].width == 1)
  {
  }

  /**
   * Backtracking over the month alternatives: the first one after which some
   * day alternative matches, paired with the first such day alternative.
   */
  function FirstFit(s: string, months: seq<Piece>): (r: Option<(Piece, Piece)>)
    requires forall k :: 0 <= k < |months| ==> 1 <= months[k].width <= 2 && 1 <= months[k].value <= 12 && Denotes(s, 4, months[k])
    ensures r.Some? ==> 1 <= r.value.0.width <= 2 && 1 <= r.value.0.value <= 12 && Denotes(s, 4, r.value.0)
    ensures r.Some? ==> 1 <= r.value.1.width <= 2 && 1 <= r.value.1.value <= 31 && Denotes(s, 4 + r.value.0.width, r.value.1)
    decreases |months|
  {
    if months == [] then None
    else
      var days := DayPieces(s, 4 + months[0].width);
      DayPiecesSound(s, 4 + months[0].width);
      if days != [] then Some((months[0], days[0])) else FirstFit(s, months[1..])
  }

  /** The four-digit year field `\d\d\d\d`. */
  function YearField(s: string): nat
    requires |s| >= 4 && IsDigit(s[0]) && IsDigit(s[1]) && IsDigit(s[2]) && IsDigit(s[3])
  {
    1000 * DigitValue(s[0]) + 100 * DigitValue(s[1]) + 10 * DigitValue(s[2]) + DigitValue(s[3])
  }

  /**
   * The index of the first month alternative after which some day
   * alternative matches, or `|months|` when there is none.
   */
  ghost function FitIndex(s: string, months: seq<Piece>): (k: nat)
    ensures k <= |months|
    ensures k < |months| ==> DayPieces(s, 4 + months[k].width) != []
    ensures forall j :: 0 <= j < k ==> DayPieces(s, 4 + months[j].width) == []
    decreases |months|
  {
    if months == [] || DayPieces(s, 4 + months[0].width) != [] then 0
    else
      var k := FitIndex(s, months[1..]);
      assert forall j :: 0 < j <= k ==> months[j] == months[1..][j - 1];
      1 + k
  }

  /**
   * Backtracking picks the first month alternative after which some day
   * alternative matches, with the first such day alternative, and fails
   * exactly when there is no such month alternative.
   */
  lemma {:induction false} FirstFitIsLeast(s: string, months: seq<Piece>)
    requires forall k :: 0 <= k < |months| ==> 1 <= months[k].width <= 2 && 1 <= months[k].value <= 12 && Denotes(s, 4, months[k])
    ensures var k := FitIndex(s, months);
            FirstFit(s, months) == if k < |months| then Some((months[k], DayPieces(s, 4 + months[k].width)[0])) else None
    decreases |months|
  {
    if months != [] && DayPieces(s, 4 + months[0].width) == [] {
      var rest := months[1..];
      FirstFitIsLeast(s, rest);
      var k := FitIndex(s, rest);
      assert FitIndex(s, months) == k + 1;
      if k < |rest| {
        assert months[k + 1] == rest[k];
      }
    }
  }

  /** `datetime.strptime(s, '%Y%m%d')`, with `None` where Python raises `ValueError`. */
  function ParseDate(s: string): (r: Option<Date>)
    ensures r.Some? ==> ValidDate(r.value)
  {
    if |s| < 4 || !(IsDigit(s[0]) && IsDigit(s[1]) && IsDigit(s[2]) && IsDigit(s[3])) then None
    else
      match FirstFit(s, MonthPieces(s, 4))
      case None => None
      case Some((m, d)) =>
        var date := Date(YearField(s), m.value, d.value);
        if 4 + m.width + d.width == |s| && ValidDate(date) then Some(date) else None
  }

  /** `'%02d' % n`, the form `strftime('%m')` and `strftime('%d')` produce. */
  function Pad2(n: nat): (r: string)
    requires n < 100
    ensures |r| == 2 && IsDigit(r[0]) && IsDigit(r[1])
    ensures 10 * DigitValue(r[0]) + DigitValue(r[1]) == n
  {
    [DigitChar(n / 10), DigitChar(n % 10)]
  }

  function Pad4(n: nat): (r: string)
    requires n < 10000
    ensures |r| == 4 && IsDigit(r[0]) && IsDigit(r[1]) && IsDigit(r[2]) && IsDigit(r[3])
    ensures YearField(r) == n
  {
    var hi, lo := Pad2(n / 100), Pad2(n % 100);
    assert YearField(hi + lo) == 100 * (n / 100) + n % 100;
    hi + lo
  }

  /** The canonical eight-character `YYYYMMDD` token of a date. */
  function Format(d: Date): string
    requires ValidDate(d)
  {
    Pad4(d.year) + Pad2(d.month) + Pad2(d.day)
  }

  /** Every valid date written as `YYYYMMDD` parses back to itself. */
  lemma ParseFormat(d: Date)
    requires ValidDate(d)
    ensures ParseDate(Format(d)) == Some(d)
  {
    var s := Format(d);
    var mm := Pad2(d.month);
    var dd := Pad2(d.day);
    assert s[4] == mm[0] && s[5] == mm[1] && s[6] == dd[0] && s[7] == dd[1];
    assert s[..4] == Pad4(d.year);
    var months := MonthPieces(s, 4);
    assert months[0] == Piece(d.month, 2);
    var days := DayPieces(s, 6);
    assert days[0] == Piece(d.day, 2);
    assert FirstFit(s, months) == Some((months[0], days[0]));
  }

  /**
   * An eight-character token without blanks parses only if it is the
   * canonical `YYYYMMDD` form of the date it yields.
   */
  lemma ParseIsCanonical(s: string)
    requires |s| == 8 && ' ' !in s
    requires ParseDate(s).Some?
    ensures s == Format(ParseDate(s).value)
  {
    var d := ParseDate(s).value;
    var fit := FirstFit(s, MonthPieces(s, 4)).value;
    assert d == Date(YearField(s), fit.0.value, fit.1.value);
    assert fit.0.width == 2 && fit.1.width == 2;
    assert s[4] != ' ' && s[6] != ' ';
    DigitsFormat(s, d);
  }

  /** Eight digits that spell out the fields of a valid date are its canonical token. */
  lemma DigitsFormat(s: string, d: Date)
    requires |s| == 8 && forall i :: 0 <= i < 8 ==> IsDigit(s[i])
    requires ValidDate(d) && YearField(s) == d.year
    requires d.month == 10 * DigitValue(s[4]) + DigitValue(s[5])
    requires d.day == 10 * DigitValue(s[6]) + DigitValue(s[7])
    ensures s == Format(d)
  {
    PadRecoversDigits4(s[..4]);
    PadRecoversDigits2(s[4..6]);
    PadRecoversDigits2(s[6..8]);
    assert s == s[..4] + s[4..6] + s[6..8];
  }

  lemma PadRecoversDigits2(t: string)
    requires |t| == 2 && IsDigit(t[0]) && IsDigit(t[1])
    ensures Pad2(10 * DigitValue(t[0]) + DigitValue(t[1])) == t
  {
  }

  lemma PadRecoversDigits4(t: string)
    requires |t| == 4 && IsDigit(t[0]) && IsDigit(t[1]) && IsDigit(t[2]) && IsDigit(t[3])
    ensures Pad4(YearField(t)) == t
  {
    var hi := 10 * DigitValue(t[0]) + DigitValue(t[1]);
    var lo := 10 * DigitValue(t[2]) + DigitValue(t[3]);
    assert YearField(t) == 100 * hi + lo;
    assert YearField(t) / 100 == hi && YearField(t) % 100 == lo;
    PadRecoversDigits2(t[..2]);
    PadRecoversDigits2(t[2..]);
    assert t == t[..2] + t[2..];
  }

  /** A one-digit month is accepted: the two-digit month "11" leaves no room for a day, so the parser backtracks to "1". */
  lemma OneDigitMonth()
    ensures ParseDate("202411") == Some(Date(2024, 1, 1))
  {
    var s := "202411";
    assert MonthPieces(s, 4) == [Piece(11, 2), Piece(1, 1)];
    assert DayPieces(s, 6) == [];
    assert DayPieces(s, 5) == [Piece(1, 1)];
    assert YearField(s) == 2024;
  }

  /** Seven characters are read as a two-digit month and a one-digit day. */
  lemma OneDigitDay()
    ensures ParseDate("2024111") == Some(Date(2024, 11, 1))
  {
    var s := "2024111";
    assert MonthPieces(s, 4) == [Piece(11, 2), Piece(1, 1)];
    assert DayPieces(s, 6) == [Piece(1, 1)];
    assert FirstFit(s, MonthPieces(s, 4)) == Some((Piece(11, 2), Piece(1, 1)));
    assert YearField(s) == 2024;
  }

  /** Once "1" has been taken as the month, "30" is the day and the trailing "1" is left over, so the parse fails. */
  lemma MonthThirteenRejected()
    ensures ParseDate("20241301") == None
  {
    var s := "20241301";
    assert MonthPieces(s, 4) == [Piece(1, 1)];
    assert DayPieces(s, 5) == [Piece(30, 2), Piece(3, 1)];
  }

  /** The fields must form a calendar date. */
  lemma NoThirtiethOfFebruary()
    ensures ParseDate("20240230") == None
  {
    var s := "20240230";
    assert MonthPieces(s, 4) == [Piece(2, 2)];
    assert DayPieces(s, 6) == [Piece(30, 2), Piece(3, 1)];
  }

  /** `str(n)`: the shortest decimal numeral of `n`. */
  function DecimalString(n: nat): (r: string)
    ensures |r| >= 1 && forall i :: 0 <= i < |r| ==> IsDigit(r[i])
    ensures |r| > 1 ==> r[0] != '0'
    ensures DecimalValue(r) == n
    decreases n
  {
    if n < 10 then [DigitChar(n)] else DecimalString(n / 10) + [DigitChar(n % 10)]
  }

  /** The number a string of decimal digits denotes. */
  function DecimalValue(s: string): nat
    requires forall i :: 0 <= i < |s| ==> IsDigit(s[i])
    decreases |s|
  {
    if s == [] then 0 else 10 * DecimalValue(s[..|s| - 1]) + DigitValue(s[|s| - 1])
  }
}
