/** Financial years (src/extraction/fiscal_year.py, financial_year and _period_value in
    src/silver/registers/loader.py): reading a label out of free text, the window of days a
    label names, and the label of the year a day falls in, for any month a year may start in.
    Dates are datetime.date's: years 1 to 9999 only, so a window past the last year cannot be
    built. */
module FiscalYear {
  import opened Prelude
  import opened Text

  datatype Day = Day(year: int, month: int, day: int)

  predicate Leap(year: int) {
    year % 4 == 0 && (year % 100 != 0 || year % 400 == 0)
  }

  function DaysIn(year: int, month: int): int {
    if month == 2 then (if Leap(year) then 29 else 28)
    else if month in {4, 6, 9, 11} then 30
    else 31
  }

  predicate IsDate(d: Day) {
    1 <= d.year <= 9999 && 1 <= d.month <= 12 && 1 <= d.day <= DaysIn(d.year, d.month)
  }

  predicate NotAfter(a: Day, b: Day) {
    || a.year < b.year
    || (a.year == b.year && a.month < b.month)
    || (a.year == b.year && a.month == b.month && a.day <= b.day)
  }

  /** dt.date(year, month, 1); None is its ValueError. */
  function FirstOf(year: int, month: int): Option<Day> {
    if 1 <= year <= 9999 && 1 <= month <= 12 then Some(Day(year, month, 1)) else None
  }

  /** Subtracting one day from the first of a month; None is the overflow below year 1. */
  function DayBeforeFirst(d: Day): Option<Day> {
    if d.month > 1 then Some(Day(d.year, d.month - 1, DaysIn(d.year, d.month - 1)))
    else if d.year > 1 then Some(Day(d.year - 1, 12, 31))
    else None
  }

  function FyBounds(startYear: int, endYear: int, startMonth: int): Option<(Day, Day)> {
    match (FirstOf(startYear, startMonth), FirstOf(endYear, startMonth))
    case (Some(from), Some(next)) =>
      var to := DayBeforeFirst(next);
      if to.Some? then Some((from, to.value)) else None
    case _ => None
  }

  function FyContaining(d: Day, startMonth: int): (int, int) {
    var startYear := if d.month >= startMonth then d.year else d.year - 1;
    (startYear, startYear + 1)
  }

  predicate InWindow(d: Day, bounds: (Day, Day)) {
    NotAfter(bounds.0, d) && NotAfter(d, bounds.1)
  }

  // ---------------------------------------------------------------------------
  // Every date lies in exactly one financial year
  // ---------------------------------------------------------------------------

  /** For every start month: a window exists for the year fy_containing names exactly when
      both its years are on the calendar; then it contains the date, and no other year's does. */
  lemma OneFinancialYear(d: Day, startMonth: int, other: int)
    requires IsDate(d) && 1 <= startMonth <= 12
    ensures var (s, e) := FyContaining(d, startMonth);
            && (FyBounds(s, e, startMonth).Some? <==> 1 <= s && e <= 9999)
            && (FyBounds(s, e, startMonth).Some? ==> InWindow(d, FyBounds(s, e, startMonth).value))
            && (FyBounds(other, other + 1, startMonth).Some? && InWindow(d, FyBounds(other, other + 1, startMonth).value) ==> other == s)
  {
  }

  /** Consecutive windows meet: the day before the next one starts is the day this one ends. */
  lemma WindowsMeet(startYear: int, startMonth: int)
    requires 1 <= startMonth <= 12 && 1 <= startYear && startYear + 2 <= 9999
    ensures var now := FyBounds(startYear, startYear + 1, startMonth);
            var next := FyBounds(startYear + 1, startYear + 2, startMonth);
            && now.Some? && next.Some?
            && DayBeforeFirst(next.value.0) == Some(now.value.1)
            && IsDate(now.value.0) && IsDate(now.value.1)
            && !NotAfter(next.value.0, now.value.1)
  {
  }

  /** The two windows the shareholding extractor derives from one as-of date: the current one
      holds the date, the prior one ends the day before it begins; both exist exactly when the
      prior year is on the calendar and the current one ends on it. */
  lemma ShareholdingWindows(asOf: Day, startMonth: int)
    requires IsDate(asOf) && 1 <= startMonth <= 12
    ensures var (s, e) := FyContaining(asOf, startMonth);
            var current, prior := FyBounds(s, e, startMonth), FyBounds(s - 1, e - 1, startMonth);
            && (current.Some? && prior.Some? <==> 2 <= s && e <= 9999)
            && (current.Some? && prior.Some? ==>
                  && InWindow(asOf, current.value) && !InWindow(asOf, prior.value)
                  && DayBeforeFirst(current.value.0) == Some(prior.value.1))
  {
  }

  // ---------------------------------------------------------------------------
  // The label, written and read back
  // ---------------------------------------------------------------------------

  predicate IsDigit(c: char) { '0' <= c <= '9' }

  function DigitChar(n: nat): char
    requires n < 10
  {
    '0' + n as char
  }

  function Decimal(n: nat): (s: string)
    ensures |s| >= 1 && forall i :: 0 <= i < |s| ==> IsDigit(s[i])
    ensures Number(s) == n
    ensures |s| == 1 <==> n < 10
    ensures |s| == 2 <==> 10 <= n < 100
    ensures |s| == 4 <==> 1000 <= n < 10000
    ensures |s| == 3 <==> 100 <= n < 1000
  {
    if n < 10 then [DigitChar(n)]
    else
      var s := Decimal(n / 10) + [DigitChar(n % 10)];
      assert s[..|s| - 1] == Decimal(n / 10);
      s
  }

  function Number(s: string): nat
    requires forall i :: 0 <= i < |s| ==> IsDigit(s[i])
  {
    if s == [] then 0
    else
      assert IsDigit(s[|s| - 1]);
      10 * Number(s[..|s| - 1]) + (s[|s| - 1] as int - '0' as int)
  }

  /** Two digits, zero-padded. */
  function TwoDigits(n: nat): string
    requires n < 100
  {
    [DigitChar(n / 10), DigitChar(n % 10)]
  }

  /** f"{start}-{(start + 1) % 100:02d}" */
  function FyText(startYear: nat): string {
    Decimal(startYear) + "-" + TwoDigits((startYear + 1) % 100)
  }

  function FinancialYear(d: Day): string
    requires IsDate(d)
  {
    FyText(FyContaining(d, 4).0)
  }

  predicate IsSeparator(c: char) { IsSpace(c) || c == '-' || c == '\U{2013}' }

  predicate IsWord(c: char) { 'a' <= c <= 'z' || 'A' <= c <= 'Z' || IsDigit(c) || c == '_' }

  /** How many characters from k on satisfy p. */
  function RunLength(s: string, k: nat, p: char -> bool): (n: nat)
    requires k <= |s|
    ensures k + n <= |s|
    ensures forall i :: k <= i < k + n ==> p(s[i])
    ensures k + n < |s| ==> !p(s[k + n])
    decreases |s| - k
  {
    if k < |s| && p(s[k]) then 1 + RunLength(s, k + 1, p) else 0
  }

  datatype Label = Label(start: string, end: string)

  /** The label pattern at position i: FY, optional space, two or four digits, separators, two
      digits.  Neighbouring parts share no character, so each takes its whole run. */
  function MatchAt(s: string, i: nat): Option<Label>
    requires i <= |s|
  {
    if i + 2 > |s| || (i > 0 && IsWord(s[i - 1])) || s[i] !in ['F', 'f'] || s[i + 1] !in ['Y', 'y'] then None
    else
      var a := i + 2 + RunLength(s, i + 2, IsSpace);
      var years := RunLength(s, a, IsDigit);
      var b := a + years;
      var c := b + RunLength(s, b, IsSeparator);
      if years !in {2, 4} || c == b || c + 2 > |s| || !IsDigit(s[c]) || !IsDigit(s[c + 1])
         || (c + 2 < |s| && IsWord(s[c + 2])) then None
      else Some(Label(s[a..b], s[c..c + 2]))
  }

  function Find(s: string, i: nat): Option<Label>
    requires i <= |s|
    decreases |s| - i
  {
    var m := MatchAt(s, i);
    if m.Some? || i == |s| then m else Find(s, i + 1)
  }

  predicate Digits(s: string) {
    forall i :: 0 <= i < |s| ==> IsDigit(s[i])
  }

  /** A two-digit start year is in this century; the end year must be the one after. */
  function Resolve(m: Label): Option<(int, int)>
    requires Digits(m.start) && Digits(m.end)
  {
    var startYear := if |m.start| == 4 then Number(m.start) else 2000 + Number(m.start);
    if Number(m.end) != (startYear + 1) % 100 then None else Some((startYear, startYear + 1))
  }

  function ParseFyLabel(raw: string): Option<(int, int)> {
    match Find(raw, 0)
    case Some(m) => if Digits(m.start) && Digits(m.end) then Resolve(m) else None
    case None => None
  }

  lemma RunIs(s: string, k: nat, n: nat, p: char -> bool)
    requires k + n <= |s|
    requires forall i :: k <= i < k + n ==> p(s[i])
    requires k + n < |s| ==> !p(s[k + n])
    ensures RunLength(s, k, p) == n
    decreases n
  {
    if n > 0 {
      RunIs(s, k + 1, n - 1, p);
    }
  }

  lemma TwoDigitsNumber(n: nat)
    requires n < 100
    ensures forall i :: 0 <= i < 2 ==> IsDigit(TwoDigits(n)[i])
    ensures Number(TwoDigits(n)) == n
  {
    var s := TwoDigits(n);
    assert s[..1] == [DigitChar(n / 10)] && s[..1][..0] == [];
    assert Number(s[..1]) == n / 10;
  }

  lemma LabelShape(digits: string, tail: string)
    requires Digits(digits) && Digits(tail) && |digits| >= 1 && |tail| == 2
    ensures var s, n := "FY" + (digits + "-" + tail), |digits|;
            && |s| == n + 5 && s[0] == 'F' && s[1] == 'Y' && s[2 + n] == '-'
            && (forall i :: 2 <= i < 2 + n ==> IsDigit(s[i]))
            && IsDigit(s[3 + n]) && IsDigit(s[4 + n])
            && s[2..2 + n] == digits && s[3 + n..5 + n] == tail
  {
    var s, n := "FY" + (digits + "-" + tail), |digits|;
    assert forall i :: 2 <= i < 2 + n ==> s[i] == digits[i - 2];
    assert s[3 + n] == tail[0] && s[4 + n] == tail[1];
  }

  lemma RunsOfLabel(s: string, n: nat)
    requires n >= 1 && |s| == n + 5 && s[2 + n] == '-' && IsDigit(s[3 + n])
    requires forall i :: 2 <= i < 2 + n ==> IsDigit(s[i])
    ensures RunLength(s, 2, IsSpace) == 0 && RunLength(s, 2, IsDigit) == n && RunLength(s, 2 + n, IsSeparator) == 1
  {
    assert IsDigit(s[2]);
    RunIs(s, 2, 0, IsSpace);
    RunIs(s, 2, n, IsDigit);
    RunIs(s, 2 + n, 1, IsSeparator);
  }

  lemma MatchAtStart(digits: string, tail: string)
    requires Digits(digits) && Digits(tail) && |digits| >= 1 && |tail| == 2
    ensures MatchAt("FY" + (digits + "-" + tail), 0) == if |digits| in {2, 4} then Some(Label(digits, tail)) else None
  {
    LabelShape(digits, tail);
    RunsOfLabel("FY" + (digits + "-" + tail), |digits|);
  }

  lemma NoLaterMatch(digits: string, tail: string, i: nat)
    requires Digits(digits) && Digits(tail) && |digits| >= 1 && |tail| == 2
    requires 0 < i <= |digits| + 5
    ensures MatchAt("FY" + (digits + "-" + tail), i).None?
  {
    LabelShape(digits, tail);
    var s := "FY" + (digits + "-" + tail);
    assert i < |s| ==> s[i] == 'Y' || s[i] == '-' || IsDigit(s[i]);
  }

  lemma {:induction false} NothingFurther(s: string, i: nat)
    requires i <= |s| && forall j :: i <= j <= |s| ==> MatchAt(s, j).None?
    ensures Find(s, i).None?
    decreases |s| - i
  {
    if i < |s| {
      NothingFurther(s, i + 1);
    }
  }

  lemma FindLabel(digits: string, tail: string)
    requires Digits(digits) && Digits(tail) && |digits| >= 1 && |tail| == 2
    ensures Find("FY" + (digits + "-" + tail), 0) == if |digits| in {2, 4} then Some(Label(digits, tail)) else None
  {
    var s := "FY" + (digits + "-" + tail);
    MatchAtStart(digits, tail);
    if |digits| !in {2, 4} {
      forall i | 0 <= i <= |s| ensures MatchAt(s, i).None? {
        if i > 0 {
          NoLaterMatch(digits, tail, i);
        }
      }
      NothingFurther(s, 0);
    }
  }

  lemma SameCentury(year: nat)
    ensures (2000 + year + 1) % 100 == (year + 1) % 100
  {
  }

  lemma ResolveText(year: nat)
    requires 10 <= year < 100 || 1000 <= year < 10000
    ensures Digits(TwoDigits((year + 1) % 100))
    ensures Resolve(Label(Decimal(year), TwoDigits((year + 1) % 100)))
            == Some(if year >= 1000 then (year as int, year + 1) else (2000 + year, 2001 + year))
  {
    TwoDigitsNumber((year + 1) % 100);
    SameCentury(year);
  }

  /** Reading the label back: four-digit years return themselves, two-digit years are moved
      into this century, and no other year is recognised. */
  lemma LabelRoundTrip(year: nat)
    ensures ParseFyLabel("FY" + FyText(year))
            == if 1000 <= year < 10000 then Some((year as int, year + 1))
               else if 10 <= year < 100 then Some((2000 + year, 2001 + year))
               else None
  {
    TwoDigitsNumber((year + 1) % 100);
    FindLabel(Decimal(year), TwoDigits((year + 1) % 100));
    if 10 <= year < 100 || 1000 <= year < 10000 {
      ResolveText(year);
    }
  }

  /** So parse_fy_label undoes financial_year exactly from the financial year 1000 on. */
  lemma ParseUndoesFinancialYear(d: Day)
    requires IsDate(d)
    ensures ParseFyLabel("FY" + FinancialYear(d)) == Some(FyContaining(d, 4)) <==> FyContaining(d, 4).0 >= 1000
  {
    LabelRoundTrip(FyContaining(d, 4).0);
  }

  lemma {:induction false} DecimalIsInjective(a: nat, b: nat)
    ensures Decimal(a) == Decimal(b) ==> a == b
  {
    assert Number(Decimal(a)) == a && Number(Decimal(b)) == b;
  }

  /** An annual register's period is refused (_period_value) exactly when its two ends lie in
      different financial years: the strings it compares identify the years. */
  lemma TextIdentifiesYear(a: Day, b: Day)
    requires IsDate(a) && IsDate(b)
    ensures FinancialYear(a) == FinancialYear(b) <==> FyContaining(a, 4) == FyContaining(b, 4)
  {
    var m, n := FyContaining(a, 4).0, FyContaining(b, 4).0;
    if FyText(m) == FyText(n) {
      assert FyText(m)[..|FyText(m)| - 3] == Decimal(m);
      assert FyText(n)[..|FyText(n)| - 3] == Decimal(n);
      DecimalIsInjective(m, n);
    }
  }
}
