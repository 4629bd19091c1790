/** The date column: `${day}-${month}-${year}` with `day = date.getDate()`,
    `month = date.toLocaleDateString("en-US", { month: "short" })` and
    `year = date.getFullYear().toString().slice(-2)`, so 2022-12-21 reads "21-Dec-22". */
module DateFormat {
  import opened Invoices

  predicate IsDigit(c: char)
  {
    '0' <= c <= '9'
  }

  function Digit(d: int): (c: char)
    requires 0 <= d < 10
    ensures IsDigit(c)
  {
    ('0' as int + d) as char
  }

  /** `String(n)` for a non-negative integer: decimal, no leading zeros. */
  function NatToString(n: nat): (s: string)
    ensures |s| > 0 && AllDigits(s)
    decreases n
  {
    if n < 10 then [Digit(n)] else NatToString(n / 10) + [Digit(n % 10)]
  }

  /** `String(i)` for any integer: a minus sign before the digits of a negative number. */
  function IntToString(i: int): (s: string)
  {
    if i < 0 then "-" + NatToString(-i) else NatToString(i)
  }

  /** The year text is never empty and starts with '-' exactly for a negative year. */
  lemma IntToStringSign(i: int)
    ensures var s := IntToString(i); |s| > 0 && (s[0] == '-' <==> i < 0)
  {
    if i >= 0 {
      assert IsDigit(NatToString(i)[0]);
    }
  }

  /** `s.slice(-2)`: the last two characters, or all of a shorter string. */
  function LastTwo(s: string): (r: string)
    ensures |r| == if |s| < 2 then |s| else 2
    ensures s == s[..|s| - |r|] + r
  {
    if |s| < 2 then s else s[|s| - 2..]
  }

  const MonthNames: seq<string> :=
    ["Jan", "Feb", "Mar", "Apr", "May", "Jun", "Jul", "Aug", "Sep", "Oct", "Nov", "Dec"]

  /** The en-US short month name ("Jan" .. "Dec"). */
  function MonthShort(m: Month): (r: string)
    ensures |r| == 3
  {
    MonthNames[m - 1]
  }

  /** The rendered date, as both the preview's `formatDate` and the template's
      inline template string build it. */
  function FormatDate(d: Date): (s: string)
  {
    NatToString(d.day) + "-" + MonthShort(d.month) + "-" + LastTwo(IntToString(d.year))
  }

  // ---- Reading the text back

  function DigitValue(c: char): (v: nat)
    requires IsDigit(c)
    ensures v < 10 && Digit(v) == c
  {
    c as int - '0' as int
  }

  /** The value of a string of decimal digits. */
  function DigitsValue(s: string): (v: nat)
    requires AllDigits(s)
    decreases |s|
  {
    if s == [] then 0
    else DigitsValue(s[..|s| - 1]) * 10 + DigitValue(s[|s| - 1])
  }

  /** The month whose short name is `name`, searching from month `m` on. */
  function MonthFrom(name: string, m: int): (r: Option<Month>)
    requires 1 <= m <= 13
    decreases 13 - m
  {
    if m == 13 then None
    else if MonthNames[m - 1] == name then Some(m)
    else MonthFrom(name, m + 1)
  }

  /** The month whose short name is `name`, if any. */
  function MonthOf(name: string): (r: Option<Month>)
  {
    MonthFrom(name, 1)
  }

  /** Index of the first `c` in `s`, or |s| when there is none. */
  function FirstIndex(s: string, c: char): (i: nat)
    ensures i <= |s|
    ensures forall j :: 0 <= j < i ==> s[j] != c
    ensures i < |s| ==> s[i] == c
    decreases |s|
  {
    if s == [] then 0
    else if s[0] == c then 0
    else 1 + FirstIndex(s[1..], c)
  }

  datatype DateText = DateText(day: nat, month: Month, yearSuffix: string)

  predicate AllDigits(s: string)
  {
    forall j :: 0 <= j < |s| ==> IsDigit(s[j])
  }

  /** Splits a `D-Mon-YY` string at its first '-' into the day text and the rest. */
  function ParseDate(s: string): (r: Option<DateText>)
  {
    var i := FirstIndex(s, '-');
    if i == 0 || i == |s| then None else ParseAfterDay(s[..i], s[i + 1..])
  }

  /** Reads the day digits and a `Mon-YY` rest. */
  function ParseAfterDay(ds: string, rest: string): (r: Option<DateText>)
  {
    if !AllDigits(ds) || |rest| < 4 || rest[3] != '-' then None
    else match MonthOf(rest[..3])
      case None => None
      case Some(m) => Some(DateText(DigitsValue(ds), m, rest[4..]))
  }

  // ---- Properties

  lemma {:induction false} NatToStringRoundTrip(n: nat)
    ensures DigitsValue(NatToString(n)) == n
    decreases n
  {
    var s := NatToString(n);
    if n >= 10 {
      NatToStringRoundTrip(n / 10);
      assert s[..|s| - 1] == NatToString(n / 10);
    } else {
      assert s[..0] == [];
    }
  }

  lemma {:induction false} NatToStringLastDigit(n: nat)
    ensures NatToString(n)[|NatToString(n)| - 1] == Digit(n % 10)
  {
  }

  /** The day is printed without padding: its first character is never '0'. */
  lemma {:induction false} NatToStringNoLeadingZero(n: nat)
    requires n > 0
    ensures NatToString(n)[0] != '0'
    ensures n < 10 <==> |NatToString(n)| == 1
    decreases n
  {
    if n >= 10 {
      NatToStringNoLeadingZero(n / 10);
    }
  }

  /** For years from 10 on, the year text is the two last decimal digits of the
      year (2005 gives "05", 2022 gives "22"). */
  lemma YearSuffixOfLongYear(year: int)
    requires year >= 10
    ensures LastTwo(IntToString(year)) == [Digit(year / 10 % 10), Digit(year % 10)]
  {
    var p := NatToString(year / 10);
    NatToStringLastDigit(year / 10);
    assert IntToString(year) == p + [Digit(year % 10)];
    assert (p + [Digit(year % 10)])[|p| + 1 - 2..] == [p[|p| - 1], Digit(year % 10)];
  }

  /** Years 0 .. 9 have a one-digit decimal string, and `slice(-2)` keeps it whole. */
  lemma YearSuffixOfShortYear(year: int)
    requires 0 <= year < 10
    ensures LastTwo(IntToString(year)) == [Digit(year)]
  {
  }

  lemma MonthNamesDistinct()
    ensures forall i, j :: 0 <= i < j < 12 ==> MonthNames[i] != MonthNames[j]
  {
    forall i, j | 0 <= i < j < 12 ensures MonthNames[i] != MonthNames[j] {
      assert MonthNames[i][0] != MonthNames[j][0] || MonthNames[i][1] != MonthNames[j][1]
        || MonthNames[i][2] != MonthNames[j][2];
    }
  }

  lemma {:induction false} MonthFromShort(m: Month, k: int)
    requires 1 <= k <= m
    ensures MonthFrom(MonthShort(m), k) == Some(m)
    decreases m - k
  {
    if k < m {
      MonthNamesDistinct();
      assert MonthNames[k - 1] != MonthNames[m - 1];
      MonthFromShort(m, k + 1);
    }
  }

  /** The first '-' after a non-empty run of digits ends the day. */
  lemma ParseDateSplit(ds: string, rest: string)
    requires ds != [] && AllDigits(ds)
    ensures ParseDate(ds + "-" + rest) == ParseAfterDay(ds, rest)
  {
    var tail := "-" + rest;
    var s := ds + tail;
    assert ds + "-" + rest == s;
    FirstIndexAfter(ds, tail, '-');
    assert s[..|ds|] == ds;
    assert s[|ds| + 1..] == rest;
  }

  lemma ParseMonthRest(ds: string, mon: string, yy: string)
    requires AllDigits(ds) && |mon| == 3
    ensures ParseAfterDay(ds, mon + "-" + yy) ==
      match MonthOf(mon)
      case None => None
      case Some(m) => Some(DateText(DigitsValue(ds), m, yy))
  {
    var rest := mon + "-" + yy;
    assert rest[..3] == mon;
    assert rest[3] == '-';
    assert rest[4..] == yy;
  }

  lemma FormatDateShape(d: Date)
    ensures FormatDate(d) ==
      NatToString(d.day) + "-" + (MonthShort(d.month) + "-" + LastTwo(IntToString(d.year)))
  {
  }

  /** The rendered date reads back as its day, its month and the year's last two characters. */
  lemma FormatDateRoundTrip(d: Date)
    ensures ParseDate(FormatDate(d)) == Some(DateText(d.day, d.month, LastTwo(IntToString(d.year))))
  {
    var ds, mon, yy := NatToString(d.day), MonthShort(d.month), LastTwo(IntToString(d.year));
    var rest := mon + "-" + yy;
    FormatDateShape(d);
    ParseDateSplit(ds, rest);
    assert ParseDate(FormatDate(d)) == ParseAfterDay(ds, rest);
    ParseMonthRest(ds, mon, yy);
    MonthFromShort(d.month, 1);
    assert MonthOf(mon) == Some(d.month);
    NatToStringRoundTrip(d.day);
    assert ParseAfterDay(ds, rest) == Some(DateText(d.day, d.month, yy));
  }

  /** The first `c` in `a + b` is where `b` starts, when `a` has none and `b` starts with one. */
  lemma {:induction false} FirstIndexAfter(a: string, b: string, c: char)
    requires forall j :: 0 <= j < |a| ==> a[j] != c
    requires b != [] && b[0] == c
    ensures FirstIndex(a + b, c) == |a|
    decreases |a|
  {
    if a == [] {
      assert a + b == b;
    } else {
      assert (a + b)[1..] == a[1..] + b;
      FirstIndexAfter(a[1..], b, c);
    }
  }

  lemma TwoDigits(y: int)
    requires y >= 0
    ensures y % 100 == 10 * (y / 10 % 10) + y % 10
  {
    var q, r := y / 100, y % 100;
    assert y == 100 * q + r;
    assert y / 10 == 10 * q + r / 10;
    assert y % 10 == r % 10;
  }

  lemma DigitInjective(a: int, b: int)
    requires 0 <= a < 10 && 0 <= b < 10
    ensures Digit(a) == Digit(b) <==> a == b
  {
  }

  /** Two decimal digits determine, and are determined by, the number they write. */
  lemma DigitPair(x1: int, y1: int, x2: int, y2: int)
    requires 0 <= x1 < 10 && 0 <= y1 < 10 && 0 <= x2 < 10 && 0 <= y2 < 10
    ensures 10 * x1 + y1 == 10 * x2 + y2 <==> x1 == x2 && y1 == y2
  {
  }

  /** The year text from year 10 on is the year modulo 100, written with two digits. */
  lemma YearSuffixModulo(a: int, b: int)
    requires a >= 10 && b >= 10
    ensures LastTwo(IntToString(a)) == LastTwo(IntToString(b)) <==> a % 100 == b % 100
  {
    var ta, ua, tb, ub := a / 10 % 10, a % 10, b / 10 % 10, b % 10;
    YearSuffixOfLongYear(a);
    YearSuffixOfLongYear(b);
    TwoDigits(a);
    TwoDigits(b);
    DigitInjective(ta, tb);
    DigitInjective(ua, ub);
    DigitPair(ta, ua, tb, ub);
    assert LastTwo(IntToString(a)) == LastTwo(IntToString(b)) <==> Digit(ta) == Digit(tb) && Digit(ua) == Digit(ub) by {
      var sa, sb := [Digit(ta), Digit(ua)], [Digit(tb), Digit(ub)];
      assert sa == sb <==> sa[0] == sb[0] && sa[1] == sb[1];
    }
  }

  /** Two dates from year 10 on render alike exactly when they agree on day, month and
      the year modulo 100. */
  lemma FormatDateInjective(a: Date, b: Date)
    requires a.year >= 10 && b.year >= 10
    ensures FormatDate(a) == FormatDate(b) <==>
      a.day == b.day && a.month == b.month && a.year % 100 == b.year % 100
  {
    FormatDateRoundTrip(a);
    FormatDateRoundTrip(b);
    YearSuffixModulo(a.year, b.year);
  }

  /** The example in the comment above `formatDate`: 2022-12-21 reads "21-Dec-22". */
  lemma FormatDateExample()
    ensures FormatDate(Date(2022, 12, 21)) == "21-Dec-22"
  {
    assert NatToString(21) == "21";
    assert NatToString(2022) == "2022";
  }
}
