/** The fixed-width date and time strings of the dashboard: the article
    timestamp `YYYYMMDDThhmmssZ` (the ISO 8601 basic format, read by
    `strptime('%Y%m%dT%H%M%SZ')`), its display form `Mon DD, YYYY HH:MM`
    (`strftime('%b %d, %Y %H:%M')`) and the query date `YYYY-MM-DD`
    (`strftime('%Y-%m-%d')`). Python's proleptic Gregorian calendar, years 1 to 9999. */
module Calendar {
  import opened Base

  datatype Date = Date(year: int, month: int, day: int)

  datatype DateTime = DateTime(year: int, month: int, day: int, hour: int, minute: int, second: int)

  predicate IsLeapYear(y: int)
  {
    y % 4 == 0 && (y % 100 != 0 || y % 400 == 0)
  }

  function DaysInMonth(y: int, m: int): int
    requires 1 <= m <= 12
  {
    if m == 2 then (if IsLeapYear(y) then 29 else 28)
    else if m == 4 || m == 6 || m == 9 || m == 11 then 30
    else 31
  }

  /** A date Python's `date` type can hold. */
  predicate ValidDate(d: Date)
  {
    1 <= d.year <= 9999 && 1 <= d.month <= 12 && 1 <= d.day <= DaysInMonth(d.year, d.month)
  }

  /** A date-time Python's `datetime` constructor accepts (no leap seconds). */
  predicate ValidDateTime(t: DateTime)
  {
    && ValidDate(Date(t.year, t.month, t.day))
    && 0 <= t.hour <= 23 && 0 <= t.minute <= 59 && 0 <= t.second <= 59
  }

  // ---- decimal digits ----

  predicate IsDigit(c: char) { '0' <= c <= '9' }

  predicate AllDigits(s: string) { forall i :: 0 <= i < |s| ==> IsDigit(s[i]) }

  function Pow10(n: nat): (r: nat)
    ensures r >= 1
  {
    if n == 0 then 1 else 10 * Pow10(n - 1)
  }

  /** The value of a string of decimal digits, most significant first. */
  function Number(s: string): (n: nat)
    requires AllDigits(s)
    ensures n < Pow10(|s|)
  {
    if s == [] then 0
    else 10 * Number(s[..|s| - 1]) + ((s[|s| - 1] as int) - ('0' as int))
  }

  function DigitChar(d: int): (c: char)
    requires 0 <= d <= 9
    ensures IsDigit(c) && (c as int) - ('0' as int) == d
  {
    (('0' as int) + d) as char
  }

  /** `n` written in exactly `width` decimal digits, zero-padded on the left
      (the `%02d` of `%d`, `%m`, `%H`, `%M`, `%S` and the four digits of `%Y`). */
  function Pad(n: nat, width: nat): (s: string)
    requires n < Pow10(width)
    ensures |s| == width && AllDigits(s)
  {
    if width == 0 then "" else Pad(n / 10, width - 1) + [DigitChar(n % 10)]
  }

  /** Reading back a padded number gives the number. */
  lemma {:induction false} NumberOfPad(n: nat, width: nat)
    requires n < Pow10(width)
    ensures Number(Pad(n, width)) == n
  {
    if width > 0 {
      NumberOfPad(n / 10, width - 1);
      var s := Pad(n, width);
      assert s[..|s| - 1] == Pad(n / 10, width - 1);
    }
  }

  /** Padding the value of a digit string gives the string back. */
  lemma {:induction false} PadOfNumber(s: string)
    requires AllDigits(s)
    ensures Pad(Number(s), |s|) == s
  {
    if s != [] {
      var p := s[..|s| - 1];
      PadOfNumber(p);
      var d := (s[|s| - 1] as int) - ('0' as int);
      DivMod10(Number(p), d);
      assert s == p + [s[|s| - 1]];
    }
  }

  lemma DivMod10(a: nat, d: int)
    requires 0 <= d < 10
    ensures (10 * a + d) / 10 == a && (10 * a + d) % 10 == d
  {
  }

  /** Equal-width padded numbers are equal only for equal numbers. */
  lemma PadInjective(a: nat, b: nat, width: nat)
    requires a < Pow10(width) && b < Pow10(width)
    requires Pad(a, width) == Pad(b, width)
    ensures a == b
  {
    NumberOfPad(a, width);
    NumberOfPad(b, width);
  }

  // ---- the article timestamp ----

  /** The 16-character `YYYYMMDDThhmmssZ` form of a valid date-time. */
  function SeenDateText(t: DateTime): (s: string)
    requires ValidDateTime(t)
    ensures |s| == 16
  {
    Pad(t.year, 4) + Pad(t.month, 2) + Pad(t.day, 2) + "T"
      + Pad(t.hour, 2) + Pad(t.minute, 2) + Pad(t.second, 2) + "Z"
  }

  /** `datetime.strptime(s, '%Y%m%dT%H%M%SZ')` on the fixed-width form: the
      digit fields are read at fixed positions and the result must be a real
      calendar date-time, otherwise the call raises (None). */
  function ParseSeenDate(s: string): (r: Option<DateTime>)
    ensures r.Some? ==> ValidDateTime(r.value)
  {
    if && |s| == 16 && s[8] == 'T' && s[15] == 'Z'
       && AllDigits(s[0..4]) && AllDigits(s[4..6]) && AllDigits(s[6..8])
       && AllDigits(s[9..11]) && AllDigits(s[11..13]) && AllDigits(s[13..15])
    then
      var t := DateTime(Number(s[0..4]), Number(s[4..6]), Number(s[6..8]),
                        Number(s[9..11]), Number(s[11..13]), Number(s[13..15]));
      if ValidDateTime(t) then Some(t) else None
    else None
  }

  /** Every valid date-time is read back from its timestamp text. */
  lemma ParseSeenDateText(t: DateTime)
    requires ValidDateTime(t)
    ensures ParseSeenDate(SeenDateText(t)) == Some(t)
  {
    var s := SeenDateText(t);
    assert s[0..4] == Pad(t.year, 4);
    assert s[4..6] == Pad(t.month, 2);
    assert s[6..8] == Pad(t.day, 2);
    assert s[9..11] == Pad(t.hour, 2);
    assert s[11..13] == Pad(t.minute, 2);
    assert s[13..15] == Pad(t.second, 2);
    NumberOfPad(t.year, 4);
    NumberOfPad(t.month, 2);
    NumberOfPad(t.day, 2);
    NumberOfPad(t.hour, 2);
    NumberOfPad(t.minute, 2);
    NumberOfPad(t.second, 2);
  }

  /** Every accepted string is the timestamp text of what it parses to, so the
      parser accepts exactly the timestamp texts of valid date-times. */
  lemma SeenDateTextOfParse(s: string)
    requires ParseSeenDate(s).Some?
    ensures SeenDateText(ParseSeenDate(s).value) == s
  {
    var t := ParseSeenDate(s).value;
    PadOfNumber(s[0..4]);
    PadOfNumber(s[4..6]);
    PadOfNumber(s[6..8]);
    PadOfNumber(s[9..11]);
    PadOfNumber(s[11..13]);
    PadOfNumber(s[13..15]);
    assert s[8..9] == "T" && s[15..16] == "Z";
    SliceConcat(s, 0, 4, 6);
    SliceConcat(s, 0, 6, 8);
    SliceConcat(s, 0, 8, 9);
    SliceConcat(s, 0, 9, 11);
    SliceConcat(s, 0, 11, 13);
    SliceConcat(s, 0, 13, 15);
    SliceConcat(s, 0, 15, 16);
    assert s[0..16] == s;
  }

  /** Adjacent slices join into one. */
  lemma SliceConcat(s: string, i: nat, j: nat, k: nat)
    requires i <= j <= k <= |s|
    ensures s[i..j] + s[j..k] == s[i..k]
  {
  }

  // ---- the display form ----

  /** `%b` in the English locale. */
  function MonthAbbrev(m: int): (a: string)
    requires 1 <= m <= 12
    ensures |a| == 3
  {
    ["Jan", "Feb", "Mar", "Apr", "May", "Jun", "Jul", "Aug", "Sep", "Oct", "Nov", "Dec"][m - 1]
  }

  lemma MonthAbbrevInjective(a: int, b: int)
    requires 1 <= a <= 12 && 1 <= b <= 12
    requires MonthAbbrev(a) == MonthAbbrev(b)
    ensures a == b
  {
    var names := ["Jan", "Feb", "Mar", "Apr", "May", "Jun", "Jul", "Aug", "Sep", "Oct", "Nov", "Dec"];
    assert forall i, j :: 0 <= i < j < 12 ==> names[i] != names[j];
  }

  /** `strftime('%b %d, %Y %H:%M')`: the seconds are dropped. */
  function DisplayText(t: DateTime): (s: string)
    requires ValidDateTime(t)
    ensures |s| == 18
  {
    MonthAbbrev(t.month) + " " + Pad(t.day, 2) + ", " + Pad(t.year, 4) + " "
      + Pad(t.hour, 2) + ":" + Pad(t.minute, 2)
  }

  /** The display text determines every field except the seconds. */
  lemma DisplayTextInjective(a: DateTime, b: DateTime)
    requires ValidDateTime(a) && ValidDateTime(b)
    requires DisplayText(a) == DisplayText(b)
    ensures a.(second := 0) == b.(second := 0)
  {
    var s, u := DisplayText(a), DisplayText(b);
    assert s[0..3] == MonthAbbrev(a.month) && u[0..3] == MonthAbbrev(b.month);
    assert s[4..6] == Pad(a.day, 2) && u[4..6] == Pad(b.day, 2);
    assert s[8..12] == Pad(a.year, 4) && u[8..12] == Pad(b.year, 4);
    assert s[13..15] == Pad(a.hour, 2) && u[13..15] == Pad(b.hour, 2);
    assert s[16..18] == Pad(a.minute, 2) && u[16..18] == Pad(b.minute, 2);
    MonthAbbrevInjective(a.month, b.month);
    PadInjective(a.day, b.day, 2);
    PadInjective(a.year, b.year, 4);
    PadInjective(a.hour, b.hour, 2);
    PadInjective(a.minute, b.minute, 2);
  }

  /** The article `seendate` reformatting: parse, then print in display form;
      a string that is not a valid timestamp raises ValueError. */
  function ReformatSeenDate(s: string): (r: Result<string, Error>)
    ensures r.Err? <==> ParseSeenDate(s).None?
    ensures r.Err? ==> r.error == BadSeenDate(s)
    ensures r.Ok? ==> |r.value| == 18
  {
    match ParseSeenDate(s)
    case None => Err(BadSeenDate(s))
    case Some(t) => Ok(DisplayText(t))
  }

  /** Reformatting a timestamp text prints the date-time it denotes, minus the seconds. */
  lemma ReformatSeenDateText(t: DateTime)
    requires ValidDateTime(t)
    ensures ReformatSeenDate(SeenDateText(t)) == Ok(DisplayText(t))
  {
    ParseSeenDateText(t);
  }

  /** The value of a two- and a four-digit string. */
  lemma Number2(s: string)
    requires |s| == 2 && AllDigits(s)
    ensures Number(s) == 10 * ((s[0] as int) - ('0' as int)) + ((s[1] as int) - ('0' as int))
  {
    assert s[..1][..0] == [];
  }

  lemma Number4(s: string)
    requires |s| == 4 && AllDigits(s)
    ensures Number(s) == 1000 * ((s[0] as int) - ('0' as int)) + 100 * ((s[1] as int) - ('0' as int))
                         + 10 * ((s[2] as int) - ('0' as int)) + ((s[3] as int) - ('0' as int))
  {
    var p := s[..3];
    assert p[..2] == s[..2];
    Number2(s[..2]);
    assert Number(s) == 10 * Number(p) + ((s[3] as int) - ('0' as int));
    assert Number(p) == 10 * Number(s[..2]) + ((s[2] as int) - ('0' as int));
  }

  function DigitAt(s: string, i: int): int
    requires 0 <= i < |s|
  {
    (s[i] as int) - ('0' as int)
  }

  /** The fields a well-shaped timestamp text is read as. */
  lemma SeenDateFields(s: string)
    requires |s| == 16 && s[8] == 'T' && s[15] == 'Z'
    requires forall i :: 0 <= i < 16 && i != 8 && i != 15 ==> IsDigit(s[i])
    ensures ParseSeenDate(s) ==
      var t := DateTime(1000 * DigitAt(s, 0) + 100 * DigitAt(s, 1) + 10 * DigitAt(s, 2) + DigitAt(s, 3),
                        10 * DigitAt(s, 4) + DigitAt(s, 5), 10 * DigitAt(s, 6) + DigitAt(s, 7),
                        10 * DigitAt(s, 9) + DigitAt(s, 10), 10 * DigitAt(s, 11) + DigitAt(s, 12),
                        10 * DigitAt(s, 13) + DigitAt(s, 14));
      if ValidDateTime(t) then Some(t) else None
  {
    Number4(s[0..4]);
    Number2(s[4..6]);
    Number2(s[6..8]);
    Number2(s[9..11]);
    Number2(s[11..13]);
    Number2(s[13..15]);
  }

  lemma PadExamples()
    ensures Pad(10, 2) == "10" && Pad(2020, 4) == "2020" && Pad(15, 2) == "15" && Pad(30, 2) == "30"
  {
  }

  lemma DisplayTextExample()
    ensures DisplayText(DateTime(2020, 5, 10, 15, 30, 0)) == "May 10, 2020 15:30"
  {
    assert ValidDateTime(DateTime(2020, 5, 10, 15, 30, 0));
    assert MonthAbbrev(5) == "May";
    PadExamples();
    LiteralConcat();
  }

  lemma LiteralConcat()
    ensures "May" + " " + "10" + ", " + "2020" + " " + "15" + ":" + "30" == "May 10, 2020 15:30"
  {
  }

  /** `"20200510T153000Z"` is shown as `"May 10, 2020 15:30"`. */
  lemma ReformatExample()
    ensures ReformatSeenDate("20200510T153000Z") == Ok("May 10, 2020 15:30")
  {
    SeenDateFields("20200510T153000Z");
    assert ParseSeenDate("20200510T153000Z") == Some(DateTime(2020, 5, 10, 15, 30, 0));
    DisplayTextExample();
  }

  /** There is no 30 February: the call raises instead of rolling over. */
  lemma FebruaryThirtiethRejected()
    ensures ReformatSeenDate("20210230T000000Z") == Err(BadSeenDate("20210230T000000Z"))
  {
    SeenDateFields("20210230T000000Z");
  }

  lemma MonthThirteenRejected()
    ensures ReformatSeenDate("20201301T000000Z") == Err(BadSeenDate("20201301T000000Z"))
  {
    SeenDateFields("20201301T000000Z");
  }

  /** 29 February exists in 2020 but not in 1900 (a century not divisible by 400). */
  lemma LeapDayAccepted()
    ensures ReformatSeenDate("20200229T000000Z").Ok?
  {
    SeenDateFields("20200229T000000Z");
    assert IsLeapYear(2020);
    assert ParseSeenDate("20200229T000000Z") == Some(DateTime(2020, 2, 29, 0, 0, 0));
  }

  lemma CenturyLeapDayRejected()
    ensures ReformatSeenDate("19000229T000000Z").Err?
  {
    SeenDateFields("19000229T000000Z");
    assert !IsLeapYear(1900);
    assert !ValidDateTime(DateTime(1900, 2, 29, 0, 0, 0));
  }

  // ---- the query date ----

  /** `date.strftime('%Y-%m-%d')`, the year zero-padded to four digits. */
  function IsoDateText(d: Date): (s: string)
    requires ValidDate(d)
    ensures |s| == 10 && s[4] == '-' && s[7] == '-'
  {
    Pad(d.year, 4) + "-" + Pad(d.month, 2) + "-" + Pad(d.day, 2)
  }

  /** The query date text reads back as the date it was printed from. */
  lemma IsoDateTextFields(d: Date)
    requires ValidDate(d)
    ensures var s := IsoDateText(d);
      && AllDigits(s[0..4]) && AllDigits(s[5..7]) && AllDigits(s[8..10])
      && Number(s[0..4]) == d.year && Number(s[5..7]) == d.month && Number(s[8..10]) == d.day
  {
    var s := IsoDateText(d);
    assert s[0..4] == Pad(d.year, 4) && s[5..7] == Pad(d.month, 2) && s[8..10] == Pad(d.day, 2);
    NumberOfPad(d.year, 4);
    NumberOfPad(d.month, 2);
    NumberOfPad(d.day, 2);
  }
}
