/** The text the date-picker callback writes into the date field: year, then
    the 0-based month plus one and the day, each padded to two digits. */
module DatePicker {
  import opened Options
  import opened JvmInt
  import opened Text
  import opened Decimal

  datatype CalendarDate = CalendarDate(year: int, month: int, day: int)

  /** `v.toString().padStart(2, '0')`. */
  function TwoDigits(v: int): string
  {
    PadStart(IntToString(v), 2, '0')
  }

  /** The picker callback's `"$y-$mm-$dd"`, where `mm` comes from the Kotlin
      `Int` sum `m + 1`. */
  function PickedDateText(y: Int32, m: Int32, d: Int32): string
  {
    IntToString(y as int) + "-" + TwoDigits(AddInt32(m, 1) as int) + "-" + TwoDigits(d as int)
  }

  /** `YYYY-MM-DD`: ten characters, dashes at positions 4 and 7, digits
      elsewhere. */
  predicate IsIsoDate(s: string)
  {
    && |s| == 10
    && s[4] == '-' && s[7] == '-'
    && AllDigits(s[..4]) && AllDigits(s[5..7]) && AllDigits(s[8..])
  }

  /** Reads a `year-month-day` text of three dash-separated digit runs. */
  function ParseDate(s: string): Option<CalendarDate>
  {
    var parts := Split(s, '-');
    if |parts| == 3 && ParseNat(parts[0]).Some? && ParseNat(parts[1]).Some? && ParseNat(parts[2]).Some?
    then Some(CalendarDate(ParseNat(parts[0]).value, ParseNat(parts[1]).value, ParseNat(parts[2]).value))
    else None
  }

  /** A value below 100 is padded to exactly two digits that denote it. */
  lemma TwoDigitsOf(v: int)
    requires 0 <= v < 100
    ensures |TwoDigits(v)| == 2 && AllDigits(TwoDigits(v)) && ValueOf(TwoDigits(v)) == v
  {
    NonNegativeToString(v);
    NatToStringDigits(v);
    var t := NatToString(v);
    var p := TwoDigits(v);
    if v < 10 {
      assert p == ['0'] + t;
      assert p[..1] == ['0'];
      assert ValueOf(p[..1]) == 0 by { assert p[..1][..0] == []; }
    } else {
      NatToStringLength(v, 2);
    }
  }

  /** Where the parts of `a-b-c` sit when `b` and `c` have two characters. */
  lemma DashedParts(a: string, b: string, c: string)
    requires |b| == 2 && |c| == 2
    ensures var r := a + "-" + b + "-" + c;
      && |r| == |a| + 6
      && r[..|r| - 6] == a && r[|r| - 6] == '-' && r[|r| - 3] == '-'
      && r[|r| - 5..|r| - 3] == b && r[|r| - 2..] == c
  {
  }

  /** For every month the picker can report (0..11) and every day of a month,
      the text ends in `-MM-DD`: the month as two digits denoting `m + 1`, so
      between 01 and 12, and the day as two digits denoting `d`; the year
      text comes first, unpadded. */
  lemma PickedDateFields(y: Int32, m: Int32, d: Int32)
    requires 0 <= m <= 11 && 1 <= d <= 31
    ensures var r := PickedDateText(y, m, d);
      && |r| >= 7
      && r[..|r| - 6] == IntToString(y as int)
      && r[|r| - 6] == '-' && r[|r| - 3] == '-'
      && AllDigits(r[|r| - 5..|r| - 3]) && ValueOf(r[|r| - 5..|r| - 3]) == m as int + 1
      && 1 <= ValueOf(r[|r| - 5..|r| - 3]) <= 12
      && AllDigits(r[|r| - 2..]) && ValueOf(r[|r| - 2..]) == d as int
  {
    var month := AddInt32(m, 1);
    assert month as int == m as int + 1;
    var ys := IntToString(y as int);
    var mm := TwoDigits(month as int);
    var dd := TwoDigits(d as int);
    TwoDigitsOf(month as int);
    TwoDigitsOf(d as int);
    var r := PickedDateText(y, m, d);
    assert r == ys + "-" + mm + "-" + dd;
    DashedParts(ys, mm, dd);
    assert r[|r| - 5..|r| - 3] == mm && r[|r| - 2..] == dd;
  }

  /** A four-digit year gives an ISO `YYYY-MM-DD` text. */
  lemma PickedDateIsIso(y: Int32, m: Int32, d: Int32)
    requires 1000 <= y <= 9999 && 0 <= m <= 11 && 1 <= d <= 31
    ensures IsIsoDate(PickedDateText(y, m, d))
  {
    assert Pow10(3) == 1000 && Pow10(4) == 10000 by {
      assert Pow10(1) == 10 && Pow10(2) == 100;
    }
    NatToStringLength(y as int, 4);
    NonNegativeToString(y as int);
    PickedDateFields(y, m, d);
    var r := PickedDateText(y, m, d);
    assert |r| == 10;
    assert r[..4] == IntToString(y as int);
    assert r[5..7] == r[|r| - 5..|r| - 3];
    assert r[8..] == r[|r| - 2..];
  }

  /** Splitting `a-b-c` on dashes gives back its three parts. */
  lemma SplitDashed(a: string, b: string, c: string)
    requires '-' !in a && '-' !in b && '-' !in c
    ensures Split(a + "-" + b + "-" + c, '-') == [a, b, c]
  {
    assert a + "-" + b + "-" + c == a + ['-'] + (b + ['-'] + c);
    SplitThree(a, b, c, '-');
  }

  /** Three dash-separated digit runs read back as the numbers they denote. */
  lemma ParseDashed(a: string, b: string, c: string)
    requires |a| > 0 && |b| > 0 && |c| > 0
    requires AllDigits(a) && AllDigits(b) && AllDigits(c)
    ensures ParseDate(a + "-" + b + "-" + c) == Some(CalendarDate(ValueOf(a), ValueOf(b), ValueOf(c)))
  {
    assert '-' !in a && '-' !in b && '-' !in c;
    SplitDashed(a, b, c);
    assert ParseNat(a) == Some(ValueOf(a));
    assert ParseNat(b) == Some(ValueOf(b));
    assert ParseNat(c) == Some(ValueOf(c));
  }

  /** Reading the picked text back gives the calendar date with the month
      shifted to 1-based. */
  lemma PickedDateRoundTrip(y: Int32, m: Int32, d: Int32)
    requires 0 <= y && 0 <= m <= 11 && 1 <= d <= 31
    ensures ParseDate(PickedDateText(y, m, d)) == Some(CalendarDate(y as int, m as int + 1, d as int))
  {
    var month := AddInt32(m, 1);
    assert month as int == m as int + 1;
    var ys := IntToString(y as int);
    var mm := TwoDigits(month as int);
    var dd := TwoDigits(d as int);
    TwoDigitsOf(month as int);
    TwoDigitsOf(d as int);
    var r := PickedDateText(y, m, d);
    assert r == ys + "-" + mm + "-" + dd;
    NonNegativeToString(y as int);
    ParseDashed(ys, mm, dd);
  }
}
