/**
 * Publication times as the feed parser delivers them: Python's `time.struct_time`,
 * a nine-field tuple that compares lexicographically, field by field. Also the
 * display rendering: `strftime('%Y-%m-%dT%H:%M:%SZ')` cut to its first ten
 * characters.
 */
module Timestamps {
  import opened Wrappers
  import opened Text

  /** `time.struct_time`, its nine tuple fields in tuple order. */
  datatype Timestamp = Timestamp(year: int, month: int, day: int, hour: int, minute: int,
                                 second: int, weekday: int, yearday: int, isdst: int)

  /** The field ranges of a normalised `struct_time`, which `strftime` insists on. */
  predicate InRange(t: Timestamp)
  {
    && 0 <= t.year
    && 1 <= t.month <= 12 && 1 <= t.day <= 31
    && 0 <= t.hour <= 23 && 0 <= t.minute <= 59 && 0 <= t.second <= 61
    && 0 <= t.weekday <= 6 && 1 <= t.yearday <= 366 && -1 <= t.isdst <= 1
  }

  type StructTime = t: Timestamp | InRange(t) witness Timestamp(1970, 1, 1, 0, 0, 0, 3, 1, 0)

  /** The tuple the timestamp stands for. */
  function Fields(t: Timestamp): seq<int>
  {
    [t.year, t.month, t.day, t.hour, t.minute, t.second, t.weekday, t.yearday, t.isdst]
  }

  /** Python's `<` on tuples of integers: the first differing field decides, and a proper prefix is smaller. */
  predicate LexLess(a: seq<int>, b: seq<int>)
  {
    if a == [] then b != []
    else if b == [] then false
    else a[0] < b[0] || (a[0] == b[0] && LexLess(a[1..], b[1..]))
  }

  /** `a < b` on struct_time values. */
  predicate Before(a: Timestamp, b: Timestamp)
  {
    LexLess(Fields(a), Fields(b))
  }

  lemma {:induction false} LexLessIrreflexive(a: seq<int>)
    ensures !LexLess(a, a)
  {
    if a != [] {
      LexLessIrreflexive(a[1..]);
    }
  }

  lemma {:induction false} LexLessTransitive(a: seq<int>, b: seq<int>, c: seq<int>)
    requires LexLess(a, b) && LexLess(b, c)
    ensures LexLess(a, c)
  {
    if a != [] && b != [] && c != [] && a[0] == b[0] == c[0] {
      LexLessTransitive(a[1..], b[1..], c[1..]);
    }
  }

  lemma {:induction false} LexLessTotal(a: seq<int>, b: seq<int>)
    ensures a == b || LexLess(a, b) || LexLess(b, a)
  {
    if a != [] && b != [] && a[0] == b[0] {
      LexLessTotal(a[1..], b[1..]);
      if a[1..] == b[1..] {
        assert a == [a[0]] + a[1..] && b == [b[0]] + b[1..];
      }
    }
  }

  /** `<` on struct_time is a strict total order: irreflexive, transitive, and any two differ or compare. */
  lemma BeforeIsStrictTotalOrder(a: Timestamp, b: Timestamp, c: Timestamp)
    ensures !Before(a, a)
    ensures Before(a, b) && Before(b, c) ==> Before(a, c)
    ensures a == b || Before(a, b) || Before(b, a)
  {
    LexLessIrreflexive(Fields(a));
    if Before(a, b) && Before(b, c) {
      LexLessTransitive(Fields(a), Fields(b), Fields(c));
    }
    LexLessTotal(Fields(a), Fields(b));
  }

  /** "Not after": `!(b < a)`, the relation a descending sort keeps between neighbours, is transitive. */
  lemma NotBeforeTransitive(a: Timestamp, b: Timestamp, c: Timestamp)
    requires !Before(a, b) && !Before(b, c)
    ensures !Before(a, c)
  {
    BeforeIsStrictTotalOrder(a, b, c);
    BeforeIsStrictTotalOrder(b, c, a);
    BeforeIsStrictTotalOrder(c, b, a);
    BeforeIsStrictTotalOrder(a, c, a);
  }

  /** `time.strftime('%Y-%m-%dT%H:%M:%SZ', t)`, with `%Y` unpadded as the C library prints it. */
  function IsoFormat(t: StructTime): string
  {
    Decimal(t.year) + "-" + Pad2(t.month) + "-" + Pad2(t.day) + "T"
    + Pad2(t.hour) + ":" + Pad2(t.minute) + ":" + Pad2(t.second) + "Z"
  }

  /** The ISO rendering cut to its first ten characters, `[:10]`. */
  function DisplayDate(t: StructTime): (d: string)
    ensures |d| == 10
  {
    var iso := IsoFormat(t);
    DecimalRoundTrip(t.year);
    iso[..10]
  }

  /** Reads `YYYY-MM-DD` back into year, month and day. */
  function ParseDisplayDate(s: string): Option<(int, int, int)>
  {
    if |s| == 10 && s[4] == '-' && s[7] == '-'
       && AllDigits(s[..4]) && AllDigits(s[5..7]) && AllDigits(s[8..])
    then Some((DigitsValue(s[..4]), DigitsValue(s[5..7]), DigitsValue(s[8..])))
    else None
  }

  /**
   * For a four-digit year the displayed date is `YYYY-MM-DD`: dashes at positions
   * 4 and 7, digits elsewhere, and it reads back as the timestamp's calendar date.
   */
  lemma DisplayDateRoundTrip(t: StructTime)
    requires 1000 <= t.year <= 9999
    ensures var d := DisplayDate(t);
            d[4] == '-' && d[7] == '-' && ParseDisplayDate(d) == Some((t.year, t.month, t.day))
  {
    FourDigitYears(t.year);
    DecimalRoundTrip(t.year);
    Pad2RoundTrip(t.month);
    Pad2RoundTrip(t.day);
    var y, m, dd := Decimal(t.year), Pad2(t.month), Pad2(t.day);
    var d := DisplayDate(t);
    assert d == y + "-" + m + "-" + dd by {
      assert IsoFormat(t)[..10] == (y + "-" + m + "-" + dd + "T" + Pad2(t.hour) + ":" + Pad2(t.minute) + ":" + Pad2(t.second) + "Z")[..10];
    }
    assert d[..4] == y && d[5..7] == m && d[8..] == dd;
  }

  /** For a four-digit year the date starts with the year in decimal. */
  lemma DisplayDateYear(t: StructTime)
    requires 1000 <= t.year <= 9999
    ensures DisplayDate(t)[..4] == Decimal(t.year)
  {
    FourDigitYears(t.year);
    var y := Decimal(t.year);
    assert IsoFormat(t)[..4] == y;
  }
}
