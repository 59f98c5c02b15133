/**
 * Decoding Twitter's `created_at` timestamp (`"Mon Sep 29 07:00:10 +0000 2014"`)
 * into an integer day key `YYYYMMDD`.
 */
module DateKey {
  import opened Wrappers
  import opened Text

  /** `calendar.month_abbr` in the English (C) locale; entry 0 is the empty string. */
  const MonthAbbr: seq<string> :=
    ["", "Jan", "Feb", "Mar", "Apr", "May", "Jun", "Jul", "Aug", "Sep", "Oct", "Nov", "Dec"]

  /** The month number as the reader writes it: `'0' + str(k)` below 10, `str(k)` from 10 on. */
  function MonthCode(k: nat): string
  {
    if k < 10 then "0" + Decimal(k) else Decimal(k)
  }

  /**
   * `month_dict`: each entry of `calendar.month_abbr`, the empty entry 0
   * included, is a key for its month code. Written out here;
   * `MonthDictIsFormula` and `MonthDictKeys` show it is the dictionary the
   * reader's two comprehensions build.
   */
  const MonthDict: map<string, string> := map[
    "" := "00", "Jan" := "01", "Feb" := "02", "Mar" := "03", "Apr" := "04", "May" := "05", "Jun" := "06",
    "Jul" := "07", "Aug" := "08", "Sep" := "09", "Oct" := "10", "Nov" := "11", "Dec" := "12"]

  /** `month_dict[abbr]`, or `None` for the KeyError a missing key raises. */
  function MonthLookup(abbr: string): Option<string>
  {
    if abbr in MonthDict then Some(MonthDict[abbr]) else None
  }

  /** Entry `k` of `calendar.month_abbr` maps to the code the reader's formula gives `k`. */
  lemma MonthDictIsFormula(k: nat)
    requires k < |MonthAbbr|
    ensures MonthAbbr[k] in MonthDict && MonthDict[MonthAbbr[k]] == MonthCode(k)
  {
    DecimalValue(k);
    if k >= 10 {
      assert Decimal(k) == Decimal(1) + [('0' as int + k % 10) as char];
    }
  }

  /** The dictionary has no keys besides the entries of `calendar.month_abbr`. */
  lemma MonthDictKeys(t: string)
    ensures t in MonthDict <==> t in MonthAbbr
  {
  }

  /** The Python exception a malformed timestamp raises. */
  datatype DateKeyError =
    | IndexError              // fewer than six whitespace-separated fields
    | KeyError(key: string)   // the month field is not in the month table
    | ValueError(literal: string)  // the glued digits are not an integer literal

  /**
   * Field 5 (year), the month code of field 1 and field 2 (day) glued together
   * and read with `int`; the weekday, time and offset fields are not looked at.
   */
  function ToDateKey(createdAt: string): Result<int, DateKeyError>
  {
    FieldsToDateKey(Split(createdAt))
  }

  /** The decoding step after splitting: index, look up, glue, read. */
  function FieldsToDateKey(fields: seq<string>): Result<int, DateKeyError>
  {
    if |fields| < 6 then Failure(IndexError)
    else match MonthLookup(fields[1])
    case None => Failure(KeyError(fields[1]))
    case Some(code) =>
      var literal := fields[5] + code + fields[2];
      match ParseInt(literal)
      case None => Failure(ValueError(literal))
      case Some(key) => Success(key)
  }

  /** Every month of the year has a two-digit code that reads as its number. */
  lemma MonthCodes(k: nat)
    requires 1 <= k <= 12
    ensures MonthLookup(MonthAbbr[k]) == Some(MonthCode(k))
    ensures |MonthCode(k)| == 2 && AllDigits(MonthCode(k)) && DigitsValue(MonthCode(k)) == k
  {
    MonthCodeDigits(k);
    MonthDictIsFormula(k);
  }

  lemma MonthCodeDigits(k: nat)
    requires 1 <= k <= 12
    ensures |MonthCode(k)| == 2 && AllDigits(MonthCode(k)) && DigitsValue(MonthCode(k)) == k
  {
    DecimalValue(k);
    DecimalValue(k / 10);
    if k < 10 {
      assert MonthCode(k) == ['0', ('0' as int + k) as char];
    } else {
      assert MonthCode(k) == ['1', ('0' as int + k % 10) as char];
    }
  }

  /** The keys of the month dictionary are the twelve abbreviations and the empty string. */
  lemma MonthLookupKeys(t: string)
    ensures MonthLookup(t).Some? <==> t == "" || t in MonthAbbr[1..]
  {
    MonthDictKeys(t);
    assert MonthAbbr == [""] + MonthAbbr[1..];
  }

  /**
   * The three ways decoding fails, and when: fewer than six fields fails on the
   * year index, a month field other than `Jan`..`Dec` fails the table lookup,
   * and otherwise only a year or day that `int` rejects fails.
   */
  lemma {:induction false} ToDateKeyFailures(createdAt: string)
    ensures var fields := Split(createdAt);
      (ToDateKey(createdAt) == Failure(IndexError) <==> |fields| < 6) &&
      (ToDateKey(createdAt).Failure? && ToDateKey(createdAt).error.KeyError? <==>
        |fields| >= 6 && fields[1] !in MonthAbbr[1..]) &&
      (ToDateKey(createdAt).Failure? && ToDateKey(createdAt).error.ValueError? ==>
        |fields| >= 6 && fields[1] in MonthAbbr[1..])
  {
    var fields := Split(createdAt);
    if |fields| >= 6 {
      MonthLookupKeys(fields[1]);
      SplitWords(createdAt);
      assert IsWord(fields[1]);
    }
  }

  /**
   * For a digit-only year and day the key is the number year, month, day
   * written side by side: the day takes the lowest `|day|` digits, the
   * two-digit month the next two, the year the rest.
   */
  lemma ToDateKeyValue(createdAt: string, month: nat)
    requires |Split(createdAt)| >= 6
    requires 1 <= month <= 12 && Split(createdAt)[1] == MonthAbbr[month]
    requires AllDigits(Split(createdAt)[5]) && AllDigits(Split(createdAt)[2])
    ensures var year, day := Split(createdAt)[5], Split(createdAt)[2];
      ToDateKey(createdAt) ==
        Success(DigitsValue(year) * Pow10(2 + |day|) + month * Pow10(|day|) + DigitsValue(day))
  {
    var fields := Split(createdAt);
    SplitWords(createdAt);
    assert IsWord(fields[5]);
    FieldsValue(fields, month);
  }

  lemma FieldsValue(fields: seq<string>, month: nat)
    requires |fields| >= 6 && |fields[5]| > 0
    requires 1 <= month <= 12 && fields[1] == MonthAbbr[month]
    requires AllDigits(fields[5]) && AllDigits(fields[2])
    ensures var year, day := fields[5], fields[2];
      FieldsToDateKey(fields) ==
        Success(DigitsValue(year) * Pow10(2 + |day|) + month * Pow10(|day|) + DigitsValue(day))
  {
    var year, day, code := fields[5], fields[2], MonthCode(month);
    MonthCodes(month);
    var literal := year + code + day;
    LiteralValue(year, code, day, month);
    ParseIntDigits(literal);
  }

  lemma LiteralValue(year: string, code: string, day: string, month: nat)
    requires AllDigits(year) && AllDigits(code) && AllDigits(day) && |year| > 0
    requires |code| == 2 && DigitsValue(code) == month
    ensures |year + code + day| > 0 && AllDigits(year + code + day)
    ensures DigitsValue(year + code + day)
      == DigitsValue(year) * Pow10(2 + |day|) + month * Pow10(|day|) + DigitsValue(day)
  {
    DigitsValueAppend(year, code);
    DigitsValueAppend(year + code, day);
    var y, p, d := DigitsValue(year), Pow10(|day|), DigitsValue(day);
    assert Pow10(|code|) == 100;
    assert DigitsValue(year + code) == y * 100 + month;
    assert DigitsValue(year + code + day) == (y * 100 + month) * p + d;
    assert Pow10(2 + |day|) == 100 * p by { assert Pow10(2 + |day|) == 10 * Pow10(1 + |day|); }
    Regroup(y, month, p, d);
  }

  lemma Regroup(y: int, m: int, p: int, d: int)
    ensures (y * 100 + m) * p + d == y * (100 * p) + m * p + d
  {
  }

  /** The day key of a calendar date: `YYYYMMDD` read as a number. */
  function CalendarKey(year: int, month: int, day: int): int
  {
    year * 10000 + month * 100 + day
  }

  /** With a four-digit year and a two-digit day the key is `year * 10000 + month * 100 + day`. */
  lemma ToDateKeyYearMonthDay(createdAt: string, month: nat)
    requires |Split(createdAt)| >= 6
    requires 1 <= month <= 12 && Split(createdAt)[1] == MonthAbbr[month]
    requires |Split(createdAt)[5]| == 4 && AllDigits(Split(createdAt)[5])
    requires |Split(createdAt)[2]| == 2 && AllDigits(Split(createdAt)[2])
    ensures ToDateKey(createdAt) ==
      Success(CalendarKey(DigitsValue(Split(createdAt)[5]), month, DigitsValue(Split(createdAt)[2])))
  {
    var fields := Split(createdAt);
    FieldsYearMonthDay(fields, month);
    assert ToDateKey(createdAt) == FieldsToDateKey(fields);
  }

  lemma FieldsYearMonthDay(fields: seq<string>, month: nat)
    requires |fields| >= 6
    requires 1 <= month <= 12 && fields[1] == MonthAbbr[month]
    requires |fields[5]| == 4 && AllDigits(fields[5]) && |fields[2]| == 2 && AllDigits(fields[2])
    ensures FieldsToDateKey(fields) ==
      Success(CalendarKey(DigitsValue(fields[5]), month, DigitsValue(fields[2])))
  {
    FieldsValue(fields, month);
    assert Pow10(2) == 100;
    assert Pow10(2 + |fields[2]|) == 10000;
  }

  /**
   * With two-digit days the numeric order of keys is the calendar order of
   * (year, month, day), which is what zero-padding the month buys.
   */
  lemma KeyOrderIsChronological(y1: nat, m1: nat, d1: nat, y2: nat, m2: nat, d2: nat)
    requires 1 <= m1 <= 12 && 1 <= m2 <= 12 && d1 < 100 && d2 < 100
    ensures CalendarKey(y1, m1, d1) < CalendarKey(y2, m2, d2) <==>
      y1 < y2 || (y1 == y2 && (m1 < m2 || (m1 == m2 && d1 < d2)))
  {
    if y1 < y2 {
      assert y1 * 10000 + 10000 <= y2 * 10000;
    } else if y2 < y1 {
      assert y2 * 10000 + 10000 <= y1 * 10000;
    }
  }

  /** The timestamp of the reader's own documentation. */
  lemma ToDateKeyExample(createdAt: string)
    requires createdAt == "Mon" + " " + "Sep" + " " + "29" + " " + "07:00:10" + " " + "+0000" + " " + "2014"
    ensures ToDateKey(createdAt) == Success(20140929)
  {
    SplitVisibleFields("Mon", "Sep", "29", "07:00:10", "+0000", "2014");
    ToDateKeyExampleKey(Split(createdAt));
  }

  lemma ToDateKeyExampleKey(fields: seq<string>)
    requires fields == ["Mon", "Sep", "29", "07:00:10", "+0000", "2014"]
    ensures FieldsToDateKey(fields) == Success(20140929)
  {
    var year, day := fields[5], fields[2];
    assert year == "2014" && day == "29" && fields[1] == MonthAbbr[9];
    AllDigitsAt(year);
    FourDigits(year);
    TwoDigits(day);
    FieldsYearMonthDay(fields, 9);
  }

  /** January is written `01`: months below October are zero-padded. */
  lemma ToDateKeyJanuary(createdAt: string)
    requires createdAt == "Tue" + " " + "Jan" + " " + "05" + " " + "10:00:00" + " " + "+0000" + " " + "2015"
    ensures ToDateKey(createdAt) == Success(20150105)
  {
    SplitVisibleFields("Tue", "Jan", "05", "10:00:00", "+0000", "2015");
    ToDateKeyJanuaryKey(Split(createdAt));
  }

  lemma ToDateKeyJanuaryKey(fields: seq<string>)
    requires fields == ["Tue", "Jan", "05", "10:00:00", "+0000", "2015"]
    ensures FieldsToDateKey(fields) == Success(20150105)
  {
    AllDigitsAt("2015");
    FourDigits("2015");
    TwoDigits("05");
    FieldsYearMonthDay(fields, 1);
  }

  /** December is written `12`, without padding. */
  lemma ToDateKeyDecember(createdAt: string)
    requires createdAt == "Wed" + " " + "Dec" + " " + "31" + " " + "23:59:59" + " " + "+0000" + " " + "2014"
    ensures ToDateKey(createdAt) == Success(20141231)
  {
    SplitVisibleFields("Wed", "Dec", "31", "23:59:59", "+0000", "2014");
    ToDateKeyDecemberKey(Split(createdAt));
  }

  lemma ToDateKeyDecemberKey(fields: seq<string>)
    requires fields == ["Wed", "Dec", "31", "23:59:59", "+0000", "2014"]
    ensures FieldsToDateKey(fields) == Success(20141231)
  {
    AllDigitsAt("2014");
    FourDigits("2014");
    TwoDigits("31");
    FieldsYearMonthDay(fields, 12);
  }

  /** A non-empty run of visible ASCII characters, which `split()` keeps whole. */
  predicate Visible(w: string)
  {
    |w| > 0 && forall i :: 0 <= i < |w| ==> '!' <= w[i] <= '~'
  }

  lemma VisibleWord(w: string)
    requires Visible(w)
    ensures IsWord(w)
  {
  }

  /** Six visible fields, one space apart, split into those six fields. */
  lemma SplitVisibleFields(a: string, b: string, c: string, d: string, e: string, f: string)
    requires Visible(a) && Visible(b) && Visible(c) && Visible(d) && Visible(e) && Visible(f)
    ensures Split(a + " " + b + " " + c + " " + d + " " + e + " " + f) == [a, b, c, d, e, f]
  {
    VisibleWord(a); VisibleWord(b); VisibleWord(c); VisibleWord(d); VisibleWord(e); VisibleWord(f);
    SplitTimestamp(a, b, c, d, e, f);
  }

  /** A timestamp of six fields, one space apart, splits into those six fields. */
  lemma SplitTimestamp(a: string, b: string, c: string, d: string, e: string, f: string)
    requires IsWord(a) && IsWord(b) && IsWord(c) && IsWord(d) && IsWord(e) && IsWord(f)
    ensures Split(a + " " + b + " " + c + " " + d + " " + e + " " + f) == [a, b, c, d, e, f]
  {
    var fields := [a, b, c, d, e, f];
    assert Join(fields[5..], " ") == f;
    assert Join(fields[4..], " ") == e + " " + f by { assert fields[4..][1..] == fields[5..]; }
    assert Join(fields[3..], " ") == d + " " + e + " " + f by { assert fields[3..][1..] == fields[4..]; }
    assert Join(fields[2..], " ") == c + " " + d + " " + e + " " + f by { assert fields[2..][1..] == fields[3..]; }
    assert Join(fields[1..], " ") == b + " " + c + " " + d + " " + e + " " + f by { assert fields[1..][1..] == fields[2..]; }
    assert Join(fields, " ") == a + " " + b + " " + c + " " + d + " " + e + " " + f;
    SplitJoin(fields);
  }

  /** The value of a two-digit string. */
  lemma TwoDigits(s: string)
    requires |s| == 2 && AllDigits(s)
    ensures DigitsValue(s) == 10 * DigitOf(s[0]) + DigitOf(s[1])
  {
    var s1 := s[..1];
    assert s1[..0] == [];
    assert DigitsValue(s) == DigitsValue(s1) * 10 + DigitOf(s[1]);
    assert DigitsValue(s1) == DigitOf(s[0]);
  }

  /** The value of a four-digit string. */
  lemma FourDigits(s: string)
    requires |s| == 4 && AllDigits(s)
    ensures DigitsValue(s) == 1000 * DigitOf(s[0]) + 100 * DigitOf(s[1]) + 10 * DigitOf(s[2]) + DigitOf(s[3])
  {
    var s3, s2 := s[..3], s[..2];
    assert s3[..2] == s2;
    assert DigitsValue(s) == DigitsValue(s3) * 10 + DigitOf(s[3]);
    assert DigitsValue(s3) == DigitsValue(s2) * 10 + DigitOf(s[2]);
    TwoDigits(s2);
  }
}
