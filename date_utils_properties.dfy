/** What the timestamp normaliser of `DateUtils.parseDateJdk` guarantees. */
module DateUtilsProperties {
  import opened Wrappers
  import opened JavaString
  import opened Decimal
  import opened Gregorian
  import opened DateUtils

  /** The sign is followed by at least the two hour digits (or there is no sign). */
  predicate OffsetComplete(s: string, t: nat) {
    var sign := OffsetSign(s, t);
    sign < 0 || sign + 3 <= |s|
  }

  /** The offset already has the form `±hh:mm` (or there is none). */
  predicate OffsetConforms(s: string, t: nat) {
    var sign := OffsetSign(s, t);
    sign < 0 || (sign + 3 < |s| && s[sign + 3] == ':')
  }

  // ---------------------------------------------------------------------------
  // Offset normalisation, case by case

  /** `±hh` at the end: ":00" is appended, three characters longer. */
  lemma BareHourOffset(s: string, t: nat)
    requires 0 < t && OffsetSign(s, t) >= 0 && OffsetSign(s, t) + 3 >= |s|
    ensures NormalizeOffset(s, t) == s + ":00"
    ensures |NormalizeOffset(s, t)| == |s| + 3
  {
  }

  /** `±hhmm`: one ':' is inserted at sign+3; everything before it stays, the
      rest moves right by one. */
  lemma HourMinuteOffset(s: string, t: nat)
    requires 0 < t && OffsetSign(s, t) >= 0
    requires OffsetSign(s, t) + 3 < |s| && s[OffsetSign(s, t) + 3] != ':'
    ensures var k, r := OffsetSign(s, t) + 3, NormalizeOffset(s, t);
      |r| == |s| + 1 && r[..k] == s[..k] && r[k] == ':' && r[k + 1..] == s[k..]
  {
    var k, r := OffsetSign(s, t) + 3, NormalizeOffset(s, t);
    assert r == s[..k] + ":" + s[k..];
    assert r[k + 1..] == s[k..];
  }

  /** `±hh:mm`, or no sign at all: nothing changes. */
  lemma ConformingOffsetUnchanged(s: string, t: nat)
    requires 0 < t && OffsetConforms(s, t)
    ensures NormalizeOffset(s, t) == s
  {
  }

  /** The rewrite is a splice `s[..k] + ins + s[k..]` after the time separator,
      inserting only ':' and '0' characters. */
  lemma OffsetSplice(s: string, t: nat) returns (k: nat, ins: string)
    requires 0 < t < |s|
    ensures t < k <= |s|
    ensures OffsetSign(s, t) >= 0 ==> k <= OffsetSign(s, t) + 3
    ensures ins == "" || ins == ":" || ins == ":00"
    ensures NormalizeOffset(s, t) == s[..k] + ins + s[k..]
    ensures OffsetSign(s, t) >= 0 && OffsetSign(s, t) + 3 <= |s| ==> k == OffsetSign(s, t) + 3
  {
    var sign := OffsetSign(s, t);
    if sign < 0 {
      k, ins := |s|, "";
      assert s[..k] + ins + s[k..] == s;
    } else if sign + 3 >= |s| {
      k, ins := |s|, ":00";
      assert s[..k] + ins + s[k..] == s + ":00";
    } else if s[sign + 3] != ':' {
      k, ins := sign + 3, ":";
    } else {
      k, ins := sign + 3, "";
      assert s[..k] + ins + s[k..] == s;
    }
  }

  /** The rewrite neither adds nor moves the sign. */
  lemma OffsetKeepsSign(s: string, t: nat)
    requires 0 < t < |s|
    ensures OffsetSign(NormalizeOffset(s, t), t) == OffsetSign(s, t)
  {
    var k, ins := OffsetSplice(s, t);
    IndexOfInsert(s, k, ins, '+', t);
    IndexOfInsert(s, k, ins, '-', t);
  }

  /** Once the sign has its two hour digits, the rewrite leaves `±hh:mm`. */
  lemma NormalizedOffsetConforms(s: string, t: nat)
    requires 0 < t < |s| && OffsetComplete(s, t)
    ensures OffsetConforms(NormalizeOffset(s, t), t)
  {
    OffsetKeepsSign(s, t);
  }

  /** Offset normalisation is idempotent when the sign has its two hour digits. */
  lemma NormalizeOffsetIdempotent(s: string, t: nat)
    requires 0 < t < |s| && OffsetComplete(s, t)
    ensures NormalizeOffset(NormalizeOffset(s, t), t) == NormalizeOffset(s, t)
  {
    NormalizedOffsetConforms(s, t);
    ConformingOffsetUnchanged(NormalizeOffset(s, t), t);
  }

  /** Splicing in characters other than '-' keeps the dash pattern the ordinal
      guard looks at. */
  lemma SpliceKeepsDashes(s: string, k: nat, ins: string)
    requires 0 < k <= |s| && '-' !in ins
    ensures var v := s[..k] + ins + s[k..];
      (DashIndex(v) > 0 <==> DashIndex(s) > 0) && (SecondDashIndex(v) == -1 <==> SecondDashIndex(s) == -1)
  {
    IndexOfInsert(s, k, ins, '-', 0);
    var d := DashIndex(s);
    if d < k {
      IndexOfInsert(s, k, ins, '-', d + 1);
    } else {
      var v := s[..k] + ins + s[k..];
      assert DashIndex(v) == d + |ins|;
      IndexOfInsertAfter(s, k, ins, '-', d + 1);
      assert SecondDashIndex(v) == IndexOf(v, '-', (d + 1) + |ins|);
    }
  }

  /** Offset normalisation leaves the string up to and including the time
      separator alone, so the indices the routine took from the original string
      still find the time separator and the same dash pattern. */
  lemma OffsetKeepsDatePart(s: string)
    requires TimeIndex(s) > 0
    ensures var t, v := TimeIndex(s), NormalizeOffset(s, TimeIndex(s));
      v[..t + 1] == s[..t + 1] && TimeIndex(v) == t && (OrdinalShape(v) <==> OrdinalShape(s))
  {
    var t := TimeIndex(s);
    var k, ins := OffsetSplice(s, t);
    IndexOfInsert(s, k, ins, 'T', 0);
    SpliceKeepsDashes(s, k, ins);
  }

  // ---------------------------------------------------------------------------
  // Ordinal dates

  /** The ordinal guard holds exactly when the whole string has one dash, at an
      index above 0. */
  lemma OneDash(s: string)
    ensures DashIndex(s) > 0 && SecondDashIndex(s) == -1 <==>
      exists i :: 0 < i < |s| && s[i] == '-' && forall j :: 0 <= j < |s| && j != i ==> s[j] != '-'
  {
    var d := DashIndex(s);
    IndexOfFirst(s, '-', 0);
    IndexOfFirst(s, '-', d + 1);
    if d > 0 && SecondDashIndex(s) == -1 {
      assert forall j :: 0 <= j < |s| && j != d ==> s[j] != '-';
    }
  }

  /** A negative offset is a second dash: with a '-' offset sign after a
      one-dash date, no ordinal conversion takes place. */
  lemma NegativeOffsetBlocksOrdinal(s: string)
    requires TimeIndex(s) > 0 && 0 < DashIndex(s) < TimeIndex(s)
    requires OffsetSign(s, TimeIndex(s)) >= 0 && s[OffsetSign(s, TimeIndex(s))] == '-'
    ensures !OrdinalShape(s)
  {
    IndexOfFirst(s, '-', DashIndex(s) + 1);
  }

  /** `YYYY-DDD` followed by a time: the result is the calendar date of that day,
      then the offset-normalised string from the time separator on. */
  lemma OrdinalConversion(s: string, year: int, doy: int)
    requires ModelledInput(s) && OrdinalShape(s) && DashIndex(s) < TimeIndex(s)
    requires ParseInt(s[..DashIndex(s)]) == Some(year)
    requires ParseInt(s[DashIndex(s) + 1..TimeIndex(s)]) == Some(doy)
    ensures InCalendarModel(year, doy)
    ensures var date := OrdinalToDate(year, doy);
      date.year == year && ValidDate(date) && DayOfYear(date) == doy &&
      Normalize(s) == Success(FormatDate(date) + NormalizeOffset(s, TimeIndex(s))[TimeIndex(s)..])
  {
    var t, d := TimeIndex(s), DashIndex(s);
    var v := NormalizeOffset(s, t);
    OffsetKeepsDatePart(s);
    assert v[..d] == s[..d];
    assert v[d + 1..t] == s[d + 1..t];
  }

  /** An ordinal date whose fields name a day of a modelled year is a modelled input. */
  lemma OrdinalInModel(s: string, year: int, doy: int)
    requires OrdinalShape(s) && DashIndex(s) < TimeIndex(s)
    requires ParseInt(s[..DashIndex(s)]) == Some(year)
    requires ParseInt(s[DashIndex(s) + 1..TimeIndex(s)]) == Some(doy)
    requires InCalendarModel(year, doy)
    ensures ModelledInput(s)
  {
    var t, d := TimeIndex(s), DashIndex(s);
    var v := NormalizeOffset(s, t);
    OffsetKeepsDatePart(s);
    assert v[..d] == s[..d];
    assert v[d + 1..t] == s[d + 1..t];
  }

  /** A date part that is not a number makes the routine fail with
      NumberFormatException rather than return a string. */
  lemma OrdinalBadNumber(s: string)
    requires ModelledInput(s) && OrdinalShape(s) && DashIndex(s) < TimeIndex(s)
    requires ParseInt(s[..DashIndex(s)]) == None || ParseInt(s[DashIndex(s) + 1..TimeIndex(s)]) == None
    ensures Normalize(s).Failure? && Normalize(s).error.NumberFormat?
  {
    var t, d := TimeIndex(s), DashIndex(s);
    var v := NormalizeOffset(s, t);
    OffsetKeepsDatePart(s);
    assert v[..d] == s[..d];
    assert v[d + 1..t] == s[d + 1..t];
  }

  /** When the only dash lies after the time separator, the "year" contains the
      'T' and the routine fails with NumberFormatException. */
  lemma DashAfterTimeFails(s: string)
    requires ModelledInput(s) && OrdinalShape(s) && TimeIndex(s) < DashIndex(s)
    ensures Normalize(s) == Failure(NumberFormat(NormalizeOffset(s, TimeIndex(s))[..DashIndex(s)]))
  {
    var t, d := TimeIndex(s), DashIndex(s);
    var v := NormalizeOffset(s, t);
    OffsetKeepsDatePart(s);
    assert v[..d][t] == 'T';
    ParseIntRejects(v[..d], t);
  }

  /** The only exception the normaliser raises is NumberFormatException, and
      only on the ordinal branch; the out-of-bounds substring never happens. */
  lemma NormalizeFailsOnlyOnNumbers(s: string)
    requires ModelledInput(s) && Normalize(s).Failure?
    ensures OrdinalShape(s) && Normalize(s).error.NumberFormat?
  {
    if DashIndex(s) > TimeIndex(s) {
      DashAfterTimeFails(s);
    } else {
      var t, d := TimeIndex(s), DashIndex(s);
      var v := NormalizeOffset(s, t);
      OffsetKeepsDatePart(s);
      assert v[..d] == s[..d];
      assert v[d + 1..t] == s[d + 1..t];
    }
  }

  // ---------------------------------------------------------------------------
  // The formatted date

  lemma TwoDigits(n: nat)
    requires 1 <= n < 100
    ensures |ZeroPad(n, 2)| == 2
  {
    if n >= 10 {
      assert NatToDigits(n) == NatToDigits(n / 10) + [DigitChar(n % 10)];
    }
  }

  /** The rendered date reads back as its three fields. */
  lemma FormatDateFields(date: Date)
    requires ValidDate(date) && FirstModelYear <= date.year <= LastModelYear
    ensures var r, k := FormatDate(date), |ZeroPad(date.year, 4)|;
      |r| == k + 6 &&
      ParseInt(r[..k]) == Some(date.year) &&
      ParseInt(r[k + 1..k + 3]) == Some(date.month) &&
      ParseInt(r[k + 4..]) == Some(date.day)
  {
    var y, m, dd := ZeroPad(date.year, 4), ZeroPad(date.month, 2), ZeroPad(date.day, 2);
    var r, k := FormatDate(date), |y|;
    TwoDigits(date.month);
    TwoDigits(date.day);
    assert r[..k] == y && r[k + 1..k + 3] == m && r[k + 4..] == dd;
    ParseZeroPad(date.year, 4);
    ParseZeroPad(date.month, 2);
    ParseZeroPad(date.day, 2);
  }

  /** The rendered date has no 'T', and its two dashes are its first two, the
      first one after at least four year digits. */
  lemma FormatDateSearches(date: Date)
    requires ValidDate(date) && FirstModelYear <= date.year <= LastModelYear
    ensures var r, k := FormatDate(date), |ZeroPad(date.year, 4)|;
      4 <= k && IndexOf(r, 'T', 0) == -1 && IndexOf(r, '-', 0) == k && IndexOf(r, '-', k + 1) == k + 3
  {
    var y := ZeroPad(date.year, 4);
    var r, k := FormatDate(date), |y|;
    TwoDigits(date.month);
    TwoDigits(date.day);
    assert forall i :: 0 <= i < |r| && i != k && i != k + 3 ==> IsDigit(r[i]);
    IndexOfUnique(r, 'T', 0, -1);
    IndexOfUnique(r, '-', 0, k);
    IndexOfUnique(r, '-', k + 1, k + 3);
  }

  // ---------------------------------------------------------------------------
  // Idempotence and fixed points

  /** A time with a conforming offset and a date that is not one-dash ordinal is
      passed through unchanged, like any string without a time separator. */
  lemma ConformingUnchanged(s: string)
    requires TimeIndex(s) > 0 ==> !OrdinalShape(s) && OffsetConforms(s, TimeIndex(s))
    ensures ModelledInput(s) && Normalize(s) == Success(s)
  {
    if TimeIndex(s) > 0 {
      ConformingOffsetUnchanged(s, TimeIndex(s));
    }
  }

  /** Searching `p + v[t..]` from `|p|` finds what searching `v` from `t` finds,
      moved from `t` to `|p|`. */
  lemma SearchAfterPrefix(p: string, v: string, t: nat, c: char)
    requires t <= |v|
    ensures var r := IndexOf(v, c, t);
      IndexOf(p + v[t..], c, |p|) == if r < 0 then -1 else |p| + r - t
  {
    assert v == v[..t] + v[t..];
    IndexOfConcat(v[..t], v[t..], c, t);
    IndexOfConcat(p, v[t..], c, |p|);
  }

  /** Replacing the date part keeps a conforming offset conforming. */
  lemma OffsetConformsAfterPrefix(p: string, v: string, t: nat)
    requires t <= |v| && OffsetConforms(v, t)
    ensures OffsetConforms(p + v[t..], |p|)
  {
    SearchAfterPrefix(p, v, t, '+');
    SearchAfterPrefix(p, v, t, '-');
    var sv := OffsetSign(v, t);
    if sv >= 0 {
      assert (p + v[t..])[|p| + sv - t + 3] == v[sv + 3];
    }
  }

  /** A formatted date followed by a time is not in ordinal shape. */
  lemma FormattedDateNotOrdinal(date: Date, q: string)
    requires ValidDate(date) && FirstModelYear <= date.year <= LastModelYear
    requires |q| > 0 && q[0] == 'T'
    ensures TimeIndex(FormatDate(date) + q) == |FormatDate(date)| > 0
    ensures !OrdinalShape(FormatDate(date) + q)
  {
    var dd := FormatDate(date);
    FormatDateSearches(date);
    IndexOfConcat(dd, q, 'T', 0);
    IndexOfConcat(dd, q, '-', 0);
    IndexOfConcat(dd, q, '-', |ZeroPad(date.year, 4)| + 1);
  }

  /** The output of the ordinal branch is a calendar date followed by a
      conforming offset, which the normaliser leaves alone. */
  lemma OrdinalOutputFixed(date: Date, v: string, t: nat)
    requires ValidDate(date) && FirstModelYear <= date.year <= LastModelYear
    requires t < |v| && v[t] == 'T' && OffsetConforms(v, t)
    ensures var w := FormatDate(date) + v[t..];
      ModelledInput(w) && Normalize(w) == Success(w)
  {
    var dd := FormatDate(date);
    FormattedDateNotOrdinal(date, v[t..]);
    OffsetConformsAfterPrefix(dd, v, t);
    ConformingUnchanged(dd + v[t..]);
  }

  /** Normalising a normalised string changes nothing, provided any offset sign
      is followed by its two hour digits. */
  lemma NormalizeIdempotent(s: string)
    requires ModelledInput(s) && Normalize(s).Success?
    requires TimeIndex(s) > 0 ==> OffsetComplete(s, TimeIndex(s))
    ensures ModelledInput(Normalize(s).value)
    ensures Normalize(Normalize(s).value) == Normalize(s)
  {
    var t := TimeIndex(s);
    if t > 0 {
      var v := NormalizeOffset(s, t);
      OffsetKeepsDatePart(s);
      NormalizedOffsetConforms(s, t);
      if OrdinalShape(s) {
        var d := DashIndex(s);
        if d > t {
          DashAfterTimeFails(s);
        } else {
          var fields := OrdinalFields(v, d, t).value;
          OrdinalOutputFixed(OrdinalToDate(fields.0, fields.1), v, t);
        }
      } else {
        ConformingUnchanged(v);
      }
    }
  }

  /** A string the normaliser leaves alone reaches the parser as it is. */
  lemma ParseConforming<C>(s: string, parseDateTime: string -> Option<C>)
    requires TimeIndex(s) > 0 ==> !OrdinalShape(s) && OffsetConforms(s, TimeIndex(s))
    ensures ModelledInput(s)
    ensures parseDateTime(s).Some? ==> ParseDateJdk(s, parseDateTime) == Success(parseDateTime(s).value)
    ensures parseDateTime(s).None? ==> ParseDateJdk(s, parseDateTime) == Failure(IllegalArgument(s))
  {
    ConformingUnchanged(s);
  }
}
