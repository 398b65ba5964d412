/** Worked inputs of the timestamp normaliser, each derived from the general
    lemmas of DateUtilsProperties. The small lemmas establish one fact each about
    a literal input, so that the solver evaluates one search at a time. */
module DateUtilsExamples {
  import opened Wrappers
  import opened JavaString
  import opened Decimal
  import opened Gregorian
  import opened DateUtils
  import opened DateUtilsProperties

  // ---------------------------------------------------------------------------
  // "2020-01-02T03:04:05+01"

  lemma BareHourTime()
    ensures TimeIndex("2020-01-02T03:04:05+01") == 10
  {
    assert IndexOf("2020-01-02T03:04:05+01", 'T', 5) == 10;
  }

  lemma BareHourDashes()
    ensures DashIndex("2020-01-02T03:04:05+01") == 4 && SecondDashIndex("2020-01-02T03:04:05+01") == 7
  {
    assert DashIndex("2020-01-02T03:04:05+01") == 4;
  }

  lemma BareHourSign()
    ensures OffsetSign("2020-01-02T03:04:05+01", 10) == 19
  {
    assert IndexOf("2020-01-02T03:04:05+01", '+', 15) == 19;
  }

  /** `+01` gets its minutes. */
  lemma BareHourExample()
    ensures ModelledInput("2020-01-02T03:04:05+01")
    ensures Normalize("2020-01-02T03:04:05+01") == Success("2020-01-02T03:04:05+01:00")
  {
    BareHourTime();
    BareHourDashes();
    BareHourSign();
    BareHourOffset("2020-01-02T03:04:05+01", 10);
    assert "2020-01-02T03:04:05+01" + ":00" == "2020-01-02T03:04:05+01:00";
  }

  // ---------------------------------------------------------------------------
  // "2020-01-02T03:04:05+0130"

  lemma HourMinuteTime()
    ensures TimeIndex("2020-01-02T03:04:05+0130") == 10
  {
    assert IndexOf("2020-01-02T03:04:05+0130", 'T', 5) == 10;
  }

  lemma HourMinuteDashes()
    ensures DashIndex("2020-01-02T03:04:05+0130") == 4 && SecondDashIndex("2020-01-02T03:04:05+0130") == 7
  {
    assert DashIndex("2020-01-02T03:04:05+0130") == 4;
  }

  lemma HourMinuteSign()
    ensures OffsetSign("2020-01-02T03:04:05+0130", 10) == 19
  {
    assert IndexOf("2020-01-02T03:04:05+0130", '+', 15) == 19;
  }

  /** `+0130` gets its colon. */
  lemma HourMinuteExample()
    ensures ModelledInput("2020-01-02T03:04:05+0130")
    ensures Normalize("2020-01-02T03:04:05+0130") == Success("2020-01-02T03:04:05+01:30")
  {
    var s, head, minutes := "2020-01-02T03:04:05+0130", "2020-01-02T03:04:05+01", "30";
    HourMinuteTime();
    HourMinuteDashes();
    HourMinuteSign();
    HourMinuteOffset(s, 10);
    assert s == head + minutes && |head| == 22;
    assert s[..22] == head && s[22..] == minutes;
    var r := NormalizeOffset(s, 10);
    assert r == r[..22] + [r[22]] + r[23..];
    assert head + ":" + minutes == "2020-01-02T03:04:05+01:30";
  }

  // ---------------------------------------------------------------------------
  // "not-a-date"

  /** Without a time separator nothing is rewritten; the strict parser sees the input. */
  lemma NoTimeExample()
    ensures ModelledInput("not-a-date")
    ensures Normalize("not-a-date") == Success("not-a-date")
  {
    assert IndexOf("not-a-date", 'T', 5) == -1;
    assert TimeIndex("not-a-date") == -1;
  }

  // ---------------------------------------------------------------------------
  // Ordinal dates

  lemma ParseDay34()
    ensures ParseInt("034") == Some(34)
  {
    assert "034"[..2] == "03" && "03"[..1] == "0" && "0"[..0] == "";
    ParseDigits("034");
  }

  /** The facts that put `YYYY-034T00:00:00Z` on the ordinal branch. */
  lemma OrdinalFacts(s: string, year: string)
    requires |year| == 4 && forall i :: 0 <= i < 4 ==> IsDigit(year[i])
    requires s == year + "-034T00:00:00Z"
    ensures TimeIndex(s) == 8 && OffsetSign(s, 8) == -1
    ensures DashIndex(s) == 4 && SecondDashIndex(s) == -1
    ensures s[..4] == year && s[5..8] == "034" && s[8..] == "T00:00:00Z"
  {
    IndexOfConcat(year, "-034T00:00:00Z", 'T', 0);
    IndexOfConcat(year, "-034T00:00:00Z", '-', 0);
    IndexOfConcat(year, "-034T00:00:00Z", '-', 5);
    IndexOfConcat(year, "-034T00:00:00Z", '+', 8);
    IndexOfConcat(year, "-034T00:00:00Z", '-', 8);
    assert IndexOf(year, 'T', 0) == -1 && IndexOf(year, '-', 0) == -1;
    assert IndexOf("-034T00:00:00Z", 'T', 0) == 4;
    assert IndexOf("-034T00:00:00Z", '-', 0) == 0;
    assert IndexOf("-034T00:00:00Z", '-', 1) == -1;
    assert IndexOf("-034T00:00:00Z", '+', 4) == -1;
  }

  lemma YearDigits()
    ensures NatToDigits(2020) == "2020"
  {
    assert NatToDigits(2) == "2";
    assert NatToDigits(20) == "20";
    assert NatToDigits(202) == "202";
  }

  /** `%tY-%tm-%td` of the 3rd of February 2020. */
  lemma FormatDateExample()
    ensures FormatDate(Date(2020, 2, 3)) == "2020-02-03"
  {
    YearDigits();
    assert ZeroPad(2, 2) == "02" && ZeroPad(3, 2) == "03";
  }

  /** Day 60 is the 29th of February in the leap year 2020 and the 1st of
      March in the common year 2021. */
  lemma Day60Example()
    ensures OrdinalToDate(2020, 60) == Date(2020, 2, 29)
    ensures OrdinalToDate(2021, 60) == Date(2021, 3, 1)
  {
    OrdinalRoundTrip(Date(2020, 2, 29));
    OrdinalRoundTrip(Date(2021, 3, 1));
  }

  /** `YYYY-034T00:00:00Z` becomes the 3rd of February of that year, leap or not. */
  lemma Day34Example(s: string, yearText: string, year: int)
    requires |yearText| == 4 && forall i :: 0 <= i < 4 ==> IsDigit(yearText[i])
    requires s == yearText + "-034T00:00:00Z"
    requires ParseInt(yearText) == Some(year) && FirstModelYear <= year <= LastModelYear
    ensures ModelledInput(s)
    ensures Normalize(s) == Success(FormatDate(Date(year, 2, 3)) + "T00:00:00Z")
  {
    OrdinalFacts(s, yearText);
    ParseDay34();
    OrdinalInModel(s, year, 34);
    OrdinalConversion(s, year, 34);
    OrdinalRoundTrip(Date(year, 2, 3));
  }

  // ---------------------------------------------------------------------------
  // "2020-034T00:00:00-05"

  lemma NegativeOffsetTime()
    ensures TimeIndex("2020-034T00:00:00-05") == 8
  {
    assert IndexOf("2020-034T00:00:00-05", 'T', 4) == 8;
  }

  lemma NegativeOffsetSign()
    ensures OffsetSign("2020-034T00:00:00-05", 8) == 17
  {
    assert IndexOf("2020-034T00:00:00-05", '+', 16) == -1;
    assert IndexOf("2020-034T00:00:00-05", '+', 12) == -1;
    assert IndexOf("2020-034T00:00:00-05", '+', 8) == -1;
    assert IndexOf("2020-034T00:00:00-05", '-', 13) == 17;
  }

  lemma NegativeOffsetDashes()
    ensures DashIndex("2020-034T00:00:00-05") == 4 && SecondDashIndex("2020-034T00:00:00-05") == 17
  {
    assert DashIndex("2020-034T00:00:00-05") == 4;
    assert IndexOf("2020-034T00:00:00-05", '-', 14) == 17;
    assert IndexOf("2020-034T00:00:00-05", '-', 10) == 17;
    assert IndexOf("2020-034T00:00:00-05", '-', 5) == 17;
  }

  /** A negative offset counts as a second dash: the ordinal date is left as it
      is and only the offset is completed. */
  lemma NegativeOffsetExample()
    ensures ModelledInput("2020-034T00:00:00-05")
    ensures Normalize("2020-034T00:00:00-05") == Success("2020-034T00:00:00-05:00")
  {
    NegativeOffsetTime();
    NegativeOffsetSign();
    NegativeOffsetDashes();
    BareHourOffset("2020-034T00:00:00-05", 8);
    assert "2020-034T00:00:00-05" + ":00" == "2020-034T00:00:00-05:00";
  }

  // ---------------------------------------------------------------------------
  // "2020T10:00-05"

  lemma DashAfterTimeIndices()
    ensures TimeIndex("2020T10:00-05") == 4
    ensures DashIndex("2020T10:00-05") == 10 && SecondDashIndex("2020T10:00-05") == -1
  {
    assert IndexOf("2020T10:00-05", '-', 5) == 10;
    assert DashIndex("2020T10:00-05") == 10;
  }

  lemma DashAfterTimeSign()
    ensures OffsetSign("2020T10:00-05", 4) == 10
  {
    assert IndexOf("2020T10:00-05", '+', 8) == -1;
    assert IndexOf("2020T10:00-05", '+', 4) == -1;
    assert IndexOf("2020T10:00-05", '-', 7) == 10;
  }

  /** When the only dash is the offset sign, the "year" runs through the 'T'
      and parseInt throws. */
  lemma DashAfterTimeExample()
    ensures ModelledInput("2020T10:00-05")
    ensures Normalize("2020T10:00-05") == Failure(NumberFormat("2020T10:00"))
  {
    var s := "2020T10:00-05";
    DashAfterTimeIndices();
    DashAfterTimeSign();
    BareHourOffset(s, 4);
    var v := s + ":00";
    assert v[..10] == "2020T10:00";
    ParseIntRejects(v[..10], 4);
    DashAfterTimeFails(s);
  }
}
