/** The timestamp normaliser of `DateUtils.parseDateJdk`: it rewrites an ISO 8601
    date-time into the `xsd:dateTime` lexical form (XML Schema Part 2, section
    3.2.7) before handing it to a strict parser.
    - a UTC offset `±hh` or `±hhmm` (ISO 8601:2004 section 4.2.5.1) becomes `±hh:mm`;
    - an ordinal date `YYYY-DDD` (section 4.1.3) becomes `YYYY-MM-DD` (section 4.1.2).
    All indices are the 0-based `int`s of the Java code, -1 meaning "not found". */
module DateUtils {
  import opened Wrappers
  import opened JavaString
  import opened Decimal
  import opened Gregorian

  /** The exceptions the routine lets escape. */
  datatype Error =
    | NumberFormat(text: string)                // Integer.parseInt rejected `text`
    | StringIndexOutOfBounds(begin: int, end: int) // String.substring(begin, end) with begin > end
    | IllegalArgument(text: string)             // the xsd:dateTime parser rejected `text`

  /** `value.indexOf("T")`: where the time part starts. */
  function TimeIndex(s: string): (r: int)
    ensures -1 <= r < |s| && (r >= 0 ==> s[r] == 'T')
    ensures forall i :: 0 <= i < |s| && (r < 0 || i < r) ==> s[i] != 'T'
  {
    IndexOfFirst(s, 'T', 0);
    IndexOf(s, 'T', 0)
  }

  /** `value.indexOf("-")`, over the whole string. */
  function DashIndex(s: string): (r: int)
    ensures -1 <= r < |s| && (r >= 0 ==> s[r] == '-')
    ensures forall i :: 0 <= i < |s| && (r < 0 || i < r) ==> s[i] != '-'
  {
    IndexOfFirst(s, '-', 0);
    IndexOf(s, '-', 0)
  }

  /** `value.indexOf("-", dashIndex + 1)`, over the whole string. */
  function SecondDashIndex(s: string): (r: int)
    ensures r == -1 || (DashIndex(s) < r < |s| && s[r] == '-')
    ensures forall i :: DashIndex(s) < i < |s| && (r < 0 || i < r) ==> s[i] != '-'
  {
    IndexOfFirst(s, '-', DashIndex(s) + 1);
    IndexOf(s, '-', DashIndex(s) + 1)
  }

  /** The guards under which the ordinal date is converted: a time separator
      after index 0, a first dash after index 0 and no second dash, all three
      looked up in the string as it was passed in. */
  predicate OrdinalShape(s: string) {
    TimeIndex(s) > 0 && DashIndex(s) > 0 && SecondDashIndex(s) == -1
  }

  /** The sign of the UTC offset: the first '+' at or after `t`, or, when there
      is none, the first '-' at or after `t`; -1 when there is neither. */
  function OffsetSign(s: string, t: int): (sign: int)
    requires 0 <= t
    ensures -1 <= sign < |s|
    ensures sign >= 0 ==> t <= sign && (s[sign] == '+' || s[sign] == '-')
    ensures sign < 0 <==> forall i :: t <= i < |s| ==> s[i] != '+' && s[i] != '-'
    ensures sign >= 0 && s[sign] == '+' ==> forall i :: t <= i < sign ==> s[i] != '+'
    ensures sign >= 0 && s[sign] == '-' ==>
      (forall i :: t <= i < |s| ==> s[i] != '+') && forall i :: t <= i < sign ==> s[i] != '-'
  {
    IndexOfFirst(s, '+', t);
    IndexOfFirst(s, '-', t);
    var plus := IndexOf(s, '+', t);
    if plus < 0 then IndexOf(s, '-', t) else plus
  }

  /** Offset normalisation, searching for the sign from the time separator `t`:
      `±hh` gets ":00" appended, `±hhmm` gets ':' inserted before the minutes,
      and `±hh:mm` stays as it is. */
  function NormalizeOffset(s: string, t: int): (r: string)
    requires 0 <= t
    ensures |s| <= |r| <= |s| + 3
    ensures OffsetSign(s, t) <= 0 ==> r == s
    ensures forall i :: 0 <= i < |s| && i < OffsetSign(s, t) + 3 ==> r[i] == s[i]
    ensures OffsetSign(s, t) > 0 && OffsetSign(s, t) + 3 <= |s| ==>
      OffsetSign(s, t) + 3 < |r| && r[OffsetSign(s, t) + 3] == ':'
  {
    var sign := OffsetSign(s, t);
    if sign > 0 then
      var colon := sign + 3;
      if colon >= |s| then s + ":00"
      else if s[colon] != ':' then s[..colon] + ":" + s[colon..]
      else s
    else s
  }

  /** `Integer.parseInt(value.substring(0, dashIndex))`, then
      `Integer.parseInt(value.substring(dashIndex + 1, timeZoneIndex))`,
      in that order: the first exception wins. */
  function OrdinalFields(v: string, dash: nat, t: nat): (r: Result<(int, int), Error>)
    requires dash < |v| && t <= |v|
    ensures r.Success? <==>
      ParseInt(v[..dash]).Some? && dash + 1 <= t && ParseInt(v[dash + 1..t]).Some?
    ensures r.Success? ==> r.value == (ParseInt(v[..dash]).value, ParseInt(v[dash + 1..t]).value)
    ensures ParseInt(v[..dash]).None? ==> r == Failure(NumberFormat(v[..dash]))
    ensures r.Failure? && ParseInt(v[..dash]).Some? && dash + 1 <= t ==>
      r == Failure(NumberFormat(v[dash + 1..t]))
    ensures r.Failure? && r.error.StringIndexOutOfBounds? ==> t < dash + 1
  {
    match ParseInt(v[..dash])
    case None => Failure(NumberFormat(v[..dash]))
    case Some(year) =>
      if dash + 1 > t then Failure(StringIndexOutOfBounds(dash + 1, t))
      else
        match ParseInt(v[dash + 1..t])
        case None => Failure(NumberFormat(v[dash + 1..t]))
        case Some(doy) => Success((year, doy))
  }

  /** Year and day-of-year pairs for which the Calendar lookup is plain
      Gregorian arithmetic (no cutover, no lenient roll-over). */
  predicate InCalendarModel(year: int, doy: int) {
    FirstModelYear <= year <= LastModelYear && 1 <= doy <= DaysInYear(year)
  }

  predicate OrdinalFieldsInModel(v: string, dash: nat, t: nat)
    requires dash < |v| && t <= |v|
  {
    OrdinalFields(v, dash, t).Success? ==>
      InCalendarModel(OrdinalFields(v, dash, t).value.0, OrdinalFields(v, dash, t).value.1)
  }

  /** `String.format("%1$tY-%1$tm-%1$td", cal)`: the year in at least four
      digits, month and day in two, each zero-padded. */
  function FormatDate(d: Date): (r: string)
    requires 0 <= d.year && 0 <= d.month && 0 <= d.day
    ensures |r| == |ZeroPad(d.year, 4)| + |ZeroPad(d.month, 2)| + |ZeroPad(d.day, 2)| + 2
    ensures r[|ZeroPad(d.year, 4)|] == '-' && r[|ZeroPad(d.year, 4)| + |ZeroPad(d.month, 2)| + 1] == '-'
  {
    ZeroPad(d.year, 4) + "-" + ZeroPad(d.month, 2) + "-" + ZeroPad(d.day, 2)
  }

  /** Ordinal-date conversion of the offset-normalised string `v`: the calendar
      date of day `doy` of `year`, followed by `v` from the time separator on. */
  function ConvertOrdinal(v: string, dash: nat, t: nat): (r: Result<string, Error>)
    requires dash < |v| && t <= |v|
    requires OrdinalFieldsInModel(v, dash, t)
    ensures r.Failure? <==> OrdinalFields(v, dash, t).Failure?
    ensures r.Success? ==> |v| - t <= |r.value| && r.value[|r.value| - (|v| - t)..] == v[t..]
  {
    match OrdinalFields(v, dash, t)
    case Failure(e) => Failure(e)
    case Success(fields) =>
      var date := OrdinalToDate(fields.0, fields.1);
      var r := FormatDate(date) + v[t..];
      assert r[|r| - (|v| - t)..] == v[t..];
      Success(r)
  }

  /** The inputs the model covers: when the ordinal branch is taken and both
      numbers parse, they name a real day of a year after the Gregorian cutover. */
  predicate ModelledInput(s: string) {
    OrdinalShape(s) ==>
      OrdinalFieldsInModel(NormalizeOffset(s, TimeIndex(s)), DashIndex(s), TimeIndex(s))
  }

  /** Lines 40-76 of `parseDateJdk`: the string handed to the xsd:dateTime parser,
      or the exception raised on the way. */
  function Normalize(s: string): (r: Result<string, Error>)
    requires ModelledInput(s)
    ensures TimeIndex(s) <= 0 ==> r == Success(s)
    ensures r.Failure? ==> OrdinalShape(s)
    ensures TimeIndex(s) > 0 && !OrdinalShape(s) ==> r == Success(NormalizeOffset(s, TimeIndex(s)))
  {
    var t := TimeIndex(s);
    if t > 0 then
      var v := NormalizeOffset(s, t);
      if DashIndex(s) > 0 && SecondDashIndex(s) == -1 then ConvertOrdinal(v, DashIndex(s), t)
      else Success(v)
    else Success(s)
  }

  /** `parseDateJdk`: normalise, then parse with `parseDateTime`, which stands for
      `DatatypeConverter.parseDateTime` (None when it rejects its argument). */
  function ParseDateJdk<C>(s: string, parseDateTime: string -> Option<C>): (r: Result<C, Error>)
    requires ModelledInput(s)
    ensures Normalize(s).Failure? ==> r == Failure(Normalize(s).error)
    ensures Normalize(s).Success? && parseDateTime(Normalize(s).value).Some? ==>
      r == Success(parseDateTime(Normalize(s).value).value)
    ensures Normalize(s).Success? && parseDateTime(Normalize(s).value).None? ==>
      r == Failure(IllegalArgument(Normalize(s).value))
  {
    var v :- Normalize(s);
    match parseDateTime(v)
    case Some(cal) => Success(cal)
    case None => Failure(IllegalArgument(v))
  }
}
