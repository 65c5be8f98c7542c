/**
 * Field types, the raw values a row arrives with, the typed values a
 * validated row holds, and the per-field cast between them
 * (the body of the loop in `validate_and_cast`).
 */
module Values {
  import opened Outcomes
  import opened Text

  /** The four types a variable can be given ('short text', 'long text', 'number', 'date'). */
  datatype FieldType = ShortText | LongText | Number | Date

  /** The string the source uses for each type, as shown in messages. */
  function TypeName(t: FieldType): string {
    match t
    case ShortText => "short text"
    case LongText => "long text"
    case Number => "number"
    case Date => "date"
  }

  /** A Python `datetime.date`. */
  datatype CalendarDate = CalendarDate(year: nat, month: nat, day: nat)

  predicate IsLeapYear(y: nat) {
    y % 4 == 0 && (y % 100 != 0 || y % 400 == 0)
  }

  function DaysInMonth(y: nat, m: nat): nat
    requires 1 <= m <= 12
  {
    if m == 2 then (if IsLeapYear(y) then 29 else 28)
    else if m == 4 || m == 6 || m == 9 || m == 11 then 30
    else 31
  }

  /** The dates `datetime.date` can represent (years 1 to 9999). */
  predicate ValidDate(d: CalendarDate) {
    1 <= d.year <= 9999 && 1 <= d.month <= 12 && 1 <= d.day <= DaysInMonth(d.year, d.month)
  }

  /** `str(d)` for a date: ISO 8601 `YYYY-MM-DD`. */
  function IsoDate(d: CalendarDate): string {
    PadNat(d.year, 4) + "-" + PadNat(d.month, 2) + "-" + PadNat(d.day, 2)
  }

  /**
   * A strict ISO 8601 `YYYY-MM-DD` reader: the one date format every date
   * parser the store may be given is expected to accept.
   */
  function ParseIsoDate(s: string): Option<CalendarDate> {
    if |s| == 10 && s[4] == '-' && s[7] == '-'
       && AllDigits(s[..4]) && AllDigits(s[5..7]) && AllDigits(s[8..])
    then
      var d := CalendarDate(ReadNat(s[..4]), ReadNat(s[5..7]), ReadNat(s[8..]));
      if ValidDate(d) then Some(d) else None
    else None
  }

  /** Every valid date is written as ten characters that read back as the same date. */
  lemma IsoDateRoundTrip(d: CalendarDate)
    requires ValidDate(d)
    ensures |IsoDate(d)| == 10
    ensures ParseIsoDate(IsoDate(d)) == Some(d)
  {
    ShowNatWidth(d.year, 4);
    ShowNatWidth(d.month, 2);
    ShowNatWidth(d.day, 2);
    var y, m, dd := PadNat(d.year, 4), PadNat(d.month, 2), PadNat(d.day, 2);
    var s := IsoDate(d);
    assert s[..4] == y && s[5..7] == m && s[8..] == dd;
    ReadPadNat(d.year, 4);
    ReadPadNat(d.month, 2);
    ReadPadNat(d.day, 2);
  }

  /** A value as a widget or a CSV cell delivers it: `None`, a string, or a date. */
  datatype Raw = RawNone | RawStr(s: string) | RawDate(d: CalendarDate)

  /** A value stored in a validated row: `None`, a string, a float, or a date. */
  datatype Value = Null | Text(s: string) | Num(x: real) | Day(d: CalendarDate)

  /**
   * The parsers the cast delegates to: `float(s)` for numbers and
   * `pd.to_datetime(s).date()` for dates, each `None` where it would raise.
   */
  datatype Parsers = Parsers(number: string -> Option<real>, date: string -> Option<CalendarDate>)

  /** A parser bundle that reads at least every ISO 8601 date back as itself. */
  ghost predicate ReadsIsoDates(p: Parsers) {
    forall d :: ValidDate(d) ==> p.date(IsoDate(d)) == Some(d)
  }

  /** `ParseIsoDate` is such a date parser. */
  lemma IsoParserReadsIsoDates(number: string -> Option<real>)
    ensures ReadsIsoDates(Parsers(number, ParseIsoDate))
  {
    forall d | ValidDate(d) ensures ParseIsoDate(IsoDate(d)) == Some(d) {
      IsoDateRoundTrip(d);
    }
  }

  /** A raw value the cast treats as missing: `None`, or a string that strips to `''`. */
  predicate Absent(v: Raw) {
    v.RawNone? || (v.RawStr? && Strip(v.s) == "")
  }

  /** `str(v)` for a present raw value. */
  function Show(v: Raw): string
    requires !v.RawNone?
  {
    match v
    case RawStr(s) => s
    case RawDate(d) => IsoDate(d)
  }

  /** Whether a stored value has the shape a field of type `t` holds. */
  predicate Fits(v: Value, t: FieldType) {
    match v
    case Null => true
    case Text(_) => t == ShortText || t == LongText
    case Num(_) => t == Number
    case Day(_) => t == Date
  }

  /**
   * Casting one raw value to a field type; `None` where the source's cast
   * raises (and `validate_and_cast` returns its error).
   */
  function Cast(t: FieldType, v: Raw, p: Parsers): (r: Option<Value>)
    ensures r.Some? ==> Fits(r.value, t)
    ensures Absent(v) ==> r == Some(Null)
    ensures r.None? ==> t == Number || t == Date
    ensures !Absent(v) && (t == ShortText || t == LongText) ==> r == Some(Text(Show(v)))
    ensures t == Date && v.RawDate? ==> r == Some(Day(v.d))
    ensures t == Number && v.RawDate? ==> r.None?
    ensures !Absent(v) && v.RawStr? && t == Number ==>
      r == (match p.number(v.s) case Some(x) => Some(Num(x)) case None => None)
    ensures !Absent(v) && v.RawStr? && t == Date ==>
      r == (match p.date(v.s) case Some(d) => Some(Day(d)) case None => None)
  {
    if Absent(v) then Some(Null)
    else match t
      case Number =>
        (match v
         case RawStr(s) => (match p.number(s) case Some(x) => Some(Num(x)) case None => None)
         case RawDate(_) => None)
      case Date =>
        (match v
         case RawDate(d) => Some(Day(d))
         case RawStr(s) => (match p.date(s) case Some(d) => Some(Day(d)) case None => None))
      case _ => Some(Text(Show(v)))
  }

  /** A missing value or a whitespace-only string casts to `None` for every type. */
  lemma BlankCastsToNull(t: FieldType, s: string, p: Parsers)
    requires AllSpace(s)
    ensures Cast(t, RawStr(s), p) == Some(Null)
    ensures Cast(t, RawNone, p) == Some(Null)
  {
    StripEmptyIff(s);
  }

  /**
   * A date written out as text (`str(d)`) by a text field casts back to the
   * same date in a date field, under any parser that reads ISO 8601 dates.
   */
  lemma TextDateCastsBack(d: CalendarDate, t: FieldType, p: Parsers)
    requires ValidDate(d) && ReadsIsoDates(p) && (t == ShortText || t == LongText)
    ensures Cast(t, RawDate(d), p) == Some(Text(IsoDate(d)))
    ensures Cast(Date, RawStr(IsoDate(d)), p) == Some(Day(d))
  {
    IsoDateNotBlank(d);
  }

  /** A written date is never blank: it starts with a digit. */
  lemma IsoDateNotBlank(d: CalendarDate)
    ensures Strip(IsoDate(d)) != ""
  {
    var y := PadNat(d.year, 4);
    assert IsoDate(d)[0] == y[0];
    assert IsDigit(y[0]);
    StripEmptyIff(IsoDate(d));
  }
}
