/**
  The field kinds of a contact (name, address, phone, email, birthday) and
  their validating constructors.

  The format rules themselves are regular expressions and `str.title()` in
  the program; here they are the parameters bundled in `Formats`. Parsing a
  `YYYY-MM-DD` date and reading the current date are the parameters bundled in
  `Calendar`. Each constructor either yields the value to store or the
  exception the program raises instead, and never stores a rejected value.
 */
module Fields {

  datatype Option<+T> = None | Some(value: T)

  /** The Python exceptions that can escape an operation of the model. */
  datatype Exception = ValueError | AttributeError

  /** A value, or the exception raised instead of producing it. */
  datatype Result<+T> = Ok(value: T) | Raise(exc: Exception)

  /** A calendar date as `datetime.date` holds it. */
  datatype Date = Date(year: int, month: int, day: int)

  /** Chronological order on dates: `a` is the same day as `b` or earlier. */
  predicate NotAfter(a: Date, b: Date) {
    || a.year < b.year
    || (a.year == b.year && a.month < b.month)
    || (a.year == b.year && a.month == b.month && a.day <= b.day)
  }

  /** Two dates fall on the same day of the year, whatever their years. */
  predicate SameMonthDay(a: Date, b: Date) {
    a.month == b.month && a.day == b.day
  }

  /** The format rules: one acceptance test per field kind, and title casing. */
  datatype Formats = Formats(
    isName: string -> bool,
    titleCase: string -> string,
    isAddress: string -> bool,
    isPhone: string -> bool,
    isEmail: string -> bool)

  /** Date parsing (`None` when the text is not a `YYYY-MM-DD` date) and the current date. */
  datatype Calendar = Calendar(parse: string -> Option<Date>, today: Date)

  /** `Name(raw)`: stores the title-cased text, or raises ValueError. */
  function NewName(f: Formats, raw: string): (r: Result<string>)
    ensures r.Ok? <==> f.isName(raw)
    ensures r.Ok? ==> r.value == f.titleCase(raw)
    ensures r.Raise? ==> r.exc == ValueError
  {
    if f.isName(raw) then Ok(f.titleCase(raw)) else Raise(ValueError)
  }

  /** `Address(raw)`: stores the text verbatim, or raises ValueError. */
  function NewAddress(f: Formats, raw: string): (r: Result<string>)
    ensures r.Ok? <==> f.isAddress(raw)
    ensures r.Ok? ==> r.value == raw
    ensures r.Raise? ==> r.exc == ValueError
  {
    if f.isAddress(raw) then Ok(raw) else Raise(ValueError)
  }

  /** `Phone(raw)`: stores the text verbatim, or raises ValueError. */
  function NewPhone(f: Formats, raw: string): (r: Result<string>)
    ensures r.Ok? <==> f.isPhone(raw)
    ensures r.Ok? ==> r.value == raw
    ensures r.Raise? ==> r.exc == ValueError
  {
    if f.isPhone(raw) then Ok(raw) else Raise(ValueError)
  }

  /** `Email(raw)`: stores the text verbatim, or raises ValueError. */
  function NewEmail(f: Formats, raw: string): (r: Result<string>)
    ensures r.Ok? <==> f.isEmail(raw)
    ensures r.Ok? ==> r.value == raw
    ensures r.Raise? ==> r.exc == ValueError
  {
    if f.isEmail(raw) then Ok(raw) else Raise(ValueError)
  }

  /**
    `Birthday(raw)`: raises ValueError when the text does not parse. A parsed
    date that is not after today is stored; a date in the future gives a
    Birthday whose value stays `None`, without any error.
   */
  function NewBirthday(c: Calendar, raw: string): (r: Result<Option<Date>>)
    ensures r.Raise? <==> c.parse(raw).None?
    ensures r.Raise? ==> r.exc == ValueError
    ensures r.Ok? ==> (r.value.Some? <==> NotAfter(c.parse(raw).value, c.today))
    ensures r.Ok? && r.value.Some? ==> r.value.value == c.parse(raw).value
  {
    match c.parse(raw)
    case None => Raise(ValueError)
    case Some(d) => if NotAfter(d, c.today) then Ok(Some(d)) else Ok(None)
  }
}
