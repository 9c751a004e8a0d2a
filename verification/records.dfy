/**
  One contact (`Record` in AddressBook.py) and its mutators.

  Every mutator of the program returns True, returns False, returns nothing,
  or lets an exception escape; `Reply` names these outcomes, and `Reason`
  classifies the check behind a False (it is not the printed message, and
  some False answers print none). A mutator here is a
  pure function from the old record to a `Step`: the reply together with the
  record as it stands afterwards.
 */
module Records {
  import opened Fields
  import opened Sequences

  /** `Record.birthday`: never set, a `Birthday` object (whose value is
      `None` for a future date), or the string "None" left by `remove_birthday`. */
  datatype BirthdaySlot = NoBirthday | Birthday(date: Option<Date>) | BirthdayRemoved

  /** `Record.address`: never set, an `Address` object, or the string "None"
      left by `remove_address`. */
  datatype AddressSlot = NoAddress | Address(text: string) | AddressRemoved

  /** Phones and emails are kept as the stored strings, in insertion order. */
  datatype Record = Record(
    name: Option<string>,
    phones: seq<string>,
    birthday: BirthdaySlot,
    emails: seq<string>,
    address: AddressSlot)

  /** A freshly constructed `Record()`. */
  const Blank: Record := Record(None, [], NoBirthday, [], NoAddress)

  /** Which check made a mutator return False. */
  datatype Reason = EmptyInput | InvalidFormat | AlreadyExists | NotFound

  /** True, False with a reason, an escaping exception, or Python's implicit `None`. */
  datatype Reply = Done | Refused(reason: Reason) | Raised(exc: Exception) | NoAnswer

  datatype Step = Step(reply: Reply, rec: Record)

  /** The outcome of an edit of a phone or email list. */
  datatype Values = Values(reply: Reply, items: seq<string>)

  // The phone and email methods share one shape; `make` is the field constructor.

  function AddValue(make: string -> Result<string>, xs: seq<string>, raw: string): Values
  {
    match make(raw)
    case Raise(_) => Values(Refused(InvalidFormat), xs)
    case Ok(v) => if v in xs then Values(Refused(AlreadyExists), xs) else Values(Done, xs + [v])
  }

  function ChangeValue(make: string -> Result<string>, xs: seq<string>, oldValue: string, newValue: string): Values
  {
    if oldValue !in xs then Values(Refused(NotFound), xs)
    else if newValue in xs then Values(Refused(AlreadyExists), xs)
    else match make(newValue)
      case Raise(_) => Values(Refused(InvalidFormat), xs)
      case Ok(v) => Values(Done, xs[FirstIndex(xs, oldValue) := v])
  }

  function RemoveValue(xs: seq<string>, v: string): Values
  {
    if v in xs then Values(Done, RemoveFirst(xs, v)) else Values(Refused(NotFound), xs)
  }

  /**
    The scan `change_phone` and `change_email` perform: walk the list for the
    first value equal to `oldValue`; at that index walk the whole list again for a
    value equal to `newValue`; only then build the new field. It gives the same
    outcome as `ChangeValue`.
   */
  method ChangeValueScan(make: string -> Result<string>, xs: seq<string>, oldValue: string, newValue: string)
    returns (reply: Reply, ys: seq<string>)
    ensures Values(reply, ys) == ChangeValue(make, xs, oldValue, newValue)
  {
    var index := 0;
    while index < |xs|
      invariant index <= |xs|
      invariant forall j :: 0 <= j < index ==> xs[j] != oldValue
    {
      if oldValue == xs[index] {
        var k := 0;
        while k < |xs|
          invariant k <= |xs|
          invariant forall j :: 0 <= j < k ==> xs[j] != newValue
        {
          if newValue == xs[k] {
            return Refused(AlreadyExists), xs;
          }
          k := k + 1;
        }
        assert FirstIndex(xs, oldValue) == index;
        match make(newValue) {
          case Raise(_) => return Refused(InvalidFormat), xs;
          case Ok(v) => return Done, xs[index := v];
        }
      }
      index := index + 1;
    }
    return Refused(NotFound), xs;
  }

  /** `add_name`: empty text is refused; other text the name rule rejects
      raises ValueError; otherwise the title-cased text becomes the name,
      whether or not one was set. */
  function AddName(f: Formats, rec: Record, raw: string): (r: Step)
    ensures raw == "" ==> r == Step(Refused(EmptyInput), rec)
    ensures raw != "" && !f.isName(raw) ==> r == Step(Raised(ValueError), rec)
    ensures r.reply == Done <==> raw != "" && f.isName(raw)
    ensures r.reply == Done ==> r.rec == rec.(name := Some(f.titleCase(raw)))
  {
    if raw == "" then Step(Refused(EmptyInput), rec)
    else match NewName(f, raw)
      case Raise(e) => Step(Raised(e), rec)
      case Ok(n) => Step(Done, rec.(name := Some(n)))
  }

  /** `change_name` is a copy of `add_name`: it has no guard on an existing name. */
  function ChangeName(f: Formats, rec: Record, raw: string): (r: Step)
    ensures r == AddName(f, rec, raw)
    ensures rec.name.Some? && raw != "" && f.isName(raw) ==> r.rec.name == Some(f.titleCase(raw))
  {
    if raw == "" then Step(Refused(EmptyInput), rec)
    else match NewName(f, raw)
      case Raise(e) => Step(Raised(e), rec)
      case Ok(n) => Step(Done, rec.(name := Some(n)))
  }

  /** `add_address`: empty or malformed text is refused; otherwise the text
      becomes the address, whatever the slot held (also after a removal). */
  function AddAddress(f: Formats, rec: Record, raw: string): (r: Step)
    ensures raw == "" ==> r == Step(Refused(EmptyInput), rec)
    ensures raw != "" && !f.isAddress(raw) ==> r == Step(Refused(InvalidFormat), rec)
    ensures r.reply == Done <==> raw != "" && f.isAddress(raw)
    ensures r.reply == Done ==> r.rec == rec.(address := Address(raw))
  {
    if raw == "" then Step(Refused(EmptyInput), rec)
    else match NewAddress(f, raw)
      case Raise(_) => Step(Refused(InvalidFormat), rec)
      case Ok(a) => Step(Done, rec.(address := Address(a)))
  }

  /** `change_address` is a copy of `add_address`. */
  function ChangeAddress(f: Formats, rec: Record, raw: string): (r: Step)
    ensures r == AddAddress(f, rec, raw)
    ensures rec.address.Address? && raw != "" && f.isAddress(raw) ==> r.rec.address == Address(raw)
  {
    if raw == "" then Step(Refused(EmptyInput), rec)
    else match NewAddress(f, raw)
      case Raise(_) => Step(Refused(InvalidFormat), rec)
      case Ok(a) => Step(Done, rec.(address := Address(a)))
  }

  /** `remove_address`: a set address is replaced by the "None" sentinel; with
      no address it returns False; on the sentinel, reading `.value` of a
      string raises AttributeError before anything changes. */
  function RemoveAddress(rec: Record): (r: Step)
    ensures r.reply == Done <==> rec.address.Address?
    ensures r.reply == Done ==> r.rec == rec.(address := AddressRemoved)
    ensures rec.address.NoAddress? ==> r == Step(Refused(NotFound), rec)
    ensures rec.address.AddressRemoved? ==> r == Step(Raised(AttributeError), rec)
  {
    match rec.address
    case NoAddress => Step(Refused(NotFound), rec)
    case Address(_) => Step(Done, rec.(address := AddressRemoved))
    case AddressRemoved => Step(Raised(AttributeError), rec)
  }

  /** `add_phone`: a malformed phone or one whose value is already stored is
      refused and nothing changes; otherwise it is appended. */
  function AddPhone(f: Formats, rec: Record, raw: string): (r: Step)
    ensures r.reply == Done <==> f.isPhone(raw) && raw !in rec.phones
    ensures r.reply == Done ==> r.rec == rec.(phones := rec.phones + [raw])
    ensures r.reply != Done ==> r.rec == rec
    ensures !f.isPhone(raw) ==> r.reply == Refused(InvalidFormat)
    ensures f.isPhone(raw) && raw in rec.phones ==> r.reply == Refused(AlreadyExists)
  {
    var s := AddValue(p => NewPhone(f, p), rec.phones, raw);
    Step(s.reply, rec.(phones := s.items))
  }

  /** `change_phone`: refused when `oldValue` is not stored (before looking at
      `newValue`), when `newValue` is already stored (also when the two are equal), or when
      `newValue` is malformed; otherwise `newValue` replaces the first `oldValue`. */
  function ChangePhone(f: Formats, rec: Record, oldValue: string, newValue: string): (r: Step)
    ensures oldValue !in rec.phones ==> r == Step(Refused(NotFound), rec)
    ensures oldValue in rec.phones && newValue in rec.phones ==> r == Step(Refused(AlreadyExists), rec)
    ensures oldValue in rec.phones && newValue !in rec.phones && !f.isPhone(newValue) ==> r == Step(Refused(InvalidFormat), rec)
    ensures r.reply == Done <==> oldValue in rec.phones && newValue !in rec.phones && f.isPhone(newValue)
    ensures r.reply == Done ==>
      r.rec == rec.(phones := rec.phones[FirstIndex(rec.phones, oldValue) := newValue])
  {
    var s := ChangeValue(p => NewPhone(f, p), rec.phones, oldValue, newValue);
    Step(s.reply, rec.(phones := s.items))
  }

  /** `remove_phone`: deletes the first stored phone equal to `raw`, keeping
      the others in order; refused when there is none. */
  function RemovePhone(rec: Record, raw: string): (r: Step)
    ensures r.reply == Done <==> raw in rec.phones
    ensures r.reply == Done ==>
      r.rec == rec.(phones := rec.phones[..FirstIndex(rec.phones, raw)] + rec.phones[FirstIndex(rec.phones, raw) + 1..])
    ensures raw !in rec.phones ==> r == Step(Refused(NotFound), rec)
  {
    var s := RemoveValue(rec.phones, raw);
    Step(s.reply, rec.(phones := s.items))
  }

  /** `add_email`: as `add_phone`, except that the empty string raises
      AttributeError (the unconverted string's `.value` is read). */
  function AddEmail(f: Formats, rec: Record, raw: string): (r: Step)
    ensures raw == "" ==> r == Step(Raised(AttributeError), rec)
    ensures r.reply == Done <==> raw != "" && f.isEmail(raw) && raw !in rec.emails
    ensures r.reply == Done ==> r.rec == rec.(emails := rec.emails + [raw])
    ensures r.reply != Done ==> r.rec == rec
    ensures raw != "" && !f.isEmail(raw) ==> r.reply == Refused(InvalidFormat)
    ensures raw != "" && f.isEmail(raw) && raw in rec.emails ==> r.reply == Refused(AlreadyExists)
  {
    if raw == "" then Step(Raised(AttributeError), rec)
    else
      var s := AddValue(e => NewEmail(f, e), rec.emails, raw);
      Step(s.reply, rec.(emails := s.items))
  }

  /** `change_email`: the shape of `change_phone` with the email rule. */
  function ChangeEmail(f: Formats, rec: Record, oldValue: string, newValue: string): (r: Step)
    ensures oldValue !in rec.emails ==> r == Step(Refused(NotFound), rec)
    ensures oldValue in rec.emails && newValue in rec.emails ==> r == Step(Refused(AlreadyExists), rec)
    ensures oldValue in rec.emails && newValue !in rec.emails && !f.isEmail(newValue) ==> r == Step(Refused(InvalidFormat), rec)
    ensures r.reply == Done <==> oldValue in rec.emails && newValue !in rec.emails && f.isEmail(newValue)
    ensures r.reply == Done ==>
      r.rec == rec.(emails := rec.emails[FirstIndex(rec.emails, oldValue) := newValue])
  {
    var s := ChangeValue(e => NewEmail(f, e), rec.emails, oldValue, newValue);
    Step(s.reply, rec.(emails := s.items))
  }

  /** `remove_email`: the shape of `remove_phone`. */
  function RemoveEmail(rec: Record, raw: string): (r: Step)
    ensures r.reply == Done <==> raw in rec.emails
    ensures r.reply == Done ==>
      r.rec == rec.(emails := rec.emails[..FirstIndex(rec.emails, raw)] + rec.emails[FirstIndex(rec.emails, raw) + 1..])
    ensures raw !in rec.emails ==> r == Step(Refused(NotFound), rec)
  {
    var s := RemoveValue(rec.emails, raw);
    Step(s.reply, rec.(emails := s.items))
  }

  /** `add_birthday`: refused, whatever the text, unless no birthday was ever
      set (the "None" sentinel of a removal counts as set); text that does
      not parse is refused; a parsed date is accepted, and kept only when it
      is not after today. */
  function AddBirthday(c: Calendar, rec: Record, raw: string): (r: Step)
    ensures !rec.birthday.NoBirthday? ==> r == Step(Refused(AlreadyExists), rec)
    ensures rec.birthday.NoBirthday? && c.parse(raw).None? ==> r == Step(Refused(InvalidFormat), rec)
    ensures r.reply == Done <==> rec.birthday.NoBirthday? && c.parse(raw).Some?
    ensures r.reply == Done ==>
      && r.rec == rec.(birthday := r.rec.birthday)
      && r.rec.birthday.Birthday?
      && (r.rec.birthday.date.Some? <==> NotAfter(c.parse(raw).value, c.today))
      && (r.rec.birthday.date.Some? ==> r.rec.birthday.date.value == c.parse(raw).value)
  {
    if !rec.birthday.NoBirthday? then Step(Refused(AlreadyExists), rec)
    else match NewBirthday(c, raw)
      case Raise(_) => Step(Refused(InvalidFormat), rec)
      case Ok(d) => Step(Done, rec.(birthday := Birthday(d)))
  }

  /** `change_birthday`: with no birthday ever set it falls off the end and
      answers `None`; otherwise (also on the removal sentinel) unparsable text
      is refused, and a parsed date is stored as `add_birthday` would store it
      in an empty slot. */
  function ChangeBirthday(c: Calendar, rec: Record, raw: string): (r: Step)
    ensures rec.birthday.NoBirthday? ==> r == Step(NoAnswer, rec)
    ensures !rec.birthday.NoBirthday? && c.parse(raw).None? ==> r == Step(Refused(InvalidFormat), rec)
    ensures r.reply == Done <==> !rec.birthday.NoBirthday? && c.parse(raw).Some?
    ensures r.reply == Done ==> r == AddBirthday(c, rec.(birthday := NoBirthday), raw)
  {
    if rec.birthday.NoBirthday? then Step(NoAnswer, rec)
    else match NewBirthday(c, raw)
      case Raise(_) => Step(Refused(InvalidFormat), rec)
      case Ok(d) => Step(Done, rec.(birthday := Birthday(d)))
  }

  /** `remove_birthday`: a birthday object (with or without a date) is
      replaced by the "None" sentinel; with none it returns False; on the
      sentinel, reading `.value` raises AttributeError before anything changes. */
  function RemoveBirthday(rec: Record): (r: Step)
    ensures r.reply == Done <==> rec.birthday.Birthday?
    ensures r.reply == Done ==> r.rec == rec.(birthday := BirthdayRemoved)
    ensures rec.birthday.NoBirthday? ==> r == Step(Refused(NotFound), rec)
    ensures rec.birthday.BirthdayRemoved? ==> r == Step(Raised(AttributeError), rec)
  {
    match rec.birthday
    case NoBirthday => Step(Refused(NotFound), rec)
    case Birthday(_) => Step(Done, rec.(birthday := BirthdayRemoved))
    case BirthdayRemoved => Step(Raised(AttributeError), rec)
  }

  /** A birthday can be added once: after a successful `add_birthday` every
      further one is refused, whatever its text. */
  lemma AddBirthdayOnce(c: Calendar, rec: Record, first: string, second: string)
    requires AddBirthday(c, rec, first).reply == Done
    ensures AddBirthday(c, AddBirthday(c, rec, first).rec, second).reply == Refused(AlreadyExists)
  {
  }

  /** After `remove_birthday` the slot holds the sentinel, so `add_birthday`
      is refused for every text, a second removal raises, and only
      `change_birthday` can set a date again. */
  lemma RemovedBirthdayBlocksAdd(c: Calendar, rec: Record, raw: string)
    requires RemoveBirthday(rec).reply == Done
    ensures AddBirthday(c, RemoveBirthday(rec).rec, raw).reply == Refused(AlreadyExists)
    ensures RemoveBirthday(RemoveBirthday(rec).rec).reply == Raised(AttributeError)
    ensures c.parse(raw).Some? ==> ChangeBirthday(c, RemoveBirthday(rec).rec, raw).reply == Done
  {
  }

  /** A future date is accepted by `add_birthday` but stores no date, and
      still blocks later additions. */
  lemma FutureBirthdayAccepted(c: Calendar, rec: Record, raw: string, later: string)
    requires rec.birthday.NoBirthday? && c.parse(raw).Some?
    requires !NotAfter(c.parse(raw).value, c.today)
    ensures AddBirthday(c, rec, raw) == Step(Done, rec.(birthday := Birthday(None)))
    ensures AddBirthday(c, AddBirthday(c, rec, raw).rec, later).reply == Refused(AlreadyExists)
  {
  }

  /** After `remove_address` a second removal raises, while `add_address`
      still overwrites the sentinel. */
  lemma RemovedAddressRaises(f: Formats, rec: Record, raw: string)
    requires RemoveAddress(rec).reply == Done
    ensures RemoveAddress(RemoveAddress(rec).rec).reply == Raised(AttributeError)
    ensures raw != "" && f.isAddress(raw) ==> AddAddress(f, RemoveAddress(rec).rec, raw).reply == Done
  {
  }

  /**
    What the mutators keep true of a record: stored phones and emails are
    pairwise distinct and each passes its rule, a stored name came from text
    the name rule accepts, a stored address is non-empty and passes its rule,
    and a stored birthday date is not after today.
   */
  ghost predicate WellFormed(f: Formats, c: Calendar, rec: Record) {
    && Distinct(rec.phones) && All(rec.phones, f.isPhone)
    && Distinct(rec.emails) && All(rec.emails, f.isEmail)
    && (rec.name.Some? ==> exists raw :: raw != "" && f.isName(raw) && f.titleCase(raw) == rec.name.value)
    && (rec.address.Address? ==> rec.address.text != "" && f.isAddress(rec.address.text))
    && (rec.birthday.Birthday? && rec.birthday.date.Some? ==> NotAfter(rec.birthday.date.value, c.today))
  }
}
