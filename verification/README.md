# Contact records and the address book, modelled in Dafny

This project models the data model of a small personal contact manager
(`AddressBook.py`): a `Record` holds one contact's name, an ordered list of
phone numbers, an ordered list of email addresses, an optional birthday and an
optional postal address, and offers add / change / remove operations on each
of them; an `AddressBook` is a dictionary from a contact's name to its record,
with insertion, substring search over the names and a "whose birthday is on
this day" query.

Every mutator of the program answers True, False, the implicit `None`, or
lets an exception escape. The model keeps these apart (`Records.Reply`:
`Done`, `Refused(reason)`, `NoAnswer`, `Raised(exception)`) and returns the
record as it stands afterwards, so each contract can say both what was
answered and exactly what changed. `Records.Reason` classifies why a call
answered False (empty input, malformed value, value already present, value
missing); it does not reproduce the printed message, and some False answers
print nothing.

Files:

- `fields.dfy` (module `Fields`): the field kinds and their validating
  constructors. The format rules (four regular expressions and `str.title()`)
  are the parameters bundled in `Formats`; date parsing and the current date
  are the parameters bundled in `Calendar`.
- `sequences.dfy` (module `Sequences`): distinctness, the first index of a
  value, and removal of the first occurrence (`list.remove`).
- `records.dfy` (module `Records`): the `Record` datatype and all fourteen
  mutators, the nested scan of `change_phone` / `change_email` as a loop, and
  the record invariant `WellFormed`.
- `edits.dfy` (module `Edits`): the mutators as one command type, with the
  proofs that only a True answer changes a record and that every mutator,
  and so every sequence of calls, keeps phones and emails pairwise distinct.
- `book.dfy` (module `AddressBook`): `add_record`, `find_person` and
  `show_list_birthday`; the last two are also given as the loops the
  program runs.

Behaviour of the code that the model keeps, quirks included:

- The birthday has three states. `remove_birthday` stores the string "None",
  which is truthy, so a later `add_birthday` is refused whatever its text
  (`Records.RemovedBirthdayBlocksAdd`), while `change_birthday` still works.
  `remove_address` uses the same sentinel.
- Removing a birthday or an address a second time raises AttributeError:
  the code reads `.value` of the sentinel string before assigning.
- A birthday date is kept when it is not after today. Today's date is
  accepted, because the code compares the date's midnight with the current
  moment (AddressBook.py:76). A date in the future is not rejected: the
  `Birthday` object keeps the value `None`, and `add_birthday` answers True
  (`Records.FutureBirthdayAccepted`).
- A removed birthday is the string sentinel "None", not an absent value
  (AddressBook.py:249); a removed address likewise (AddressBook.py:242).
- `add_name` and `change_name` raise ValueError for non-empty text the name
  rule rejects, rather than answering False.
- `add_email("")` raises AttributeError.
- `change_birthday` answers `None` when no birthday was ever set.
- `add_record` silently replaces a record stored under the same name, and a
  record without a name raises AttributeError.

## Model

| member | source | states |
|---|---|---|
| Fields.NewName | AddressBook.py:30-36 | a name is produced exactly when the name rule accepts the text, and it is the title-cased text; otherwise ValueError |
| Fields.NewAddress | AddressBook.py:39-47 | an address is produced exactly when the address rule accepts the text, stored verbatim; otherwise ValueError |
| Fields.NewPhone | AddressBook.py:50-56 | a phone is produced exactly when the phone rule accepts the text, stored verbatim; otherwise ValueError |
| Fields.NewEmail | AddressBook.py:59-65 | an email is produced exactly when the email rule accepts the text, stored verbatim; otherwise ValueError |
| Fields.NewBirthday | AddressBook.py:68-77 | ValueError exactly when the text does not parse; a parsed date is kept exactly when it is not after today, else the birthday holds no date and no error is raised |
| Sequences.FirstIndex | AddressBook.py:191-192 | the index found holds the value and no earlier index does |
| Sequences.RemoveFirst | AddressBook.py:254-256 | removal deletes exactly the element at the first index holding the value, the rest in order; with no such element the list is unchanged |
| Sequences.DistinctAppend | AddressBook.py:117-123 | appending a value not present keeps a distinct list distinct |
| Sequences.DistinctUpdate | AddressBook.py:195-203 | overwriting one position with a value not present keeps a distinct list distinct |
| Sequences.DistinctRemoveFirst | AddressBook.py:253-260 | removing the first occurrence keeps a distinct list distinct, leaves no occurrence of the value, and keeps only elements of the input |
| Sequences.AllRemoveFirst | AddressBook.py:253-260 | removal keeps only elements of the input, so every remaining phone still satisfies the rule the originals did |
| Records.AddName | AddressBook.py:88-95 | empty text answers False; rejected text raises ValueError with the record unchanged; otherwise True and the name becomes the title-cased text, whatever was set before |
| Records.ChangeName | AddressBook.py:156-163 | behaves exactly as add_name: no guard on an existing name, which it overwrites |
| Records.AddAddress | AddressBook.py:97-108 | empty text or text the address rule rejects answers False with the record unchanged; otherwise True and the address is the text, also over the removal sentinel |
| Records.ChangeAddress | AddressBook.py:165-177 | behaves exactly as add_address and overwrites a set address |
| Records.RemoveAddress | AddressBook.py:239-244 | True exactly when an address is set, which becomes the sentinel; False with nothing set; AttributeError on the sentinel, record unchanged |
| Records.AddPhone | AddressBook.py:110-124 | True exactly when the phone is valid and its value not stored, and then phones == old + [p] and nothing else changes; otherwise False with the record unchanged, with the reason in the order the code checks |
| Records.ChangePhone | AddressBook.py:189-212 | False unchanged when old is absent (no collision check), when new is stored (also new == old), or when new is malformed; otherwise True and new replaces the element at the first index of old, all other positions unchanged |
| Records.ChangeValueScan | AddressBook.py:189-212 | the nested scan of the code (first match of old, then a full pass for new, then validation) gives the same answer and list as the specification ChangeValue |
| Records.RemovePhone | AddressBook.py:253-260 | True exactly when some phone equals the value, and then exactly the first such element is deleted, the rest in order; otherwise False with the record unchanged |
| Records.AddEmail | AddressBook.py:126-141 | as add_phone with the email rule, except that the empty text raises AttributeError with the record unchanged |
| Records.ChangeEmail | AddressBook.py:214-237 | as change_phone with the email rule |
| Records.RemoveEmail | AddressBook.py:262-270 | as remove_phone on the email list |
| Records.AddBirthday | AddressBook.py:143-154 | refused with the state unchanged, whatever the text, when a birthday (or the removal sentinel) is present; True exactly when the slot is empty and the text parses, and then only the birthday changes, holding the date when it is not after today |
| Records.ChangeBirthday | AddressBook.py:179-187 | answers None with the record unchanged when no birthday was ever set; otherwise unparsable text answers False unchanged and a parsed date is stored as add_birthday stores it in an empty slot |
| Records.RemoveBirthday | AddressBook.py:246-251 | True exactly when a birthday object is present (with or without a date), which becomes the sentinel; False with none; AttributeError on the sentinel |
| Records.AddBirthdayOnce | AddressBook.py:143-154 | after a successful add_birthday every further add_birthday is refused, whatever its text |
| Records.RemovedBirthdayBlocksAdd | AddressBook.py:246-251 | after remove_birthday, add_birthday is refused for every text, a second removal raises, and change_birthday still stores a parsed date |
| Records.FutureBirthdayAccepted | AddressBook.py:143-154 | a future date makes add_birthday answer True storing a birthday with no date, which still blocks later additions |
| Records.RemovedAddressRaises | AddressBook.py:239-244 | after remove_address a second removal raises AttributeError while add_address still overwrites the sentinel |
| Edits.OnlyDoneChanges | AddressBook.py:88-270 | for every mutator, an answer other than True leaves the record exactly as it was |
| Edits.ApplyKeepsWellFormed | AddressBook.py:88-270 | every mutator keeps phones and emails pairwise distinct and valid, a stored name the title case of accepted text, a stored address valid and a stored date not after today |
| Edits.RunKeepsWellFormed | AddressBook.py:88-270 | any sequence of mutator calls keeps a well-formed record well formed |
| Edits.BlankRunsWellFormed | AddressBook.py:81-86 | a record built from Record() by any sequence of calls never stores a duplicate phone or email |
| AddressBook.AddRecord | AddressBook.py:276-277 | the book afterwards sends the record's name to the record, keeps every other entry, and has the same size when the name was present (silent overwrite); a nameless record raises AttributeError |
| AddressBook.AddRecordKeepsIndexed | AddressBook.py:276-277 | if every record is stored under its own name, adding a named record keeps that so |
| AddressBook.AddRecordOverwrites | AddressBook.py:276-277 | adding two records with the same name leaves the book as adding only the second |
| AddressBook.OccursIffSubstring | AddressBook.py:320 | the scan over start positions finds the query exactly when it is a contiguous piece of the name |
| AddressBook.FindPerson | AddressBook.py:313-326 | the empty query answers False; otherwise the hits are exactly the entries whose name contains the query, with their records, and the answer is True exactly when some name contains it |
| AddressBook.FindPersonScan | AddressBook.py:318-326 | the loop over the names gives the same answer and hits as FindPerson |
| AddressBook.BirthdayDate | AddressBook.py:301-308 | reading the birthday's date succeeds exactly when a birthday object holding a date is present, and yields that date; otherwise AttributeError |
| AddressBook.ShowListBirthday | AddressBook.py:293-311 | a person is listed exactly when their birthday holds a date with the target's month and day, mapped to that date; absent, removed and dateless birthdays are skipped |
| AddressBook.ShowListBirthdayScan | AddressBook.py:300-309 | the loop with its per-person AttributeError skip lists exactly what ShowListBirthday lists |
| AddressBook.ShowListBirthdayIgnoresYear | AddressBook.py:304-305 | two targets with the same month and day give the same list |
| AddressBook.ShowListBirthdayAfterAddRecord | AddressBook.py:276-311 | after add_record the added person is listed exactly when their date matches, and every other person is listed as before |

## Left out

- Saving and loading the book (`save_adress_book_to_file`,
  `read_adress_book_from_file`, the default file path): file I/O in Python's
  pickle format. `AddressBook.AddRecord` models the dictionary update only,
  without the save that follows it.
- `show_all` and every printed message: console output only.
  `Records.Reason` classifies a False answer by the check that failed and is
  not the printed text; `remove_address` and `remove_birthday` print nothing
  when they answer False, and a refused `add_birthday` prints "No birthday was
  given." although the model's reason is `AlreadyExists`.
- The regular expressions of the Name, Address, Phone and Email fields and
  `str.title()`: their Python `re` semantics (the Unicode `\w` class among
  them) are not re-implemented; they are the parameters in `Fields.Formats`.
- `datetime.strptime` parsing, `datetime.now()` and `timedelta` arithmetic:
  parsing and today's date are the parameters in `Fields.Calendar`, and
  `show_list_birthday` takes the target date (today plus the given number of
  days) as input.
- AddressBook.ShowListBirthday: maps each person to the birthday date rather
  than to its `strftime("%Y-%m-%d")` text, because string formatting of dates
  is not modelled; the round trip through `strftime`/`strptime` is taken to
  keep month and day.
- Edits.ApplyKeepsWellFormed: the record invariant fixes one current date for
  the whole sequence of calls; a clock that moves between calls is not modelled.
- Shared references: `add_record` stores a reference to the `Record` object
  (AddressBook.py:277), so a later call of a mutator on that object changes
  the stored entry too. The model stores records as values, not shared
  references: edits made after `add_record` never reach the book. In the
  program a record renamed by `change_name` after `add_record` is still
  listed under its old key; the model cannot show this, and
  `AddressBook.Indexed` with `AddressBook.AddRecordKeepsIndexed` hold only
  because of this value semantics.
- The `Menu` base class, `UserDict` plumbing and the `__main__` demonstration:
  framework glue and a script, not part of the data model.
