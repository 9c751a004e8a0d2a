/**
  The `AddressBook` collection: a dictionary from a contact's name to its
  record, with insertion, substring search over the names, and the list of
  people whose birthday falls on a given day of the year.
 */
module AddressBook {
  import opened Fields
  import opened Records

  /** `AddressBook.data`. */
  type Book = map<string, Record>

  /** Every record is stored under the name it carries. */
  ghost predicate Indexed(book: Book) {
    forall k :: k in book ==> book[k].name == Some(k)
  }

  /**
    `add_record`: stores the record under its name, replacing silently any
    record already stored under that name; every other entry stays. A record
    without a name raises AttributeError (`None.value`).
   */
  function AddRecord(book: Book, rec: Record): (r: Result<Book>)
    ensures r.Raise? <==> rec.name.None?
    ensures r.Raise? ==> r.exc == AttributeError
    ensures r.Ok? ==> r.value.Keys == book.Keys + {rec.name.value}
    ensures r.Ok? ==> r.value[rec.name.value] == rec
    ensures r.Ok? ==> forall k :: k in book && k != rec.name.value ==> r.value[k] == book[k]
    ensures r.Ok? && rec.name.value in book ==> |r.value| == |book|
  {
    match rec.name
    case None => Raise(AttributeError)
    case Some(n) => Ok(book[n := rec])
  }

  /** Adding a named record keeps every record stored under its own name. */
  lemma AddRecordKeepsIndexed(book: Book, rec: Record)
    requires Indexed(book) && rec.name.Some?
    ensures AddRecord(book, rec).Ok? && Indexed(AddRecord(book, rec).value)
  {
  }

  /** Of two records added under the same name only the later one remains. */
  lemma AddRecordOverwrites(book: Book, first: Record, second: Record)
    requires first.name.Some? && second.name == first.name
    ensures AddRecord(AddRecord(book, first).value, second) == AddRecord(book, second)
  {
    var n := first.name.value;
    assert book[n := first][n := second] == book[n := second];
  }

  /** `s` starts with `q`. */
  predicate IsPrefix(q: string, s: string) {
    |q| <= |s| && s[..|q|] == q
  }

  /** Python's `q in s` for strings, as a scan over the start positions of `s`. */
  predicate Occurs(q: string, s: string)
    decreases |s|
  {
    IsPrefix(q, s) || (|s| > 0 && Occurs(q, s[1..]))
  }

  /** `q` is a contiguous piece of `s`. */
  ghost predicate IsSubstring(q: string, s: string) {
    exists i, j :: 0 <= i <= j <= |s| && s[i..j] == q
  }

  /** The scan finds `q` exactly when it is a contiguous piece of `s`. */
  lemma {:induction false} OccursIffSubstring(q: string, s: string)
    ensures Occurs(q, s) <==> IsSubstring(q, s)
    decreases |s|
  {
    if IsPrefix(q, s) {
      assert s[0..|q|] == q;
    } else if |s| == 0 {
    } else {
      var tail := s[1..];
      OccursIffSubstring(q, tail);
      if IsSubstring(q, tail) {
        var i, j :| 0 <= i <= j <= |tail| && tail[i..j] == q;
        assert s[i + 1..j + 1] == q;
      }
      if IsSubstring(q, s) {
        var i, j :| 0 <= i <= j <= |s| && s[i..j] == q;
        if i > 0 {
          assert tail[i - 1..j - 1] == q;
        }
      }
    }
  }

  /** What `find_person` decides, and the dictionary it prints. */
  datatype Search = Search(found: bool, hits: Book)

  /**
    `find_person`: the empty query is refused; otherwise the hits are the
    entries whose name contains the query, and the search succeeds exactly
    when there is one.
   */
  function FindPerson(book: Book, q: string): (r: Search)
    ensures q == "" ==> r == Search(false, map[])
    ensures q != "" ==> forall k :: k in r.hits <==> k in book && IsSubstring(q, k)
    ensures forall k :: k in r.hits ==> k in book && r.hits[k] == book[k]
    ensures r.found <==> q != "" && exists k :: k in book && IsSubstring(q, k)
  {
    if q == "" then Search(false, map[])
    else
      var hits := map k | k in book && Occurs(q, k) :: book[k];
      assert forall k :: Occurs(q, k) <==> IsSubstring(q, k) by {
        forall k { OccursIffSubstring(q, k); }
      }
      Search(hits.Keys != {}, hits)
  }

  /**
    The loop `find_person` runs: visit every name once, copying the entries
    whose name contains the query. It decides as `FindPerson` does.
   */
  method FindPersonScan(book: Book, q: string) returns (found: bool, hits: Book)
    ensures Search(found, hits) == FindPerson(book, q)
  {
    if q == "" {
      return false, map[];
    }
    hits := map[];
    var todo := book.Keys;
    while todo != {}
      invariant todo <= book.Keys
      invariant forall k :: k in hits <==> k in book && k !in todo && Occurs(q, k)
      invariant forall k :: k in hits ==> hits[k] == book[k]
      decreases todo
    {
      var person :| person in todo;
      if Occurs(q, person) {
        hits := hits[person := book[person]];
      }
      todo := todo - {person};
    }
    found := hits.Keys != {};
  }

  /** The date a record's birthday holds, or the AttributeError that reading
      `.birthday.value.strftime` raises when there is none. */
  function BirthdayDate(rec: Record): (r: Result<Date>)
    ensures r.Ok? <==> rec.birthday.Birthday? && rec.birthday.date.Some?
    ensures r.Ok? ==> rec.birthday == Birthday(Some(r.value))
  {
    match rec.birthday
    case Birthday(Some(d)) => Ok(d)
    case _ => Raise(AttributeError)
  }

  /**
    `show_list_birthday`, for the target date `today + number` days: the
    people whose stored birthday date has the target's month and day, each
    with that date. A person with no birthday, a removed one, or one that
    holds no date is skipped.
   */
  function ShowListBirthday(book: Book, target: Date): (r: map<string, Date>)
    ensures forall k :: k in r <==>
      k in book && book[k].birthday.Birthday? && book[k].birthday.date.Some?
      && SameMonthDay(book[k].birthday.date.value, target)
    ensures forall k :: k in r ==> book[k].birthday == Birthday(Some(r[k]))
  {
    map k | k in book && BirthdayDate(book[k]).Ok? && SameMonthDay(BirthdayDate(book[k]).value, target)
      :: BirthdayDate(book[k]).value
  }

  /**
    The loop `show_list_birthday` runs: visit every person once; when reading
    the birthday raises AttributeError go on with the next one; otherwise keep
    the person if month and day match. It lists what `ShowListBirthday` lists.
   */
  method ShowListBirthdayScan(book: Book, target: Date) returns (listed: map<string, Date>)
    ensures listed == ShowListBirthday(book, target)
  {
    listed := map[];
    var todo := book.Keys;
    while todo != {}
      invariant todo <= book.Keys
      invariant forall k :: k in listed <==>
        k in book && k !in todo && BirthdayDate(book[k]).Ok? && SameMonthDay(BirthdayDate(book[k]).value, target)
      invariant forall k :: k in listed ==> listed[k] == BirthdayDate(book[k]).value
      decreases todo
    {
      var person :| person in todo;
      match BirthdayDate(book[person]) {
        case Raise(_) =>
        case Ok(d) =>
          if SameMonthDay(d, target) {
            listed := listed[person := d];
          }
      }
      todo := todo - {person};
    }
  }

  /** Only month and day of the target matter: two targets on the same day of
      the year (a year apart, say) give the same list. */
  lemma ShowListBirthdayIgnoresYear(book: Book, t1: Date, t2: Date)
    requires SameMonthDay(t1, t2)
    ensures ShowListBirthday(book, t1) == ShowListBirthday(book, t2)
  {
  }

  /** After `add_record`, the added person is listed exactly when their
      stored date matches the target, and every other person is listed as before. */
  lemma ShowListBirthdayAfterAddRecord(book: Book, rec: Record, target: Date)
    requires rec.name.Some?
    ensures var after := ShowListBirthday(AddRecord(book, rec).value, target);
      && (rec.name.value in after <==> BirthdayDate(rec).Ok? && SameMonthDay(BirthdayDate(rec).value, target))
      && forall k :: k != rec.name.value ==>
           (k in after <==> k in ShowListBirthday(book, target))
           && (k in after ==> after[k] == ShowListBirthday(book, target)[k])
  {
  }
}
