/**
  The mutators of a record as one command type, so that facts about every
  mutator (and about any sequence of calls) can be stated once.
 */
module Edits {
  import opened Fields
  import opened Sequences
  import R = Records

  /** One call of a `Record` mutator, with its text arguments. */
  datatype Edit =
    | AddName(raw: string)
    | ChangeName(raw: string)
    | AddAddress(raw: string)
    | ChangeAddress(raw: string)
    | RemoveAddress
    | AddPhone(raw: string)
    | ChangePhone(oldValue: string, newValue: string)
    | RemovePhone(raw: string)
    | AddEmail(raw: string)
    | ChangeEmail(oldValue: string, newValue: string)
    | RemoveEmail(raw: string)
    | AddBirthday(raw: string)
    | ChangeBirthday(raw: string)
    | RemoveBirthday

  /** The step the named mutator takes on `rec`. */
  function Apply(f: Formats, c: Calendar, rec: R.Record, e: Edit): R.Step
  {
    match e
    case AddName(raw) => R.AddName(f, rec, raw)
    case ChangeName(raw) => R.ChangeName(f, rec, raw)
    case AddAddress(raw) => R.AddAddress(f, rec, raw)
    case ChangeAddress(raw) => R.ChangeAddress(f, rec, raw)
    case RemoveAddress => R.RemoveAddress(rec)
    case AddPhone(raw) => R.AddPhone(f, rec, raw)
    case ChangePhone(o, n) => R.ChangePhone(f, rec, o, n)
    case RemovePhone(raw) => R.RemovePhone(rec, raw)
    case AddEmail(raw) => R.AddEmail(f, rec, raw)
    case ChangeEmail(o, n) => R.ChangeEmail(f, rec, o, n)
    case RemoveEmail(raw) => R.RemoveEmail(rec, raw)
    case AddBirthday(raw) => R.AddBirthday(c, rec, raw)
    case ChangeBirthday(raw) => R.ChangeBirthday(c, rec, raw)
    case RemoveBirthday => R.RemoveBirthday(rec)
  }

  /** Only a True answer changes the record: on False, on `None` and on an
      escaping exception the record is exactly as before. */
  lemma OnlyDoneChanges(f: Formats, c: Calendar, rec: R.Record, e: Edit)
    ensures Apply(f, c, rec, e).reply != R.Done ==> Apply(f, c, rec, e).rec == rec
  {
  }

  /** Every mutator preserves `WellFormed`; in particular stored phones and
      stored emails stay pairwise distinct. */
  lemma ApplyKeepsWellFormed(f: Formats, c: Calendar, rec: R.Record, e: Edit)
    requires R.WellFormed(f, c, rec)
    ensures R.WellFormed(f, c, Apply(f, c, rec, e).rec)
  {
    var r := Apply(f, c, rec, e);
    match e {
      case AddName(raw) =>
        if r.reply == R.Done { assert f.titleCase(raw) == r.rec.name.value; }
      case ChangeName(raw) =>
        if r.reply == R.Done { assert f.titleCase(raw) == r.rec.name.value; }
      case AddAddress(raw) =>
      case ChangeAddress(raw) =>
      case RemoveAddress =>
      case AddPhone(raw) =>
        if r.reply == R.Done { DistinctAppend(rec.phones, raw); }
      case ChangePhone(o, n) =>
        if r.reply == R.Done {
          DistinctUpdate(rec.phones, FirstIndex(rec.phones, o), n);
        }
      case RemovePhone(raw) =>
        DistinctRemoveFirst(rec.phones, raw);
        AllRemoveFirst(rec.phones, raw, f.isPhone);
      case AddEmail(raw) =>
        if r.reply == R.Done { DistinctAppend(rec.emails, raw); }
      case ChangeEmail(o, n) =>
        if r.reply == R.Done {
          DistinctUpdate(rec.emails, FirstIndex(rec.emails, o), n);
        }
      case RemoveEmail(raw) =>
        DistinctRemoveFirst(rec.emails, raw);
        AllRemoveFirst(rec.emails, raw, f.isEmail);
      case AddBirthday(raw) =>
      case ChangeBirthday(raw) =>
      case RemoveBirthday =>
    }
  }

  /** The record after a sequence of calls, each on the result of the one before. */
  function Run(f: Formats, c: Calendar, rec: R.Record, es: seq<Edit>): R.Record
    decreases |es|
  {
    if |es| == 0 then rec else Run(f, c, Apply(f, c, rec, es[0]).rec, es[1..])
  }

  /** Any sequence of mutator calls keeps a well-formed record well formed. */
  lemma {:induction false} RunKeepsWellFormed(f: Formats, c: Calendar, rec: R.Record, es: seq<Edit>)
    requires R.WellFormed(f, c, rec)
    ensures R.WellFormed(f, c, Run(f, c, rec, es))
    decreases |es|
  {
    if |es| > 0 {
      ApplyKeepsWellFormed(f, c, rec, es[0]);
      RunKeepsWellFormed(f, c, Apply(f, c, rec, es[0]).rec, es[1..]);
    }
  }

  /** A record built from `Record()` by any sequence of mutator calls is
      well formed: no duplicate phone or email can ever be stored. */
  lemma BlankRunsWellFormed(f: Formats, c: Calendar, es: seq<Edit>)
    ensures Distinct(Run(f, c, R.Blank, es).phones)
    ensures Distinct(Run(f, c, R.Blank, es).emails)
    ensures R.WellFormed(f, c, Run(f, c, R.Blank, es))
  {
    RunKeepsWellFormed(f, c, R.Blank, es);
  }
}
