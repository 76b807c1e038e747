/**
 * The event record as the scheduler stores it, and the key it is ordered
 * by. A record is the four strings kept in the events file; the date and
 * the time are the user's text, checked by `ParseDate` and `ParseTime`
 * before a record is stored. Records carry no duration of their own.
 */
module Events {
  import opened Text
  import opened Calendar

  datatype Event = Event(name: string, date: string, time: string, category: string)

  /** The date and the time both parse: what every stored record satisfies. */
  predicate WellFormed(e: Event) {
    ParseDate(e.date).Some? && ParseTime(e.time).Some?
  }

  predicate AllWellFormed(events: seq<Event>) {
    forall e :: e in events ==> WellFormed(e)
  }

  /** The sort key `(date, time)` compared as a Python tuple of strings. */
  predicate KeyLt(a: Event, b: Event) {
    StrLt(a.date, b.date) || (a.date == b.date && StrLt(a.time, b.time))
  }

  predicate SameKey(a: Event, b: Event) {
    a.date == b.date && a.time == b.time
  }

  lemma KeyLtIrreflexive(a: Event)
    ensures !KeyLt(a, a)
  {
    StrLtIrreflexive(a.date);
    StrLtIrreflexive(a.time);
  }

  lemma KeyLtTransitive(a: Event, b: Event, c: Event)
    requires KeyLt(a, b) && KeyLt(b, c)
    ensures KeyLt(a, c)
  {
    if StrLt(a.date, b.date) && StrLt(b.date, c.date) {
      StrLtTransitive(a.date, b.date, c.date);
    } else if a.date == b.date && b.date == c.date {
      StrLtTransitive(a.time, b.time, c.time);
    }
  }

  /** Records with different keys are ordered one way or the other. */
  lemma KeyLtTotal(a: Event, b: Event)
    requires !SameKey(a, b)
    ensures KeyLt(a, b) || KeyLt(b, a)
  {
    if a.date != b.date {
      StrLtTotal(a.date, b.date);
    } else {
      StrLtTotal(a.time, b.time);
    }
  }

  lemma KeyLtAsymmetric(a: Event, b: Event)
    ensures KeyLt(a, b) ==> !KeyLt(b, a)
  {
    StrLtAsymmetric(a.date, b.date);
    StrLtAsymmetric(a.time, b.time);
    StrLtIrreflexive(a.date);
  }

  /** "Not after" is transitive, so a sorted run stays sorted when extended. */
  lemma NotAfterTransitive(a: Event, b: Event, c: Event)
    requires !KeyLt(b, a) && !KeyLt(c, b)
    ensures !KeyLt(c, a)
  {
    if !SameKey(a, b) {
      KeyLtTotal(a, b);
    }
    if !SameKey(b, c) {
      KeyLtTotal(b, c);
    }
    if KeyLt(a, b) && KeyLt(b, c) {
      KeyLtTransitive(a, b, c);
    }
    KeyLtAsymmetric(a, c);
    KeyLtIrreflexive(a);
  }

  /** The calendar day number and minute of a well-formed record. */
  function Moment(e: Event): (int, int)
    requires WellFormed(e)
  {
    (Ordinal(ParseDate(e.date).value), ParseTime(e.time).value)
  }

  /**
   * Sorting the ISO strings is sorting by time: for well-formed records the
   * text order of `(date, time)` is the chronological order of (day, minute),
   * and equal keys are the same moment.
   */
  lemma KeyOrderIsChronological(a: Event, b: Event)
    requires WellFormed(a) && WellFormed(b)
    ensures KeyLt(a, b) <==> Moment(a).0 < Moment(b).0 || (Moment(a).0 == Moment(b).0 && Moment(a).1 < Moment(b).1)
    ensures SameKey(a, b) <==> Moment(a) == Moment(b)
  {
    DateTextOrder(a.date, b.date);
    DateStringsEqual(a.date, b.date);
    OrdinalOrder(ParseDate(a.date).value, ParseDate(b.date).value);
    TimeTextOrder(a.time, b.time);
  }
}
