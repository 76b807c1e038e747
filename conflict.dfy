/**
 * Conflict detection (`check_conflict`, bot.py lines 23-36): a candidate
 * occupies the half-open minute interval [start, start + duration) of its
 * date; every stored record on the same date string is taken to occupy
 * [start, start + 60), whatever it is; the answer is the name of the first
 * record in store order whose interval meets the candidate's.
 */
module Conflict {
  import opened Calendar
  import opened Events

  /** `duration_min=60`, the only duration the scheduler ever passes. */
  const DefaultDuration: int := 60

  /** The length every stored record is assumed to have. */
  const AssumedLength: int := 60

  /** Half-open intervals [start1, end1) and [start2, end2) share a minute. */
  predicate Overlaps(start1: int, end1: int, start2: int, end2: int) {
    start1 < end2 && end1 > start2
  }

  /** Every record on `date` has a time that parses: `check_conflict` raises otherwise. */
  predicate TimesParseOn(events: seq<Event>, date: string) {
    forall e :: e in events && e.date == date ==> ParseTime(e.time).Some?
  }

  /** Stored record `e` collides with a candidate on `newDate` at `newStart` lasting `duration`. */
  predicate ConflictsWith(e: Event, newDate: string, newStart: int, duration: int)
    requires e.date == newDate ==> ParseTime(e.time).Some?
  {
    e.date == newDate
    && var existStart := ParseTime(e.time).value;
       Overlaps(newStart, newStart + duration, existStart, existStart + AssumedLength)
  }

  /** The name of the first colliding record in store order, if any. */
  function FirstConflict(events: seq<Event>, newDate: string, newStart: int, duration: int): Option<string>
    requires TimesParseOn(events, newDate)
  {
    if events == [] then None
    else if ConflictsWith(events[0], newDate, newStart, duration) then Some(events[0].name)
    else FirstConflict(events[1..], newDate, newStart, duration)
  }

  /**
   * `FirstConflict` reports the name of a colliding record with no colliding
   * record before it, and reports nothing exactly when no record collides.
   */
  lemma {:induction false} FirstConflictIsFirst(events: seq<Event>, newDate: string, newStart: int, duration: int)
    requires TimesParseOn(events, newDate)
    ensures FirstConflict(events, newDate, newStart, duration).None?
            <==> forall i :: 0 <= i < |events| ==> !ConflictsWith(events[i], newDate, newStart, duration)
    ensures FirstConflict(events, newDate, newStart, duration).Some? ==>
            exists i :: 0 <= i < |events|
              && ConflictsWith(events[i], newDate, newStart, duration)
              && events[i].name == FirstConflict(events, newDate, newStart, duration).value
              && forall j :: 0 <= j < i ==> !ConflictsWith(events[j], newDate, newStart, duration)
  {
    if events != [] && !ConflictsWith(events[0], newDate, newStart, duration) {
      var rest := events[1..];
      FirstConflictIsFirst(rest, newDate, newStart, duration);
      assert forall i :: 1 <= i < |events| ==> events[i] == rest[i - 1];
      if FirstConflict(rest, newDate, newStart, duration).Some? {
        var k :| 0 <= k < |rest|
          && ConflictsWith(rest[k], newDate, newStart, duration)
          && rest[k].name == FirstConflict(rest, newDate, newStart, duration).value
          && forall j :: 0 <= j < k ==> !ConflictsWith(rest[j], newDate, newStart, duration);
        assert events[k + 1] == rest[k];
      }
    }
  }

  /** Appending records can only add later candidates for the first conflict. */
  lemma {:induction false} FirstConflictAppend(a: seq<Event>, b: seq<Event>, newDate: string, newStart: int, duration: int)
    requires TimesParseOn(a, newDate) && TimesParseOn(b, newDate)
    ensures TimesParseOn(a + b, newDate)
    ensures FirstConflict(a + b, newDate, newStart, duration)
            == if FirstConflict(a, newDate, newStart, duration).Some?
               then FirstConflict(a, newDate, newStart, duration)
               else FirstConflict(b, newDate, newStart, duration)
  {
    if a == [] {
      assert a + b == b;
    } else {
      assert (a + b)[0] == a[0] && (a + b)[1..] == a[1..] + b;
      FirstConflictAppend(a[1..], b, newDate, newStart, duration);
    }
  }

  /**
   * Once a record is stored, a second one-hour record at the same date and
   * time is always reported as a conflict: nothing is double-booked silently.
   */
  lemma NoSilentDoubleBooking(events: seq<Event>, e: Event)
    requires AllWellFormed(events) && WellFormed(e)
    ensures TimesParseOn(events + [e], e.date)
    ensures FirstConflict(events + [e], e.date, ParseTime(e.time).value, DefaultDuration).Some?
  {
    var start := ParseTime(e.time).value;
    FirstConflictAppend(events, [e], e.date, start, DefaultDuration);
    assert ConflictsWith(e, e.date, start, DefaultDuration);
  }

  /**
   * `check_conflict(events, new_date, new_start_time, duration_min)`: the
   * loop over the stored records with its early return. `None` stands for
   * `(False, None)` and `Some(name)` for `(True, name)`.
   */
  method CheckConflict(events: seq<Event>, newDate: string, newTime: string, duration: int)
    returns (r: Option<string>)
    requires ParseDate(newDate).Some? && ParseTime(newTime).Some?
    requires TimesParseOn(events, newDate)
    ensures r == FirstConflict(events, newDate, ParseTime(newTime).value, duration)
  {
    var newStart := ParseTime(newTime).value;
    var i := 0;
    while i < |events|
      invariant 0 <= i <= |events|
      invariant FirstConflict(events[i..], newDate, newStart, duration)
                == FirstConflict(events, newDate, newStart, duration)
    {
      var e := events[i];
      assert events[i..][1..] == events[i + 1..];
      if e.date == newDate {
        var existStart := ParseTime(e.time).value;
        if Overlaps(newStart, newStart + duration, existStart, existStart + AssumedLength) {
          return Some(e.name);
        }
      }
      i := i + 1;
    }
    return None;
  }

  /** A record that ends exactly when another starts does not collide with it. */
  lemma TouchingIsNoConflict(e: Event, newDate: string, newStart: int, duration: int)
    requires WellFormed(e)
    requires newStart + duration == ParseTime(e.time).value
             || newStart == ParseTime(e.time).value + AssumedLength
    ensures !ConflictsWith(e, newDate, newStart, duration)
  {
  }

  /** Records on another date never collide. */
  lemma OtherDateIsNoConflict(e: Event, newDate: string, newStart: int, duration: int)
    requires e.date != newDate
    ensures !ConflictsWith(e, newDate, newStart, duration)
  {
  }

  /**
   * Only the date and start of a stored record matter: its name and
   * category do not, and it has no length of its own.
   */
  lemma OnlyDateAndTimeMatter(e1: Event, e2: Event, newDate: string, newStart: int, duration: int)
    requires WellFormed(e1) && SameKey(e1, e2)
    ensures ConflictsWith(e1, newDate, newStart, duration) == ConflictsWith(e2, newDate, newStart, duration)
  {
  }

  /** With both sides one hour long, conflict is symmetric. */
  lemma ConflictSymmetric(a: Event, b: Event)
    requires WellFormed(a) && WellFormed(b)
    ensures ConflictsWith(a, b.date, ParseTime(b.time).value, DefaultDuration)
            == ConflictsWith(b, a.date, ParseTime(a.time).value, DefaultDuration)
  {
  }

  /**
   * For a well-formed stored record and a well-formed candidate, collision is
   * "same calendar day and the minute intervals meet": comparing the date
   * strings is comparing the dates.
   */
  lemma ConflictIsSameDayOverlap(e: Event, candidate: Event, duration: int)
    requires WellFormed(e) && WellFormed(candidate)
    ensures ConflictsWith(e, candidate.date, ParseTime(candidate.time).value, duration)
            <==> Moment(e).0 == Moment(candidate).0
                 && Overlaps(Moment(candidate).1, Moment(candidate).1 + duration, Moment(e).1, Moment(e).1 + AssumedLength)
  {
    DateStringsEqual(e.date, candidate.date);
    OrdinalOrder(ParseDate(e.date).value, ParseDate(candidate.date).value);
  }

  // ---------------------------------------------------------------------
  // Comparing dates, not date strings
  // ---------------------------------------------------------------------

  /**
   * `strptime` stores "2025-3-5" verbatim, and the loop compares date
   * strings: a stored 09:00 record dated "2025-3-5" does not collide with a
   * 09:30 candidate dated "2025-03-05", though both name the same day and
   * the hours overlap.
   */
  lemma UnpaddedDateEscapesConflict()
    ensures var stored := Event("Lab", "2025-3-5", "09:00", "lab");
            LenientParseDate(stored.date) == LenientParseDate("2025-03-05")
            && LenientParseDate(stored.date).Some?
            && LenientParseTime(stored.time) == Some(9 * 60)
            && FirstConflict([stored], "2025-03-05", 9 * 60 + 30, DefaultDuration).None?
            && FirstSameDayConflict([stored], "2025-03-05", 9 * 60 + 30, DefaultDuration) == Some("Lab")
  {
    UnpaddedDate();
    assert "09:00"[..2] == "09" && "09:00"[3..] == "00";
    assert "09"[..1] == "0" && "00"[..1] == "0";
  }

  /** The collision meant: the stored record's date names the candidate's day, however either is written. */
  predicate SameDayConflict(e: Event, newDate: string, newStart: int, duration: int) {
    LenientParseDate(e.date).Some? && LenientParseDate(e.date) == LenientParseDate(newDate)
    && LenientParseTime(e.time).Some?
    && var existStart := LenientParseTime(e.time).value;
       Overlaps(newStart, newStart + duration, existStart, existStart + AssumedLength)
  }

  /** The first record in store order that collides on the same calendar day. */
  function FirstSameDayConflict(events: seq<Event>, newDate: string, newStart: int, duration: int): Option<string> {
    if events == [] then None
    else if SameDayConflict(events[0], newDate, newStart, duration) then Some(events[0].name)
    else FirstSameDayConflict(events[1..], newDate, newStart, duration)
  }

  /**
   * On zero-padded records and candidates, the kind every record of this
   * model is, comparing dates gives the same verdict as comparing strings.
   */
  lemma SameDayConflictAgrees(e: Event, newDate: string, newStart: int, duration: int)
    requires WellFormed(e) && ParseDate(newDate).Some?
    ensures SameDayConflict(e, newDate, newStart, duration) == ConflictsWith(e, newDate, newStart, duration)
  {
    StrictDateIsLenient(e.date);
    StrictDateIsLenient(newDate);
    StrictTimeIsLenient(e.time);
    DateStringsEqual(e.date, newDate);
  }

  /**
   * With dates compared as dates, a stored record is always reported to a
   * later one-hour candidate on its day and at its minute, however either
   * date is padded.
   */
  lemma {:induction false} SameDayNoSilentDoubleBooking(events: seq<Event>, e: Event, newDate: string, newStart: int)
    requires LenientParseDate(e.date).Some? && LenientParseDate(e.date) == LenientParseDate(newDate)
    requires LenientParseTime(e.time) == Some(newStart)
    ensures FirstSameDayConflict(events + [e], newDate, newStart, DefaultDuration).Some?
  {
    if events == [] {
      assert events + [e] == [e];
    } else {
      assert (events + [e])[1..] == events[1..] + [e];
      SameDayNoSilentDoubleBooking(events[1..], e, newDate, newStart);
    }
  }

  /**
   * The corrected loop reports the name of a record that collides on the
   * candidate's day with no such record before it, and reports nothing
   * exactly when no record collides on that day.
   */
  lemma {:induction false} FirstSameDayConflictIsFirst(events: seq<Event>, newDate: string, newStart: int, duration: int)
    ensures FirstSameDayConflict(events, newDate, newStart, duration).None?
            <==> forall i :: 0 <= i < |events| ==> !SameDayConflict(events[i], newDate, newStart, duration)
    ensures FirstSameDayConflict(events, newDate, newStart, duration).Some? ==>
            exists i :: 0 <= i < |events|
              && SameDayConflict(events[i], newDate, newStart, duration)
              && events[i].name == FirstSameDayConflict(events, newDate, newStart, duration).value
              && forall j :: 0 <= j < i ==> !SameDayConflict(events[j], newDate, newStart, duration)
  {
    if events != [] && !SameDayConflict(events[0], newDate, newStart, duration) {
      var rest := events[1..];
      FirstSameDayConflictIsFirst(rest, newDate, newStart, duration);
      assert forall i :: 1 <= i < |events| ==> events[i] == rest[i - 1];
      if FirstSameDayConflict(rest, newDate, newStart, duration).Some? {
        var k :| 0 <= k < |rest|
          && SameDayConflict(rest[k], newDate, newStart, duration)
          && rest[k].name == FirstSameDayConflict(rest, newDate, newStart, duration).value
          && forall j :: 0 <= j < k ==> !SameDayConflict(rest[j], newDate, newStart, duration);
        assert events[k + 1] == rest[k];
      }
    }
  }

  /**
   * On well-formed records and a zero-padded candidate date, the corrected
   * loop gives the same answer as the loop as written.
   */
  lemma {:induction false} FirstSameDayConflictAgrees(events: seq<Event>, newDate: string, newStart: int, duration: int)
    requires AllWellFormed(events) && ParseDate(newDate).Some?
    ensures TimesParseOn(events, newDate)
    ensures FirstSameDayConflict(events, newDate, newStart, duration) == FirstConflict(events, newDate, newStart, duration)
  {
    if events != [] {
      assert forall e :: e in events[1..] ==> e in events;
      SameDayConflictAgrees(events[0], newDate, newStart, duration);
      FirstSameDayConflictAgrees(events[1..], newDate, newStart, duration);
    }
  }
}
