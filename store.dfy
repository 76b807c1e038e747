/**
 * The shared, insertion-ordered list of records that `main` loads once and
 * that `add_event` and the "видалити" (remove) command change in place,
 * writing the whole list back to the events file after each change.
 */
module Store {
  import Text
  import opened Calendar
  import opened Events
  import opened Conflict
  import opened Views

  /** What one `add_event` call ends with. */
  datatype AddOutcome =
    | Added(warning: Option<string>)  // appended; `warning` names the conflict the user confirmed past
    | Declined(conflictName: string)  // a conflict was found and the user did not answer "так"
    | InvalidFormat                   // the date or the time did not parse

  /**
   * Python's `list.pop(idx)` on a list of length `n`: an index from -n to
   * n - 1 is accepted, a negative one counting from the end; anything else
   * raises IndexError.
   */
  function PopIndex(n: nat, idx: int): (r: Option<nat>)
    ensures r.Some? <==> -(n as int) <= idx < n
    ensures r.Some? ==> r.value < n && r.value == idx % n
  {
    if 0 <= idx < n then Some(idx)
    else if -(n as int) <= idx < 0 then Some(n + idx)
    else None
  }

  /** The list after `pop(i)`: one element fewer, the others in their order. */
  function RemoveAt(s: seq<Event>, i: nat): (r: seq<Event>)
    requires i < |s|
    ensures |r| == |s| - 1
    ensures forall j :: 0 <= j < i ==> r[j] == s[j]
    ensures forall j :: i <= j < |r| ==> r[j] == s[j + 1]
    ensures multiset(r) == multiset(s) - multiset{s[i]}
  {
    assert s == s[..i] + [s[i]] + s[i + 1..];
    s[..i] + s[i + 1..]
  }

  /** The first position of `x` in `s`. */
  method FirstIndexOf(s: seq<Event>, x: Event) returns (i: nat)
    requires x in s
    ensures i < |s| && s[i] == x
    ensures forall j :: 0 <= j < i ==> s[j] != x
  {
    i := 0;
    while s[i] != x
      invariant i < |s|
      invariant x in s[i..]
      invariant forall j :: 0 <= j < i ==> s[j] != x
      decreases |s| - i
    {
      assert s[i..] == [s[i]] + s[i + 1..];
      i := i + 1;
    }
  }

  class EventStore {
    /** The records in insertion order. */
    var events: seq<Event>
    /** The content of the events file as last written. */
    var saved: seq<Event>

    /** Every record is well-formed and the file holds the list. */
    predicate Valid()
      reads this
    {
      AllWellFormed(events) && saved == events
    }

    /** `events = load_events()`: the records of the file, or none. */
    constructor (loaded: seq<Event>)
      requires AllWellFormed(loaded)
      ensures Valid() && events == loaded
    {
      events := loaded;
      saved := loaded;
    }

    /**
     * `add_event`: validate the date and the time, look for a conflict with
     * the default duration of 60 minutes, and append unless there is a
     * conflict the user does not confirm. `confirmed` is the user's answer,
     * lower-cased, being "так"; it is asked only on a conflict.
     */
    method AddEvent(name: string, date: string, time: string, category: string, confirmed: bool)
      returns (outcome: AddOutcome)
      requires Valid()
      modifies this
      ensures Valid()
      ensures ParseDate(date).None? || ParseTime(time).None? ==>
                outcome == InvalidFormat && events == old(events)
      ensures ParseDate(date).Some? && ParseTime(time).Some? ==>
                var c := FirstConflict(old(events), date, ParseTime(time).value, DefaultDuration);
                if c.Some? && !confirmed then
                  outcome == Declined(c.value) && events == old(events)
                else
                  outcome == Added(c) && events == old(events) + [Event(name, date, time, category)]
    {
      if ParseDate(date).None? || ParseTime(time).None? {
        return InvalidFormat;
      }
      var c := CheckConflict(events, date, time, DefaultDuration);
      if c.Some? && !confirmed {
        return Declined(c.value);
      }
      events := events + [Event(name, date, time, category)];
      saved := events;
      outcome := Added(c);
    }

    /**
     * The "видалити" command as written: `events.pop(int(k) - 1)` on the
     * insertion-ordered list, where `k` is the number the user typed. An
     * index `pop` refuses leaves the list as it was and reports an error.
     */
    method RemoveByNumber(k: int) returns (removed: Option<Event>)
      requires Valid()
      modifies this
      ensures Valid()
      ensures match PopIndex(|old(events)|, k - 1)
              case None => removed.None? && events == old(events)
              case Some(i) => removed == Some(old(events)[i]) && events == RemoveAt(old(events), i)
    {
      var idx := PopIndex(|events|, k - 1);
      if idx.None? {
        return None;
      }
      removed := Some(events[idx.value]);
      events := RemoveAt(events, idx.value);
      saved := events;
    }

    /**
     * Removal as the numbering on screen means it: number `k` of the sorted
     * list that `show_events` just printed, 1 to the length of the list. The
     * first stored occurrence of that record is the one removed.
     */
    method RemoveDisplayed(k: int) returns (removed: Option<Event>)
      requires Valid()
      modifies this
      ensures Valid()
      ensures !(1 <= k <= |old(events)|) ==> removed.None? && events == old(events)
      ensures 1 <= k <= |old(events)| ==>
                removed == Some(SortByKey(old(events))[k - 1])
                && multiset(events) == multiset(old(events)) - multiset{removed.value}
                && exists i :: 0 <= i < |old(events)| && old(events)[i] == removed.value
                     && (forall j :: 0 <= j < i ==> old(events)[j] != removed.value)
                     && events == RemoveAt(old(events), i)
    {
      if !(1 <= k <= |events|) {
        return None;
      }
      var shown := SortByKey(events);
      var target := shown[k - 1];
      SortPermutes(events);
      assert target in multiset(shown);
      var i := FirstIndexOf(events, target);
      removed := Some(target);
      events := RemoveAt(events, i);
      saved := events;
    }
  }

  /**
   * The numbers on screen are not positions in the list: with a 10:00
   * "Seminar" stored before a 09:00 "Math Lecture" on the same day, the
   * sorted list shows the lecture as number 1, yet number 1 pops the seminar.
   */
  lemma RemovalNumberMismatch()
    ensures var stored := [Event("Seminar", "2025-03-10", "10:00", "meeting"),
                           Event("Math Lecture", "2025-03-10", "09:00", "lecture")];
            SortByKey(stored)[0] == stored[1]
            && PopIndex(|stored|, 1 - 1) == Some(0)
            && stored[0] != stored[1]
  {
    var seminar := Event("Seminar", "2025-03-10", "10:00", "meeting");
    var lecture := Event("Math Lecture", "2025-03-10", "09:00", "lecture");
    assert KeyLt(lecture, seminar) by {
      assert "09:00"[0] == '0' && "10:00"[0] == '1';
    }
    assert SortByKey([lecture]) == [lecture];
    assert [seminar, lecture][1..] == [lecture];
    assert Insert(seminar, [lecture]) == [lecture, seminar];
  }

  /**
   * The same two records through the store itself: the number 1 that the
   * sorted list puts next to "Math Lecture" removes "Seminar".
   */
  method RemoveNumberOneOfMismatch() returns (shown: Event, removed: Option<Event>, left: seq<Event>)
    ensures shown.name == "Math Lecture"
    ensures removed.Some? && removed.value.name == "Seminar"
    ensures left == [shown]
  {
    var seminar := Event("Seminar", "2025-03-10", "10:00", "meeting");
    var lecture := Event("Math Lecture", "2025-03-10", "09:00", "lecture");
    var stored := [seminar, lecture];
    RemovalNumberMismatch();
    MismatchRecordsWellFormed();
    var store := new EventStore(stored);
    shown := SortByKey(store.events)[0];
    assert shown == lecture;
    assert PopIndex(2, 1 - 1) == Some(0);
    removed := store.RemoveByNumber(1);
    assert RemoveAt(stored, 0) == [lecture];
    left := store.events;
  }

  lemma {:induction false} ScenarioTimes()
    ensures ParseTime("09:00") == Some(9 * 60) && ParseTime("09:30") == Some(9 * 60 + 30)
  {
    assert "09:00"[..2] == "09" && "09:00"[3..] == "00";
    assert "09:30"[..2] == "09" && "09:30"[3..] == "30";
    assert "09"[..1] == "0" && "00"[..1] == "0" && "30"[..1] == "3";
    assert Text.Number("09") == 9 && Text.Number("00") == 0 && Text.Number("30") == 30;
  }

  lemma {:induction false} MismatchRecordsWellFormed()
    ensures AllWellFormed([Event("Seminar", "2025-03-10", "10:00", "meeting"),
                           Event("Math Lecture", "2025-03-10", "09:00", "lecture")])
  {
    ScenarioTimes();
    SeminarFacts();
  }

  lemma {:induction false} SeminarFacts()
    ensures ParseTime("10:00").Some? && ParseDate("2025-03-10").Some?
  {
    YearDigits();
    assert "10:00"[..2] == "10" && "10:00"[3..] == "00";
    assert "10"[..1] == "1" && "00"[..1] == "0";
    assert "2025-03-10"[..4] == "2025" && "2025-03-10"[5..7] == "03" && "2025-03-10"[8..] == "10";
    assert "03"[..1] == "0";
  }

  lemma {:induction false} MeetingNotBeforeLecture()
    ensures !Text.StrLt("09:30", "09:00")
  {
    assert "09:30"[1..] == "9:30" && "09:00"[1..] == "9:00";
    assert "9:30"[1..] == ":30" && "9:00"[1..] == ":00";
    assert ":30"[1..] == "30" && ":00"[1..] == "00";
  }

  /**
   * On an empty store a 09:00 "Math Lecture" goes in without conflict; a
   * 09:30 "Advisor Meeting" the same day is then reported as conflicting with
   * it; once both are stored they are listed by time.
   */
  lemma LectureThenMeeting()
    ensures var lecture := Event("Math Lecture", "2025-03-10", "09:00", "lecture");
            var meeting := Event("Advisor Meeting", "2025-03-10", "09:30", "meeting");
            ParseTime(lecture.time) == Some(9 * 60) && ParseTime(meeting.time) == Some(9 * 60 + 30)
            && FirstConflict([], lecture.date, 9 * 60, DefaultDuration).None?
            && FirstConflict([lecture], meeting.date, 9 * 60 + 30, DefaultDuration) == Some("Math Lecture")
            && SortByKey([lecture, meeting]) == [lecture, meeting]
  {
    var lecture := Event("Math Lecture", "2025-03-10", "09:00", "lecture");
    var meeting := Event("Advisor Meeting", "2025-03-10", "09:30", "meeting");
    ScenarioTimes();
    MeetingNotBeforeLecture();
    Text.StrLtIrreflexive(lecture.date);
    assert !KeyLt(meeting, lecture);
    assert SortByKey([meeting]) == [meeting];
    assert [lecture, meeting][1..] == [meeting];
  }

  /**
   * The same through the store itself: on the two records above, typing 0
   * removes the second stored record, the lecture, instead of reporting an
   * error.
   */
  method RemoveNumberZeroOfTwo() returns (removed: Option<Event>, left: seq<Event>)
    ensures removed.Some? && removed.value.name == "Math Lecture"
    ensures |left| == 1 && left[0].name == "Seminar"
  {
    var seminar := Event("Seminar", "2025-03-10", "10:00", "meeting");
    var lecture := Event("Math Lecture", "2025-03-10", "09:00", "lecture");
    var stored := [seminar, lecture];
    MismatchRecordsWellFormed();
    var store := new EventStore(stored);
    assert PopIndex(2, 0 - 1) == Some(1);
    removed := store.RemoveByNumber(0);
    assert RemoveAt(stored, 1) == [seminar];
    left := store.events;
  }

  /** Typing 0 pops index -1: the last stored record, not an error. */
  lemma NumberZeroRemovesLast(n: nat)
    requires n > 0
    ensures PopIndex(n, 0 - 1) == Some(n - 1)
  {
  }
}
