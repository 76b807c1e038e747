/**
 * The read-only views: `show_events` lists its input sorted by
 * `(date, time)` with Python's stable `sorted`; the weekly view keeps the
 * records dated from today to seven days later; the "today" view keeps the
 * records whose date string is today's. None of them changes the store.
 */
module Views {
  import opened Calendar
  import opened Events

  /** `[x for x in s if p(x)]`. */
  function Filter<T>(s: seq<T>, p: T -> bool): seq<T> {
    if s == [] then []
    else (if p(s[0]) then [s[0]] else []) + Filter(s[1..], p)
  }

  /**
   * A comprehension keeps exactly the elements that pass the test, each as
   * often as it occurs in the input.
   */
  lemma {:induction false} FilterExact<T>(s: seq<T>, p: T -> bool, x: T)
    ensures multiset(Filter(s, p))[x] == if p(x) then multiset(s)[x] else 0
    ensures x in Filter(s, p) <==> x in s && p(x)
  {
    if s != [] {
      FilterExact(s[1..], p, x);
      assert s == [s[0]] + s[1..];
    }
  }

  /** A comprehension keeps its input's order: it distributes over concatenation. */
  lemma {:induction false} FilterAppend<T>(a: seq<T>, b: seq<T>, p: T -> bool)
    ensures Filter(a + b, p) == Filter(a, p) + Filter(b, p)
  {
    if a == [] {
      assert a + b == b;
    } else {
      assert (a + b)[0] == a[0] && (a + b)[1..] == a[1..] + b;
      FilterAppend(a[1..], b, p);
      var head := if p(a[0]) then [a[0]] else [];
      calc {
        Filter(a + b, p);
        head + Filter(a[1..] + b, p);
        head + (Filter(a[1..], p) + Filter(b, p));
        (head + Filter(a[1..], p)) + Filter(b, p);
      }
    }
  }

  // ---------------------------------------------------------------------
  // The chronological sort
  // ---------------------------------------------------------------------

  /** Non-decreasing in `(date, time)`: no record has a smaller key than one before it. */
  predicate Sorted(s: seq<Event>) {
    forall i, j :: 0 <= i < j < |s| ==> !KeyLt(s[j], s[i])
  }

  /** Put `x` before the first record of `t` whose key is not smaller than its own. */
  function Insert(x: Event, t: seq<Event>): (r: seq<Event>)
    ensures |r| == |t| + 1
  {
    if t == [] then [x]
    else if KeyLt(t[0], x) then [t[0]] + Insert(x, t[1..])
    else [x] + t
  }

  /** `sorted(events, key=lambda x: (x['date'], x['time']))`. */
  function SortByKey(s: seq<Event>): (r: seq<Event>)
    ensures |r| == |s|
  {
    if s == [] then [] else Insert(s[0], SortByKey(s[1..]))
  }

  lemma {:induction false} InsertPermutes(x: Event, t: seq<Event>)
    ensures multiset(Insert(x, t)) == multiset(t) + multiset{x}
  {
    if t != [] && KeyLt(t[0], x) {
      InsertPermutes(x, t[1..]);
      assert t == [t[0]] + t[1..];
    }
  }

  lemma {:induction false} InsertSorted(x: Event, t: seq<Event>)
    requires Sorted(t)
    ensures Sorted(Insert(x, t))
  {
    if t != [] {
      var r := Insert(x, t);
      if KeyLt(t[0], x) {
        var r' := Insert(x, t[1..]);
        InsertSorted(x, t[1..]);
        InsertPermutes(x, t[1..]);
        KeyLtAsymmetric(t[0], x);
        forall j | 0 <= j < |r'| ensures !KeyLt(r'[j], t[0]) {
          assert r'[j] in multiset(r');
          if r'[j] != x {
            assert r'[j] in t[1..];
          }
        }
        assert forall j :: 1 <= j < |r| ==> r[j] == r'[j - 1];
      } else {
        forall j | 0 <= j < |t| ensures !KeyLt(t[j], x) {
          if j > 0 {
            NotAfterTransitive(x, t[0], t[j]);
          }
        }
        assert forall j :: 1 <= j < |r| ==> r[j] == t[j - 1];
      }
    }
  }

  /** The sorted view holds the same records, each as often, as its input. */
  lemma {:induction false} SortPermutes(s: seq<Event>)
    ensures multiset(SortByKey(s)) == multiset(s)
  {
    if s != [] {
      SortPermutes(s[1..]);
      InsertPermutes(s[0], SortByKey(s[1..]));
      assert s == [s[0]] + s[1..];
    }
  }

  /** The sorted view is non-decreasing in `(date, time)`. */
  lemma {:induction false} SortIsSorted(s: seq<Event>)
    ensures Sorted(SortByKey(s))
  {
    if s != [] {
      SortIsSorted(s[1..]);
      InsertSorted(s[0], SortByKey(s[1..]));
    }
  }

  /** The records that have one given key. */
  function HasKey(date: string, time: string): Event -> bool {
    (e: Event) => e.date == date && e.time == time
  }

  lemma {:induction false} InsertStable(x: Event, t: seq<Event>, date: string, time: string)
    ensures Filter(Insert(x, t), HasKey(date, time))
            == (if HasKey(date, time)(x) then [x] else []) + Filter(t, HasKey(date, time))
  {
    var p := HasKey(date, time);
    if t == [] {
    } else if KeyLt(t[0], x) {
      InsertStable(x, t[1..], date, time);
      KeyLtIrreflexive(x);
      assert ([t[0]] + Insert(x, t[1..]))[1..] == Insert(x, t[1..]);
    } else {
      assert ([x] + t)[1..] == t;
    }
  }

  /**
   * `sorted` is stable: for every key, the records with that key come out in
   * the order they went in.
   */
  lemma {:induction false} SortIsStable(s: seq<Event>, date: string, time: string)
    ensures Filter(SortByKey(s), HasKey(date, time)) == Filter(s, HasKey(date, time))
  {
    if s != [] {
      SortIsStable(s[1..], date, time);
      InsertStable(s[0], SortByKey(s[1..]), date, time);
    }
  }

  /**
   * Sorting by the key sorts by time: for well-formed records, a record
   * listed before another is not later in (day, minute).
   */
  lemma SortIsChronological(s: seq<Event>, i: int, j: int)
    requires AllWellFormed(s) && 0 <= i < j < |s|
    ensures |SortByKey(s)| == |s| && AllWellFormed(SortByKey(s))
    ensures var v := SortByKey(s);
            Moment(v[i]).0 < Moment(v[j]).0 || (Moment(v[i]).0 == Moment(v[j]).0 && Moment(v[i]).1 <= Moment(v[j]).1)
  {
    var v := SortByKey(s);
    SortIsSorted(s);
    SortPermutes(s);
    assert |v| == |multiset(v)| == |multiset(s)| == |s|;
    forall e | e in v ensures WellFormed(e) {
      assert e in multiset(v);
    }
    KeyOrderIsChronological(v[j], v[i]);
  }

  // ---------------------------------------------------------------------
  // The weekly and daily views
  // ---------------------------------------------------------------------

  /** `today <= date(e) <= today + timedelta(days=7)`, compared as dates. */
  predicate InWeek(e: Event, today: Date)
    requires ValidDate(today)
  {
    ParseDate(e.date).Some?
    && Ordinal(today) <= Ordinal(ParseDate(e.date).value) <= Ordinal(AddDays(today, 7))
  }

  function InWeekOf(today: Date): Event -> bool
    requires ValidDate(today)
  {
    (e: Event) => InWeek(e, today)
  }

  /** Every stored date parses: `show_weekly_events` raises on one that does not. */
  predicate DatesParse(events: seq<Event>) {
    forall e :: e in events ==> ParseDate(e.date).Some?
  }

  /** The list comprehension `weekly` of `show_weekly_events`. */
  function WeekFilter(events: seq<Event>, today: Date): seq<Event>
    requires ValidDate(today) && DatesParse(events)
  {
    Filter(events, InWeekOf(today))
  }

  /** What `show_weekly_events` lists: the weekly records, sorted. */
  function WeekView(events: seq<Event>, today: Date): seq<Event>
    requires ValidDate(today) && DatesParse(events)
  {
    SortByKey(WeekFilter(events, today))
  }

  /**
   * The weekly comprehension keeps exactly the records dated today or one of
   * the seven following calendar days, each as often as it is stored, in
   * store order.
   */
  lemma WeekFilterExact(events: seq<Event>, today: Date, e: Event)
    requires ValidDate(today) && DatesParse(events)
    ensures e in WeekFilter(events, today)
            <==> e in events && exists i :: 0 <= i <= 7 && ParseDate(e.date) == Some(AddDays(today, i))
    ensures multiset(WeekFilter(events, today))[e]
            == if e in events && InWeek(e, today) then multiset(events)[e] else 0
  {
    FilterExact(events, InWeekOf(today), e);
    if ParseDate(e.date).Some? {
      WeekWindow(today, ParseDate(e.date).value);
    }
  }

  /** The weekly view lists those same records, sorted by `(date, time)`. */
  lemma WeekViewExact(events: seq<Event>, today: Date)
    requires ValidDate(today) && DatesParse(events)
    ensures Sorted(WeekView(events, today))
    ensures forall e :: multiset(WeekView(events, today))[e]
                        == if InWeek(e, today) then multiset(events)[e] else 0
  {
    SortIsSorted(WeekFilter(events, today));
    SortPermutes(WeekFilter(events, today));
    forall e {
      FilterExact(events, InWeekOf(today), e);
    }
  }

  function OnDay(day: string): Event -> bool {
    (e: Event) => e.date == day
  }

  /** The comprehension `today_events` of the "today" command. */
  function TodayFilter(events: seq<Event>, today: Date): seq<Event>
    requires ValidDate(today) && today.year < 10000
  {
    Filter(events, OnDay(FormatDate(today)))
  }

  /** What the "today" command lists. */
  function TodayView(events: seq<Event>, today: Date): seq<Event>
    requires ValidDate(today) && today.year < 10000
  {
    SortByKey(TodayFilter(events, today))
  }

  /**
   * Comparing the date string with `strftime("%Y-%m-%d")` of today keeps
   * exactly the records whose date parses to today.
   */
  lemma TodayFilterExact(events: seq<Event>, today: Date, e: Event)
    requires ValidDate(today) && today.year < 10000
    ensures e in TodayFilter(events, today) <==> e in events && ParseDate(e.date) == Some(today)
  {
    FilterExact(events, OnDay(FormatDate(today)), e);
    ParseFormatDate(today);
    if ParseDate(e.date).Some? {
      FormatParseDate(e.date);
    }
  }

  lemma TodayViewExact(events: seq<Event>, today: Date)
    requires ValidDate(today) && today.year < 10000
    ensures Sorted(TodayView(events, today))
    ensures forall e :: multiset(TodayView(events, today))[e]
                        == if e.date == FormatDate(today) then multiset(events)[e] else 0
  {
    SortIsSorted(TodayFilter(events, today));
    SortPermutes(TodayFilter(events, today));
    forall e {
      FilterExact(events, OnDay(FormatDate(today)), e);
    }
  }
}
