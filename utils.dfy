/** The helpers of utils.py: the day grid of the calendar form, the
    highlighting of one category, and the shape of a signed Static Maps URL. */
module Utils {
  import opened Common
  import opened Calendar
  import opened Models

  // --- get_events_list_days_form: the date dictionaries ---

  /** strftime('%Y-%m-%d') with the year padded to four digits; CPython on
      Linux writes years below 1000 unpadded. */
  function DateKey(d: Date): string
    requires ValidDate(d)
  {
    PadTo(d.year as nat, 4) + "-" + PadTo(d.month as nat, 2) + "-" + PadTo(d.day as nat, 2)
  }

  /** The shape of a key: four digits, a dash, two digits, a dash, two digits. */
  predicate IsKey(s: string) {
    |s| == 10 && s[4] == '-' && s[7] == '-'
    && (forall j :: 0 <= j < 4 ==> IsDigit(s[j]))
    && IsDigit(s[5]) && IsDigit(s[6]) && IsDigit(s[8]) && IsDigit(s[9])
  }

  /** Reading a key back: the digits of year, month and day. */
  function ParseKey(s: string): Date
    requires IsKey(s)
  {
    Date(ParseDecimal(s[0..4]), ParseDecimal(s[5..7]), ParseDecimal(s[8..10]))
  }

  /** A key has the key shape and reads back as its date, so distinct
      dates have distinct keys. */
  lemma DateKeyRoundTrip(d: Date)
    requires ValidDate(d)
    ensures IsKey(DateKey(d)) && ParseKey(DateKey(d)) == d
  {
    var y, m, dd := PadTo(d.year as nat, 4), PadTo(d.month as nat, 2), PadTo(d.day as nat, 2);
    PadWidth(d.year as nat, 4);
    PadWidth(d.month as nat, 2);
    PadWidth(d.day as nat, 2);
    var s := y + "-" + m + "-" + dd;
    assert s[0..4] == y && s[5..7] == m && s[8..10] == dd;
  }

  lemma DateKeyInjective(a: Date, b: Date)
    requires ValidDate(a) && ValidDate(b)
    ensures DateKey(a) == DateKey(b) <==> a == b
  {
    DateKeyRoundTrip(a);
    DateKeyRoundTrip(b);
  }

  /** Every period of the event has a date_from: otherwise strftime is
      called on None. */
  predicate PeriodsDated(e: Event) {
    AllFrom(e.periods)
  }

  predicate AllFrom(ps: seq<Period>) {
    forall i :: 0 <= i < |ps| ==> ps[i].dateFrom.Some?
  }

  predicate AllDated(events: seq<Event>) {
    forall i :: 0 <= i < |events| ==> PeriodsDated(events[i])
  }

  /** The periods' date_from, in order. */
  function PeriodStamps(ps: seq<Period>): (r: seq<Timestamp>)
    requires AllFrom(ps)
    ensures |r| == |ps|
  {
    if |ps| == 0 then [] else PeriodStamps(ps[..|ps| - 1]) + [ps[|ps| - 1].dateFrom.value]
  }

  /** The datetimes the loop stores for one event: its start, then each
      period's date_from. */
  function EventStamps(e: Event): seq<Timestamp>
    requires PeriodsDated(e)
  {
    [e.start] + PeriodStamps(e.periods)
  }

  /** The datetimes stored for a sequence of events, in loop order. */
  function Stamps(events: seq<Event>): seq<Timestamp>
    requires AllDated(events)
  {
    if |events| == 0 then [] else Stamps(events[..|events| - 1]) + EventStamps(events[|events| - 1])
  }

  /** The dictionary keys those datetimes give. */
  function DatesIn(ts: seq<Timestamp>): set<Date> {
    set t | t in ts :: t.date
  }

  lemma DatesInConcat(a: seq<Timestamp>, b: seq<Timestamp>)
    ensures DatesIn(a + b) == DatesIn(a) + DatesIn(b)
  {
    forall d | d in DatesIn(a + b)
      ensures d in DatesIn(a) + DatesIn(b)
    {
      var t :| t in a + b && t.date == d;
    }
  }

  lemma {:induction false} PeriodStampsMembers(ps: seq<Period>, t: Timestamp)
    requires AllFrom(ps)
    ensures t in PeriodStamps(ps) <==> exists j :: 0 <= j < |ps| && ps[j].dateFrom == Some(t)
    decreases |ps|
  {
    if |ps| > 0 {
      var p := ps[..|ps| - 1];
      PeriodStampsMembers(p, t);
      if exists j :: 0 <= j < |ps| && ps[j].dateFrom == Some(t) {
        var j :| 0 <= j < |ps| && ps[j].dateFrom == Some(t);
        if j < |p| {
          assert p[j] == ps[j];
        }
      }
      if exists j :: 0 <= j < |p| && p[j].dateFrom == Some(t) {
        var j :| 0 <= j < |p| && p[j].dateFrom == Some(t);
        assert ps[j] == p[j];
      }
    }
  }

  /** The datetimes stored for an event are its start and its periods'
      date_from, and no others. */
  lemma EventStampsMembers(e: Event, t: Timestamp)
    requires PeriodsDated(e)
    ensures t in EventStamps(e) <==> t == e.start || exists j :: 0 <= j < |e.periods| && e.periods[j].dateFrom == Some(t)
  {
    PeriodStampsMembers(e.periods, t);
  }

  /** A datetime is stored for a sequence of events exactly when it is
      stored for one of them. */
  lemma {:induction false} StampsMembers(events: seq<Event>, t: Timestamp)
    requires AllDated(events)
    ensures t in Stamps(events) <==> exists i :: 0 <= i < |events| && t in EventStamps(events[i])
    decreases |events|
  {
    if |events| > 0 {
      var p, last := events[..|events| - 1], events[|events| - 1];
      assert Stamps(events) == Stamps(p) + EventStamps(last);
      StampsMembers(p, t);
      if t in Stamps(p) {
        var i :| 0 <= i < |p| && t in EventStamps(p[i]);
        assert events[i] == p[i];
      } else if t in EventStamps(last) {
        assert events[|events| - 1] == last;
      } else {
        forall i | 0 <= i < |events|
          ensures t !in EventStamps(events[i])
        {
          if i < |p| {
            assert events[i] == p[i];
          }
        }
      }
    }
  }

  lemma {:induction false} StampsLength(events: seq<Event>)
    requires AllDated(events)
    ensures |Stamps(events)| >= |events|
    decreases |events|
  {
    if |events| > 0 {
      StampsLength(events[..|events| - 1]);
    }
  }

  /** A dictionary of the form: each key (a date, standing for its
      '%Y-%m-%d' text) maps to a datetime on that date. */
  predicate KeyedByDate(m: map<Date, Timestamp>) {
    forall k :: k in m ==> m[k].date == k
  }

  lemma PeriodStampsStep(ps: seq<Period>, i: int)
    requires 0 <= i < |ps| && AllFrom(ps[..i]) && ps[i].dateFrom.Some?
    ensures AllFrom(ps[..i + 1])
    ensures DatesIn(PeriodStamps(ps[..i + 1])) == DatesIn(PeriodStamps(ps[..i])) + {ps[i].dateFrom.value.date}
  {
    assert ps[..i + 1][..i] == ps[..i];
    DatesInConcat(PeriodStamps(ps[..i]), [ps[i].dateFrom.value]);
  }

  /** The inner loop `for period in event.periods.all()`. */
  method AddPeriodDates(m: map<Date, Timestamp>, ps: seq<Period>) returns (r: Result<map<Date, Timestamp>, Raised>)
    requires KeyedByDate(m)
    ensures r.Ok? <==> AllFrom(ps)
    ensures r.Err? ==> r.error == AttributeError
    ensures r.Ok? ==> KeyedByDate(r.value) && r.value.Keys == m.Keys + DatesIn(PeriodStamps(ps))
  {
    var dates := m;
    var i := 0;
    while i < |ps|
      invariant 0 <= i <= |ps| && AllFrom(ps[..i])
      invariant KeyedByDate(dates) && dates.Keys == m.Keys + DatesIn(PeriodStamps(ps[..i]))
    {
      var period := ps[i];
      if period.dateFrom.None? {
        return Err(AttributeError);
      }
      PeriodStampsStep(ps, i);
      dates := dates[period.dateFrom.value.date := period.dateFrom.value];
      i := i + 1;
    }
    assert ps[..i] == ps;
    return Ok(dates);
  }

  /** The body of the outer loop for one event: its start, then its periods. */
  method AddEventDates(m: map<Date, Timestamp>, e: Event) returns (r: Result<map<Date, Timestamp>, Raised>)
    requires KeyedByDate(m)
    ensures r.Ok? <==> PeriodsDated(e)
    ensures r.Err? ==> r.error == AttributeError
    ensures r.Ok? ==> KeyedByDate(r.value) && r.value.Keys == m.Keys + DatesIn(EventStamps(e))
  {
    var dates := m[e.start.date := e.start];
    r := AddPeriodDates(dates, e.periods);
    if r.Ok? {
      DatesInConcat([e.start], PeriodStamps(e.periods));
    }
  }

  lemma StampsStep(events: seq<Event>, i: int)
    requires 0 <= i < |events| && AllDated(events[..i]) && PeriodsDated(events[i])
    ensures AllDated(events[..i + 1])
    ensures DatesIn(Stamps(events[..i + 1])) == DatesIn(Stamps(events[..i])) + DatesIn(EventStamps(events[i]))
  {
    assert events[..i + 1][..i] == events[..i];
    DatesInConcat(Stamps(events[..i]), EventStamps(events[i]));
  }

  /** The loop `for event in ...` filling a date dictionary. */
  method AddDates(m: map<Date, Timestamp>, events: seq<Event>) returns (r: Result<map<Date, Timestamp>, Raised>)
    requires KeyedByDate(m)
    ensures r.Ok? <==> AllDated(events)
    ensures r.Err? ==> r.error == AttributeError
    ensures r.Ok? ==> KeyedByDate(r.value) && r.value.Keys == m.Keys + DatesIn(Stamps(events))
  {
    var dates := m;
    var i := 0;
    while i < |events|
      invariant 0 <= i <= |events|
      invariant AllDated(events[..i])
      invariant KeyedByDate(dates) && dates.Keys == m.Keys + DatesIn(Stamps(events[..i]))
    {
      var next := AddEventDates(dates, events[i]);
      if next.Err? {
        return Err(AttributeError);
      }
      StampsStep(events, i);
      dates := next.value;
      i := i + 1;
    }
    assert events[..i] == events;
    return Ok(dates);
  }

  // --- get_events_list_days_form: the location filter ---

  /** The event's location is one of those titled in `locations`. */
  predicate AtLocation(e: Event, locations: seq<string>) {
    e.location.Some? && e.location.value.title in locations
  }

  /** location__in=EventLocation.objects.filter(title__in=locations). */
  function AtLocations(locations: seq<string>): Event -> bool {
    (e: Event) => AtLocation(e, locations)
  }

  lemma FilterDated(published: seq<Event>, locations: seq<string>)
    requires AllDated(published)
    ensures AllDated(Filter(published, AtLocations(locations)))
  {
    var matching := Filter(published, AtLocations(locations));
    forall i | 0 <= i < |matching|
      ensures PeriodsDated(matching[i])
    {
      assert matching[i] in published;
    }
  }

  /** The keys of events_filtred: the dates of the events at the given
      locations when a location is given and some event is there; every
      date otherwise. */
  function FilteredDates(published: seq<Event>, locations: seq<string>): set<Date>
    requires AllDated(published)
  {
    var matching := Filter(published, AtLocations(locations));
    FilterDated(published, locations);
    if |locations| > 0 && |matching| > 0 then DatesIn(Stamps(matching)) else DatesIn(Stamps(published))
  }

  /** The dates of some of the events are among the dates of all. */
  lemma StampsSubset(sub: seq<Event>, events: seq<Event>)
    requires AllDated(events) && AllDated(sub)
    requires forall e :: e in sub ==> e in events
    ensures DatesIn(Stamps(sub)) <= DatesIn(Stamps(events))
  {
    forall d | d in DatesIn(Stamps(sub))
      ensures d in DatesIn(Stamps(events))
    {
      var t :| t in Stamps(sub) && t.date == d;
      StampsMembers(sub, t);
      var i :| 0 <= i < |sub| && t in EventStamps(sub[i]);
      assert sub[i] in events;
      var j :| 0 <= j < |events| && events[j] == sub[i];
      StampsMembers(events, t);
    }
  }

  /** The filtered dates are among all the dates. */
  lemma FilteredSubset(published: seq<Event>, locations: seq<string>)
    requires AllDated(published)
    ensures FilteredDates(published, locations) <= DatesIn(Stamps(published))
  {
    FilterDated(published, locations);
    StampsSubset(Filter(published, AtLocations(locations)), published);
  }

  /** With no location given, or no event at one, nothing is filtered out. */
  lemma FilteredWithoutMatch(published: seq<Event>, locations: seq<string>)
    requires AllDated(published)
    requires |locations| == 0 || forall e :: e in published ==> !AtLocation(e, locations)
    ensures FilteredDates(published, locations) == DatesIn(Stamps(published))
  {
  }

  /** With a location given and an event there, a date is filtered exactly
      when some event at one of the locations stores it. */
  lemma FilteredWithMatch(published: seq<Event>, locations: seq<string>, d: Date)
    requires AllDated(published)
    requires |locations| > 0 && exists e :: e in published && AtLocation(e, locations)
    ensures d in FilteredDates(published, locations) <==>
              exists e :: e in published && AtLocation(e, locations) && PeriodsDated(e) && d in DatesIn(EventStamps(e))
  {
    var matching := Filter(published, AtLocations(locations));
    FilterDated(published, locations);
    var e0 :| e0 in published && AtLocation(e0, locations);
    assert e0 in matching;
    if d in DatesIn(Stamps(matching)) {
      var t :| t in Stamps(matching) && t.date == d;
      StampsMembers(matching, t);
      var i :| 0 <= i < |matching| && t in EventStamps(matching[i]);
      assert matching[i] in published;
    }
    if exists e :: e in published && AtLocation(e, locations) && PeriodsDated(e) && d in DatesIn(EventStamps(e)) {
      var e :| e in published && AtLocation(e, locations) && PeriodsDated(e) && d in DatesIn(EventStamps(e));
      assert e in matching;
      var i :| 0 <= i < |matching| && matching[i] == e;
      var t :| t in EventStamps(e) && t.date == d;
      StampsMembers(matching, t);
    }
  }

  // --- get_events_list_days_form: the day grid ---

  /** n consecutive days from lo: pd.date_range with one day per step. */
  function DaysFrom(lo: Date, n: nat): (r: seq<Date>)
    ensures |r| == n
    ensures n > 0 ==> r[0] == lo
    decreases n
  {
    if n == 0 then [] else if n == 1 then [lo]
    else
      var p := DaysFrom(lo, n - 1);
      p + [NextDay(p[n - 2])]
  }

  lemma DaysFromStep(lo: Date, days: seq<Date>)
    requires 1 <= |days| && days == DaysFrom(lo, |days|)
    ensures days + [NextDay(days[|days| - 1])] == DaysFrom(lo, |days| + 1)
  {
  }

  /** The days of DaysFrom are valid and have consecutive ordinals. */
  lemma {:induction false} DaysFromOrdinals(lo: Date, n: nat)
    requires ValidDate(lo) && Ordinal(lo) + n - 1 <= Ordinal(Date(MaxYear, 12, 31))
    ensures forall i :: 0 <= i < n ==> ValidDate(DaysFrom(lo, n)[i]) && Ordinal(DaysFrom(lo, n)[i]) == Ordinal(lo) + i
    decreases n
  {
    if n > 1 {
      DaysFromOrdinals(lo, n - 1);
      var p := DaysFrom(lo, n - 1);
      OrdinalAtMostMax(p[n - 2]);
      NextDayOrdinal(p[n - 2]);
      assert DaysFrom(lo, n) == p + [NextDay(p[n - 2])];
    }
  }

  /** The earliest of a set of valid dates. */
  predicate IsEarliest(d: Date, s: set<Date>) {
    d in s && forall k :: k in s ==> Ordinal(d) <= Ordinal(k)
  }

  predicate IsLatest(d: Date, s: set<Date>) {
    d in s && forall k :: k in s ==> Ordinal(k) <= Ordinal(d)
  }

  predicate AllValid(s: set<Date>) {
    forall k :: k in s ==> ValidDate(k)
  }

  /** min(keys): the loop min() runs over the dictionary's keys. */
  method EarliestKey(keys: set<Date>) returns (lo: Date)
    requires keys != {}
    ensures IsEarliest(lo, keys)
  {
    var rest := keys;
    lo :| lo in rest;
    rest := rest - {lo};
    while rest != {}
      invariant rest <= keys && lo in keys
      invariant forall k :: k in keys && k !in rest ==> Ordinal(lo) <= Ordinal(k)
      decreases |rest|
    {
      var k :| k in rest;
      if Ordinal(k) < Ordinal(lo) {
        lo := k;
      }
      rest := rest - {k};
    }
  }

  /** max(keys). */
  method LatestKey(keys: set<Date>) returns (hi: Date)
    requires keys != {}
    ensures IsLatest(hi, keys)
  {
    var rest := keys;
    hi :| hi in rest;
    rest := rest - {hi};
    while rest != {}
      invariant rest <= keys && hi in keys
      invariant forall k :: k in keys && k !in rest ==> Ordinal(k) <= Ordinal(hi)
      decreases |rest|
    {
      var k :| k in rest;
      if Ordinal(hi) < Ordinal(k) {
        hi := k;
      }
      rest := rest - {k};
    }
  }

  /** pd.date_range(start, end, normalize=True) on two dates: every day
      from the first to the last, both included. */
  method DateRange(lo: Date, hi: Date) returns (days: seq<Date>)
    requires ValidDate(lo) && ValidDate(hi) && Ordinal(lo) <= Ordinal(hi)
    ensures days == DaysBetween(lo, hi)
  {
    var day := lo;
    days := [lo];
    OrdinalAtMostMax(hi);
    while Ordinal(day) < Ordinal(hi)
      invariant 1 <= |days| && days == DaysFrom(lo, |days|) && day == days[|days| - 1]
      invariant ValidDate(day) && Ordinal(day) == Ordinal(lo) + |days| - 1 <= Ordinal(hi)
      decreases Ordinal(hi) - Ordinal(day)
    {
      OrdinalAtMostMax(day);
      NextDayOrdinal(day);
      DaysFromStep(lo, days);
      day := NextDay(day);
      days := days + [day];
    }
  }

  /** The two values of an entry's 'disabled'. */
  const Disabled: string := "disabled"
  const Enabled: string := ""

  /** One item of the result: (day_k, {'label': ..., 'disabled': ...}). */
  datatype DayEntry = DayEntry(key: string, caption: string, disabled: string)

  function Entry(day: Date, filtered: set<Date>): DayEntry
    requires ValidDate(day)
  {
    DayEntry(DateKey(day), DecimalString(day.day as nat), if day in filtered then Enabled else Disabled)
  }

  /** The entries of the given days. */
  function Entries(days: seq<Date>, filtered: set<Date>): seq<DayEntry>
    requires forall i :: 0 <= i < |days| ==> ValidDate(days[i])
  {
    MapSeq(days, (d: Date) requires ValidDate(d) => Entry(d, filtered))
  }

  /** The items of day_dict: each day under its text. */
  function KeyedDays(days: seq<Date>): seq<(string, Date)>
    requires forall i :: 0 <= i < |days| ==> ValidDate(days[i])
  {
    MapSeq(days, (d: Date) requires ValidDate(d) => (DateKey(d), d))
  }

  lemma KeyedDaysStep(days: seq<Date>, i: int)
    requires 0 <= i < |days| && forall j :: 0 <= j < |days| ==> ValidDate(days[j])
    ensures KeyedDays(days[..i + 1]) == KeyedDays(days[..i]) + [(DateKey(days[i]), days[i])]
  {
    MapSeqStep(days, (d: Date) requires ValidDate(d) => (DateKey(d), d), i);
  }

  /** The day_dict loop: one item per day, keyed by its text. */
  method DayDict(days: seq<Date>) returns (dayDict: seq<(string, Date)>)
    requires forall i :: 0 <= i < |days| ==> ValidDate(days[i])
    ensures dayDict == KeyedDays(days)
  {
    dayDict := [];
    for i := 0 to |days|
      invariant dayDict == KeyedDays(days[..i])
    {
      KeyedDaysStep(days, i);
      dayDict := dayDict + [(DateKey(days[i]), days[i])];
    }
    assert days[..|days|] == days;
  }

  /** Days with distinct dates have distinct keys: the ordered dictionary
      keeps one item per day. */
  lemma DayDictKeysDistinct(days: seq<Date>)
    requires forall i :: 0 <= i < |days| ==> ValidDate(days[i])
    requires forall i, j :: 0 <= i < j < |days| ==> days[i] != days[j]
    ensures forall i, j :: 0 <= i < j < |days| ==> DateKey(days[i]) != DateKey(days[j])
  {
    forall i, j | 0 <= i < j < |days|
      ensures DateKey(days[i]) != DateKey(days[j])
    {
      DateKeyInjective(days[i], days[j]);
    }
  }

  lemma EntriesStep(days: seq<Date>, filtered: set<Date>, i: int)
    requires 0 <= i < |days| && forall j :: 0 <= j < |days| ==> ValidDate(days[j])
    ensures Entries(days[..i + 1], filtered) == Entries(days[..i], filtered) + [Entry(days[i], filtered)]
  {
    MapSeqStep(days, (d: Date) requires ValidDate(d) => Entry(d, filtered), i);
  }

  /** The last loop: each item gets its label and its disabled flag. */
  method DayEntries(dayDict: seq<(string, Date)>, filtered: map<Date, Timestamp>, ghost days: seq<Date>)
    returns (eventsByDay: seq<DayEntry>)
    requires forall i :: 0 <= i < |days| ==> ValidDate(days[i])
    requires dayDict == KeyedDays(days)
    ensures eventsByDay == Entries(days, filtered.Keys)
  {
    eventsByDay := [];
    for i := 0 to |dayDict|
      invariant eventsByDay == Entries(days[..i], filtered.Keys)
    {
      var (dayK, dayV) := dayDict[i];
      assert dayK == DateKey(days[i]) && dayV == days[i];
      var disabled := Enabled;
      if dayV !in filtered {
        disabled := Disabled;
      }
      EntriesStep(days, filtered.Keys, i);
      eventsByDay := eventsByDay + [DayEntry(dayK, DecimalString(dayV.day as nat), disabled)];
    }
    assert days[..|days|] == days;
  }

  // --- get_events_list_days_form ---

  /** The event's start and its periods' date_from are real dates. */
  predicate DatesValid(e: Event) {
    ValidDate(e.start.date) && forall i :: 0 <= i < |e.periods| && e.periods[i].dateFrom.Some? ==>
                                 ValidDate(e.periods[i].dateFrom.value.date)
  }

  predicate AllDatesValid(events: seq<Event>) {
    forall i :: 0 <= i < |events| ==> DatesValid(events[i])
  }

  lemma StampsValid(events: seq<Event>)
    requires AllDated(events) && AllDatesValid(events)
    ensures AllValid(DatesIn(Stamps(events)))
  {
    forall d | d in DatesIn(Stamps(events))
      ensures ValidDate(d)
    {
      var t :| t in Stamps(events) && t.date == d;
      StampsMembers(events, t);
      var i :| 0 <= i < |events| && t in EventStamps(events[i]);
      EventStampsMembers(events[i], t);
      if t != events[i].start {
        var j :| 0 <= j < |events[i].periods| && events[i].periods[j].dateFrom == Some(t);
      }
    }
  }

  /** With at least one event there is at least one date. */
  lemma DatesNonEmpty(events: seq<Event>)
    requires AllDated(events) && |events| > 0
    ensures DatesIn(Stamps(events)) != {}
  {
    StampsLength(events);
    var t := Stamps(events)[0];
    assert t.date in DatesIn(Stamps(events));
  }

  /** The earliest and latest of the dates, for the contracts. */
  ghost function Earliest(s: set<Date>): (d: Date)
    requires s != {}
    ensures IsEarliest(d, s)
  {
    EarliestExists(s);
    var d :| IsEarliest(d, s);
    d
  }

  ghost function Latest(s: set<Date>): (d: Date)
    requires s != {}
    ensures IsLatest(d, s)
  {
    LatestExists(s);
    var d :| IsLatest(d, s);
    d
  }

  lemma EarliestExists(s: set<Date>)
    requires s != {}
    ensures exists d :: IsEarliest(d, s)
    decreases |s|
  {
    var x :| x in s;
    if s != {x} {
      EarliestExists(s - {x});
      var m :| IsEarliest(m, s - {x});
      if Ordinal(x) <= Ordinal(m) {
        assert IsEarliest(x, s);
      } else {
        assert IsEarliest(m, s);
      }
    } else {
      assert IsEarliest(x, s);
    }
  }

  lemma LatestExists(s: set<Date>)
    requires s != {}
    ensures exists d :: IsLatest(d, s)
    decreases |s|
  {
    var x :| x in s;
    if s != {x} {
      LatestExists(s - {x});
      var m :| IsLatest(m, s - {x});
      if Ordinal(m) <= Ordinal(x) {
        assert IsLatest(x, s);
      } else {
        assert IsLatest(m, s);
      }
    } else {
      assert IsLatest(x, s);
    }
  }

  /** Among valid dates there is one earliest and one latest. */
  lemma ExtremesUnique(a: Date, b: Date, s: set<Date>)
    requires AllValid(s)
    requires (IsEarliest(a, s) && IsEarliest(b, s)) || (IsLatest(a, s) && IsLatest(b, s))
    ensures a == b
  {
    OrdinalOrder(a, b);
  }

  /** Every day from lo to hi, both included. */
  function DaysBetween(lo: Date, hi: Date): (days: seq<Date>)
    requires ValidDate(lo) && ValidDate(hi) && Ordinal(lo) <= Ordinal(hi)
    ensures |days| > 0 && forall i :: 0 <= i < |days| ==> ValidDate(days[i])
  {
    OrdinalAtMostMax(hi);
    DaysFromOrdinals(lo, Ordinal(hi) - Ordinal(lo) + 1);
    DaysFrom(lo, Ordinal(hi) - Ordinal(lo) + 1)
  }

  /** Every day from the earliest of the dates to the latest. */
  ghost function DayRange(all: set<Date>): (days: seq<Date>)
    requires all != {} && AllValid(all)
    ensures |days| > 0 && forall i :: 0 <= i < |days| ==> ValidDate(days[i])
  {
    DaysBetween(Earliest(all), Latest(all))
  }

  /** The days of the form: the range of the stored dates. */
  ghost function FormDays(published: seq<Event>): (days: seq<Date>)
    requires AllDated(published) && |published| > 0 && AllDatesValid(published)
    ensures |days| > 0 && forall i :: 0 <= i < |days| ==> ValidDate(days[i])
  {
    DatesNonEmpty(published);
    StampsValid(published);
    DayRange(DatesIn(Stamps(published)))
  }

  /** The result get_events_list_days_form promises once every date is
      known: an entry per day of FormDays. */
  ghost function DaysForm(published: seq<Event>, locations: seq<string>): seq<DayEntry>
    requires AllDated(published) && |published| > 0 && AllDatesValid(published)
  {
    Entries(FormDays(published), FilteredDates(published, locations))
  }

  /** get_events_list_days_form over the published events (their order
      does not matter: only sets of dates are kept). It raises
      AttributeError when a period has no date_from, and ValueError from
      min() when there is no event at all. */
  method EventsListDaysForm(published: seq<Event>, locations: seq<string>) returns (r: Result<seq<DayEntry>, Raised>)
    requires AllDatesValid(published)
    ensures r.Err? <==> !AllDated(published) || |published| == 0
    ensures r.Err? ==> r.error == if !AllDated(published) then AttributeError else ValueError
    ensures r.Ok? ==> r.value == DaysForm(published, locations)
  {
    var allDates := AddDates(map[], published);
    if allDates.Err? {
      return Err(AttributeError);
    }
    var eventsAllDate := allDates.value;
    var eventsFiltred := eventsAllDate;
    if |locations| > 0 {
      var matching := Filter(published, AtLocations(locations));
      if |matching| > 0 {
        eventsFiltred := map[];
      }
      FilterDated(published, locations);
      var filled := AddDates(eventsFiltred, matching);
      eventsFiltred := filled.value;
    }
    assert eventsFiltred.Keys == FilteredDates(published, locations);
    if eventsAllDate.Keys == {} {
      if |published| > 0 {
        DatesNonEmpty(published);
      }
      return Err(ValueError);
    }
    StampsValid(published);
    assert eventsAllDate.Keys == DatesIn(Stamps(published));
    var eventsByDay := DayGrid(eventsAllDate, eventsFiltred);
    DaysFormOf(published, locations);
    return Ok(eventsByDay);
  }

  lemma DaysFormOf(published: seq<Event>, locations: seq<string>)
    requires AllDated(published) && |published| > 0 && AllDatesValid(published)
    ensures DatesIn(Stamps(published)) != {} && AllValid(DatesIn(Stamps(published)))
    ensures DaysForm(published, locations) == Entries(DayRange(DatesIn(Stamps(published))), FilteredDates(published, locations))
  {
    DatesNonEmpty(published);
    StampsValid(published);
  }

  /** The part after the dictionaries are filled: the range from the
      smallest key to the largest, then one entry per day. */
  method DayGrid(eventsAllDate: map<Date, Timestamp>, eventsFiltred: map<Date, Timestamp>) returns (eventsByDay: seq<DayEntry>)
    requires eventsAllDate.Keys != {} && AllValid(eventsAllDate.Keys) && KeyedByDate(eventsAllDate)
    ensures eventsByDay == Entries(DayRange(eventsAllDate.Keys), eventsFiltred.Keys)
  {
    var minKey := EarliestKey(eventsAllDate.Keys);
    var maxKey := LatestKey(eventsAllDate.Keys);
    var lo, hi := eventsAllDate[minKey].date, eventsAllDate[maxKey].date;
    RangeOfExtremes(eventsAllDate.Keys, lo, hi);
    var dayList := DateRange(lo, hi);
    var dayDict := DayDict(dayList);
    eventsByDay := DayEntries(dayDict, eventsFiltred, dayList);
  }

  lemma RangeOfExtremes(all: set<Date>, lo: Date, hi: Date)
    requires AllValid(all) && IsEarliest(lo, all) && IsLatest(hi, all)
    ensures ValidDate(lo) && ValidDate(hi) && Ordinal(lo) <= Ordinal(hi)
    ensures DayRange(all) == DaysBetween(lo, hi)
  {
    ExtremesUnique(lo, Earliest(all), all);
    ExtremesUnique(hi, Latest(all), all);
  }

  /** The days of the form run without a gap from the earliest stored date
      to the latest, so every stored date has its day. */
  lemma FormDaysSpec(published: seq<Event>)
    requires AllDated(published) && |published| > 0 && AllDatesValid(published)
    ensures var all := DatesIn(Stamps(published));
            var days := FormDays(published);
            && days[0] == Earliest(all) && days[|days| - 1] == Latest(all)
            && (forall i :: 0 <= i < |days| ==> Ordinal(days[i]) == Ordinal(days[0]) + i)
            && (forall d :: d in all ==> exists i :: 0 <= i < |days| && days[i] == d)
  {
    var all := DatesIn(Stamps(published));
    DatesNonEmpty(published);
    StampsValid(published);
    var lo, hi := Earliest(all), Latest(all);
    OrdinalAtMostMax(hi);
    var n := Ordinal(hi) - Ordinal(lo) + 1;
    DaysFromOrdinals(lo, n);
    var days := DaysFrom(lo, n);
    assert days == FormDays(published);
    OrdinalOrder(days[n - 1], hi);
    forall d | d in all
      ensures exists i :: 0 <= i < n && days[i] == d
    {
      var i := Ordinal(d) - Ordinal(lo);
      OrdinalOrder(days[i], d);
    }
  }

  /** Each entry of the form: its key reads back as its day, its label is
      the day of the month, and it is disabled exactly when its day is not
      among the filtered dates (enabled entries carry ''). */
  lemma DaysFormEntries(published: seq<Event>, locations: seq<string>, i: int)
    requires AllDated(published) && |published| > 0 && AllDatesValid(published)
    requires 0 <= i < |FormDays(published)|
    ensures var form, days := DaysForm(published, locations), FormDays(published);
            && |form| == |days|
            && IsKey(form[i].key) && ParseKey(form[i].key) == days[i]
            && form[i].caption == DecimalString(days[i].day as nat)
            && (form[i].disabled == Disabled <==> days[i] !in FilteredDates(published, locations))
            && (form[i].disabled != Disabled ==> form[i].disabled == Enabled)
  {
    DateKeyRoundTrip(FormDays(published)[i]);
  }

  // --- categorie_manager ---

  /** An item of the result: the category pair as it came, or the pair
      with a class and the original label. */
  datatype Choice = Plain(key: string, caption: string) | Highlighted(key: string, cls: string, caption: string)

  /** One entry of categorie_manager; `lower` is Python's str.lower. */
  function Highlight(category: (string, string), highlight: Option<string>, lower: string -> string): Choice {
    if highlight.Some? && category.0 == highlight.value then Highlighted(category.0, lower(highlight.value), category.1)
    else Plain(category.0, category.1)
  }

  /** categorie_manager. `highlight` is CATEGORY_TO_HIGHLIGHT, None when
      the setting is absent; the list is then returned as it is. `lower`
      is Python's str.lower, left as a parameter since it follows the full
      Unicode case tables. */
  method CategoryManager(categories: seq<(string, string)>, highlight: Option<string>, lower: string -> string) returns (r: seq<Choice>)
    ensures |r| == |categories|
    ensures forall i :: 0 <= i < |categories| ==> r[i] == Highlight(categories[i], highlight, lower)
  {
    if highlight.Some? {
      r := [];
      for i := 0 to |categories|
        invariant |r| == i
        invariant forall j :: 0 <= j < i ==> r[j] == Highlight(categories[j], highlight, lower)
      {
        var category := categories[i];
        if category.0 == highlight.value {
          r := r + [Highlighted(category.0, lower(highlight.value), category.1)];
        } else {
          r := r + [Plain(category.0, category.1)];
        }
      }
    } else {
      r := seq(|categories|, i requires 0 <= i < |categories| => Plain(categories[i].0, categories[i].1));
    }
  }

  /** The pair a choice came from. */
  function Unhighlight(c: Choice): (string, string) {
    (c.key, c.caption)
  }

  /** Highlighting keeps every pair (removing it gives the category back),
      marks exactly the entries whose key is the setting, with the setting
      in lower case as the class, and leaves everything alone without the
      setting. */
  lemma HighlightSpec(category: (string, string), highlight: Option<string>, lower: string -> string)
    ensures Unhighlight(Highlight(category, highlight, lower)) == category
    ensures Highlight(category, highlight, lower).Highlighted? <==> highlight == Some(category.0)
    ensures Highlight(category, highlight, lower).Highlighted? ==> Highlight(category, highlight, lower).cls == lower(category.0)
  {
  }

  /** With the ASCII lower-casing, which is what str.lower does on ASCII
      text, the class holds no upper-case letter. */
  lemma HighlightAsciiClass(category: (string, string), highlight: Option<string>)
    ensures Highlight(category, highlight, LowerAscii).Highlighted? ==>
              forall j :: 0 <= j < |Highlight(category, highlight, LowerAscii).cls| ==> !('A' <= Highlight(category, highlight, LowerAscii).cls[j] <= 'Z')
  {
  }

  // --- sign_url ---

  /** The parts of urlparse's result the signer uses. */
  datatype UrlParts = UrlParts(scheme: string, netloc: string, path: string, query: string)

  /** sign_url over the bytes google_static_map passes, decoded to text.
      urlparse and the HMAC-SHA1 signature (with the base64 steps around
      it) are parameters: `sign(secret, text)` is the encoded signature of
      text under secret. A missing or empty URL or secret raises. */
  function SignUrl(inputUrl: Option<string>, secret: Option<string>,
                   parse: string -> UrlParts, sign: (string, string) -> string): (r: Result<string, Raised>)
    ensures r.Err? <==> inputUrl.None? || |inputUrl.value| == 0 || secret.None? || |secret.value| == 0
    ensures r.Err? ==> r.error == MissingArgument
  {
    if inputUrl.None? || |inputUrl.value| == 0 || secret.None? || |secret.value| == 0 then Err(MissingArgument)
    else
      var url := parse(inputUrl.value);
      var urlToSign := url.path + "?" + url.query;
      var signature := sign(secret.value, urlToSign);
      var originalUrl := url.scheme + "://" + url.netloc + url.path + "?" + url.query;
      Ok(originalUrl + "&signature=" + signature)
  }

  /** A signed URL is the URL rebuilt from its parts, then "&signature="
      and the signature of its path and query: the part in front of the
      signature depends on the parts only, and the signature on the path,
      the query and the secret only. */
  lemma SignUrlShape(inputUrl: string, secret: string, parse: string -> UrlParts, sign: (string, string) -> string)
    requires |inputUrl| > 0 && |secret| > 0
    ensures var url := parse(inputUrl);
            var sig := sign(secret, url.path + "?" + url.query);
            var r := SignUrl(Some(inputUrl), Some(secret), parse, sign);
            var front := url.scheme + "://" + url.netloc + url.path + "?" + url.query;
            r.Ok? && |r.value| == |front| + 11 + |sig|
            && r.value[..|front|] == front
            && r.value[|front|..|front| + 11] == "&signature="
            && r.value[|front| + 11..] == sig
  {
    var url := parse(inputUrl);
    var sig := sign(secret, url.path + "?" + url.query);
    var front := url.scheme + "://" + url.netloc + url.path + "?" + url.query;
    var s := front + "&signature=" + sig;
    assert s[..|front|] == front;
    assert s[|front|..|front| + 11] == "&signature=";
    assert s[|front| + 11..] == sig;
  }

  /** Two URLs with the same path and query, signed with the same secret,
      carry the same signature whatever their scheme and host. */
  lemma SignatureIgnoresHost(a: string, b: string, secret: string, parse: string -> UrlParts, sign: (string, string) -> string)
    requires |a| > 0 && |b| > 0 && |secret| > 0
    requires parse(a).path == parse(b).path && parse(a).query == parse(b).query
    ensures var ra, rb := SignUrl(Some(a), Some(secret), parse, sign).value, SignUrl(Some(b), Some(secret), parse, sign).value;
            var sig := sign(secret, parse(a).path + "?" + parse(a).query);
            ra[|ra| - |sig|..] == sig && rb[|rb| - |sig|..] == sig
  {
    SignUrlShape(a, secret, parse, sign);
    SignUrlShape(b, secret, parse, sign);
  }
}
