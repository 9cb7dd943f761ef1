/** The list and archive views: the week window, the month list and the
    month buckets both views return, the archive's season window and month
    filter, the listing's query and tag cleanup, and the location list. */
module Views {
  import opened Common
  import opened Calendar
  import opened Models

  /** The failures of the views. KeyConcatenation is the TypeError of
      `str + MONTH_CHOICES[month]`: the lazy translation proxy of Django
      1.10 copies the methods of `str`, which has no `__radd__`. */
  datatype ViewError = NotFound | MultipleObjectsReturned | InvalidDate | KeyConcatenation

  // --- next_weekday / week_day_range (on Python ordinals) ---

  lemma WeekdayShift(d: int, k: int)
    requires k >= 0
    ensures Weekday(d + k) == (Weekday(d) + k) % 7
  {
    var q := (d + 6) / 7;
    assert d + 6 == 7 * q + Weekday(d);
    assert d + k + 6 == 7 * q + (Weekday(d) + k);
  }

  /** next_weekday(d, weekday) on the ordinal of d. */
  function NextWeekday(d: int, weekday: int): (r: int)
    requires 0 <= weekday < 7
    ensures d < r <= d + 7
    ensures Weekday(r) == weekday
    ensures forall x :: d < x < r ==> Weekday(x) != weekday
  {
    var ahead := weekday - Weekday(d);
    var step := if ahead <= 0 then ahead + 7 else ahead;
    WeekdayShift(d, step);
    assert forall x :: d < x < d + step ==> Weekday(x) != weekday by {
      forall x | d < x < d + step ensures Weekday(x) != weekday {
        WeekdayShift(d, x - d);
      }
    }
    d + step
  }

  /** The ordinal of date(9999, 12, 31), the last date Python represents. */
  function MaxOrdinal(): int {
    Ordinal(Date(MaxYear, 12, 31))
  }

  /** week_day_range(year, week) as a pair of ordinals; date() and date
      arithmetic fail outside years 1 to 9999. */
  function WeekDayRange(year: int, week: int): (r: Result<(int, int), ViewError>)
    ensures r.Ok? ==>
              var (lower, higher) := r.value;
              && 1 <= year <= MaxYear
              && lower == NextWeekday(Ordinal(Date(year, 1, 1)), 0) + 7 * (week - 1)
              && higher == lower + 6
              && 1 <= lower && higher <= MaxOrdinal()
    ensures r.Err? <==>
              !(1 <= year <= MaxYear) ||
              var lower := NextWeekday(Ordinal(Date(year, 1, 1)), 0) + 7 * (week - 1);
              lower < 1 || lower + 6 > MaxOrdinal()
  {
    if !(1 <= year <= MaxYear) then Err(InvalidDate)
    else
      var lower := NextWeekday(Ordinal(Date(year, 1, 1)), 0) + 7 * (week - 1);
      if lower < 1 || lower > MaxOrdinal() then Err(InvalidDate)
      else if lower + 6 > MaxOrdinal() then Err(InvalidDate)
      else Ok((lower, lower + 6))
  }

  /** A week range runs from a Monday to the following Sunday, its Monday
      comes strictly after 1 January when week >= 1, and consecutive week
      numbers give adjacent ranges. */
  lemma WeekDayRangeShape(year: int, week: int)
    requires WeekDayRange(year, week).Ok?
    ensures var (lower, higher) := WeekDayRange(year, week).value;
            && Weekday(lower) == 0 && Weekday(higher) == 6
            && (week >= 1 ==> Ordinal(Date(year, 1, 1)) < lower)
            && (WeekDayRange(year, week + 1).Ok? ==> WeekDayRange(year, week + 1).value.0 == higher + 1)
  {
    var (lower, higher) := WeekDayRange(year, week).value;
    var first := NextWeekday(Ordinal(Date(year, 1, 1)), 0);
    WeeksFromMonday(first, week - 1);
    WeekdayShift(lower, 6);
  }

  /** Whole weeks away from a Monday, forwards or backwards, is a Monday. */
  lemma WeeksFromMonday(first: int, weeks: int)
    requires Weekday(first) == 0
    ensures Weekday(first + 7 * weeks) == 0
  {
    var m := first + 7 * weeks;
    if weeks >= 0 {
      WeekdayShift(first, 7 * weeks);
    } else {
      WeekdayShift(m, 7 * -weeks);
      assert m + 7 * -weeks == first;
    }
  }

  // --- The month list ---

  /** A (month, year) pair of values_list('start__month', 'start__year'). */
  datatype MonthKey = MonthKey(month: int, year: int)

  function KeyOf(e: Event): MonthKey {
    MonthKey(e.start.date.month, e.start.date.year)
  }

  function Keys(events: seq<Event>): (r: seq<MonthKey>)
    ensures |r| == |events|
    ensures forall k :: 0 <= k < |events| ==> r[k] == KeyOf(events[k])
  {
    if |events| == 0 then [] else Keys(events[..|events| - 1]) + [KeyOf(events[|events| - 1])]
  }

  /** The chronological position of a month. */
  function KeyIndex(k: MonthKey): int {
    12 * k.year + k.month
  }

  /** The ordering of a queryset on start: order_by("start") or order_by("-start"). */
  function StartOrder(descending: bool): Event -> int {
    (e: Event) => if descending then -AbsSecond(e.start) else AbsSecond(e.start)
  }

  predicate ValidStarts(events: seq<Event>) {
    forall e :: e in events ==> ValidTimestamp(e.start)
  }

  /** list(dict.fromkeys(events.order_by(...).values_list('start__month', 'start__year'))) */
  function MonthList(events: seq<Event>, descending: bool): seq<MonthKey> {
    Dedup(Keys(SortBy(events, StartOrder(descending))))
  }

  /** The keys of a sequence of events are the (month, year) of their starts. */
  lemma KeysMembers(s: seq<Event>)
    ensures forall k :: k in Keys(s) <==> exists e :: e in s && KeyOf(e) == k
  {
    var keys := Keys(s);
    forall k ensures k in keys <==> exists e :: e in s && KeyOf(e) == k {
      if k in keys {
        var p :| 0 <= p < |keys| && keys[p] == k;
        assert s[p] in s;
      }
      if exists e :: e in s && KeyOf(e) == k {
        var e :| e in s && KeyOf(e) == k;
        var p :| 0 <= p < |s| && s[p] == e;
        assert keys[p] == k;
      }
    }
  }

  /** The months of the list are the start months of the events, and there
      is none exactly when there is no event. */
  lemma MonthListMembers(events: seq<Event>, descending: bool)
    ensures forall k :: k in MonthList(events, descending) <==> exists e :: e in events && KeyOf(e) == k
    ensures |MonthList(events, descending)| == 0 <==> |events| == 0
  {
    var sorted := SortBy(events, StartOrder(descending));
    SortByMembers(events, StartOrder(descending));
    KeysMembers(sorted);
    if |events| > 0 {
      assert events[0] in sorted;
      assert KeyOf(events[0]) in MonthList(events, descending);
    }
  }

  /** The month list holds each (month, year) of an event start exactly
      once, in the order in which the ordered queryset first reaches it. */
  lemma MonthListProperties(events: seq<Event>, descending: bool)
    ensures var months := MonthList(events, descending);
            && NoDuplicates(months)
            && (forall k :: k in months <==> exists e :: e in events && KeyOf(e) == k)
            && forall i, j :: 0 <= i < j < |months| ==>
                 FirstIndex(Keys(SortBy(events, StartOrder(descending))), months[i]) <
                 FirstIndex(Keys(SortBy(events, StartOrder(descending))), months[j])
  {
    MonthListMembers(events, descending);
    DedupOrder(Keys(SortBy(events, StartOrder(descending))));
  }

  /** The dictionary keys: "<French month> <year>,<English month> <year>".
      The second name is in the request's active language, here English. */
  function Label(k: MonthKey): string
    requires 1 <= k.month <= 12 && k.year >= 0
  {
    FrenchMonthName(k.month) + " " + DecimalString(k.year) + "," + EnglishMonthName(k.month) + " " + DecimalString(k.year)
  }

  /** A key splits at its first space and at its first comma. */
  lemma LabelParts(k: MonthKey)
    requires 1 <= k.month <= 12 && k.year >= 0
    ensures Label(k) == FrenchMonthName(k.month) + [' '] + (DecimalString(k.year) + [','] + (EnglishMonthName(k.month) + " " + DecimalString(k.year)))
    ensures ' ' !in FrenchMonthName(k.month) && ',' !in DecimalString(k.year)
  {
    FrenchNameHasNoSpace(k.month);
    var d := DecimalString(k.year);
    assert forall j :: 0 <= j < |d| ==> IsDigit(d[j]);
  }

  /** Different months get different keys, so no bucket overwrites another. */
  lemma LabelInjective(a: MonthKey, b: MonthKey)
    requires 1 <= a.month <= 12 && a.year >= 0
    requires 1 <= b.month <= 12 && b.year >= 0
    requires Label(a) == Label(b)
    ensures a == b
  {
    LabelParts(a);
    LabelParts(b);
    var da, db := DecimalString(a.year), DecimalString(b.year);
    var ea, eb := EnglishMonthName(a.month) + " " + da, EnglishMonthName(b.month) + " " + db;
    SplitAtSeparator(FrenchMonthName(a.month), FrenchMonthName(b.month), ' ', da + [','] + ea, db + [','] + eb);
    FrenchNamesDistinct(a.month, b.month);
    SplitAtSeparator(da, db, ',', ea, eb);
    DecimalStringInjective(a.year, b.year);
  }

  // --- The month buckets ---

  /** The year the bucket window of a month is computed in: the bucket's own
      year in the listing, the requested year in the archive. */
  function WindowYear(k: MonthKey, archiveYear: Option<int>): int {
    if archiveYear.Some? then archiveYear.value else k.year
  }

  /** The filter of tmp: started in the bucket's year, and either spanning
      the whole month, starting between its first and last day (compared at
      midnight), or starting in that month. */
  predicate InMonthWindow(e: Event, k: MonthKey, windowYear: int) {
    var first := AbsSecond(Midnight(Date(windowYear, k.month, 1)));
    var last := AbsSecond(Midnight(Date(windowYear, k.month, DaysInMonth(windowYear, k.month))));
    && e.start.date.year == k.year
    && ((AbsSecond(e.start) < first && e.end.Some? && AbsSecond(e.end.value) > last)
        || (first <= AbsSecond(e.start) <= last)
        || e.start.date.month == k.month)
  }

  /** The ordered queryset tmp of one month. */
  function Tmp(events: seq<Event>, k: MonthKey, archiveYear: Option<int>, descending: bool): seq<Event> {
    SortBy(Filter(events, (e: Event) => InMonthWindow(e, k, WindowYear(k, archiveYear))), StartOrder(descending))
  }

  function Ids(s: seq<Event>): (r: seq<nat>)
    ensures |r| == |s|
    ensures forall k :: 0 <= k < |s| ==> r[k] == s[k].id
  {
    if |s| == 0 then [] else [s[0].id] + Ids(s[1..])
  }

  predicate DistinctIds(s: seq<Event>) {
    forall i, j :: 0 <= i < j < |s| ==> s[i].id != s[j].id
  }

  /** The events of tmp the inner loop appends, given the ids already placed. */
  function TakeNew(tmp: seq<Event>, already: seq<nat>): seq<Event> {
    if |tmp| == 0 then []
    else if tmp[0].id in already then TakeNew(tmp[1..], already)
    else [tmp[0]] + TakeNew(tmp[1..], already + [tmp[0].id])
  }

  /** The inner loop appends only events of tmp whose id was not placed yet. */
  lemma {:induction false} TakeNewSubset(tmp: seq<Event>, already: seq<nat>)
    ensures forall x :: x in TakeNew(tmp, already) ==> x in tmp && x.id !in already
    decreases |tmp|
  {
    if |tmp| > 0 {
      if tmp[0].id in already {
        TakeNewSubset(tmp[1..], already);
      } else {
        TakeNewSubset(tmp[1..], already + [tmp[0].id]);
      }
    }
  }

  /** It never appends two events with the same id. */
  lemma {:induction false} TakeNewDistinct(tmp: seq<Event>, already: seq<nat>)
    ensures DistinctIds(TakeNew(tmp, already))
    decreases |tmp|
  {
    if |tmp| > 0 {
      if tmp[0].id in already {
        TakeNewDistinct(tmp[1..], already);
      } else {
        var rest := TakeNew(tmp[1..], already + [tmp[0].id]);
        TakeNewDistinct(tmp[1..], already + [tmp[0].id]);
        TakeNewSubset(tmp[1..], already + [tmp[0].id]);
        var r := [tmp[0]] + rest;
        assert forall k :: 0 <= k < |rest| ==> rest[k].id != tmp[0].id by {
          assert forall k :: 0 <= k < |rest| ==> rest[k] in rest;
        }
        assert forall k :: 1 <= k < |r| ==> r[k] == rest[k - 1];
      }
    }
  }

  /** Every id of tmp not placed before is placed by it. */
  lemma {:induction false} TakeNewCovers(tmp: seq<Event>, already: seq<nat>)
    ensures forall x :: x in tmp && x.id !in already ==> x.id in Ids(TakeNew(tmp, already))
    decreases |tmp|
  {
    if |tmp| > 0 {
      var r := TakeNew(tmp, already);
      if tmp[0].id in already {
        TakeNewCovers(tmp[1..], already);
        forall x | x in tmp && x.id !in already ensures x.id in Ids(r) {
          assert x in tmp[1..] by { assert x != tmp[0]; }
        }
      } else {
        var rest := TakeNew(tmp[1..], already + [tmp[0].id]);
        TakeNewCovers(tmp[1..], already + [tmp[0].id]);
        assert Ids(r) == [tmp[0].id] + Ids(rest);
        forall x | x in tmp && x.id !in already ensures x.id in Ids(r) {
          if x.id != tmp[0].id {
            assert x in tmp[1..] by { assert x != tmp[0]; }
          }
        }
      }
    }
  }

  /** TakeNew keeps the order of tmp. */
  lemma {:induction false} TakeNewSorted(tmp: seq<Event>, already: seq<nat>, key: Event -> int)
    requires SortedBy(tmp, key)
    ensures SortedBy(TakeNew(tmp, already), key)
    decreases |tmp|
  {
    if |tmp| > 0 {
      assert SortedBy(tmp[1..], key);
      if tmp[0].id in already {
        TakeNewSorted(tmp[1..], already, key);
      } else {
        TakeNewSorted(tmp[1..], already + [tmp[0].id], key);
        TakeNewSubset(tmp[1..], already + [tmp[0].id]);
        var rest := TakeNew(tmp[1..], already + [tmp[0].id]);
        forall k | 0 <= k < |rest| ensures key(tmp[0]) <= key(rest[k]) {
          assert rest[k] in tmp[1..];
        }
      }
    }
  }

  /** The ids placed so far, bucket after bucket (the list `already`). */
  function Placed(bs: seq<seq<Event>>): seq<nat> {
    if |bs| == 0 then [] else Placed(bs[..|bs| - 1]) + Ids(bs[|bs| - 1])
  }

  /** The buckets filled from the querysets tmp of the months in turn, all
      sharing one list `already`. */
  function BucketsOf(tmps: seq<seq<Event>>): (bs: seq<seq<Event>>)
    ensures |bs| == |tmps|
  {
    if |tmps| == 0 then []
    else
      var prev := BucketsOf(tmps[..|tmps| - 1]);
      prev + [TakeNew(tmps[|tmps| - 1], Placed(prev))]
  }

  /** The querysets tmp of the months of the list. */
  function Tmps(events: seq<Event>, months: seq<MonthKey>, archiveYear: Option<int>, descending: bool): (r: seq<seq<Event>>)
    ensures |r| == |months|
    ensures forall i :: 0 <= i < |months| ==> r[i] == Tmp(events, months[i], archiveYear, descending)
  {
    seq(|months|, i requires 0 <= i < |months| => Tmp(events, months[i], archiveYear, descending))
  }

  /** The buckets of events_by_month, one per month of the list, in order. */
  function Buckets(events: seq<Event>, months: seq<MonthKey>, archiveYear: Option<int>, descending: bool): (bs: seq<seq<Event>>)
    ensures |bs| == |months|
  {
    BucketsOf(Tmps(events, months, archiveYear, descending))
  }

  lemma {:induction false} BucketsOfPrefix(tmps: seq<seq<Event>>, n: nat)
    requires n <= |tmps|
    ensures BucketsOf(tmps[..n]) == BucketsOf(tmps)[..n]
    decreases |tmps|
  {
    if n < |tmps| {
      var m := tmps[..|tmps| - 1];
      assert tmps[..n] == m[..n];
      BucketsOfPrefix(m, n);
      var prev := BucketsOf(m);
      var bs := BucketsOf(tmps);
      assert bs == prev + [bs[|tmps| - 1]];
      assert bs[..n] == prev[..n];
    } else {
      assert tmps[..n] == tmps;
    }
  }

  lemma BucketsOfSnoc(tmps: seq<seq<Event>>, i: nat)
    requires i < |tmps|
    ensures BucketsOf(tmps[..i + 1]) == BucketsOf(tmps[..i]) + [TakeNew(tmps[i], Placed(BucketsOf(tmps[..i])))]
  {
    assert tmps[..i + 1][..i] == tmps[..i];
  }

  /** Bucket i holds the new events of tmp i, given everything placed in the
      buckets before it. */
  lemma BucketOfAt(tmps: seq<seq<Event>>, i: nat)
    requires i < |tmps|
    ensures BucketsOf(tmps)[i] == TakeNew(tmps[i], Placed(BucketsOf(tmps)[..i]))
    ensures Placed(BucketsOf(tmps)[..i + 1]) == Placed(BucketsOf(tmps)[..i]) + Ids(BucketsOf(tmps)[i])
  {
    BucketsOfPrefix(tmps, i + 1);
    BucketsOfPrefix(tmps, i);
    assert tmps[..i + 1][..i] == tmps[..i];
    var bs := BucketsOf(tmps);
    assert bs[..i + 1][..i] == bs[..i];
  }

  lemma {:induction false} PlacedMembers(bs: seq<seq<Event>>)
    ensures forall id :: id in Placed(bs) <==> exists i, x :: 0 <= i < |bs| && x in bs[i] && x.id == id
    decreases |bs|
  {
    if |bs| > 0 {
      var n := |bs| - 1;
      PlacedMembers(bs[..n]);
      forall id ensures id in Ids(bs[n]) <==> exists x :: x in bs[n] && x.id == id {
        if id in Ids(bs[n]) {
          var k :| 0 <= k < |Ids(bs[n])| && Ids(bs[n])[k] == id;
          assert bs[n][k] in bs[n];
        }
        if exists x :: x in bs[n] && x.id == id {
          var x :| x in bs[n] && x.id == id;
          var k :| 0 <= k < |bs[n]| && bs[n][k] == x;
          assert Ids(bs[n])[k] == id;
        }
      }
      forall i | 0 <= i < n ensures bs[..n][i] == bs[i] {
      }
    }
  }

  lemma PlacedPrefix(bs: seq<seq<Event>>, n: nat, id: nat)
    requires n <= |bs| && id in Placed(bs[..n])
    ensures id in Placed(bs)
  {
    PlacedMembers(bs[..n]);
    PlacedMembers(bs);
    var i, x :| 0 <= i < n && x in bs[..n][i] && x.id == id;
    assert bs[..n][i] == bs[i];
  }

  /** Each bucket takes its events from its own tmp, in tmp's order. */
  lemma BucketsOfWithin(tmps: seq<seq<Event>>, i: nat, key: Event -> int)
    requires i < |tmps|
    ensures forall x :: x in BucketsOf(tmps)[i] ==> x in tmps[i]
    ensures SortedBy(tmps[i], key) ==> SortedBy(BucketsOf(tmps)[i], key)
  {
    BucketOfAt(tmps, i);
    TakeNewSubset(tmps[i], Placed(BucketsOf(tmps)[..i]));
    if SortedBy(tmps[i], key) {
      TakeNewSorted(tmps[i], Placed(BucketsOf(tmps)[..i]), key);
    }
  }

  /** No event id is placed in two buckets, nor twice in one. */
  lemma BucketsOfDisjoint(tmps: seq<seq<Event>>)
    ensures var bs := BucketsOf(tmps);
            && (forall i :: 0 <= i < |bs| ==> DistinctIds(bs[i]))
            && forall i, j, x: Event, y: Event :: 0 <= i < j < |bs| && x in bs[i] && y in bs[j] ==> x.id != y.id
  {
    var bs := BucketsOf(tmps);
    forall i | 0 <= i < |bs| ensures DistinctIds(bs[i]) {
      BucketOfAt(tmps, i);
      TakeNewDistinct(tmps[i], Placed(bs[..i]));
    }
    forall i, j, x: Event, y: Event | 0 <= i < j < |bs| && x in bs[i] && y in bs[j] ensures x.id != y.id {
      BucketOfAt(tmps, j);
      TakeNewSubset(tmps[j], Placed(bs[..j]));
      PlacedMembers(bs[..j]);
      assert bs[..j][i] == bs[i];
    }
  }

  /** Every event of tmp i has its id placed, in bucket i or before. */
  lemma BucketsOfCover(tmps: seq<seq<Event>>, i: nat, x: Event)
    requires i < |tmps| && x in tmps[i]
    ensures x.id in Placed(BucketsOf(tmps))
  {
    var bs := BucketsOf(tmps);
    BucketOfAt(tmps, i);
    TakeNewCovers(tmps[i], Placed(bs[..i]));
    if x.id in Placed(bs[..i]) {
      PlacedPrefix(bs, i, x.id);
    } else {
      PlacedPrefix(bs, i + 1, x.id);
    }
  }

  lemma TmpMembers(events: seq<Event>, k: MonthKey, archiveYear: Option<int>, descending: bool)
    ensures forall x :: x in Tmp(events, k, archiveYear, descending) <==> x in events && InMonthWindow(x, k, WindowYear(k, archiveYear))
    ensures SortedBy(Tmp(events, k, archiveYear, descending), StartOrder(descending))
  {
    SortByMembers(Filter(events, (e: Event) => InMonthWindow(e, k, WindowYear(k, archiveYear))), StartOrder(descending));
  }

  /** Every event placed in bucket i came from the queryset and satisfies the
      window of month i, and each bucket keeps start order. */
  lemma BucketsWithinWindow(events: seq<Event>, months: seq<MonthKey>, archiveYear: Option<int>, descending: bool)
    ensures var bs := Buckets(events, months, archiveYear, descending);
            forall i :: 0 <= i < |months| ==>
              && SortedBy(bs[i], StartOrder(descending))
              && forall x :: x in bs[i] ==> x in events && InMonthWindow(x, months[i], WindowYear(months[i], archiveYear))
  {
    var tmps := Tmps(events, months, archiveYear, descending);
    forall i | 0 <= i < |months|
      ensures SortedBy(BucketsOf(tmps)[i], StartOrder(descending))
      ensures forall x :: x in BucketsOf(tmps)[i] ==> x in events && InMonthWindow(x, months[i], WindowYear(months[i], archiveYear))
    {
      TmpMembers(events, months[i], archiveYear, descending);
      BucketsOfWithin(tmps, i, StartOrder(descending));
    }
  }

  /** The shared `already` list: an event id is placed in at most one bucket,
      and at most once there. */
  lemma BucketsPlaceOnce(events: seq<Event>, months: seq<MonthKey>, archiveYear: Option<int>, descending: bool)
    ensures var bs := Buckets(events, months, archiveYear, descending);
            && (forall i :: 0 <= i < |bs| ==> DistinctIds(bs[i]))
            && forall i, j, x: Event, y: Event :: 0 <= i < j < |bs| && x in bs[i] && y in bs[j] ==> x.id != y.id
  {
    var tmps := Tmps(events, months, archiveYear, descending);
    assert Buckets(events, months, archiveYear, descending) == BucketsOf(tmps);
    BucketsOfDisjoint(tmps);
  }

  /** Every event of the queryset whose (month, year) is in the month list
      gets placed in some bucket. */
  lemma BucketsCover(events: seq<Event>, months: seq<MonthKey>, archiveYear: Option<int>, descending: bool, x: Event)
    requires x in events && KeyOf(x) in months
    ensures x.id in Placed(Buckets(events, months, archiveYear, descending))
  {
    var i :| 0 <= i < |months| && months[i] == KeyOf(x);
    TmpMembers(events, months[i], archiveYear, descending);
    BucketsOfCover(Tmps(events, months, archiveYear, descending), i, x);
  }

  /** The inner loop over tmp: append each event whose id is not in
      `already`, and add its id to `already`. */
  method AppendNew(tmp: seq<Event>, already: seq<nat>) returns (bucket: seq<Event>, placed: seq<nat>)
    ensures bucket == TakeNew(tmp, already)
    ensures placed == already + Ids(bucket)
  {
    bucket := [];
    placed := already;
    var j := 0;
    while j < |tmp|
      invariant 0 <= j <= |tmp|
      invariant bucket + TakeNew(tmp[j..], placed) == TakeNew(tmp, already)
      invariant placed == already + Ids(bucket)
    {
      var e := tmp[j];
      assert tmp[j..] == [e] + tmp[j + 1..];
      if e.id !in placed {
        assert Ids(bucket + [e]) == Ids(bucket) + [e.id];
        bucket := bucket + [e];
        placed := placed + [e.id];
      }
      j := j + 1;
    }
    assert tmp[|tmp|..] == [];
  }

  predicate ValidKeys(months: seq<MonthKey>) {
    forall k :: 0 <= k < |months| ==> 1 <= months[k].month <= 12 && months[k].year >= 0
  }

  /** The dictionary entries: each month's key with its bucket, in order. */
  function Labelled(months: seq<MonthKey>, bs: seq<seq<Event>>): (r: seq<(string, seq<Event>)>)
    requires |months| == |bs| && ValidKeys(months)
    ensures |r| == |months|
  {
    if |months| == 0 then []
    else
      var n := |months| - 1;
      Labelled(months[..n], bs[..n]) + [(Label(months[n]), bs[n])]
  }

  /** One turn of the outer loop: the next bucket and the next dictionary entry. */
  lemma FillStep(tmps: seq<seq<Event>>, months: seq<MonthKey>, i: nat, bs: seq<seq<Event>>, bucket: seq<Event>)
    requires |tmps| == |months| && ValidKeys(months) && i < |months|
    requires bs == BucketsOf(tmps[..i]) && bucket == TakeNew(tmps[i], Placed(bs))
    ensures bs + [bucket] == BucketsOf(tmps[..i + 1])
    ensures Placed(bs + [bucket]) == Placed(bs) + Ids(bucket)
    ensures Labelled(months[..i + 1], bs + [bucket]) == Labelled(months[..i], bs) + [(Label(months[i]), bucket)]
  {
    BucketsOfSnoc(tmps, i);
    assert (bs + [bucket])[..i] == bs;
    assert months[..i + 1][..i] == months[..i];
  }

  /** The outer loop of events_by_month: for each month in turn, the
      queryset tmp of that month and the inner loop over it. */
  method FillBuckets(months: seq<MonthKey>, tmpOf: MonthKey -> seq<Event>, ghost tmps: seq<seq<Event>>)
    returns (byMonth: seq<(string, seq<Event>)>)
    requires ValidKeys(months) && |tmps| == |months|
    requires forall i :: 0 <= i < |months| ==> tmps[i] == tmpOf(months[i])
    ensures byMonth == Labelled(months, BucketsOf(tmps))
  {
    ghost var bs: seq<seq<Event>> := [];
    var already: seq<nat> := [];
    byMonth := [];
    var i := 0;
    while i < |months|
      invariant 0 <= i <= |months|
      invariant |bs| == i
      invariant bs == BucketsOf(tmps[..i])
      invariant already == Placed(bs)
      invariant byMonth == Labelled(months[..i], bs)
    {
      var k := months[i];
      var tmp := tmpOf(k);
      assert tmp == tmps[i];
      var bucket;
      bucket, already := AppendNew(tmp, already);
      FillStep(tmps, months, i, bs, bucket);
      bs := bs + [bucket];
      byMonth := byMonth + [(Label(k), bucket)];
      i := i + 1;
    }
    assert tmps[..i] == tmps;
    assert months[..i] == months;
  }

  /** The dictionary events_by_month, filled month after month with the
      events of each tmp whose id is not in `already` yet. */
  method FillMonthBuckets(events: seq<Event>, months: seq<MonthKey>, archiveYear: Option<int>, descending: bool)
    returns (byMonth: seq<(string, seq<Event>)>)
    requires ValidKeys(months)
    ensures byMonth == Labelled(months, Buckets(events, months, archiveYear, descending))
  {
    byMonth := FillBuckets(months, (k: MonthKey) => Tmp(events, k, archiveYear, descending), Tmps(events, months, archiveYear, descending));
  }

  // --- The listing: every event lands in the bucket of its start month ---

  /** Event ids are the primary key: two events with one id are one event. */
  predicate UniqueIds(events: seq<Event>) {
    forall a, b :: a in events && b in events && a.id == b.id ==> a == b
  }

  /** Starts in datetime order have their months in chronological order. */
  lemma StartMonthOrder(a: Timestamp, b: Timestamp)
    requires ValidTimestamp(a) && ValidTimestamp(b)
    requires AbsSecond(a) <= AbsSecond(b)
    ensures KeyIndex(MonthKey(a.date.month, a.date.year)) <= KeyIndex(MonthKey(b.date.month, b.date.year))
  {
    TimestampOrder(b, a);
  }

  /** The months of an ascending queryset, read in order, never go back. */
  lemma KeysChronological(events: seq<Event>)
    requires ValidStarts(events)
    ensures SortedBy(Keys(SortBy(events, StartOrder(false))), KeyIndex)
  {
    var sorted := SortBy(events, StartOrder(false));
    var keys := Keys(sorted);
    SortByMembers(events, StartOrder(false));
    forall i, j | 0 <= i < j < |keys| ensures KeyIndex(keys[i]) <= KeyIndex(keys[j]) {
      assert sorted[i] in events && sorted[j] in events;
      assert StartOrder(false)(sorted[i]) <= StartOrder(false)(sorted[j]);
      StartMonthOrder(sorted[i].start, sorted[j].start);
    }
  }

  /** Every key of the month list is a real (month, year). */
  lemma MonthListValid(events: seq<Event>, descending: bool)
    requires ValidStarts(events)
    ensures forall k :: k in MonthList(events, descending) ==> 1 <= k.month <= 12 && 1 <= k.year <= MaxYear
    ensures ValidKeys(MonthList(events, descending))
  {
    MonthListProperties(events, descending);
  }

  lemma KeyIndexInjective(a: MonthKey, b: MonthKey)
    requires 1 <= a.month <= 12 && 1 <= b.month <= 12
    requires KeyIndex(a) == KeyIndex(b)
    ensures a == b
  {
  }

  /** The months read off the queryset are real months. */
  lemma SortedKeysValid(events: seq<Event>, descending: bool)
    requires ValidStarts(events)
    ensures forall a :: a in Keys(SortBy(events, StartOrder(descending))) ==> 1 <= a.month <= 12
  {
    var sorted := SortBy(events, StartOrder(descending));
    var keys := Keys(sorted);
    SortByMembers(events, StartOrder(descending));
    forall a | a in keys ensures 1 <= a.month <= 12 {
      var p :| 0 <= p < |keys| && keys[p] == a;
      assert sorted[p] in events;
    }
  }

  /** The listing's month list is strictly chronological. */
  lemma MonthListChronological(events: seq<Event>)
    requires ValidStarts(events)
    ensures StrictlySortedBy(MonthList(events, false), KeyIndex)
  {
    var keys := Keys(SortBy(events, StartOrder(false)));
    KeysChronological(events);
    SortedKeysValid(events, false);
    forall a, b | a in keys && b in keys && KeyIndex(a) == KeyIndex(b) ensures a == b {
      KeyIndexInjective(a, b);
    }
    DedupStrictlySorted(keys, KeyIndex);
  }

  /** In the listing the window year is the bucket's own year, so an event
      in the window of month k starts in k's year, no later than k. */
  lemma WindowNotLater(x: Event, k: MonthKey)
    requires ValidTimestamp(x.start) && 1 <= k.month <= 12 && 1 <= k.year <= MaxYear
    requires InMonthWindow(x, k, k.year)
    ensures x.start.date.year == k.year && x.start.date.month <= k.month
  {
    var first := Date(k.year, k.month, 1);
    var last := Date(k.year, k.month, DaysInMonth(k.year, k.month));
    OrdinalOrder(last, x.start.date);
    OrdinalOrder(first, last);
  }

  ghost predicate BucketMatches(events: seq<Event>, months: seq<MonthKey>, bs: seq<seq<Event>>, i: nat)
    requires i < |months| && i < |bs|
  {
    forall x :: x in bs[i] <==> x in events && KeyOf(x) == months[i]
  }

  /** If the buckets before m hold exactly their months' events, the ids
      placed before bucket m are those of the events of earlier months. */
  lemma PlacedBefore(events: seq<Event>, months: seq<MonthKey>, bs: seq<seq<Event>>, m: nat)
    requires UniqueIds(events)
    requires m <= |bs| && m <= |months|
    requires forall i :: 0 <= i < m ==> BucketMatches(events, months, bs, i)
    ensures forall x :: x in events ==> (x.id in Placed(bs[..m]) <==> KeyOf(x) in months[..m])
  {
    PlacedMembers(bs[..m]);
    forall x | x in events ensures x.id in Placed(bs[..m]) <==> KeyOf(x) in months[..m] {
      if x.id in Placed(bs[..m]) {
        var i, y :| 0 <= i < m && y in bs[..m][i] && y.id == x.id;
        assert bs[..m][i] == bs[i];
        assert BucketMatches(events, months, bs, i);
        assert months[..m][i] == KeyOf(x);
      }
      if KeyOf(x) in months[..m] {
        var i :| 0 <= i < m && months[..m][i] == KeyOf(x);
        assert BucketMatches(events, months, bs, i);
        assert bs[..m][i] == bs[i];
      }
    }
  }

  /** What the listing's month list guarantees: strictly chronological,
      real months, and the month of every event in it. */
  ghost predicate ListingMonths(events: seq<Event>, months: seq<MonthKey>) {
    && StrictlySortedBy(months, KeyIndex)
    && (forall k :: k in months ==> 1 <= k.month <= 12 && 1 <= k.year <= MaxYear)
    && (forall x :: x in events ==> KeyOf(x) in months)
  }

  lemma ListingMonthsOfMonthList(events: seq<Event>)
    requires ValidStarts(events)
    ensures ListingMonths(events, MonthList(events, false))
  {
    var months := MonthList(events, false);
    MonthListChronological(events);
    MonthListValid(events, false);
    MonthListProperties(events, false);
    forall x | x in events ensures KeyOf(x) in months {
    }
  }

  /** What the proofs use of the listing's querysets tmp: the events of the
      queryset inside each month's window. */
  ghost predicate ListingTmps(events: seq<Event>, months: seq<MonthKey>, tmps: seq<seq<Event>>) {
    && |tmps| == |months|
    && forall i, x :: 0 <= i < |tmps| ==> (x in tmps[i] <==> x in events && InMonthWindow(x, months[i], months[i].year))
  }

  lemma ListingTmpsOfTmps(events: seq<Event>, months: seq<MonthKey>)
    ensures ListingTmps(events, months, Tmps(events, months, None, false))
  {
    var tmps := Tmps(events, months, None, false);
    forall i, x | 0 <= i < |tmps| ensures x in tmps[i] <==> x in events && InMonthWindow(x, months[i], months[i].year) {
      TmpMembers(events, months[i], None, false);
    }
  }

  /** An event of bucket m comes from tmp m and its id was not placed before. */
  lemma BucketDrawnFrom(tmps: seq<seq<Event>>, m: nat, x: Event)
    requires m < |tmps| && x in BucketsOf(tmps)[m]
    ensures x in tmps[m] && x.id !in Placed(BucketsOf(tmps)[..m])
  {
    BucketOfAt(tmps, m);
    TakeNewSubset(tmps[m], Placed(BucketsOf(tmps)[..m]));
  }

  /** An event of tmp m whose id was not placed before has its id placed in
      bucket m, by an event of tmp m. */
  lemma BucketTakesNew(tmps: seq<seq<Event>>, m: nat, x: Event) returns (y: Event)
    requires m < |tmps| && x in tmps[m] && x.id !in Placed(BucketsOf(tmps)[..m])
    ensures y in BucketsOf(tmps)[m] && y in tmps[m] && y.id == x.id
  {
    var bs := BucketsOf(tmps);
    BucketOfAt(tmps, m);
    TakeNewCovers(tmps[m], Placed(bs[..m]));
    TakeNewSubset(tmps[m], Placed(bs[..m]));
    var ids := Ids(bs[m]);
    var p :| 0 <= p < |ids| && ids[p] == x.id;
    y := bs[m][p];
  }

  /** A bucket takes no event of another month: not of an earlier one (its
      id is placed already), nor of a later one (the window ends with k). */
  lemma ListingBucketSound(events: seq<Event>, months: seq<MonthKey>, tmps: seq<seq<Event>>, m: nat, x: Event)
    requires ValidStarts(events) && UniqueIds(events) && ListingMonths(events, months)
    requires ListingTmps(events, months, tmps) && m < |months|
    requires forall i :: 0 <= i < m ==> BucketMatches(events, months, BucketsOf(tmps), i)
    requires x in BucketsOf(tmps)[m]
    ensures x in events && KeyOf(x) == months[m]
  {
    var bs := BucketsOf(tmps);
    BucketDrawnFrom(tmps, m, x);
    PlacedBefore(events, months, bs, m);
    WindowNotLater(x, months[m]);
    var j :| 0 <= j < |months| && months[j] == KeyOf(x);
  }

  /** A bucket takes every event of its month: none of them was placed in an
      earlier bucket, and all of them are in the month's tmp. */
  lemma ListingBucketComplete(events: seq<Event>, months: seq<MonthKey>, tmps: seq<seq<Event>>, m: nat, x: Event)
    requires UniqueIds(events) && ListingMonths(events, months)
    requires ListingTmps(events, months, tmps) && m < |months|
    requires forall i :: 0 <= i < m ==> BucketMatches(events, months, BucketsOf(tmps), i)
    requires x in events && KeyOf(x) == months[m]
    ensures x in BucketsOf(tmps)[m]
  {
    var bs := BucketsOf(tmps);
    PlacedBefore(events, months, bs, m);
    assert KeyOf(x) !in months[..m] by {
      forall i | 0 <= i < m ensures months[..m][i] != months[m] {
        assert KeyIndex(months[i]) < KeyIndex(months[m]);
      }
    }
    var y := BucketTakesNew(tmps, m, x);
  }

  /** Bucket m holds exactly the events of month m, given that the buckets
      before it do. */
  lemma ListingBucketAt(events: seq<Event>, months: seq<MonthKey>, tmps: seq<seq<Event>>, m: nat)
    requires ValidStarts(events) && UniqueIds(events) && ListingMonths(events, months)
    requires ListingTmps(events, months, tmps) && m < |months|
    requires forall i :: 0 <= i < m ==> BucketMatches(events, months, BucketsOf(tmps), i)
    ensures BucketMatches(events, months, BucketsOf(tmps), m)
  {
    var bs := BucketsOf(tmps);
    forall x ensures x in bs[m] <==> x in events && KeyOf(x) == months[m] {
      if x in bs[m] {
        ListingBucketSound(events, months, tmps, m, x);
      }
      if x in events && KeyOf(x) == months[m] {
        ListingBucketComplete(events, months, tmps, m, x);
      }
    }
  }

  lemma {:induction false} ListingBucketsUpTo(events: seq<Event>, months: seq<MonthKey>, tmps: seq<seq<Event>>, n: nat)
    requires ValidStarts(events) && UniqueIds(events) && ListingMonths(events, months)
    requires ListingTmps(events, months, tmps) && n <= |months|
    ensures forall i :: 0 <= i < n ==> BucketMatches(events, months, BucketsOf(tmps), i)
    decreases n
  {
    if n > 0 {
      ListingBucketsUpTo(events, months, tmps, n - 1);
      ListingBucketAt(events, months, tmps, n - 1);
    }
  }

  /** Bucket i holds exactly the events of the queryset that start in
      month i of the list. */
  ghost predicate BucketsByStartMonth(events: seq<Event>, months: seq<MonthKey>, bs: seq<seq<Event>>)
    requires |bs| == |months|
  {
    forall i, x :: 0 <= i < |months| ==> (x in bs[i] <==> x in events && KeyOf(x) == months[i])
  }

  lemma ListingBucketsOfTmps(events: seq<Event>, months: seq<MonthKey>, tmps: seq<seq<Event>>)
    requires ValidStarts(events) && UniqueIds(events) && ListingMonths(events, months)
    requires ListingTmps(events, months, tmps)
    ensures BucketsByStartMonth(events, months, BucketsOf(tmps))
  {
    ListingBucketsUpTo(events, months, tmps, |months|);
    forall i, x | 0 <= i < |months| ensures x in BucketsOf(tmps)[i] <==> x in events && KeyOf(x) == months[i] {
      assert BucketMatches(events, months, BucketsOf(tmps), i);
    }
  }

  /** The bucketing of any month list with the listing's guarantees. */
  lemma ListingBucketsMatch(events: seq<Event>, months: seq<MonthKey>)
    requires ValidStarts(events) && UniqueIds(events) && ListingMonths(events, months)
    ensures BucketsByStartMonth(events, months, Buckets(events, months, None, false))
  {
    var tmps := Tmps(events, months, None, false);
    ListingTmpsOfTmps(events, months);
    ListingBucketsOfTmps(events, months, tmps);
    assert Buckets(events, months, None, false) == BucketsOf(tmps);
  }

  /** In the event list (ascending, window year = bucket year), the bucket of
      each month holds exactly the events that start in that month: an event
      that spans several months is listed once, under its start month. */
  lemma ListingBucketsAreStartMonths(events: seq<Event>)
    requires ValidStarts(events) && UniqueIds(events)
    ensures BucketsByStartMonth(events, MonthList(events, false), Buckets(events, MonthList(events, false), None, false))
  {
    ListingMonthsOfMonthList(events);
    ListingBucketsMatch(events, MonthList(events, false));
  }

  // --- EventListView.get_queryset: the query ---

  datatype Account = Account(id: nat, username: string)
  datatype Keyword = Keyword(id: nat, slug: string, title: string)

  /** The URL keyword arguments and GET lists of a listing request. */
  datatype ListingRequest = ListingRequest(
    tag: Option<string>, year: Option<nat>, month: Option<nat>, day: Option<nat>,
    week: Option<nat>, username: Option<string>, location: Option<string>,
    locationsFilter: seq<string>, categoriesFilter: seq<string>)

  /** The tables the views read besides the events, and the setting
      EVENT_EXCLUDE_TAG_LIST. */
  datatype Site = Site(locations: seq<Location>, users: seq<Account>, keywords: seq<Keyword>, excludeTags: seq<nat>)

  /** get_object_or_404 on a table: the one matching row, or an error. */
  function Lookup<T(!new)>(table: seq<T>, matches: T -> bool): (r: Result<T, ViewError>)
    ensures r.Ok? ==> r.value in table && matches(r.value)
    ensures r.Err? ==> !r.error.InvalidDate?
  {
    var found := Filter(table, matches);
    if |found| == 0 then Err(NotFound)
    else if |found| > 1 then Err(ViewError.MultipleObjectsReturned)
    else assert found[0] in found; Ok(found[0])
  }

  /** The lookup finds a row exactly when one row matches, and that row is
      the only match; it is NotFound exactly when no row matches, and
      MultipleObjectsReturned otherwise. */
  lemma LookupOutcome<T(!new)>(table: seq<T>, matches: T -> bool)
    ensures Lookup(table, matches).Ok? <==> |Filter(table, matches)| == 1
    ensures Lookup(table, matches).Ok? ==> forall x :: x in table && matches(x) ==> x == Lookup(table, matches).value
    ensures Lookup(table, matches) == Err(NotFound) <==> forall x :: x in table ==> !matches(x)
    ensures Lookup(table, matches).Err? ==> Lookup(table, matches).error in {NotFound, ViewError.MultipleObjectsReturned}
  {
    var found := Filter(table, matches);
    if |found| > 0 {
      assert found[0] in found;
    }
    if |found| == 1 {
      forall x | x in table && matches(x) ensures x == found[0] {
        assert x in found;
      }
    }
  }

  function StartsInYear(y: int): Event -> bool { (e: Event) => e.start.date.year == y }
  function StartsInMonth(m: int): Event -> bool { (e: Event) => e.start.date.month == m }
  function StartsOnDay(d: int): Event -> bool { (e: Event) => e.start.date.day == d }
  /** start__range on two dates: compared with their midnights, inclusive. */
  function StartsBetweenDays(lower: int, higher: int): Event -> bool {
    (e: Event) => lower * SecondsPerDay <= AbsSecond(e.start) <= higher * SecondsPerDay
  }

  /** The year, month, day and week filters of the listing and their errors:
      a month above 12 is not found (month_name has 13 entries), an
      impossible day or year makes date() fail, and so does a week whose
      range leaves the calendar. */
  function DateFilter(events: seq<Event>, year: Option<nat>, month: Option<nat>, day: Option<nat>, week: Option<nat>)
    : (r: Result<seq<Event>, ViewError>)
    ensures r.Ok? ==> forall x :: x in r.value ==> x in events
  {
    if year.None? then Ok(events)
    else
      var y := year.value;
      var byYear := Filter(events, StartsInYear(y));
      if month.Some? then
        var m := month.value;
        if m > 12 then Err(NotFound)
        else
          var byMonth := Filter(byYear, StartsInMonth(m));
          if day.None? then Ok(byMonth)
          else if !ValidDate(Date(y, m, day.value)) then Err(InvalidDate)
          else Ok(Filter(byMonth, StartsOnDay(day.value)))
      else if week.Some? then
        // the source filters on start__year a second time here; filtering twice is filtering once
        match WeekDayRange(y, week.value)
        case Err(e) => Err(e)
        case Ok((lower, higher)) => Ok(Filter(byYear, StartsBetweenDays(lower, higher)))
      else Ok(byYear)
  }

  /** A month above 12 is not found, whatever else the request holds. */
  lemma DateFilterMonthNotFound(events: seq<Event>, y: nat, m: nat, day: Option<nat>, week: Option<nat>)
    requires m > 12
    ensures DateFilter(events, Some(y), Some(m), day, week) == Err(NotFound)
  {
  }

  /** The date filters fail exactly on a month above 12, an impossible date
      or a week outside the calendar, and otherwise keep exactly the events
      starting in the requested year, month, day or week. */
  lemma DateFilterMembers(events: seq<Event>, year: Option<nat>, month: Option<nat>, day: Option<nat>, week: Option<nat>, x: Event)
    ensures var r := DateFilter(events, year, month, day, week);
            && (r.Err? <==>
                  && year.Some?
                  && if month.Some? then month.value > 12 || (day.Some? && !ValidDate(Date(year.value, month.value, day.value)))
                     else week.Some? && WeekDayRange(year.value, week.value).Err?)
            && (r.Ok? ==>
                  (x in r.value <==>
                     && x in events
                     && (year.Some? ==> x.start.date.year == year.value)
                     && (year.Some? && month.Some? ==> x.start.date.month == month.value)
                     && (year.Some? && month.Some? && day.Some? ==> x.start.date.day == day.value)
                     && (year.Some? && month.None? && week.Some? ==>
                           var (lower, higher) := WeekDayRange(year.value, week.value).value;
                           lower * SecondsPerDay <= AbsSecond(x.start) <= higher * SecondsPerDay)))
  {
  }

  function AtLocation(id: nat): Event -> bool { (e: Event) => e.location.Some? && e.location.value.id == id }
  function ByUser(id: nat): Event -> bool { (e: Event) => e.user == Some(id) }
  /** Q(start__gt=now) | Q(end__gt=now): an event without an end counts by its start. */
  function NotOver(now: Timestamp): Event -> bool {
    (e: Event) => AbsSecond(e.start) > AbsSecond(now) || (e.end.Some? && AbsSecond(e.end.value) > AbsSecond(now))
  }
  function AtLocationTitled(titles: seq<string>): Event -> bool {
    (e: Event) => e.location.Some? && e.location.value.title in titles
  }
  function InCategoryNamed(names: seq<string>): Event -> bool {
    (e: Event) => e.category.Some? && e.category.value.name in names
  }
  function Tagged(id: nat): Event -> bool { (e: Event) => id in e.keywords }
  function NotTagged(id: nat): Event -> bool { (e: Event) => id !in e.keywords }

  function LocationBySlug(site: Site, slug: string): Result<Location, ViewError> {
    Lookup(site.locations, (l: Location) => l.slug == slug)
  }

  function UserByName(site: Site, username: string): Result<Account, ViewError> {
    Lookup(site.users, (a: Account) => a.username == username)
  }

  function KeywordBySlug(site: Site, slug: string): Result<Keyword, ViewError> {
    Lookup(site.keywords, (k: Keyword) => k.slug == slug)
  }

  function KeywordById(site: Site, id: nat): Result<Keyword, ViewError> {
    Lookup(site.keywords, (k: Keyword) => k.id == id)
  }

  /** filter(location=...) after get_object_or_404(EventLocation, slug=...). */
  function LocationStep(site: Site, events: seq<Event>, slug: Option<string>): (r: Result<seq<Event>, ViewError>)
    ensures r.Ok? ==> forall x :: x in r.value ==> x in events
  {
    if slug.None? then Ok(events)
    else match LocationBySlug(site, slug.value)
         case Err(e) => Err(e)
         case Ok(loc) => Ok(Filter(events, AtLocation(loc.id)))
  }

  /** filter(user=...) after get_object_or_404(User, username=...). */
  function UserStep(site: Site, events: seq<Event>, username: Option<string>): (r: Result<seq<Event>, ViewError>)
    ensures r.Ok? ==> forall x :: x in r.value ==> x in events
  {
    if username.None? then Ok(events)
    else match UserByName(site, username.value)
         case Err(e) => Err(e)
         case Ok(author) => Ok(Filter(events, ByUser(author.id)))
  }

  /** The upcoming-events filter applies when neither year, location nor
      username narrows the list. */
  predicate ShowsUpcoming(req: ListingRequest) {
    req.year.None? && req.location.None? && req.username.None?
  }

  /** The upcoming filter and the GET lists of locations and categories. */
  function FormFilters(events: seq<Event>, req: ListingRequest, now: Timestamp): (r: seq<Event>)
    ensures forall x :: x in r ==> x in events
  {
    var current := if ShowsUpcoming(req) then Filter(events, NotOver(now)) else events;
    var titled := if |req.locationsFilter| > 0 then Filter(current, AtLocationTitled(req.locationsFilter)) else current;
    if |req.categoriesFilter| > 0 then Filter(titled, InCategoryNamed(req.categoriesFilter)) else titled
  }

  /** The queryset of EventListView.get_queryset up to the tag filters. */
  function ListingQuery(site: Site, visible: seq<Event>, req: ListingRequest, now: Timestamp): (r: Result<seq<Event>, ViewError>)
    ensures r.Ok? ==> forall x :: x in r.value ==> x in visible
  {
    match DateFilter(visible, req.year, req.month, req.day, req.week)
    case Err(e) => Err(e)
    case Ok(byDate) =>
      match LocationStep(site, byDate, req.location)
      case Err(e) => Err(e)
      case Ok(byLocation) =>
      match UserStep(site, byLocation, req.username)
      case Err(e) => Err(e)
      case Ok(byUser) => Ok(FormFilters(byUser, req, now))
  }

  /** An event is listed exactly when it passes every stage of the query, and
      the query fails exactly when a date filter or a lookup fails. */
  lemma ListingQueryMembers(site: Site, visible: seq<Event>, req: ListingRequest, now: Timestamp, x: Event)
    ensures var r := ListingQuery(site, visible, req, now);
            && (r.Err? <==>
                  || DateFilter(visible, req.year, req.month, req.day, req.week).Err?
                  || (req.location.Some? && LocationBySlug(site, req.location.value).Err?)
                  || (req.username.Some? && UserByName(site, req.username.value).Err?))
            && (r.Ok? ==>
                  (x in r.value <==>
                     && x in DateFilter(visible, req.year, req.month, req.day, req.week).value
                     && (req.location.Some? ==> AtLocation(LocationBySlug(site, req.location.value).value.id)(x))
                     && (req.username.Some? ==> ByUser(UserByName(site, req.username.value).value.id)(x))
                     && (ShowsUpcoming(req) ==> NotOver(now)(x))
                     && (|req.locationsFilter| > 0 ==> AtLocationTitled(req.locationsFilter)(x))
                     && (|req.categoriesFilter| > 0 ==> InCategoryNamed(req.categoriesFilter)(x))))
  {
  }

  // --- The tag list ---

  /** values_list('keywords__keyword', flat=True): one row per assigned
      keyword, and a single None for an event without keywords. */
  function TagRows(events: seq<Event>): (rows: seq<Option<nat>>)
    ensures forall t :: t in rows <==> (t == None && exists e :: e in events && |e.keywords| == 0)
                                       || (t.Some? && exists e :: e in events && t.value in e.keywords)
  {
    if |events| == 0 then []
    else
      var e := events[|events| - 1];
      TagRows(events[..|events| - 1]) + (if |e.keywords| == 0 then [None] else KeywordRows(e.keywords))
  }

  function KeywordRows(ids: seq<nat>): (rows: seq<Option<nat>>)
    ensures forall t :: t in rows <==> t.Some? && t.value in ids
  {
    if |ids| == 0 then [] else KeywordRows(ids[..|ids| - 1]) + [Some(ids[|ids| - 1])]
  }

  /** A tag the listing shows: a keyword that is not in EVENT_EXCLUDE_TAG_LIST. */
  function KeptTag(exclude: seq<nat>): Option<nat> -> bool {
    (t: Option<nat>) => t.Some? && t.value !in exclude
  }

  function DroppedTag(exclude: seq<nat>): Option<nat> -> bool {
    (t: Option<nat>) => t.None? || t.value in exclude
  }

  function NotIn(removed: seq<Option<nat>>): Option<nat> -> bool {
    (t: Option<nat>) => t !in removed
  }

  /** Each step of the second loop finds its tag in the list, and removing
      it filters it out. */
  lemma RemovalStep(deduped: seq<Option<nat>>, removed: seq<Option<nat>>, j: nat)
    requires NoDuplicates(deduped) && NoDuplicates(removed) && j < |removed|
    requires forall t :: t in removed ==> t in deduped
    ensures removed[j] in Filter(deduped, NotIn(removed[..j]))
    ensures RemoveFirst(Filter(deduped, NotIn(removed[..j])), removed[j]) == Filter(deduped, NotIn(removed[..j + 1]))
  {
    var t := removed[j];
    assert t in deduped;
    assert t !in removed[..j] by {
      assert forall k :: 0 <= k < j ==> removed[..j][k] == removed[k] != removed[j];
    }
    assert removed[..j + 1] == removed[..j] + [t];
    RemoveFirstFilter(deduped, NotIn(removed[..j]), NotIn(removed[..j + 1]), t);
  }

  lemma CollectStep(deduped: seq<Option<nat>>, exclude: seq<nat>, i: nat)
    requires i < |deduped|
    ensures Filter(deduped[..i + 1], DroppedTag(exclude))
            == Filter(deduped[..i], DroppedTag(exclude)) + if deduped[i].None? || deduped[i].value in exclude then [deduped[i]] else []
  {
    assert deduped[..i + 1][..i] == deduped[..i];
  }

  /** Removing every dropped tag leaves the kept ones. */
  lemma RemovedAll(deduped: seq<Option<nat>>, exclude: seq<nat>, removed: seq<Option<nat>>)
    requires removed == Filter(deduped, DroppedTag(exclude))
    ensures Filter(deduped, NotIn(removed)) == Filter(deduped, KeptTag(exclude))
  {
    FilterCongruent(deduped, NotIn(removed), KeptTag(exclude));
  }

  /** The first loop of the cleanup: the None and excluded entries, in order. */
  method DroppedTags(tags: seq<Option<nat>>, exclude: seq<nat>) returns (removed: seq<Option<nat>>)
    ensures removed == Filter(tags, DroppedTag(exclude))
  {
    removed := [];
    var i := 0;
    while i < |tags|
      invariant 0 <= i <= |tags|
      invariant removed == Filter(tags[..i], DroppedTag(exclude))
    {
      CollectStep(tags, exclude, i);
      if tags[i].None? || tags[i].value in exclude {
        removed := removed + [tags[i]];
      }
      i := i + 1;
    }
    assert tags[..i] == tags;
  }

  /** The second loop: list.remove of each collected entry. On a list
      without duplicates every removal finds its entry, so it never raises. */
  method RemoveEach(deduped: seq<Option<nat>>, removed: seq<Option<nat>>) returns (tags: seq<Option<nat>>)
    requires NoDuplicates(deduped) && NoDuplicates(removed)
    requires forall t :: t in removed ==> t in deduped
    ensures tags == Filter(deduped, NotIn(removed))
  {
    tags := deduped;
    FilterAll(deduped, NotIn(removed[..0]));
    var j := 0;
    while j < |removed|
      invariant 0 <= j <= |removed|
      invariant tags == Filter(deduped, NotIn(removed[..j]))
    {
      RemovalStep(deduped, removed, j);
      tags := RemoveFirst(tags, removed[j]);
      j := j + 1;
    }
    assert removed[..j] == removed;
  }

  /** The tag-list cleanup: deduplicate, collect the None and excluded
      entries, then remove each of them from the list. */
  method CleanTagList(rows: seq<Option<nat>>, exclude: seq<nat>) returns (tags: seq<Option<nat>>)
    ensures tags == Filter(Dedup(rows), KeptTag(exclude))
  {
    var deduped := Dedup(rows);
    var removed := DroppedTags(deduped, exclude);
    FilterNoDuplicates(deduped, DroppedTag(exclude));
    tags := RemoveEach(deduped, removed);
    RemovedAll(deduped, exclude, removed);
  }

  /** The cleaned list holds each kept keyword id of the rows once. */
  lemma CleanTagListMembers(rows: seq<Option<nat>>, exclude: seq<nat>)
    ensures NoDuplicates(Filter(Dedup(rows), KeptTag(exclude)))
    ensures forall t :: t in Filter(Dedup(rows), KeptTag(exclude)) <==> t in rows && t.Some? && t.value !in exclude
  {
    FilterNoDuplicates(Dedup(rows), KeptTag(exclude));
  }

  /** Keyword.objects.filter(id__in=tag_list): the keywords of the cleaned
      list, in the order of the keyword table. */
  function TagList(site: Site, tags: seq<Option<nat>>): (r: seq<Keyword>)
    ensures forall k :: k in r <==> k in site.keywords && Some(k.id) in tags
  {
    Filter(site.keywords, (k: Keyword) => Some(k.id) in tags)
  }

  // --- The tag filter and the excluded tags ---

  /** events.exclude(keywords__keyword=...) for each id of
      EVENT_EXCLUDE_TAG_LIST in turn, each looked up first. */
  function ExcludeAll(site: Site, events: seq<Event>, ids: seq<nat>): (r: Result<seq<Event>, ViewError>)
    ensures r.Ok? ==> forall x :: x in r.value ==> x in events
  {
    if |ids| == 0 then Ok(events)
    else match ExcludeAll(site, events, ids[..|ids| - 1])
         case Err(e) => Err(e)
         case Ok(kept) =>
           match KeywordById(site, ids[|ids| - 1])
           case Err(e) => Err(e)
           case Ok(k) => Ok(Filter(kept, NotTagged(k.id)))
  }

  ghost predicate AllKeywordsFound(site: Site, ids: seq<nat>) {
    forall i :: 0 <= i < |ids| ==> KeywordById(site, ids[i]).Ok?
  }

  ghost predicate CarriesNone(x: Event, ids: seq<nat>) {
    forall i :: 0 <= i < |ids| ==> ids[i] !in x.keywords
  }

  /** Excluding fails exactly when an id is missing (or ambiguous) in the
      keyword table. */
  lemma {:induction false} ExcludeAllFails(site: Site, events: seq<Event>, ids: seq<nat>)
    ensures ExcludeAll(site, events, ids).Ok? <==> AllKeywordsFound(site, ids)
    decreases |ids|
  {
    if |ids| > 0 {
      var n := |ids| - 1;
      ExcludeAllFails(site, events, ids[..n]);
      AllKeywordsFoundSnoc(site, ids);
    }
  }

  lemma AllKeywordsFoundSnoc(site: Site, ids: seq<nat>)
    requires |ids| > 0
    ensures AllKeywordsFound(site, ids) <==>
              AllKeywordsFound(site, ids[..|ids| - 1]) && KeywordById(site, ids[|ids| - 1]).Ok?
  {
    var n := |ids| - 1;
    assert forall i :: 0 <= i < n ==> ids[..n][i] == ids[i];
  }

  /** When excluding succeeds it drops exactly the events carrying one of the ids. */
  lemma CarriesNoneSnoc(x: Event, ids: seq<nat>)
    requires |ids| > 0
    ensures CarriesNone(x, ids) <==> CarriesNone(x, ids[..|ids| - 1]) && ids[|ids| - 1] !in x.keywords
  {
    var n := |ids| - 1;
    assert forall i :: 0 <= i < n ==> ids[..n][i] == ids[i];
  }

  lemma {:induction false} ExcludeAllMembers(site: Site, events: seq<Event>, ids: seq<nat>, x: Event)
    requires ExcludeAll(site, events, ids).Ok?
    ensures x in ExcludeAll(site, events, ids).value <==> x in events && CarriesNone(x, ids)
    decreases |ids|
  {
    if |ids| > 0 {
      var n := |ids| - 1;
      var prev := ExcludeAll(site, events, ids[..n]);
      var found := KeywordById(site, ids[n]);
      assert prev.Ok? && found.Ok?;
      ExcludeAllMembers(site, events, ids[..n], x);
      assert ExcludeAll(site, events, ids).value == Filter(prev.value, NotTagged(found.value.id));
      assert found.value.id == ids[n];
      CarriesNoneSnoc(x, ids);
    }
  }

  /** Once a prefix of the ids fails, the whole exclusion fails the same way. */
  lemma {:induction false} ExcludeAllStops(site: Site, events: seq<Event>, ids: seq<nat>, i: nat)
    requires i <= |ids| && ExcludeAll(site, events, ids[..i]).Err?
    ensures ExcludeAll(site, events, ids) == ExcludeAll(site, events, ids[..i])
    decreases |ids| - i
  {
    if i < |ids| {
      assert ids[..i + 1][..i] == ids[..i];
      ExcludeAllStops(site, events, ids, i + 1);
    } else {
      assert ids[..i] == ids;
    }
  }

  /** The loop over EVENT_EXCLUDE_TAG_LIST: the first missing keyword ends the view. */
  method ExcludeTags(site: Site, events: seq<Event>) returns (r: Result<seq<Event>, ViewError>)
    ensures r == ExcludeAll(site, events, site.excludeTags)
  {
    var kept := events;
    var i := 0;
    while i < |site.excludeTags|
      invariant 0 <= i <= |site.excludeTags|
      invariant ExcludeAll(site, events, site.excludeTags[..i]) == Ok(kept)
    {
      assert site.excludeTags[..i + 1][..i] == site.excludeTags[..i];
      var found := KeywordById(site, site.excludeTags[i]);
      if found.Err? {
        ExcludeAllStops(site, events, site.excludeTags, i + 1);
        return Err(found.error);
      }
      kept := Filter(kept, NotTagged(found.value.id));
      i := i + 1;
    }
    assert site.excludeTags[..i] == site.excludeTags;
    return Ok(kept);
  }

  /** The tag step: filter on the requested keyword, or drop the excluded tags. */
  function TagFilter(site: Site, events: seq<Event>, tag: Option<string>): (r: Result<seq<Event>, ViewError>)
    ensures r.Ok? ==> forall x :: x in r.value ==> x in events
  {
    if tag.Some? then
      match KeywordBySlug(site, tag.value)
      case Err(e) => Err(e)
      case Ok(k) => Ok(Filter(events, Tagged(k.id)))
    else ExcludeAll(site, events, site.excludeTags)
  }

  // --- The listing page ---

  /** What get_queryset hands the template: the dictionary of month buckets,
      or the plain queryset when no month remains. */
  datatype Listing = ByMonth(entries: seq<(string, seq<Event>)>) | Plain(events: seq<Event>)

  datatype ListingPage = ListingPage(listing: Listing, tags: seq<Keyword>)

  /** The listing of the events that pass the query and the tag step. */
  function ListingOf(events: seq<Event>): Listing
    requires ValidStarts(events)
  {
    var months := MonthList(events, false);
    MonthListValid(events, false);
    if |months| == 0 then Plain(events) else ByMonth(Labelled(months, Buckets(events, months, None, false)))
  }

  lemma ValidStartsSubset(events: seq<Event>, sub: seq<Event>)
    requires ValidStarts(events) && forall x :: x in sub ==> x in events
    ensures ValidStarts(sub)
  {
  }

  /** What EventListView.get_queryset computes, and its 404s. As written
      (`asWritten`), building the first dictionary key fails, so any
      non-empty month list ends in KeyConcatenation; otherwise the key is
      the one the code evidently intends. */
  function EventListingBy(site: Site, visible: seq<Event>, req: ListingRequest, now: Timestamp, asWritten: bool)
    : Result<ListingPage, ViewError>
    requires ValidStarts(visible)
  {
    match ListingQuery(site, visible, req, now)
    case Err(e) => Err(e)
    case Ok(queried) =>
      match TagFilter(site, queried, req.tag)
      case Err(e) => Err(e)
      case Ok(events) =>
        ValidStartsSubset(visible, events);
        var tags := TagList(site, Filter(Dedup(TagRows(queried)), KeptTag(site.excludeTags)));
        if asWritten && |MonthList(events, false)| > 0 then Err(KeyConcatenation)
        else Ok(ListingPage(ListingOf(events), tags))
  }

  /** The listing view as written. */
  function EventListingAsWritten(site: Site, visible: seq<Event>, req: ListingRequest, now: Timestamp): Result<ListingPage, ViewError>
    requires ValidStarts(visible)
  {
    EventListingBy(site, visible, req, now, true)
  }

  /** The listing view with the intended dictionary keys. */
  function EventListing(site: Site, visible: seq<Event>, req: ListingRequest, now: Timestamp): Result<ListingPage, ViewError>
    requires ValidStarts(visible)
  {
    EventListingBy(site, visible, req, now, false)
  }

  /** As written, every listing that has an event to show fails on its
      first key; the other outcomes are those of the corrected listing. */
  lemma ListingKeyRaises(site: Site, visible: seq<Event>, req: ListingRequest, now: Timestamp)
    requires ValidStarts(visible)
    ensures var corrected := EventListing(site, visible, req, now);
            var asWritten := EventListingAsWritten(site, visible, req, now);
            && (corrected.Ok? && corrected.value.listing.ByMonth? ==> asWritten == Err(KeyConcatenation))
            && (!(corrected.Ok? && corrected.value.listing.ByMonth?) ==> asWritten == corrected)
    ensures var query := ListingQuery(site, visible, req, now);
            query.Ok? && TagFilter(site, query.value, req.tag).Ok? && |TagFilter(site, query.value, req.tag).value| > 0 ==>
              EventListingAsWritten(site, visible, req, now) == Err(KeyConcatenation)
  {
    var query := ListingQuery(site, visible, req, now);
    if query.Ok? && TagFilter(site, query.value, req.tag).Ok? {
      MonthListMembers(TagFilter(site, query.value, req.tag).value, false);
    }
  }

  /** EventListView.get_queryset on the published events; `asWritten`
      selects the source's key expression or the intended one. */
  method EventList(site: Site, visible: seq<Event>, req: ListingRequest, now: Timestamp, asWritten: bool)
    returns (r: Result<ListingPage, ViewError>)
    requires ValidStarts(visible)
    ensures r == EventListingBy(site, visible, req, now, asWritten)
  {
    var query := ListingQuery(site, visible, req, now);
    if query.Err? {
      return Err(query.error);
    }
    var queried := query.value;
    var tagIds := CleanTagList(TagRows(queried), site.excludeTags);
    var tags := TagList(site, tagIds);
    var filtered;
    if req.tag.Some? {
      filtered := TagFilter(site, queried, req.tag);
    } else {
      filtered := ExcludeTags(site, queried);
    }
    if filtered.Err? {
      return Err(filtered.error);
    }
    var events := filtered.value;
    ValidStartsSubset(visible, events);
    var months := MonthList(events, false);
    if |months| == 0 {
      return Ok(ListingPage(Plain(events), tags));
    }
    if asWritten {
      return Err(KeyConcatenation);
    }
    MonthListValid(events, false);
    var byMonth := FillMonthBuckets(events, months, None, false);
    return Ok(ListingPage(ByMonth(byMonth), tags));
  }

  /** Entry i of the dictionary is month i's label with bucket i. */
  lemma {:induction false} LabelledEntries(months: seq<MonthKey>, bs: seq<seq<Event>>)
    requires |months| == |bs| && ValidKeys(months)
    ensures forall i :: 0 <= i < |months| ==> Labelled(months, bs)[i] == (Label(months[i]), bs[i])
    decreases |months|
  {
    if |months| > 0 {
      var n := |months| - 1;
      assert ValidKeys(months[..n]);
      var p := Labelled(months[..n], bs[..n]);
      LabelledEntries(months[..n], bs[..n]);
      var r := Labelled(months, bs);
      assert r == p + [(Label(months[n]), bs[n])];
      forall i | 0 <= i < |months| ensures r[i] == (Label(months[i]), bs[i]) {
        if i < n {
          assert r[i] == p[i];
          assert months[..n][i] == months[i] && bs[..n][i] == bs[i];
        }
      }
    }
  }

  /** The dictionary entries: entry i is month i's label with exactly the
      events starting in month i. */
  ghost predicate EntriesByStartMonth(events: seq<Event>, months: seq<MonthKey>, entries: seq<(string, seq<Event>)>) {
    && |entries| == |months| && ValidKeys(months)
    && forall i, x :: 0 <= i < |months| ==>
         && entries[i].0 == Label(months[i])
         && (x in entries[i].1 <==> x in events && KeyOf(x) == months[i])
  }

  lemma EntriesOfBuckets(events: seq<Event>, months: seq<MonthKey>, bs: seq<seq<Event>>)
    requires |bs| == |months| && ValidKeys(months)
    requires BucketsByStartMonth(events, months, bs)
    ensures EntriesByStartMonth(events, months, Labelled(months, bs))
  {
    LabelledEntries(months, bs);
    EntriesPointwise(events, months, bs, Labelled(months, bs));
  }

  lemma EntriesPointwise(events: seq<Event>, months: seq<MonthKey>, bs: seq<seq<Event>>, entries: seq<(string, seq<Event>)>)
    requires |bs| == |months| == |entries| && ValidKeys(months)
    requires BucketsByStartMonth(events, months, bs)
    requires forall i :: 0 <= i < |months| ==> entries[i] == (Label(months[i]), bs[i])
    ensures EntriesByStartMonth(events, months, entries)
  {
  }

  /** The listing is the plain (empty) queryset exactly when no event is
      left; otherwise its entries are the months in which the events start,
      in chronological order, each under its label and holding exactly the
      events that start in that month. */
  lemma ListingByStartMonth(events: seq<Event>)
    requires ValidStarts(events) && UniqueIds(events)
    ensures var listing := ListingOf(events);
            var months := MonthList(events, false);
            && (listing.Plain? <==> |events| == 0)
            && (listing.ByMonth? ==>
                  && StrictlySortedBy(months, KeyIndex)
                  && (forall k :: k in months <==> exists e :: e in events && KeyOf(e) == k)
                  && EntriesByStartMonth(events, months, listing.entries))
  {
    var months := MonthList(events, false);
    MonthListMembers(events, false);
    if |months| > 0 {
      MonthListValid(events, false);
      MonthListChronological(events);
      ListingBucketsAreStartMonths(events);
      EntriesOfBuckets(events, months, Buckets(events, months, None, false));
    }
  }

  /** The listed events are published events. */
  lemma EventListingDrawsFromVisible(site: Site, visible: seq<Event>, req: ListingRequest, now: Timestamp)
    requires ValidStarts(visible)
    requires ListingQuery(site, visible, req, now).Ok? && TagFilter(site, ListingQuery(site, visible, req, now).value, req.tag).Ok?
    ensures var events := TagFilter(site, ListingQuery(site, visible, req, now).value, req.tag).value;
            && (forall x :: x in events ==> x in visible)
            && EventListing(site, visible, req, now) == Ok(ListingPage(ListingOf(events),
                 TagList(site, Filter(Dedup(TagRows(ListingQuery(site, visible, req, now).value)), KeptTag(site.excludeTags)))))
  {
  }

  // --- ArchiveListView.get_queryset ---

  /** The URL keyword arguments of an archive request. */
  datatype ArchiveRequest = ArchiveRequest(year: Option<nat>, month: Option<nat>, day: Option<nat>)

  /** The season page: the season shown, the season table after
      get_or_create, and the listing. */
  datatype ArchivePage = ArchivePage(season: Season, seasons: seq<Season>, listing: Listing)

  function StartsInSeasonYear(y: int): Season -> bool { (s: Season) => s.start.year == y }

  /** The default title: "Season <y>-<y + 1>". */
  function SeasonTitle(y: nat): string {
    "Season " + DecimalString(y) + "-" + DecimalString(y + 1)
  }

  /** Season.objects.get_or_create(start__year=y, defaults=...) with the id
      the database gives a new row. The defaults are built first, so date()
      fails on a year outside the calendar even when the season exists. */
  function SeasonGetOrCreate(seasons: seq<Season>, y: nat, newId: nat): (r: Result<(Season, seq<Season>), ViewError>)
    ensures r.Ok? ==> r.value.0 in r.value.1 && r.value.0.start.year == y
  {
    if !(ValidDate(Date(y, 7, 31)) && ValidDate(Date(y + 1, 8, 1))) then Err(InvalidDate)
    else match Lookup(seasons, StartsInSeasonYear(y))
         case Ok(s) => Ok((s, seasons))
         case Err(NotFound) =>
           var s := Season(Some(newId), SeasonTitle(y), Date(y, 7, 31), Date(y + 1, 8, 1));
           Ok((s, seasons + [s]))
         case Err(e) => Err(e)
  }

  /** get_or_create fails on a year outside 1..9998 and on two seasons
      starting in the year; it creates the default season exactly when no
      season starts in the year, and otherwise leaves the table alone. */
  lemma SeasonGetOrCreateOutcome(seasons: seq<Season>, y: nat, newId: nat)
    ensures var r := SeasonGetOrCreate(seasons, y, newId);
            && (r == Err(InvalidDate) <==> y < 1 || y + 1 > MaxYear)
            && (r.Err? && 1 <= y && y + 1 <= MaxYear ==>
                  r == Err(ViewError.MultipleObjectsReturned) && |Filter(seasons, StartsInSeasonYear(y))| > 1)
            && (r.Ok? && (forall s :: s in seasons ==> s.start.year != y) ==>
                  r.value == (Season(Some(newId), SeasonTitle(y), Date(y, 7, 31), Date(y + 1, 8, 1)),
                              seasons + [Season(Some(newId), SeasonTitle(y), Date(y, 7, 31), Date(y + 1, 8, 1))]))
            && (r.Ok? && (exists s :: s in seasons && s.start.year == y) ==>
                  r.value.1 == seasons && r.value.0 in seasons)
  {
    LookupOutcome(seasons, StartsInSeasonYear(y));
  }

  /** Asking again for the same year finds the same season and creates nothing. */
  lemma SeasonGetOrCreateIdempotent(seasons: seq<Season>, y: nat, newId: nat, laterId: nat)
    requires SeasonGetOrCreate(seasons, y, newId).Ok?
    ensures var (season, table) := SeasonGetOrCreate(seasons, y, newId).value;
            SeasonGetOrCreate(table, y, laterId) == Ok((season, table))
  {
    var p := StartsInSeasonYear(y);
    LookupOutcome(seasons, p);
    var (season, table) := SeasonGetOrCreate(seasons, y, newId).value;
    if table != seasons {
      assert Filter(table, p) == Filter(seasons, p) + [season];
      assert |Filter(seasons, p)| == 0;
    }
    LookupOutcome(table, p);
  }

  /** date_max: the last second of the season's end day once that day is
      past, the current time otherwise. */
  function ArchiveUpperBound(season: Season, now: Timestamp): Timestamp {
    if DateBefore(season.end, now.date) then Timestamp(season.end, SecondsPerDay - 1) else now
  }

  /** start__range and end__range between the season's first midnight and
      date_max; an event without an end never matches. */
  function InArchiveWindow(lower: Timestamp, upper: Timestamp): Event -> bool {
    (e: Event) => && AbsSecond(lower) <= AbsSecond(e.start) <= AbsSecond(upper)
                  && e.end.Some? && AbsSecond(lower) <= AbsSecond(e.end.value) <= AbsSecond(upper)
  }

  /** The archive month filter: spanning the month, starting in it (at
      midnight precision), or ending or starting in a month of that number. */
  function ArchiveMonthWindow(y: int, m: int): Event -> bool {
    var first := AbsSecond(Midnight(Date(y, m, 1)));
    var last := AbsSecond(Midnight(Date(y, m, DaysInMonth(y, m))));
    (e: Event) => || (AbsSecond(e.start) < first && e.end.Some? && AbsSecond(e.end.value) > last)
                  || (first <= AbsSecond(e.start) <= last)
                  || (e.end.Some? && e.end.value.date.month == m)
                  || e.start.date.month == m
  }

  /** The month and day filters of the archive as written: date(year, month,
      1) runs before month_name[month], so a month outside 1..12 fails in
      date() and the IndexError handler that would answer 404 never runs. */
  function ArchiveMonthFilterAsWritten(events: seq<Event>, y: nat, month: Option<nat>, day: Option<nat>)
    : (r: Result<seq<Event>, ViewError>)
    ensures r.Ok? ==> forall x :: x in r.value ==> x in events
  {
    if month.None? then Ok(events)
    else
      var m := month.value;
      if !ValidDate(Date(y, m, 1)) then Err(InvalidDate)
      else if m > 12 then Err(NotFound)
      else
        var byMonth := Filter(events, ArchiveMonthWindow(y, m));
        if day.None? then Ok(byMonth)
        else if !ValidDate(Date(y, m, day.value)) then Err(InvalidDate)
        else Ok(Filter(byMonth, StartsOnDay(day.value)))
  }

  /** The same filters with the month checked first, as the listing view
      does: a month above 12 is not found. */
  function ArchiveMonthFilter(events: seq<Event>, y: nat, month: Option<nat>, day: Option<nat>)
    : (r: Result<seq<Event>, ViewError>)
    ensures r.Ok? ==> forall x :: x in r.value ==> x in events
  {
    if month.Some? && month.value > 12 then Err(NotFound)
    else ArchiveMonthFilterAsWritten(events, y, month, day)
  }

  /** As written, the archive never answers 404 for its month: a month of 13
      fails in date() instead. */
  lemma ArchiveMonthNeverNotFound(events: seq<Event>, y: nat, month: Option<nat>, day: Option<nat>)
    ensures ArchiveMonthFilterAsWritten(events, y, month, day) != Err(NotFound)
    ensures 1 <= y <= MaxYear ==> ArchiveMonthFilterAsWritten(events, y, Some(13), day) == Err(InvalidDate)
  {
  }

  /** The corrected filter answers 404 exactly for a month above 12, fails
      on an impossible date, and otherwise keeps the events in the month
      window that start on the requested day. */
  lemma ArchiveMonthFilterMembers(events: seq<Event>, y: nat, month: Option<nat>, day: Option<nat>, x: Event)
    requires 1 <= y <= MaxYear
    ensures var r := ArchiveMonthFilter(events, y, month, day);
            && (r == Err(NotFound) <==> month.Some? && month.value > 12)
            && (r == Err(InvalidDate) <==>
                  (month.Some? && month.value <= 12
                   && (month.value == 0 || (day.Some? && !ValidDate(Date(y, month.value, day.value))))))
            && (r.Ok? ==>
                  (x in r.value <==>
                     && x in events
                     && (month.Some? ==> ArchiveMonthWindow(y, month.value)(x))
                     && (month.Some? && day.Some? ==> x.start.date.day == day.value)))
  {
  }

  /** The archive listing of the filtered events: buckets latest month first,
      each month's window computed in the requested year. */
  function ArchiveListingOf(events: seq<Event>, y: nat): Listing
    requires ValidStarts(events)
  {
    var months := MonthList(events, true);
    MonthListValid(events, true);
    if |months| == 0 then Plain(events) else ByMonth(Labelled(months, Buckets(events, months, Some(y), true)))
  }

  /** What ArchiveListView.get_queryset computes; the year defaults to the
      current one. When `asWritten`, the month and day filters are the ones
      written in the view and a non-empty month list fails on its first key;
      otherwise the filters are the corrected ones and the keys the
      intended ones. */
  function ArchiveListingBy(seasons: seq<Season>, visible: seq<Event>, req: ArchiveRequest, now: Timestamp, newId: nat, asWritten: bool)
    : Result<ArchivePage, ViewError>
    requires ValidStarts(visible) && now.date.year >= 0
  {
    var y: nat := if req.year.None? then now.date.year else req.year.value;
    match SeasonGetOrCreate(seasons, y, newId)
    case Err(e) => Err(e)
    case Ok((season, table)) =>
      var inSeason := Filter(visible, InArchiveWindow(Midnight(season.start), ArchiveUpperBound(season, now)));
      var filtered :=
        if asWritten then ArchiveMonthFilterAsWritten(inSeason, y, req.month, req.day)
        else ArchiveMonthFilter(inSeason, y, req.month, req.day);
      match filtered
      case Err(e) => Err(e)
      case Ok(events) =>
        ValidStartsSubset(visible, events);
        if asWritten && |MonthList(events, true)| > 0 then Err(KeyConcatenation)
        else Ok(ArchivePage(season, table, ArchiveListingOf(events, y)))
  }

  /** The archive view as written. */
  function ArchiveListingAsWritten(seasons: seq<Season>, visible: seq<Event>, req: ArchiveRequest, now: Timestamp, newId: nat)
    : Result<ArchivePage, ViewError>
    requires ValidStarts(visible) && now.date.year >= 0
  {
    ArchiveListingBy(seasons, visible, req, now, newId, true)
  }

  /** The archive view with the corrected month filter. */
  function ArchiveListing(seasons: seq<Season>, visible: seq<Event>, req: ArchiveRequest, now: Timestamp, newId: nat)
    : Result<ArchivePage, ViewError>
    requires ValidStarts(visible) && now.date.year >= 0
  {
    ArchiveListingBy(seasons, visible, req, now, newId, false)
  }

  /** The archive as written fails on its first key wherever the corrected
      archive shows months. Otherwise the two agree, except on a month above
      12 in a season that exists or can be created: there the corrected view
      answers 404 and the view as written fails on the impossible date. */
  lemma ArchiveListingsAgree(seasons: seq<Season>, visible: seq<Event>, req: ArchiveRequest, now: Timestamp, newId: nat)
    requires ValidStarts(visible) && now.date.year >= 0
    ensures var y: nat := if req.year.None? then now.date.year else req.year.value;
            var asWritten := ArchiveListingAsWritten(seasons, visible, req, now, newId);
            var corrected := ArchiveListing(seasons, visible, req, now, newId);
            && (req.month.None? || req.month.value <= 12 || SeasonGetOrCreate(seasons, y, newId).Err? ==>
                  asWritten == if corrected.Ok? && corrected.value.listing.ByMonth? then Err(KeyConcatenation) else corrected)
            && (req.month.Some? && req.month.value > 12 && SeasonGetOrCreate(seasons, y, newId).Ok? ==>
                  asWritten == Err(InvalidDate) && corrected == Err(NotFound))
  {
  }

  /** ArchiveListView.get_queryset on the published events; `asWritten`
      selects the source's month filter and key expression or the corrected
      ones. */
  method ArchiveList(seasons: seq<Season>, visible: seq<Event>, req: ArchiveRequest, now: Timestamp, newId: nat, asWritten: bool)
    returns (r: Result<ArchivePage, ViewError>)
    requires ValidStarts(visible) && now.date.year >= 0
    ensures r == ArchiveListingBy(seasons, visible, req, now, newId, asWritten)
  {
    var y: nat := if req.year.None? then now.date.year else req.year.value;
    var found := SeasonGetOrCreate(seasons, y, newId);
    if found.Err? {
      return Err(found.error);
    }
    var (season, table) := found.value;
    var upper := ArchiveUpperBound(season, now);
    var inSeason := Filter(visible, InArchiveWindow(Midnight(season.start), upper));
    var filtered;
    if asWritten {
      filtered := ArchiveMonthFilterAsWritten(inSeason, y, req.month, req.day);
    } else {
      filtered := ArchiveMonthFilter(inSeason, y, req.month, req.day);
    }
    if filtered.Err? {
      return Err(filtered.error);
    }
    var events := filtered.value;
    ValidStartsSubset(visible, events);
    var months := MonthList(events, true);
    if |months| == 0 {
      return Ok(ArchivePage(season, table, Plain(events)));
    }
    if asWritten {
      return Err(KeyConcatenation);
    }
    MonthListValid(events, true);
    var byMonth := FillMonthBuckets(events, months, Some(y), true);
    return Ok(ArchivePage(season, table, ByMonth(byMonth)));
  }

  /** With distinct ids, an event whose start month is listed lands in some bucket. */
  lemma BucketsHold(events: seq<Event>, months: seq<MonthKey>, archiveYear: Option<int>, descending: bool, x: Event)
    requires UniqueIds(events) && x in events && KeyOf(x) in months
    ensures exists i :: 0 <= i < |months| && x in Buckets(events, months, archiveYear, descending)[i]
  {
    var bs := Buckets(events, months, archiveYear, descending);
    BucketsCover(events, months, archiveYear, descending, x);
    PlacedMembers(bs);
    var i, y: Event :| 0 <= i < |bs| && y in bs[i] && y.id == x.id;
    BucketsWithinWindow(events, months, archiveYear, descending);
    assert y in events;
  }

  /** No event sits in two buckets. */
  lemma BucketsDisjoint(events: seq<Event>, months: seq<MonthKey>, archiveYear: Option<int>, descending: bool)
    ensures var bs := Buckets(events, months, archiveYear, descending);
            forall i, j, x :: 0 <= i < j < |bs| && x in bs[i] ==> x !in bs[j]
  {
    BucketsPlaceOnce(events, months, archiveYear, descending);
  }

  /** Every event sits in exactly one of the buckets. */
  ghost predicate Partitions(events: seq<Event>, bs: seq<seq<Event>>) {
    && (forall x :: x in events ==> exists i :: 0 <= i < |bs| && x in bs[i])
    && forall i, j, x :: 0 <= i < j < |bs| && x in bs[i] ==> x !in bs[j]
  }

  /** The shared `already` list partitions the events: with distinct ids and
      every start month listed, each event lands in exactly one bucket. */
  lemma BucketsPartition(events: seq<Event>, months: seq<MonthKey>, archiveYear: Option<int>, descending: bool)
    requires UniqueIds(events) && forall x :: x in events ==> KeyOf(x) in months
    ensures Partitions(events, Buckets(events, months, archiveYear, descending))
  {
    forall x | x in events ensures exists i :: 0 <= i < |months| && x in Buckets(events, months, archiveYear, descending)[i] {
      BucketsHold(events, months, archiveYear, descending, x);
    }
    BucketsDisjoint(events, months, archiveYear, descending);
  }

  /** In the archive each event of the season lands in exactly one bucket,
      and only where the month window of the requested year admits it. */
  lemma ArchiveBucketsPartition(events: seq<Event>, y: nat)
    requires UniqueIds(events)
    ensures var bs := Buckets(events, MonthList(events, true), Some(y), true);
            && Partitions(events, bs)
            && forall i, x :: 0 <= i < |bs| && x in bs[i] ==> InMonthWindow(x, MonthList(events, true)[i], y)
  {
    var months := MonthList(events, true);
    MonthListMembers(events, true);
    BucketsPartition(events, months, Some(y), true);
    BucketsWithinWindow(events, months, Some(y), true);
  }

  /** The archive listing is the plain (empty) queryset exactly when no event
      is left, and otherwise the labelled buckets of the month list. */
  lemma ArchiveListingShape(events: seq<Event>, y: nat)
    requires ValidStarts(events)
    ensures var months := MonthList(events, true);
            && ValidKeys(months)
            && (ArchiveListingOf(events, y).Plain? <==> |events| == 0)
            && (|months| > 0 ==> ArchiveListingOf(events, y) == ByMonth(Labelled(months, Buckets(events, months, Some(y), true))))
  {
    MonthListValid(events, true);
    MonthListMembers(events, true);
  }

  /** An event shown by a listing, plain or in one of its month entries. */
  ghost predicate Shows(l: Listing, x: Event) {
    match l
    case Plain(events) => x in events
    case ByMonth(entries) => exists i :: 0 <= i < |entries| && x in entries[i].1
  }

  /** The archive listing shows only the events it was given. */
  lemma ArchiveShowsFiltered(events: seq<Event>, y: nat, x: Event)
    requires ValidStarts(events)
    ensures Shows(ArchiveListingOf(events, y), x) ==> x in events
  {
    var months := MonthList(events, true);
    MonthListValid(events, true);
    if |months| > 0 && Shows(ArchiveListingOf(events, y), x) {
      var tmps := Tmps(events, months, Some(y), true);
      var bs := BucketsOf(tmps);
      LabelledEntries(months, bs);
      var i :| 0 <= i < |months| && x in Labelled(months, bs)[i].1;
      BucketsOfWithin(tmps, i, StartOrder(true));
      TmpMembers(events, months[i], Some(y), true);
    }
  }

  /** Every event on an archive page is published and lies, start and end,
      between the first midnight of the season and the upper bound: the last
      second of the season's end day once that day is past, otherwise now. */
  lemma ArchiveListingWindow(seasons: seq<Season>, visible: seq<Event>, req: ArchiveRequest, now: Timestamp, newId: nat, asWritten: bool, x: Event)
    requires ValidStarts(visible) && now.date.year >= 0
    ensures var r := ArchiveListingBy(seasons, visible, req, now, newId, asWritten);
            r.Ok? && Shows(r.value.listing, x) ==>
              var s := r.value.season;
              var lower := AbsSecond(Midnight(s.start));
              var upper := if DateBefore(s.end, now.date) then AbsSecond(Timestamp(s.end, SecondsPerDay - 1)) else AbsSecond(now);
              && x in visible
              && lower <= AbsSecond(x.start) <= upper
              && x.end.Some? && lower <= AbsSecond(x.end.value) <= upper
  {
    var r := ArchiveListingBy(seasons, visible, req, now, newId, asWritten);
    if r.Ok? && Shows(r.value.listing, x) {
      var y: nat := if req.year.None? then now.date.year else req.year.value;
      var (season, table) := SeasonGetOrCreate(seasons, y, newId).value;
      var inSeason := Filter(visible, InArchiveWindow(Midnight(season.start), ArchiveUpperBound(season, now)));
      var events := (if asWritten then ArchiveMonthFilterAsWritten(inSeason, y, req.month, req.day)
                     else ArchiveMonthFilter(inSeason, y, req.month, req.day)).value;
      ValidStartsSubset(visible, events);
      ArchiveShowsFiltered(events, y, x);
      assert x in events;
      assert x in inSeason;
    }
  }

  // --- LocationListView.get_queryset ---

  /** `if location.room:` a room that is neither NULL nor empty. */
  predicate HasRoom(l: Location) {
    l.room.Some? && |l.room.value| > 0
  }

  /** Location i is listed: it has no room, or no location before it has its room. */
  predicate KeptAt(locations: seq<Location>, i: nat)
    requires i < |locations|
  {
    !HasRoom(locations[i]) || forall j :: 0 <= j < i ==> locations[j].room != locations[i].room
  }

  /** The locations the view lists, in the order of the query. */
  function KeptLocations(locations: seq<Location>): seq<Location> {
    if |locations| == 0 then []
    else
      var n := |locations| - 1;
      KeptLocations(locations[..n]) + if KeptAt(locations, n) then [locations[n]] else []
  }

  /** The rooms of the locations before position i. */
  ghost predicate RoomsBefore(locations: seq<Location>, i: nat, rooms: seq<string>)
    requires i <= |locations|
  {
    forall r :: r in rooms <==> exists j :: 0 <= j < i && HasRoom(locations[j]) && locations[j].room == Some(r)
  }

  /** One turn of the loop: the new list and rooms are those of one more location. */
  lemma LocationListStep(locations: seq<Location>, i: nat, rooms: seq<string>, list: seq<Location>,
                         newRooms: seq<string>, newList: seq<Location>)
    requires i < |locations| && RoomsBefore(locations, i, rooms) && list == KeptLocations(locations[..i])
    requires var l := locations[i];
             && newList == list + (if !HasRoom(l) || l.room.value !in rooms then [l] else [])
             && newRooms == if HasRoom(l) && l.room.value !in rooms then rooms + [l.room.value] else rooms
    ensures newList == KeptLocations(locations[..i + 1])
    ensures RoomsBefore(locations, i + 1, newRooms)
  {
    var pre := locations[..i + 1];
    assert pre[..i] == locations[..i];
    assert forall j :: 0 <= j <= i ==> pre[j] == locations[j];
    assert KeptAt(pre, i) == KeptAt(locations, i);
  }

  /** The loop of LocationListView.get_queryset over the locations ordered
      by room. */
  method LocationList(locations: seq<Location>) returns (locationList: seq<Location>)
    ensures locationList == KeptLocations(locations)
  {
    locationList := [];
    var rooms: seq<string> := [];
    var i := 0;
    while i < |locations|
      invariant 0 <= i <= |locations|
      invariant locationList == KeptLocations(locations[..i])
      invariant RoomsBefore(locations, i, rooms)
    {
      ghost var list, seen := locationList, rooms;
      var location := locations[i];
      if location.room.Some? && |location.room.value| > 0 {
        if location.room.value !in rooms {
          locationList := locationList + [location];
          rooms := rooms + [location.room.value];
        }
      } else {
        locationList := locationList + [location];
      }
      LocationListStep(locations, i, seen, list, rooms, locationList);
      i := i + 1;
    }
    assert locations[..i] == locations;
  }

  /** Location l stands at a listed position of the query. */
  ghost predicate ListedAt(locations: seq<Location>, l: Location) {
    exists i :: 0 <= i < |locations| && KeptAt(locations, i) && locations[i] == l
  }

  /** The listed locations are those at the kept positions of the query. */
  lemma {:induction false} KeptLocationsAt(locations: seq<Location>)
    ensures forall l :: l in KeptLocations(locations) <==> ListedAt(locations, l)
    decreases |locations|
  {
    if |locations| > 0 {
      KeptLocationsAt(locations[..|locations| - 1]);
      forall l ensures l in KeptLocations(locations) <==> ListedAt(locations, l) {
        KeptSnocMember(locations, l);
      }
    }
  }

  lemma KeptSnocMember(locations: seq<Location>, l: Location)
    requires |locations| > 0
    requires l in KeptLocations(locations[..|locations| - 1]) <==> ListedAt(locations[..|locations| - 1], l)
    ensures l in KeptLocations(locations) <==> ListedAt(locations, l)
  {
    var n := |locations| - 1;
    var pre := locations[..n];
    var p := KeptLocations(pre);
    var tail := if KeptAt(locations, n) then [locations[n]] else [];
    var kept := KeptLocations(locations);
    assert kept == p + tail;
    if l in kept {
      if l in p {
        assert ListedAt(pre, l);
        var i :| 0 <= i < n && KeptAt(pre, i) && pre[i] == l;
        KeptAtPrefix(locations, n, i);
        assert KeptAt(locations, i) && locations[i] == l;
      } else {
        assert l in tail;
        assert KeptAt(locations, n) && locations[n] == l;
      }
      assert ListedAt(locations, l);
    }
    if ListedAt(locations, l) {
      var i :| 0 <= i < |locations| && KeptAt(locations, i) && locations[i] == l;
      if i < n {
        KeptAtPrefix(locations, n, i);
        assert KeptAt(pre, i) && pre[i] == l;
        assert ListedAt(pre, l);
        assert l in p;
      } else {
        assert i == n && KeptAt(locations, n);
        assert tail == [l];
      }
      assert l in kept;
    }
  }

  lemma KeptAtPrefix(locations: seq<Location>, n: nat, i: nat)
    requires i < n <= |locations|
    ensures locations[..n][i] == locations[i]
    ensures KeptAt(locations[..n], i) <==> KeptAt(locations, i)
  {
    assert forall j :: 0 <= j < i ==> locations[..n][j] == locations[j];
  }

  /** Every location without a room is listed, and so is the first location
      of every room; every listed location comes from the query. */
  lemma LocationListCovers(locations: seq<Location>)
    ensures forall l :: l in KeptLocations(locations) ==> l in locations
    ensures forall l :: l in locations && !HasRoom(l) ==> l in KeptLocations(locations)
    ensures forall i :: 0 <= i < |locations| && HasRoom(locations[i]) ==>
              exists k :: k in KeptLocations(locations) && k.room == locations[i].room
  {
    KeptLocationsAt(locations);
    forall l | l in KeptLocations(locations) ensures l in locations {
      assert ListedAt(locations, l);
    }
    forall l | l in locations && !HasRoom(l) ensures l in KeptLocations(locations) {
      var i :| 0 <= i < |locations| && locations[i] == l;
      assert ListedAt(locations, l);
    }
    forall i | 0 <= i < |locations| && HasRoom(locations[i])
      ensures exists k :: k in KeptLocations(locations) && k.room == locations[i].room
    {
      var f := FirstWithRoom(locations, locations[i].room, i);
      assert KeptAt(locations, f);
      assert ListedAt(locations, locations[f]);
    }
  }

  /** The first position holding room r, found at or before i. */
  function FirstWithRoom(locations: seq<Location>, r: Option<string>, i: nat): (f: nat)
    requires i < |locations| && locations[i].room == r
    ensures f <= i && locations[f].room == r
    ensures forall j :: 0 <= j < f ==> locations[j].room != r
  {
    if exists j :: 0 <= j < i && locations[j].room == r then
      var j :| 0 <= j < i && locations[j].room == r;
      FirstWithRoom(locations, r, j)
    else i
  }

  /** No two listed locations share a room. */
  predicate RoomsDistinct(list: seq<Location>) {
    forall a, b :: 0 <= a < b < |list| && HasRoom(list[a]) ==> list[a].room != list[b].room
  }

  lemma {:induction false} LocationListRoomsDistinct(locations: seq<Location>)
    ensures RoomsDistinct(KeptLocations(locations))
    decreases |locations|
  {
    if |locations| > 0 {
      var n := |locations| - 1;
      var pre := locations[..n];
      LocationListRoomsDistinct(pre);
      KeptLocationsAt(pre);
      var p := KeptLocations(pre);
      assert KeptLocations(locations) == p + if KeptAt(locations, n) then [locations[n]] else [];
      if KeptAt(locations, n) {
        var kept := p + [locations[n]];
        forall a, b | 0 <= a < b < |kept| && HasRoom(kept[a]) ensures kept[a].room != kept[b].room {
          assert kept[a] == p[a];
          if b == |p| {
            assert kept[b] == locations[n];
            assert p[a] in p;
            assert ListedAt(pre, p[a]);
            var j :| 0 <= j < n && KeptAt(pre, j) && pre[j] == p[a];
            assert locations[j] == p[a];
            if HasRoom(locations[n]) {
              assert locations[j].room != locations[n].room;
            } else {
              assert HasRoom(p[a]);
            }
            assert kept[a].room != kept[b].room;
          } else {
            assert kept[b] == p[b];
            assert HasRoom(p[a]);
          }
        }
      }
    }
  }
}
