/** The template tags and filters of the agenda: the month counts of the
    sidebar, the recent and upcoming feeds, the Google Calendar and iCalendar
    links, the day and week ranges, and two small filters over periods and
    excluded tags. */
module EventTags {
  import opened Common
  import opened Calendar
  import opened Models
  import opened Views

  // --- event_months ---

  /** datetime(date.year, date.month, 1): the "date" of a start's dictionary. */
  function MonthStart(t: Timestamp): Date {
    Date(t.date.year, t.date.month, 1)
  }

  /** The "date" values of date_dicts, one per start, in query order. */
  function MonthStarts(starts: seq<Timestamp>): (r: seq<Date>)
    ensures |r| == |starts|
    ensures forall i :: 0 <= i < |starts| ==> r[i] == MonthStart(starts[i])
  {
    if |starts| == 0 then [] else MonthStarts(starts[..|starts| - 1]) + [MonthStart(starts[|starts| - 1])]
  }

  /** One dictionary of the result: {"date": ..., "event_count": ...}. */
  datatype MonthCount = MonthCount(date: Date, eventCount: nat)

  /** The dates of the dictionaries at the given positions of date_dicts. */
  function DatesAt(dates: seq<Date>, idx: seq<nat>): (r: seq<Date>)
    requires forall t :: 0 <= t < |idx| ==> idx[t] < |dates|
    ensures |r| == |idx|
    ensures forall t :: 0 <= t < |idx| ==> r[t] == dates[idx[t]]
  {
    if |idx| == 0 then [] else DatesAt(dates, idx[..|idx| - 1]) + [dates[idx[|idx| - 1]]]
  }

  /** date_dicts.count(d): how many dictionaries equal {"date": date} plus,
      when count is Some, "event_count": count. */
  function CountEqual(dates: seq<Date>, counts: seq<Option<nat>>, date: Date, count: Option<nat>): nat
    requires |dates| == |counts|
  {
    if |dates| == 0 then 0
    else
      var n := |dates| - 1;
      CountEqual(dates[..n], counts[..n], date, count) + if dates[n] == date && counts[n] == count then 1 else 0
  }

  /** While no dictionary of that date carries a count yet, counting by
      dictionary equality counts the dates. */
  lemma {:induction false} CountEqualUncounted(dates: seq<Date>, counts: seq<Option<nat>>, date: Date)
    requires |dates| == |counts|
    requires forall j :: 0 <= j < |dates| && dates[j] == date ==> counts[j] == None
    ensures CountEqual(dates, counts, date, None) == multiset(dates)[date]
  {
    if |dates| > 0 {
      var n := |dates| - 1;
      CountEqualUncounted(dates[..n], counts[..n], date);
      assert dates == dates[..n] + [dates[n]];
    }
  }

  /** The sum of the event counts. */
  function TotalCount(months: seq<MonthCount>): nat {
    if |months| == 0 then 0 else TotalCount(months[..|months| - 1]) + months[|months| - 1].eventCount
  }

  /** The sum over distinct dates ds of their multiplicity in m. */
  ghost function SumOver(ds: seq<Date>, m: multiset<Date>): nat {
    if |ds| == 0 then 0 else SumOver(ds[..|ds| - 1], m) + m[ds[|ds| - 1]]
  }

  lemma {:induction false} SumOverAdd(ds: seq<Date>, m: multiset<Date>, x: Date)
    requires NoDuplicates(ds)
    ensures SumOver(ds, m + multiset{x}) == SumOver(ds, m) + if x in ds then 1 else 0
  {
    if |ds| > 0 {
      var n := |ds| - 1;
      assert NoDuplicates(ds[..n]);
      SumOverAdd(ds[..n], m, x);
      assert x in ds <==> x in ds[..n] || x == ds[n];
      if x == ds[n] {
        assert x !in ds[..n];
      }
    }
  }

  lemma {:induction false} SumOverMissing(ds: seq<Date>, m: multiset<Date>, x: Date)
    requires x !in ds
    ensures SumOver(ds + [x], m) == SumOver(ds, m) + m[x]
  {
    assert (ds + [x])[..|ds|] == ds;
  }

  /** Over the distinct dates of a list, the multiplicities add up to its length. */
  lemma {:induction false} SumOverDedup(s: seq<Date>)
    ensures SumOver(Dedup(s), multiset(s)) == |s|
  {
    if |s| > 0 {
      var n := |s| - 1;
      var p := s[..n];
      var x := s[n];
      assert s == p + [x];
      SumOverDedup(p);
      SumOverAdd(Dedup(p), multiset(p), x);
      if x !in p {
        SumOverMissing(Dedup(p), multiset(s), x);
      }
    }
  }

  lemma {:induction false} TotalCountOf(months: seq<MonthCount>, ds: seq<Date>, m: multiset<Date>)
    requires |months| == |ds|
    requires forall i :: 0 <= i < |months| ==> months[i] == MonthCount(ds[i], m[ds[i]])
    ensures TotalCount(months) == SumOver(ds, m)
  {
    if |months| > 0 {
      var n := |months| - 1;
      TotalCountOf(months[..n], ds[..n], m);
    }
  }

  /** Positions, in date_dicts, of the dictionaries month_dicts holds. */
  predicate Positions(dates: seq<Date>, idx: seq<nat>) {
    && (forall t :: 0 <= t < |idx| ==> idx[t] < |dates|)
    && forall t, u :: 0 <= t < u < |idx| ==> idx[t] < idx[u]
  }

  lemma DatesAtSnoc(dates: seq<Date>, idx: seq<nat>, j: nat)
    requires forall t :: 0 <= t < |idx| ==> idx[t] < |dates|
    requires j < |dates|
    ensures DatesAt(dates, idx + [j]) == DatesAt(dates, idx) + [dates[j]]
  {
    assert (idx + [j])[..|idx|] == idx;
  }

  lemma DedupSnoc(dates: seq<Date>, j: nat)
    requires j < |dates|
    ensures Dedup(dates[..j + 1]) == if dates[j] in Dedup(dates[..j]) then Dedup(dates[..j]) else Dedup(dates[..j]) + [dates[j]]
  {
    assert dates[..j + 1][..j] == dates[..j];
  }

  /** Increasing positions, all below j. */
  predicate IncreasingBelow(idx: seq<nat>, j: nat) {
    && (forall t :: 0 <= t < |idx| ==> idx[t] < j)
    && (forall t, u :: 0 <= t < u < |idx| ==> idx[t] < idx[u])
  }

  lemma IncreasingBelowSnoc(idx: seq<nat>, j: nat)
    requires IncreasingBelow(idx, j)
    ensures IncreasingBelow(idx, j + 1) && IncreasingBelow(idx + [j], j + 1)
  {
    var n := idx + [j];
    forall t, u | 0 <= t < u < |n|
      ensures n[t] < n[u]
    {
      assert n[t] == idx[t];
    }
  }

  /** After the first j dates: month_dicts holds increasing positions
      below j whose dates are the distinct ones so far. */
  predicate Collected(dates: seq<Date>, j: nat, idx: seq<nat>)
    requires j <= |dates|
  {
    IncreasingBelow(idx, j) && DatesAt(dates, idx) == Dedup(dates[..j])
  }

  lemma CollectMonthStep(dates: seq<Date>, j: nat, idx: seq<nat>, newIdx: seq<nat>)
    requires j < |dates| && Collected(dates, j, idx)
    requires newIdx == if dates[j] in DatesAt(dates, idx) then idx else idx + [j]
    ensures Collected(dates, j + 1, newIdx)
  {
    DedupSnoc(dates, j);
    IncreasingBelowSnoc(idx, j);
    if dates[j] !in DatesAt(dates, idx) {
      DatesAtSnoc(dates, idx, j);
    }
  }

  /** The first loop of event_months: each dictionary not yet in month_dicts
      is appended. No "event_count" is set yet, so the dictionaries compare
      by their date. */
  method CollectMonthDicts(dates: seq<Date>) returns (monthDicts: seq<nat>)
    ensures Positions(dates, monthDicts)
    ensures DatesAt(dates, monthDicts) == Dedup(dates)
  {
    monthDicts := [];
    var j := 0;
    while j < |dates|
      invariant 0 <= j <= |dates|
      invariant Collected(dates, j, monthDicts)
    {
      ghost var before := monthDicts;
      if dates[j] !in DatesAt(dates, monthDicts) {
        monthDicts := monthDicts + [j];
      }
      CollectMonthStep(dates, j, before, monthDicts);
      j := j + 1;
    }
    assert dates[..j] == dates;
  }

  /** The second loop: month_dicts[i]["event_count"] = date_dicts.count(month_dicts[i]),
      written into dictionary monthDicts[i] of date_dicts. */
  method SetCounts(dates: seq<Date>, monthDicts: seq<nat>) returns (counts: seq<Option<nat>>)
    requires Positions(dates, monthDicts) && NoDuplicates(DatesAt(dates, monthDicts))
    ensures |counts| == |dates|
    ensures forall t :: 0 <= t < |monthDicts| ==> counts[monthDicts[t]] == Some(multiset(dates)[dates[monthDicts[t]]])
  {
    counts := seq(|dates|, _ => None);
    ghost var ds := DatesAt(dates, monthDicts);
    var i := 0;
    while i < |monthDicts|
      invariant 0 <= i <= |monthDicts| && |counts| == |dates|
      invariant forall t :: 0 <= t < i ==> counts[monthDicts[t]] == Some(multiset(dates)[dates[monthDicts[t]]])
      invariant forall k :: 0 <= k < |dates| && k !in monthDicts[..i] ==> counts[k] == None
    {
      var k := monthDicts[i];
      assert forall t :: 0 <= t < i ==> ds[t] != ds[i];
      CountEqualUncounted(dates, counts, dates[k]);
      counts := counts[k := Some(CountEqual(dates, counts, dates[k], counts[k]))];
      assert monthDicts[..i + 1] == monthDicts[..i] + [k];
      i := i + 1;
    }
  }

  /** The dictionaries month_dicts refers to, read out as values. */
  method ReadMonthDicts(dates: seq<Date>, counts: seq<Option<nat>>, monthDicts: seq<nat>) returns (months: seq<MonthCount>)
    requires Positions(dates, monthDicts) && |counts| == |dates|
    requires forall t :: 0 <= t < |monthDicts| ==> counts[monthDicts[t]] == Some(multiset(dates)[dates[monthDicts[t]]])
    ensures |months| == |monthDicts|
    ensures forall t :: 0 <= t < |monthDicts| ==>
              months[t] == MonthCount(dates[monthDicts[t]], multiset(dates)[dates[monthDicts[t]]])
  {
    months := [];
    var t := 0;
    while t < |monthDicts|
      invariant 0 <= t <= |monthDicts| && |months| == t
      invariant forall u :: 0 <= u < t ==> months[u] == MonthCount(dates[monthDicts[u]], multiset(dates)[dates[monthDicts[u]]])
    {
      var k := monthDicts[t];
      months := months + [MonthCount(dates[k], counts[k].value)];
      t := t + 1;
    }
  }

  /** event_months on the published events' starts, already in the
      application's time zone: one dictionary per distinct first of the
      month, in first-occurrence order, counting the starts in that month;
      the counts add up to the number of starts. The dictionaries are
      modelled by their place in date_dicts: `counts[j]` is the
      "event_count" key of dictionary j and `monthDicts` lists the
      dictionaries month_dicts holds, so that setting a count changes the
      dictionary inside date_dicts as well, as in Python. */
  method EventMonths(starts: seq<Timestamp>) returns (months: seq<MonthCount>)
    ensures var firsts := MonthStarts(starts);
            && |months| == |Dedup(firsts)|
            && (forall i :: 0 <= i < |months| ==>
                  months[i] == MonthCount(Dedup(firsts)[i], multiset(firsts)[Dedup(firsts)[i]]))
            && TotalCount(months) == |starts|
  {
    var dates := MonthStarts(starts);
    var monthDicts := CollectMonthDicts(dates);
    var counts := SetCounts(dates, monthDicts);
    months := ReadMonthDicts(dates, counts, monthDicts);
    SumOverDedup(dates);
    TotalCountOf(months, Dedup(dates), multiset(dates));
  }

  // --- recent_events / upcoming_events ---

  /** get(Q(title=s) | Q(slug=s)) on the keywords. */
  function KeywordByTitleOrSlug(site: Site, s: string): Result<Keyword, ViewError> {
    Lookup(site.keywords, (k: Keyword) => k.title == s || k.slug == s)
  }

  /** get(Q(title=s) | Q(slug=s)) on the locations. */
  function LocationByTitleOrSlug(site: Site, s: string): Result<Location, ViewError> {
    Lookup(site.locations, (l: Location) => l.title == s || l.slug == s)
  }

  datatype Feed = Recent | Upcoming

  /** Recent: end < now, latest start first. Upcoming: start > now or
      end > now, earliest start first. A NULL end compares false. */
  function InFeed(feed: Feed, now: Timestamp): Event -> bool {
    (e: Event) =>
      if feed == Recent then e.end.Some? && AbsSecond(e.end.value) < AbsSecond(now)
      else AbsSecond(e.start) > AbsSecond(now) || (e.end.Some? && AbsSecond(e.end.value) > AbsSecond(now))
  }

  /** The event passes the tag filter: no tag is given, or the tag's
      keyword is found and the event carries it. */
  predicate TagMatches(site: Site, tag: Option<string>, x: Event) {
    tag.Some? ==>
      var k := KeywordByTitleOrSlug(site, tag.value);
      k.Ok? && Tagged(k.value.id)(x)
  }

  predicate LocationMatches(site: Site, location: Option<string>, x: Event) {
    location.Some? ==>
      var l := LocationByTitleOrSlug(site, location.value);
      l.Ok? && AtLocation(l.value.id)(x)
  }

  predicate AuthorMatches(site: Site, username: Option<string>, x: Event) {
    username.Some? ==>
      var a := UserByName(site, username.value);
      a.Ok? && ByUser(a.value.id)(x)
  }

  /** The optional tag, location and author filters, with the named object
      looked up by get(); a lookup error is passed on. */
  function FeedTag(site: Site, events: seq<Event>, tag: Option<string>): (r: Result<seq<Event>, ViewError>)
    ensures r.Err? ==> !r.error.InvalidDate? && tag.Some? && KeywordByTitleOrSlug(site, tag.value).Err?
    ensures r.Ok? ==> forall x :: x in r.value <==> x in events && TagMatches(site, tag, x)
  {
    if tag.None? then Ok(events)
    else match KeywordByTitleOrSlug(site, tag.value)
      case Ok(k) => Ok(Filter(events, Tagged(k.id)))
      case Err(e) => Err(e)
  }

  function FeedLocation(site: Site, events: seq<Event>, location: Option<string>): (r: Result<seq<Event>, ViewError>)
    ensures r.Err? ==> !r.error.InvalidDate? && location.Some? && LocationByTitleOrSlug(site, location.value).Err?
    ensures r.Ok? ==> forall x :: x in r.value <==> x in events && LocationMatches(site, location, x)
  {
    if location.None? then Ok(events)
    else match LocationByTitleOrSlug(site, location.value)
      case Ok(l) => Ok(Filter(events, AtLocation(l.id)))
      case Err(e) => Err(e)
  }

  function FeedAuthor(site: Site, events: seq<Event>, username: Option<string>): (r: Result<seq<Event>, ViewError>)
    ensures r.Err? ==> !r.error.InvalidDate? && username.Some? && UserByName(site, username.value).Err?
    ensures r.Ok? ==> forall x :: x in r.value <==> x in events && AuthorMatches(site, username, x)
  {
    if username.None? then Ok(events)
    else match UserByName(site, username.value)
      case Ok(a) => Ok(Filter(events, ByUser(a.id)))
      case Err(e) => Err(e)
  }

  /** The queryset before slicing, or the first lookup error. */
  function FeedQuery(site: Site, published: seq<Event>, feed: Feed, now: Timestamp,
                     tag: Option<string>, username: Option<string>, location: Option<string>)
    : (r: Result<seq<Event>, ViewError>)
    ensures r.Ok? ==> forall x :: x in r.value ==> x in published
    ensures r.Err? ==> r.error == NotFound || r.error == ViewError.MultipleObjectsReturned
  {
    var ordered := SortBy(published, StartOrder(feed == Recent));
    SortByMembers(published, StartOrder(feed == Recent));
    var events := Filter(ordered, InFeed(feed, now));
    match FeedTag(site, events, tag)
      case Err(e) => Err(e)
      case Ok(tagged) =>
        match FeedLocation(site, tagged, location)
          case Err(e) => Err(e)
          case Ok(located) => FeedAuthor(site, located, username)
  }

  /** recent_events / upcoming_events: DoesNotExist gives [], a lookup
      matching several rows raises, otherwise list(events[:limit]). */
  function FeedEvents(site: Site, published: seq<Event>, feed: Feed, now: Timestamp, limit: nat,
                      tag: Option<string>, username: Option<string>, location: Option<string>)
    : (r: Result<seq<Event>, ViewError>)
    ensures r.Err? ==> r.error == ViewError.MultipleObjectsReturned
    ensures r.Ok? ==> |r.value| <= limit && forall x :: x in r.value ==> x in published
  {
    match FeedQuery(site, published, feed, now, tag, username, location)
      case Ok(events) => Ok(if limit < |events| then events[..limit] else events)
      case Err(e) => if e == NotFound then Ok([]) else Err(e)
  }

  function RecentEvents(site: Site, published: seq<Event>, now: Timestamp, limit: nat,
                        tag: Option<string>, username: Option<string>, location: Option<string>)
    : (r: Result<seq<Event>, ViewError>)
    ensures r.Ok? ==> |r.value| <= limit
  {
    FeedEvents(site, published, Recent, now, limit, tag, username, location)
  }

  function UpcomingEvents(site: Site, published: seq<Event>, now: Timestamp, limit: nat,
                          tag: Option<string>, username: Option<string>, location: Option<string>)
    : (r: Result<seq<Event>, ViewError>)
    ensures r.Ok? ==> |r.value| <= limit
  {
    FeedEvents(site, published, Upcoming, now, limit, tag, username, location)
  }

  /** An event passes the tag, location and author filters: each given name
      is found, and the event carries that keyword, is at that location, or
      was written by that user. */
  predicate MatchesLookups(site: Site, tag: Option<string>, username: Option<string>, location: Option<string>, x: Event) {
    TagMatches(site, tag, x) && LocationMatches(site, location, x) && AuthorMatches(site, username, x)
  }

  /** The queryset holds exactly the published events of the feed that
      pass the filters. */
  lemma FeedQueryMembers(site: Site, published: seq<Event>, feed: Feed, now: Timestamp,
                         tag: Option<string>, username: Option<string>, location: Option<string>)
    ensures var q := FeedQuery(site, published, feed, now, tag, username, location);
            q.Ok? ==> forall x :: x in q.value <==> x in published && InFeed(feed, now)(x) && MatchesLookups(site, tag, username, location, x)
  {
    var key := StartOrder(feed == Recent);
    SortByMembers(published, key);
    var events := Filter(SortBy(published, key), InFeed(feed, now));
    var t := FeedTag(site, events, tag);
    if t.Ok? {
      var l := FeedLocation(site, t.value, location);
    }
  }

  /** The queryset keeps the feed's start order. */
  lemma FeedQuerySorted(site: Site, published: seq<Event>, feed: Feed, now: Timestamp,
                        tag: Option<string>, username: Option<string>, location: Option<string>)
    ensures var q := FeedQuery(site, published, feed, now, tag, username, location);
            q.Ok? ==> SortedBy(q.value, StartOrder(feed == Recent))
  {
    var key := StartOrder(feed == Recent);
    var ordered := SortBy(published, key);
    var events := Filter(ordered, InFeed(feed, now));
    FilterSorted(ordered, InFeed(feed, now), key);
    var t := FeedTag(site, events, tag);
    if t.Ok? {
      if tag.Some? {
        FilterSorted(events, Tagged(KeywordByTitleOrSlug(site, tag.value).value.id), key);
      }
      var l := FeedLocation(site, t.value, location);
      if l.Ok? {
        if location.Some? {
          FilterSorted(t.value, AtLocation(LocationByTitleOrSlug(site, location.value).value.id), key);
        }
        if username.Some? && UserByName(site, username.value).Ok? {
          FilterSorted(l.value, ByUser(UserByName(site, username.value).value.id), key);
        }
      }
    }
  }

  /** recent_events / upcoming_events return at most `limit` events, in the
      feed's start order, each published, in the feed and passing the
      filters; fewer than `limit` are returned only when every such event
      is. A name that is not found gives the empty list. */
  lemma FeedEventsSpec(site: Site, published: seq<Event>, feed: Feed, now: Timestamp, limit: nat,
                       tag: Option<string>, username: Option<string>, location: Option<string>)
    ensures var r := FeedEvents(site, published, feed, now, limit, tag, username, location);
            r.Ok? ==>
              && |r.value| <= limit
              && SortedBy(r.value, StartOrder(feed == Recent))
              && (forall x :: x in r.value ==> x in published && InFeed(feed, now)(x) && MatchesLookups(site, tag, username, location, x))
              && (|r.value| < limit ==>
                    forall x :: x in published && InFeed(feed, now)(x) && MatchesLookups(site, tag, username, location, x) ==> x in r.value)
  {
    var q := FeedQuery(site, published, feed, now, tag, username, location);
    FeedQueryMembers(site, published, feed, now, tag, username, location);
    FeedQuerySorted(site, published, feed, now, tag, username, location);
    if q.Ok? {
      SliceFacts(q.value, limit, StartOrder(feed == Recent));
    } else {
      FeedQueryFails(site, published, feed, now, tag, username, location);
    }
  }

  /** list(events[:limit]) on a sorted queryset. */
  lemma SliceFacts(s: seq<Event>, limit: nat, key: Event -> int)
    requires SortedBy(s, key)
    ensures var r := if limit < |s| then s[..limit] else s;
            && SortedBy(r, key)
            && (forall x :: x in r ==> x in s)
            && (|r| < limit ==> r == s)
  {
    if limit < |s| {
      var r := s[..limit];
      forall x | x in r ensures x in s {
        var k :| 0 <= k < limit && r[k] == x;
        assert s[k] == x;
      }
    }
  }

  /** When the queryset fails, one of the lookups failed, so no event passes
      the filters. */
  lemma FeedQueryFails(site: Site, published: seq<Event>, feed: Feed, now: Timestamp,
                       tag: Option<string>, username: Option<string>, location: Option<string>)
    requires FeedQuery(site, published, feed, now, tag, username, location).Err?
    ensures forall x :: !MatchesLookups(site, tag, username, location, x)
  {
    var t := FeedTag(site, Filter(SortBy(published, StartOrder(feed == Recent)), InFeed(feed, now)), tag);
    if t.Ok? {
      var l := FeedLocation(site, t.value, location);
      assert l.Err? || FeedAuthor(site, l.value, username).Err?;
    }
  }

  /** A tag, location or user name that matches no row — the first one
      looked up that way — gives the empty list. */
  lemma FeedEventsUnknown(site: Site, published: seq<Event>, feed: Feed, now: Timestamp, limit: nat,
                          tag: Option<string>, username: Option<string>, location: Option<string>)
    ensures var r := FeedEvents(site, published, feed, now, limit, tag, username, location);
            && (tag.Some? && (forall k :: k in site.keywords ==> k.title != tag.value && k.slug != tag.value) ==> r == Ok([]))
            && (tag.None? && location.Some? && (forall l :: l in site.locations ==> l.title != location.value && l.slug != location.value) ==> r == Ok([]))
            && (tag.None? && location.None? && username.Some? && (forall a :: a in site.users ==> a.username != username.value) ==> r == Ok([]))
  {
    if tag.Some? {
      LookupOutcome(site.keywords, (k: Keyword) => k.title == tag.value || k.slug == tag.value);
    }
    if location.Some? {
      LookupOutcome(site.locations, (l: Location) => l.title == location.value || l.slug == location.value);
    }
    if username.Some? {
      LookupOutcome(site.users, (a: Account) => a.username == username.value);
    }
  }

  // --- google_calendar_url ---

  /** All characters of s are decimal digits. */
  predicate Digits(s: string) {
    forall k :: 0 <= k < |s| ==> IsDigit(s[k])
  }

  /** strftime("%Y%m%d") with the year padded to four digits; CPython on
      Linux writes years below 1000 unpadded. */
  function DateStamp(d: Date): string
    requires ValidDate(d)
  {
    PadTo(d.year as nat, 4) + PadTo(d.month as nat, 2) + PadTo(d.day as nat, 2)
  }

  /** strftime("%H%M%S") on the second of the day. */
  function TimeStamp(second: int): string
    requires 0 <= second < SecondsPerDay
  {
    Clock(second / 3600, second % 3600 / 60, second % 60)
  }

  function Clock(hours: nat, minutes: nat, seconds: nat): string {
    PadTo(hours, 2) + PadTo(minutes, 2) + PadTo(seconds, 2)
  }

  /** strftime("%Y%m%dT%H%M%SZ") on a naive UTC datetime. */
  function StampString(t: Timestamp): string
    requires ValidTimestamp(t)
  {
    DateStamp(t.date) + "T" + TimeStamp(t.second) + "Z"
  }

  /** Reading the fields back: the digits of year, month and day. */
  function ParseDate(s: string): Date
    requires |s| == 8 && Digits(s)
  {
    assert Digits(s[0..4]) && Digits(s[4..6]) && Digits(s[6..8]);
    Date(ParseDecimal(s[0..4]), ParseDecimal(s[4..6]), ParseDecimal(s[6..8]))
  }

  function ParseTime(s: string): int
    requires |s| == 6 && Digits(s)
  {
    assert Digits(s[0..2]) && Digits(s[2..4]) && Digits(s[4..6]);
    ParseDecimal(s[0..2]) * 3600 + ParseDecimal(s[2..4]) * 60 + ParseDecimal(s[4..6])
  }

  function ParseStamp(s: string): Timestamp
    requires |s| == 16 && Digits(s[..8]) && Digits(s[9..15])
  {
    Timestamp(ParseDate(s[..8]), ParseTime(s[9..15]))
  }

  lemma DateStampRoundTrip(d: Date)
    requires ValidDate(d)
    ensures |DateStamp(d)| == 8 && Digits(DateStamp(d)) && ParseDate(DateStamp(d)) == d
  {
    var y, m, dd := PadTo(d.year as nat, 4), PadTo(d.month as nat, 2), PadTo(d.day as nat, 2);
    PadWidth(d.year as nat, 4);
    PadWidth(d.month as nat, 2);
    PadWidth(d.day as nat, 2);
    var s := y + m + dd;
    assert s[0..4] == y && s[4..6] == m && s[6..8] == dd;
  }

  lemma ClockRoundTrip(hours: nat, minutes: nat, seconds: nat)
    requires hours < 24 && minutes < 60 && seconds < 60
    ensures var s := Clock(hours, minutes, seconds);
            |s| == 6 && Digits(s) && ParseTime(s) == hours * 3600 + minutes * 60 + seconds
  {
    PadWidth(hours, 2);
    PadWidth(minutes, 2);
    PadWidth(seconds, 2);
    var s := Clock(hours, minutes, seconds);
    assert s[0..2] == PadTo(hours, 2) && s[2..4] == PadTo(minutes, 2) && s[4..6] == PadTo(seconds, 2);
  }

  lemma TimeStampRoundTrip(second: int)
    requires 0 <= second < SecondsPerDay
    ensures |TimeStamp(second)| == 6 && Digits(TimeStamp(second)) && ParseTime(TimeStamp(second)) == second
  {
    assert TimeStamp(second) == Clock(second / 3600, second % 3600 / 60, second % 60);
    DivModParts(second);
    ClockRoundTrip(second / 3600, second % 3600 / 60, second % 60);
  }

  /** Hours, minutes and seconds of a second of the day. */
  lemma DivModParts(second: int)
    requires 0 <= second < SecondsPerDay
    ensures 0 <= second / 3600 < 24 && 0 <= second % 3600 / 60 < 60 && 0 <= second % 60 < 60
    ensures (second / 3600) * 3600 + (second % 3600 / 60) * 60 + second % 60 == second
  {
    var hours, rest := second / 3600, second % 3600;
    assert second == 3600 * hours + rest && 0 <= rest < 3600;
    var minutes, seconds := rest / 60, rest % 60;
    assert rest == 60 * minutes + seconds && 0 <= seconds < 60;
    assert second == 60 * (60 * hours + minutes) + seconds;
    assert second % 60 == seconds;
  }

  /** The stamp has sixteen characters, 'T' and 'Z' in their places, and
      reads back as the datetime it was written from. */
  lemma StampRoundTrip(t: Timestamp)
    requires ValidTimestamp(t)
    ensures var s := StampString(t);
            && |s| == 16 && s[8] == 'T' && s[15] == 'Z'
            && Digits(s[..8]) && Digits(s[9..15])
            && ParseStamp(s) == t
  {
    DateStampRoundTrip(t.date);
    TimeStampRoundTrip(t.second);
    var s := StampString(t);
    assert s[..8] == DateStamp(t.date) && s[9..15] == TimeStamp(t.second);
  }

  /** quote(mappable_location) when the event has a location with one; the
      string "None" that format() writes for None otherwise. */
  function CalendarLocation(e: Event, quote: string -> string): string {
    if e.location.Some? && |e.location.value.mappableLocation| > 0 then quote(e.location.value.mappableLocation) else "None"
  }

  /** The part of the link in front of the start stamp. */
  const GoogleEventBase: string := "http://www.google.com/calendar/event?action=TEMPLATE&text="

  function CalendarHead(e: Event, quote: string -> string): string {
    GoogleEventBase + quote(e.title) + "&dates="
  }

  /** The part of the link after the end stamp. */
  function CalendarTail(e: Event, quote: string -> string, domain: string, reverse: Route -> string, dateFormat: string): string {
    "&sprop=website:" + domain + reverse(AbsoluteUrl(e, dateFormat)) + "&location=" + CalendarLocation(e, quote) + "&trp=true"
  }

  /** google_calendar_url. `event` is None for an object that is not an
      Event; urlquote, the conversion to UTC (required to stay within
      Python's datetime range), the site's domain and the URL resolver are
      parameters. */
  function GoogleCalendarUrl(event: Option<Event>, quote: string -> string, toUtc: Timestamp -> Timestamp,
                             domain: string, reverse: Route -> string, dateFormat: string): (r: string)
    requires event.Some? ==> ValidTimestamp(toUtc(event.value.start))
    requires event.Some? && event.value.end.Some? ==> ValidTimestamp(toUtc(event.value.end.value))
    ensures |r| == 0 <==> event.None?
  {
    if event.None? then ""
    else
      var e := event.value;
      var startDate := StampString(toUtc(e.start));
      var endDate := if e.end.Some? then StampString(toUtc(e.end.value)) else startDate;
      CalendarHead(e, quote) + startDate + "/" + endDate + CalendarTail(e, quote, domain, reverse, dateFormat)
  }

  /** The UTC end of the event, or its UTC start when it has no end. */
  function UtcEnd(e: Event, toUtc: Timestamp -> Timestamp): Timestamp {
    if e.end.Some? then toUtc(e.end.value) else toUtc(e.start)
  }

  /** The dates field of the link is the UTC start stamp, a slash and the
      stamp of the UTC end — or of the start again when the event has no
      end; each stamp has sixteen characters and reads back as its datetime. */
  lemma GoogleCalendarDates(e: Event, quote: string -> string, toUtc: Timestamp -> Timestamp,
                            domain: string, reverse: Route -> string, dateFormat: string)
    requires ValidTimestamp(toUtc(e.start))
    requires e.end.Some? ==> ValidTimestamp(toUtc(e.end.value))
    ensures ValidTimestamp(UtcEnd(e, toUtc))
    ensures GoogleCalendarUrl(Some(e), quote, toUtc, domain, reverse, dateFormat) ==
            CalendarHead(e, quote) + StampString(toUtc(e.start)) + "/" + StampString(UtcEnd(e, toUtc)) +
            CalendarTail(e, quote, domain, reverse, dateFormat)
    ensures var s := StampString(toUtc(e.start));
            |s| == 16 && Digits(s[..8]) && Digits(s[9..15]) && ParseStamp(s) == toUtc(e.start)
    ensures var s := StampString(UtcEnd(e, toUtc));
            |s| == 16 && Digits(s[..8]) && Digits(s[9..15]) && ParseStamp(s) == UtcEnd(e, toUtc)
  {
    StampRoundTrip(toUtc(e.start));
    StampRoundTrip(UtcEnd(e, toUtc));
    if e.end.None? {
      assert UtcEnd(e, toUtc) == toUtc(e.start);
    }
  }

  /** An event without an end gets the link of the same event ending when
      it starts. */
  lemma GoogleCalendarEndDefault(e: Event, quote: string -> string, toUtc: Timestamp -> Timestamp,
                                 domain: string, reverse: Route -> string, dateFormat: string)
    requires e.end.None? && ValidTimestamp(toUtc(e.start))
    ensures GoogleCalendarUrl(Some(e), quote, toUtc, domain, reverse, dateFormat) ==
            GoogleCalendarUrl(Some(e.(end := Some(e.start))), quote, toUtc, domain, reverse, dateFormat)
  {
  }

  // --- icalendar_url ---

  /** The context entries icalendar_url reads. An entry is None when it is
      missing or falsy; a string entry is the value reverse() receives. */
  datatype CalendarContext = CalendarContext(event: Option<Event>, tag: Option<string>, year: Option<string>,
                                             month: Option<string>, location: Option<Location>,
                                             author: Option<string>)

  /** The feeds icalendar_url can link to, in its order of priority. */
  datatype CalendarFeed = EventFeed | TagFeed | MonthFeed | YearFeed | LocationFeed | AuthorFeed | AllFeed

  /** The URL name each feed is reversed under; the event's feed is its own
      URL followed by "event.ics". */
  function FeedName(feed: CalendarFeed): string {
    match feed
    case EventFeed => "event_detail"
    case TagFeed => "icalendar_tag"
    case MonthFeed => "icalendar_month"
    case YearFeed => "icalendar_year"
    case LocationFeed => "icalendar_location"
    case AuthorFeed => "icalendar_author"
    case AllFeed => "icalendar"
  }

  /** What icalendar_url resolves: the event's own URL, or a feed name with
      the positional arguments passed to reverse(). */
  datatype CalendarLink = EventIcs(detail: Route) | FeedRoute(feed: CalendarFeed, args: seq<string>)

  function FeedOf(link: CalendarLink): CalendarFeed {
    if link.EventIcs? then EventFeed else link.feed
  }

  /** The lower-case English month names. */
  function LowerMonthName(m: int): string
    requires 1 <= m <= 12
  {
    LowerAscii(EnglishMonthName(m))
  }

  /** The only month whose lower-case name the string can be, told apart by
      length and first or third letter. */
  function MonthCandidate(s: string): (m: int)
    ensures 1 <= m <= 12
  {
    if |s| == 7 then (if |s| > 0 && s[0] == 'j' then 1 else 10)
    else if |s| == 8 then (if s[0] == 'f' then 2 else if s[0] == 'n' then 11 else 12)
    else if |s| == 5 then (if s[0] == 'm' then 3 else 4)
    else if |s| == 3 then 5
    else if |s| == 4 then (if s[2] == 'n' then 6 else 7)
    else if |s| == 6 then 8
    else 9
  }

  lemma MonthCandidateOfName(m: int)
    requires 1 <= m <= 12
    ensures MonthCandidate(LowerMonthName(m)) == m
  {
  }

  /** strptime(name, '%B').tm_mon: the month whose full English name equals
      `name` up to case, or None where strptime raises ValueError. */
  function StrptimeMonth(name: string): (r: Option<int>)
    ensures r.Some? ==> 1 <= r.value <= 12 && LowerMonthName(r.value) == LowerAscii(name)
    ensures r.None? ==> forall m :: 1 <= m <= 12 ==> LowerMonthName(m) != LowerAscii(name)
  {
    var n := LowerAscii(name);
    var m := MonthCandidate(n);
    if LowerMonthName(m) == n then Some(m)
    else
      assert forall k :: 1 <= k <= 12 && LowerMonthName(k) == n ==> MonthCandidate(n) == k by {
        forall k | 1 <= k <= 12 && LowerMonthName(k) == n
          ensures MonthCandidate(n) == k
        {
          MonthCandidateOfName(k);
        }
      }
      None
  }

  /** Every English month name, in the calendar module's spelling, parses
      back to its number. */
  lemma StrptimeMonthRoundTrip(m: int)
    requires 1 <= m <= 12
    ensures StrptimeMonth(EnglishMonthName(m)) == Some(m)
  {
    MonthCandidateOfName(m);
  }

  /** icalendar_url. `dateFormat` is EVENT_URL_FORMAT, used by the event's
      get_absolute_url. Only the month entry can make it raise. */
  function IcalendarUrl(ctx: CalendarContext, dateFormat: string): (r: Result<CalendarLink, Raised>)
    ensures r.Err? <==> ctx.event.None? && ctx.tag.None? && ctx.year.Some? && ctx.month.Some?
                        && StrptimeMonth(ctx.month.value).None?
    ensures r.Err? ==> r.error == ValueError
  {
    if ctx.event.Some? then Ok(EventIcs(AbsoluteUrl(ctx.event.value, dateFormat)))
    else if ctx.tag.Some? then Ok(FeedRoute(TagFeed, [ctx.tag.value]))
    else if ctx.year.Some? && ctx.month.Some? then
      match StrptimeMonth(ctx.month.value)
      case None => Err(ValueError)
      case Some(m) => Ok(FeedRoute(MonthFeed, [ctx.year.value, DecimalString(m)]))
    else if ctx.year.Some? then Ok(FeedRoute(YearFeed, [ctx.year.value]))
    else if ctx.location.Some? then Ok(FeedRoute(LocationFeed, [ctx.location.value.slug]))
    else if ctx.author.Some? then Ok(FeedRoute(AuthorFeed, [ctx.author.value]))
    else Ok(FeedRoute(AllFeed, []))
  }

  /** Which entries are present, in icalendar_url's order of priority; the
      plain feed is always available. */
  function Present(ctx: CalendarContext): seq<bool> {
    [ctx.event.Some?, ctx.tag.Some?, ctx.year.Some? && ctx.month.Some?, ctx.year.Some?,
     ctx.location.Some?, ctx.author.Some?, true]
  }

  /** The feeds, in the same order. */
  const FeedsByPriority: seq<CalendarFeed> := [EventFeed, TagFeed, MonthFeed, YearFeed, LocationFeed, AuthorFeed, AllFeed]

  /** The first present entry in priority order decides the feed. */
  lemma IcalendarPriority(ctx: CalendarContext, dateFormat: string)
    requires IcalendarUrl(ctx, dateFormat).Ok?
    ensures true in Present(ctx)
    ensures FeedOf(IcalendarUrl(ctx, dateFormat).value) == FeedsByPriority[FirstIndex(Present(ctx), true)]
  {
    var p := Present(ctx);
    assert p[6];
    var k := FirstIndex(p, true);
    if ctx.event.Some? {
      assert p[0] && k == 0;
    } else if ctx.tag.Some? {
      assert !p[0] && p[1] && k == 1;
    } else if ctx.year.Some? && ctx.month.Some? {
      assert !p[0] && !p[1] && p[2] && k == 2;
    } else if ctx.year.Some? {
      assert !p[0] && !p[1] && !p[2] && p[3] && k == 3;
    } else if ctx.location.Some? {
      assert !p[0] && !p[1] && !p[2] && !p[3] && p[4] && k == 4;
    } else if ctx.author.Some? {
      assert !p[0] && !p[1] && !p[2] && !p[3] && !p[4] && p[5] && k == 5;
    } else {
      assert !p[0] && !p[1] && !p[2] && !p[3] && !p[4] && !p[5] && p[6] && k == 6;
    }
  }

  // --- perdelta ---

  /** How many values perdelta(start, end, delta) yields. */
  function StepCount(start: int, end: int, delta: int): nat
    requires delta > 0
    decreases end - start
  {
    if start >= end then 0 else 1 + StepCount(start + delta, end, delta)
  }

  /** The first n values of start, start + delta, start + 2 * delta, ... */
  function Steps(start: int, delta: int, n: nat): (r: seq<int>)
    ensures |r| == n
  {
    seq(n, i => start + i * delta)
  }

  /** The number of values is the least n with start + n * delta >= end:
      every value is below end, and the next one is not. */
  lemma {:induction false} StepCountSpec(start: int, end: int, delta: int)
    requires delta > 0
    ensures StepCount(start, end, delta) == 0 <==> start >= end
    ensures start + StepCount(start, end, delta) * delta >= end
    ensures StepCount(start, end, delta) > 0 ==> start + (StepCount(start, end, delta) - 1) * delta < end
    decreases end - start
  {
    if start < end {
      StepCountSpec(start + delta, end, delta);
      var n := StepCount(start + delta, end, delta);
      assert start + delta + n * delta == start + (n + 1) * delta;
      assert n > 0 ==> start + delta + (n - 1) * delta == start + n * delta;
    }
  }

  /** perdelta's values are increasing and all below end. */
  lemma StepsIncreasing(start: int, end: int, delta: int)
    requires delta > 0
    ensures var r := Steps(start, delta, StepCount(start, end, delta));
            (forall i :: 0 <= i < |r| ==> r[i] < end && r[i] == start + i * delta)
            && (forall i, j :: 0 <= i < j < |r| ==> r[i] < r[j])
  {
    StepCountSpec(start, end, delta);
    var n := StepCount(start, end, delta);
    var r := Steps(start, delta, n);
    forall i | 0 <= i < n
      ensures r[i] < end
    {
      MulMonotone(i, n - 1, delta);
    }
    forall i, j | 0 <= i < j < n
      ensures r[i] < r[j]
    {
      MulMonotone(i, j, delta);
    }
  }

  lemma MulMonotone(i: int, j: int, delta: int)
    requires i <= j && delta > 0
    ensures i * delta <= j * delta
    ensures i < j ==> i * delta < j * delta
  {
    assert j * delta - i * delta == (j - i) * delta;
  }

  /** perdelta, consumed to the end as list(...) does. Datetimes are their
      AbsSecond; `maxValue` is the largest one Python holds, and stepping
      past it raises OverflowError. */
  method Perdelta(start: int, end: int, delta: int, maxValue: int) returns (r: Result<seq<int>, Raised>)
    requires delta > 0
    requires start <= maxValue && end <= maxValue
    ensures var n := StepCount(start, end, delta);
            r == if n > 0 && start + n * delta > maxValue then Err(OverflowError) else Ok(Steps(start, delta, n))
  {
    var curr := start;
    var values: seq<int> := [];
    while curr < end
      invariant curr == start + |values| * delta && curr <= maxValue
      invariant values == Steps(start, delta, |values|)
      invariant StepCount(start, end, delta) == |values| + StepCount(curr, end, delta)
      decreases end - curr
    {
      values := values + [curr];
      if curr + delta > maxValue {
        assert StepCount(curr + delta, end, delta) == 0;
        return Err(OverflowError);
      }
      curr := curr + delta;
    }
    return Ok(values);
  }

  // --- all_days ---

  /** 9999-12-31 23:59:59: the last second of Python's datetime range. */
  const MaxSecond: int := AbsSecond(Timestamp(Date(MaxYear, 12, 31), SecondsPerDay - 1))

  /** The first start in start order (order_by('start')[0]). */
  function Earliest(starts: seq<Timestamp>): (t: Timestamp)
    requires |starts| > 0
    ensures t in starts && forall u :: u in starts ==> AbsSecond(t) <= AbsSecond(u)
  {
    if |starts| == 1 then starts[0]
    else
      var rest := Earliest(starts[1..]);
      if AbsSecond(starts[0]) <= AbsSecond(rest) then starts[0] else rest
  }

  /** latest('start').start. */
  function Latest(starts: seq<Timestamp>): (t: Timestamp)
    requires |starts| > 0
    ensures t in starts && forall u :: u in starts ==> AbsSecond(u) <= AbsSecond(t)
  {
    if |starts| == 1 then starts[0]
    else
      var rest := Latest(starts[1..]);
      if AbsSecond(rest) <= AbsSecond(starts[0]) then starts[0] else rest
  }

  /** A valid timestamp is at most MaxSecond. */
  lemma AtMostMaxSecond(t: Timestamp)
    requires ValidTimestamp(t)
    ensures AbsSecond(t) <= MaxSecond
  {
    OrdinalAtMostMax(t.date);
  }

  /** all_days over the starts of all events: one value per day from the
      earliest start, below the latest start. */
  method AllDays(starts: seq<Timestamp>) returns (r: Result<seq<int>, Raised>)
    requires forall t :: t in starts ==> ValidTimestamp(t)
    ensures |starts| == 0 ==> r == Ok([])
    ensures |starts| > 0 ==>
              var lo, hi := AbsSecond(Earliest(starts)), AbsSecond(Latest(starts));
              var n := StepCount(lo, hi, SecondsPerDay);
              r == if n > 0 && lo + n * SecondsPerDay > MaxSecond then Err(OverflowError)
                   else Ok(Steps(lo, SecondsPerDay, n))
  {
    if |starts| == 0 {
      return Ok([]);
    }
    var lower := Earliest(starts);
    var higher := Latest(starts);
    AtMostMaxSecond(lower);
    AtMostMaxSecond(higher);
    r := Perdelta(AbsSecond(lower), AbsSecond(higher), SecondsPerDay, MaxSecond);
  }

  /** What all_days yields: the earliest start and every following day
      strictly before the latest start; nothing when all starts coincide. */
  lemma AllDaysValues(starts: seq<Timestamp>)
    requires |starts| > 0
    ensures var lo, hi := AbsSecond(Earliest(starts)), AbsSecond(Latest(starts));
            var r := Steps(lo, SecondsPerDay, StepCount(lo, hi, SecondsPerDay));
            (|r| == 0 <==> lo == hi)
            && (|r| > 0 ==> r[0] == lo && hi - SecondsPerDay <= r[|r| - 1] < hi)
            && (forall i :: 0 <= i < |r| ==> lo <= r[i] < hi)
            && (forall i :: 0 < i < |r| ==> r[i] == r[i - 1] + SecondsPerDay)
  {
    var lo, hi := AbsSecond(Earliest(starts)), AbsSecond(Latest(starts));
    StepCountSpec(lo, hi, SecondsPerDay);
    StepsIncreasing(lo, hi, SecondsPerDay);
    var n := StepCount(lo, hi, SecondsPerDay);
    var r := Steps(lo, SecondsPerDay, n);
    if n > 0 {
      assert r[n - 1] == lo + (n - 1) * SecondsPerDay;
      assert lo + n * SecondsPerDay == r[n - 1] + SecondsPerDay;
    }
    forall i | 0 < i < n
      ensures r[i] == r[i - 1] + SecondsPerDay
    {
      assert r[i] == lo + i * SecondsPerDay && r[i - 1] == lo + (i - 1) * SecondsPerDay;
    }
  }

  // --- all_weeks ---

  /** datetime's _isoweek1monday, from the ordinal of 1 January: the
      Monday of the week holding the year's first Thursday. */
  function Week1Monday(firstday: int): int {
    var firstweekday := (firstday + 6) % 7;
    var week1monday := firstday - firstweekday;
    if firstweekday > 3 then week1monday + 7 else week1monday
  }

  function IsoWeek1Monday(year: int): int {
    Week1Monday(YearStart(year))
  }

  datatype IsoDate = IsoDate(year: int, week: int, day: int)

  /** date.isocalendar(), step by step as datetime computes it. */
  function IsoCalendar(d: Date): IsoDate {
    IsoFrom(d.year, Ordinal(d), YearStart(d.year - 1), YearStart(d.year), YearStart(d.year + 1))
  }

  /** The ordinal of 1 January. */
  function YearStart(year: int): int {
    DaysBeforeYear(year) + 1
  }

  /** isocalendar for the day with ordinal `today` in `year`, where f0, f1
      and f2 are the ordinals of 1 January of the year before, the year
      and the year after. */
  function IsoFrom(year: int, today: int, f0: int, f1: int, f2: int): IsoDate {
    var week1monday := Week1Monday(f1);
    var week, day := (today - week1monday) / 7, (today - week1monday) % 7;
    if week < 0 then
      var before := Week1Monday(f0);
      IsoDate(year - 1, (today - before) / 7 + 1, (today - before) % 7 + 1)
    else if week >= 52 && today >= Week1Monday(f2) then IsoDate(year + 1, 1, day + 1)
    else IsoDate(year, week + 1, day + 1)
  }

  /** Week 1 starts on a Monday, within three days of 1 January. */
  lemma Week1MondayNear(firstday: int)
    ensures Weekday(Week1Monday(firstday)) == 0
    ensures firstday - 3 <= Week1Monday(firstday) <= firstday + 3
  {
  }

  /** ISO years are 52 or 53 weeks long. */
  lemma Week1MondayGap(f: int, g: int)
    requires 365 <= g - f <= 366
    ensures Week1Monday(g) - Week1Monday(f) == 364 || Week1Monday(g) - Week1Monday(f) == 371
  {
    Week1MondayNear(f);
    Week1MondayNear(g);
    var a, b := Week1Monday(f), Week1Monday(g);
    var qa, qb := (a + 6) / 7, (b + 6) / 7;
    assert a + 6 == 7 * qa && b + 6 == 7 * qb;
    assert b - a == 7 * (qb - qa);
  }

  /** Days counted from a Monday fall on the weekday they name. */
  lemma WeekdayFromMonday(today: int, monday: int)
    requires Weekday(monday) == 0
    ensures (today - monday) % 7 == Weekday(today)
  {
    var q := (monday + 6) / 7;
    assert monday + 6 == 7 * q;
    assert today - monday == today + 6 - 7 * q;
  }

  /** The arithmetic behind isocalendar, for a day `today` of the year whose
      1 January has ordinal f1, between the years starting at f0 and f2. */
  lemma IsoFromSpec(year: int, today: int, f0: int, f1: int, f2: int)
    requires 365 <= f1 - f0 <= 366 && 365 <= f2 - f1 <= 366 && f1 <= today < f2
    ensures var c := IsoFrom(year, today, f0, f1, f2);
            1 <= c.week <= 53 && c.day == Weekday(today) + 1
            && (c.year == year - 1 || c.year == year || c.year == year + 1)
            && today == Week1Monday(if c.year == year - 1 then f0 else if c.year == year then f1 else f2)
                        + 7 * (c.week - 1) + (c.day - 1)
  {
    Week1MondayNear(f0);
    Week1MondayNear(f1);
    Week1MondayNear(f2);
    Week1MondayGap(f0, f1);
    Week1MondayGap(f1, f2);
    var w0, w1, w2 := Week1Monday(f0), Week1Monday(f1), Week1Monday(f2);
    WeekdayFromMonday(today, w0);
    WeekdayFromMonday(today, w1);
    WeekdayFromMonday(today, w2);
  }

  /** What isocalendar promises for a valid date: a week between 1 and 53,
      the weekday counted from Monday as 1, an ISO year next to the
      calendar year, and the date's ordinal recovered from the three. */
  lemma IsoCalendarSpec(d: Date)
    requires ValidDate(d)
    ensures var c := IsoCalendar(d);
            1 <= c.week <= 53 && c.day == Weekday(Ordinal(d)) + 1
            && (|| (c.year == d.year - 1 && Ordinal(d) == IsoWeek1Monday(d.year - 1) + 7 * (c.week - 1) + (c.day - 1))
                || (c.year == d.year && Ordinal(d) == IsoWeek1Monday(d.year) + 7 * (c.week - 1) + (c.day - 1))
                || (c.year == d.year + 1 && Ordinal(d) == IsoWeek1Monday(d.year + 1) + 7 * (c.week - 1) + (c.day - 1)))
  {
    YearStarts(d);
    IsoFromSpec(d.year, Ordinal(d), YearStart(d.year - 1), YearStart(d.year), YearStart(d.year + 1));
    IsoCalendarFrom(d);
  }

  lemma IsoCalendarFrom(d: Date)
    ensures IsoCalendar(d) == IsoFrom(d.year, Ordinal(d), YearStart(d.year - 1), YearStart(d.year), YearStart(d.year + 1))
  {
  }

  /** A date lies in its year, and years are 365 or 366 days long. */
  lemma YearStarts(d: Date)
    requires ValidDate(d)
    ensures var f0, f1, f2 := YearStart(d.year - 1), YearStart(d.year), YearStart(d.year + 1);
            365 <= f1 - f0 <= 366 && 365 <= f2 - f1 <= 366 && f1 <= Ordinal(d) < f2
  {
    OrdinalInYear(d);
    DaysBeforeYearStep(d.year - 1);
    DaysBeforeYearStep(d.year);
  }

  /** range(a, b). */
  function Range(a: int, b: int): (r: seq<int>)
    ensures |r| == if a < b then b - a else 0
  {
    if a < b then seq(b - a, i => a + i) else []
  }

  /** all_weeks over Event.objects.all(), given in its default (rank,
      start) order: the ISO week numbers from the first event's to the last
      event's. An empty table raises IndexError on events[0]. */
  function AllWeeks(events: seq<Event>): (r: Result<seq<int>, Raised>)
    ensures r.Err? <==> |events| == 0
    ensures r.Err? ==> r.error == IndexError
  {
    if |events| == 0 then Err(IndexError)
    else Ok(Range(IsoCalendar(events[0].start.date).week, IsoCalendar(events[|events| - 1].start.date).week + 1))
  }

  /** The weeks are consecutive ISO week numbers, 1 to 53, running from the
      first event's week to the last event's; empty when the last event's
      week comes before the first's. */
  lemma AllWeeksSpec(events: seq<Event>)
    requires |events| > 0
    requires ValidDate(events[0].start.date) && ValidDate(events[|events| - 1].start.date)
    ensures var r := AllWeeks(events).value;
            var first, last := IsoCalendar(events[0].start.date).week, IsoCalendar(events[|events| - 1].start.date).week;
            (|r| == 0 <==> last < first)
            && (|r| > 0 ==> r[0] == first && r[|r| - 1] == last)
            && (forall i :: 0 <= i < |r| ==> 1 <= r[i] <= 53 && r[i] == first + i)
  {
    IsoCalendarSpec(events[0].start.date);
    IsoCalendarSpec(events[|events| - 1].start.date);
  }

  // --- same_time_in_periods ---

  /** What same_time_in_periods checks once the first period has a
      date_from: every date_from present has the first one's time of day,
      and, when the first period has a date_to, every date_to present has
      its time of day. */
  predicate SameTime(periods: seq<Period>)
    requires |periods| > 0 && periods[0].dateFrom.Some?
  {
    forall i :: 0 <= i < |periods| ==> SameTimeAs(periods[0], periods[i])
  }

  predicate SameTimeAs(first: Period, p: Period)
    requires first.dateFrom.Some?
  {
    (p.dateFrom.Some? ==> p.dateFrom.value.second == first.dateFrom.value.second)
    && (first.dateTo.Some? && p.dateTo.Some? ==> p.dateTo.value.second == first.dateTo.value.second)
  }

  /** same_time_in_periods. time() is the second of the day (microseconds
      are not modelled); a time of day is always truthy. A first period
      without date_from raises AttributeError on None.time(). */
  method SameTimeInPeriods(periods: seq<Period>) returns (r: Result<bool, Raised>)
    ensures |periods| == 0 ==> r == Ok(true)
    ensures |periods| > 0 && periods[0].dateFrom.None? ==> r == Err(AttributeError)
    ensures |periods| > 0 && periods[0].dateFrom.Some? ==> r == Ok(SameTime(periods))
  {
    var isSameTime := true;
    if |periods| > 0 {
      if periods[0].dateFrom.None? {
        return Err(AttributeError);
      }
      var lastTimeFrom := periods[0].dateFrom.value.second;
      var lastTimeTo: Option<int> := None;
      if periods[0].dateTo.Some? {
        lastTimeTo := Some(periods[0].dateTo.value.second);
      }
      var i := 0;
      while i < |periods|
        invariant 0 <= i <= |periods|
        invariant isSameTime <==> forall j :: 0 <= j < i ==> SameTimeAs(periods[0], periods[j])
      {
        var period := periods[i];
        if period.dateFrom.Some? {
          if period.dateFrom.value.second != lastTimeFrom {
            isSameTime := false;
          }
        }
        if lastTimeTo.Some? && period.dateTo.Some? {
          if period.dateTo.value.second != lastTimeTo.value {
            isSameTime := false;
          }
        }
        i := i + 1;
      }
    }
    return Ok(isSameTime);
  }

  /** When every period has both dates, the check holds exactly when all
      periods share one start time and one end time: it does not depend on
      which period comes first. */
  lemma SameTimePairwise(periods: seq<Period>)
    requires |periods| > 0
    requires forall i :: 0 <= i < |periods| ==> periods[i].dateFrom.Some? && periods[i].dateTo.Some?
    ensures SameTime(periods) <==>
            forall i, j :: 0 <= i < |periods| && 0 <= j < |periods| ==>
              periods[i].dateFrom.value.second == periods[j].dateFrom.value.second
              && periods[i].dateTo.value.second == periods[j].dateTo.value.second
  {
    if SameTime(periods) {
      forall i, j | 0 <= i < |periods| && 0 <= j < |periods|
        ensures periods[i].dateFrom.value.second == periods[j].dateFrom.value.second
        ensures periods[i].dateTo.value.second == periods[j].dateTo.value.second
      {
        assert SameTimeAs(periods[0], periods[i]) && SameTimeAs(periods[0], periods[j]);
      }
    }
  }

  // --- tag_is_excluded ---

  /** tag_is_excluded: membership in EVENT_EXCLUDE_TAG_LIST. */
  function TagIsExcluded(tagId: nat, excluded: seq<nat>): (r: bool)
    ensures r <==> exists i :: 0 <= i < |excluded| && excluded[i] == tagId
  {
    tagId in excluded
  }

  /** The filter agrees with the listing's tag cleanup: a keyword tag is
      kept there exactly when the filter says it is not excluded. */
  lemma TagIsExcludedAgreesWithListing(tagId: nat, excluded: seq<nat>)
    ensures KeptTag(excluded)(Some(tagId)) <==> !TagIsExcluded(tagId, excluded)
  {
  }
}
