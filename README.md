# mezzanine-agenda, modelled in Dafny

A model of the rules behind mezzanine-agenda, the events application for the
Mezzanine CMS. The database queries become filters, sorts and lookups over
sequences of plain records. The clock ("now"), the site's domain, URL
reversal, URL quoting, the UTC conversion, the geocoder and the URL signature
become parameters.

- `common.dfy` (module `Common`) holds the Python idioms the code relies on:
  `list(dict.fromkeys(...))` as `Dedup`, queryset filtering and stable
  `order_by`, decimal strings, zero padding and ASCII lower-casing.
- `calendar.dfy` (module `Calendar`) holds Python's proleptic Gregorian
  `date`: ordinals with `date(1, 1, 1)` as day 1 (a Monday), `weekday()`,
  `monthrange`, and datetimes as a date plus a second of the day. It also
  holds the English and French month names of `MONTH_CHOICES`.
- `models.dfy` (module `Models`) holds the entities (`Event`,
  `EventLocation`, `Season`, periods, links) and the model methods:
  - `Event.clean`;
  - the copy-down from a parent in `Event.save`;
  - `get_absolute_url`;
  - `get_icalendar_event`;
  - next/previous navigation;
  - `is_archived`, `has_shop`, `vel` and `reserve_button`;
  - `EventLocation.clean`;
  - `Season.clean`.
- `views.dfy` (module `Views`) holds:
  - `next_weekday` and `week_day_range`;
  - the query of `EventListView` (date filters, location, author, upcoming,
    GET filters, the tag list and its cleanup, the tag filter and the
    excluded tags);
  - the month list and the month buckets that both list views fill, with
    their shared `already` list;
  - the season `get_or_create`, the season window and the month filter of
    `ArchiveListView`;
  - the room deduplication of `LocationListView`.
- `event_tags.py`'s template helpers sit in `event_tags.dfy` (module
  `EventTags`). They are:
  - `event_months`;
  - `recent_events` and `upcoming_events`;
  - `google_calendar_url` and its UTC stamps;
  - `icalendar_url`;
  - `perdelta`, `all_days` and `all_weeks` (with ISO week numbering);
  - `same_time_in_periods` and `tag_is_excluded`.
- `utils.dfy` (module `Utils`) holds:
  - `get_events_list_days_form`: the date dictionaries, the location filter,
    the day range, the ordered day dictionary and the day entries;
  - `categorie_manager`;
  - the argument check and the output shape of `sign_url`.

Operations that work by loops and in-place updates are methods with loop
invariants. Each is proved equal to a specification function:
- filling the month buckets with the shared `already` list;
- the location list;
- the tag-list removals;
- `event_months` with its index aliasing;
- `perdelta`, `all_days` and `same_time_in_periods`;
- the date dictionaries and the day grid;
- `categorie_manager`.

The lemmas then state what those functions mean, for example:
- every event lands in exactly one bucket, the bucket of its start month;
- the month list lists each start month once, in start order;
- each day-grid entry is disabled exactly when no (filtered) event falls on
  that day;
- every stamp written for a calendar parses back to the datetime it came
  from.

Three points where the code does less, or otherwise, than its names and
comments suggest are modelled as the code runs:
- The month listing's query admits an event that spans the whole month, and
  the archive's month filter carries the comment "works for periods
  containing the month or a period in the month" (`views.py:366`). In the
  listing, though, the months are taken in ascending start order and share
  one `already` list. So an event is placed in the first month whose query
  admits it, and that month is always its start month: the spanning clause
  never places anything (`Views.ListingBucketsAreStartMonths`).
- The archive creates a missing season from 31 July of the requested year
  to 1 August of the next (`views.py:337-345`), so consecutive default
  seasons overlap by two days.
- In the code, the archive's month buckets compute their window from the
  requested season year (`digit_year`), while `start__year` uses the
  bucket's own year. This is modelled as written (`Views.WindowYear`).

## Model

| member | source | states |
|---|---|---|
| `Views.NextWeekday` | mezzanine_agenda/views.py:48-52 | the result is 1 to 7 days strictly after `d`, falls on the target weekday, and no day in between does |
| `Views.WeekdayShift` | mezzanine_agenda/views.py:49-52 | moving `k` days forward moves the weekday `k` places modulo 7 |
| `Views.WeekDayRange` | mezzanine_agenda/views.py:55-59 | `lower` is the first Monday strictly after 1 January plus (week−1)·7 days and `higher` is `lower` + 6; it fails exactly when the year or either end leaves the calendar |
| `Views.WeekDayRangeShape` | mezzanine_agenda/views.py:55-59 | `lower` is a Monday and `higher` a Sunday, `lower` falls after 1 January for week ≥ 1, and the next week starts the day after `higher` |
| `Views.Keys` | mezzanine_agenda/views.py:182-187 | the (month, year) pairs of the events' starts, one per event, in order |
| `Views.KeysMembers` | mezzanine_agenda/views.py:182-187 | a pair is among the keys exactly when some event starts in that month |
| `Views.MonthListMembers` | mezzanine_agenda/views.py:182-188 | the month list holds exactly the start months of the events, and is empty exactly when there are no events |
| `Views.MonthListProperties` | mezzanine_agenda/views.py:182-188 | the month list has no duplicates, holds exactly the start months, and lists them in the order of their first occurrence in start order |
| `Views.MonthListChronological` | mezzanine_agenda/views.py:182-188 | the listing's month list is strictly increasing in (year, month) |
| `Views.ArchiveListingShape` | mezzanine_agenda/views.py:388-395 | the archive's month list is newest first; the archive returns the plain queryset exactly when no event is left, and otherwise the labelled buckets of its month list |
| `Views.LabelParts` | mezzanine_agenda/views.py:194-204 | the intended bucket key is the French month name, a space, the year, a comma, the English month name, a space and the year |
| `Views.LabelInjective` | mezzanine_agenda/views.py:194-204 | two months with the same bucket key are the same month, so no two buckets share a dictionary entry |
| `Views.TakeNewSubset` | mezzanine_agenda/views.py:223-236 | an event appended to a bucket comes from the month query and its id was not already placed |
| `Views.TakeNewDistinct` | mezzanine_agenda/views.py:223-236 | a bucket never holds two events with the same id |
| `Views.TakeNewCovers` | mezzanine_agenda/views.py:223-236 | every event of the month query whose id was not yet placed ends up in the bucket |
| `Views.TakeNewSorted` | mezzanine_agenda/views.py:211-236 | a bucket keeps the start order of its month query |
| `Views.TmpMembers` | mezzanine_agenda/views.py:211-222 | a month query keeps exactly the events that start in its year and that its window admits, and keeps them in the queryset's start order |
| `Views.BucketsOf` | mezzanine_agenda/views.py:190-236 | one bucket per month query |
| `Views.BucketsOfPrefix` | mezzanine_agenda/views.py:191-236 | the buckets of the first `n` months do not depend on the later months |
| `Views.BucketOfAt` | mezzanine_agenda/views.py:223-236 | bucket `i` is the month-`i` query less the ids placed before it, and `already` grows by exactly that bucket's ids |
| `Views.PlacedMembers` | mezzanine_agenda/views.py:191-236 | an id is in `already` exactly when some bucket holds an event with that id |
| `Views.BucketsOfDisjoint` | mezzanine_agenda/views.py:191-236 | because `already` is shared across months, no id appears twice, either within a bucket or across two buckets |
| `Views.BucketsWithinWindow` | mezzanine_agenda/views.py:211-236 | every bucket is in start order and holds only events that its month's query (year, spanning, in-month or same-month clause) admits |
| `Views.BucketsPlaceOnce` | mezzanine_agenda/views.py:191-236 | an event id is appended to at most one bucket overall |
| `Views.BucketsCover` | mezzanine_agenda/views.py:190-236 | every event whose start month is listed is placed in some bucket |
| `Views.BucketsPartition` | mezzanine_agenda/views.py:190-236 | with distinct event ids, the buckets partition the events whose start months are listed |
| `Views.AppendNew` | mezzanine_agenda/views.py:223-236 | the loop over one month query appends exactly the not-yet-placed events and extends `already` by their ids |
| `Views.FillBuckets` | mezzanine_agenda/views.py:190-237 | with the intended keys, the loop over the month list yields one labelled bucket per month, equal to the specification of the buckets |
| `Views.FillMonthBuckets` | mezzanine_agenda/views.py:190-237 | with the intended keys, the dictionary built by the view equals the labelled buckets of the month queries |
| `Views.ListingBucketsAreStartMonths` | mezzanine_agenda/views.py:182-237 | in the listing, each bucket holds exactly the events that start in its month |
| `Views.ListingByStartMonth` | mezzanine_agenda/views.py:182-239 | the listing is the plain queryset exactly when it is empty; otherwise its months are strictly chronological, are exactly the start months, and entry i holds exactly the events starting in month i |
| `Views.Lookup` | mezzanine_agenda/views.py:127 | `get_object_or_404` returns a matching row of the table or an error |
| `Views.LookupOutcome` | mezzanine_agenda/views.py:127 | the lookup succeeds exactly when one row matches; it is not found exactly when none does |
| `Views.DateFilter` | mezzanine_agenda/views.py:106-125 | the date filters keep only events of the input |
| `Views.DateFilterMonthNotFound` | mezzanine_agenda/views.py:110-114 | a month above 12 is not found |
| `Views.DateFilterMembers` | mezzanine_agenda/views.py:106-125 | the filters fail exactly on a month above 12, an impossible day or a week outside the calendar; otherwise they keep exactly the events of that year, month, day or week window |
| `Views.ListingQuery` | mezzanine_agenda/views.py:106-155 | the listing query keeps only visible events |
| `Views.ListingQueryMembers` | mezzanine_agenda/views.py:106-155 | the query fails exactly on a failing date filter or an unknown location or user; otherwise an event is kept exactly when it passes the date filter, the location, the author, the upcoming test (when no year, location or user is given) and the GET location and category filters |
| `Views.TagRows` | mezzanine_agenda/views.py:161-164 | the keyword column holds None exactly when some event has no keyword, and each keyword of each event |
| `Views.RemoveEach` | mezzanine_agenda/views.py:170-171 | the removal loop leaves exactly the tags that were not collected |
| `Views.CleanTagList` | mezzanine_agenda/views.py:165-171 | the cleaned tag list is the deduplicated keyword column without None and without excluded tags |
| `Views.CleanTagListMembers` | mezzanine_agenda/views.py:165-171 | the cleaned list has no duplicates and holds exactly the keywords used by some event that are not excluded |
| `Views.TagList` | mezzanine_agenda/views.py:172 | the tag list holds exactly the keywords whose ids are in the cleaned list |
| `Views.ExcludeAllFails` | mezzanine_agenda/views.py:178-180 | excluding the configured tags fails exactly when one of the ids is not a keyword |
| `Views.ExcludeAllMembers` | mezzanine_agenda/views.py:178-180 | otherwise exactly the events carrying none of the excluded tags are kept |
| `Views.ExcludeAllStops` | mezzanine_agenda/views.py:178-180 | the first unknown id ends the request: later ids are not looked up |
| `Views.TagFilter` | mezzanine_agenda/views.py:174-180 | the tag step keeps only events of its input |
| `Views.EventList` | mezzanine_agenda/views.py:82-239 | the view's computation equals the listing specification, as written (failing on the first key) or with the intended keys |
| `Views.ListingKeyRaises` | mezzanine_agenda/views.py:194-204 | as written, every listing with an event to show fails on its first key, and every other outcome is the corrected listing's |
| `Views.EventListingDrawsFromVisible` | mezzanine_agenda/views.py:82-239 | a successful listing shows only visible events and is the listing of the query's result, with the cleaned tag list |
| `Views.SeasonGetOrCreate` | mezzanine_agenda/views.py:338-345 | the season returned starts in the requested year and is in the returned table |
| `Views.SeasonGetOrCreateOutcome` | mezzanine_agenda/views.py:338-345 | an existing season of that start year is returned without changing the table; otherwise "Season Y-(Y+1)" from 31 July Y to 1 August Y+1 is added; two matching seasons are an error |
| `Views.SeasonGetOrCreateIdempotent` | mezzanine_agenda/views.py:338-345 | a second `get_or_create` on the table it returned finds the same season and changes nothing |
| `Views.ArchiveListingWindow` | mezzanine_agenda/views.py:347-356 | every archived event shown is published, and both its start and its end lie between the season start's midnight and the upper bound: 23:59:59 on the season end once that day is past, otherwise now |
| `Views.ArchiveShowsFiltered` | mezzanine_agenda/views.py:388-443 | the archive's buckets show only events that passed its filters |
| `Views.ArchiveMonthFilter` | mezzanine_agenda/views.py:358-387 | the corrected month filter keeps only events of its input |
| `Views.ArchiveMonthFilterMembers` | mezzanine_agenda/views.py:358-387 | the corrected filter is not found exactly for a month above 12, fails on month 0 or an impossible day, and otherwise keeps exactly the events in the month window that start on the requested day |
| `Views.ArchiveMonthNeverNotFound` | mezzanine_agenda/views.py:359-380 | as written, the archive never answers not-found for its month: month 13 fails in `date()` first |
| `Views.ArchiveList` | mezzanine_agenda/views.py:323-444 | the archive view's computation equals the archive specification, as written (month filter as written, failing on the first key) or corrected |
| `Views.ArchiveListingsAgree` | mezzanine_agenda/views.py:358-410 | the archive as written fails on its first key wherever the corrected archive shows months, and otherwise gives the corrected answer, except for a month above 12 in a season that exists or can be created, where the corrected one is not found and the one as written fails on the impossible date |
| `Views.ArchiveBucketsPartition` | mezzanine_agenda/views.py:395-443 | each archived event lands in exactly one bucket, and only where the window of the requested year admits it |
| `Views.LocationList` | mezzanine_agenda/views.py:631-642 | the loop's list equals the specification of the kept locations |
| `Views.KeptLocationsAt` | mezzanine_agenda/views.py:635-641 | the result is a subsequence of the room-ordered input: position i is kept exactly when it has no room or is the first location of its room |
| `Views.LocationListCovers` | mezzanine_agenda/views.py:635-641 | a location is listed exactly when it has no room or is the first location with its room |
| `Views.LocationListRoomsDistinct` | mezzanine_agenda/views.py:635-641 | no two listed locations share a room |
| `Models.CleanEventOrder` | mezzanine_agenda/models.py:77-84 | validation fails exactly when an end is set and the start is later than it; start equal to end is accepted |
| `Models.CopyFromParent` | mezzanine_agenda/models.py:86-116 | without a parent, saving changes nothing |
| `Models.CopyFromParentInherits` | mezzanine_agenda/models.py:89-99 | with a parent, the title, user and status are the parent's, and the location and category are copied only when the child's own value is empty |
| `Models.CopyFromParentTexts` | mezzanine_agenda/models.py:95-116 | description, mentions and content are copied, with their English versions, only when the child's own text is empty |
| `Models.CopyFromParentKeepsOwn` | mezzanine_agenda/models.py:86-116 | every other field of the child stays as it was |
| `Models.CopyFromParentIdempotent` | mezzanine_agenda/models.py:86-116 | saving twice copies nothing new |
| `Models.BuildAbsoluteUrl` | mezzanine_agenda/models.py:148-160 | the kwargs loop builds the route of the URL specification |
| `Models.DateKwargsShape` | mezzanine_agenda/models.py:153-159 | the date kwargs run from year up to the configured part; each is at least two digits and reads back as that part of the publish date |
| `Models.AbsoluteUrlShape` | mezzanine_agenda/models.py:148-160 | for year, month or day the route is `event_detail_<format>`, with the slug plus the date parts up to and including the format; otherwise it is `event_detail` with the slug only |
| `Models.ValuesAppend` | mezzanine_agenda/models.py:162-182 | the values of a property in two concatenated lists are those of each list in turn |
| `Models.ICalendarValues` | mezzanine_agenda/models.py:162-182 | SUMMARY is the title and URL is `http://<domain><path>`; DTSTAMP and DTSTART are the start; LOCATION and DTEND are present exactly when a location and an end are set; UID is `event-<id>@<domain>`; no other property is present |
| `Models.UidUnique` | mezzanine_agenda/models.py:178-181 | two events with the same UID on one domain have the same id (section 3.8.4.7 of RFC 5545 asks UIDs to be unique) |
| `Models.FirstCandidate` | mezzanine_agenda/models.py:203-209 | the first candidate in (rank, start) order is a candidate, none precedes it, and there is none exactly when no event qualifies |
| `Models.NextOrPrevious` | mezzanine_agenda/models.py:184-209 | next is the least event by (rank, start) among other parentless events starting no earlier and ranked no lower; previous is the greatest among those starting no later and ranked strictly lower; None when there is no candidate, and an error when the rank is unset |
| `Models.VelUrl` | mezzanine_agenda/models.py:230-235 | there is a ticket URL exactly when some link has the type `vel`, and it is the URL of the first such link |
| `Models.ReserveButton` | mezzanine_agenda/models.py:241-265 | the button is empty when the event is archived or full, or has no free price, shop or ticket link; otherwise free beats shop beats ticket link, with targets `_self`, `_self`, `_blank`; the ticket button is "Reserve" on the first `vel` link's URL |
| `Models.FlattenLines` | mezzanine_agenda/models.py:302 | replacing line breaks keeps the length and changes exactly the `\n` and `\r` characters into spaces |
| `Models.FillMappableLocation` | mezzanine_agenda/models.py:301-302 | only the mappable location changes; it becomes `address, postal code city` exactly when the coordinates are incomplete and it was empty |
| `Models.DefaultMappableLocationShape` | mezzanine_agenda/models.py:301-302 | the derived text has no line breaks from the address, and it is never empty when the coordinates are incomplete |
| `Models.CleanLocationAsWritten` | mezzanine_agenda/models.py:289-317 | as written: a latitude without longitude is rejected, and so is the reverse; complete coordinates are kept; with neither, the geocoder's answer replaces the mappable location and both coordinates, a query error is a validation error carrying its message, a value error ends in the handler's own AttributeError, and no match fails to unpack |
| `Models.CleanLocation` | mezzanine_agenda/models.py:289-317 | corrected: the same, except that a geocoder value error is also a validation error carrying its message |
| `Models.CleanLocationValueErrorHasNoMessage` | mezzanine_agenda/models.py:309-311 | the two differ exactly on a geocoder value error for a location without coordinates, where only the corrected one reports a validation error |
| `Models.SeasonCleanAsWritten` | mezzanine_agenda/models.py:387-404 | as written, a season is rejected exactly when another season's stored end date, year padded to four digits, starts with the new end year as `%Y` writes it |
| `Models.EndYearPrefixFourDigits` | mezzanine_agenda/models.py:389-391 | for end years 1000..9999 the prefix test is exactly "same end year" |
| `Models.SeasonCleanSmallYears` | mezzanine_agenda/models.py:389-391 | below 1000 it is not: a season ending in 999 is rejected because of one ending in 9995, and a second season ending in 999 is accepted, the reverse of the corrected check |
| `Models.SeasonClean` | mezzanine_agenda/models.py:387-404 | corrected: rejected exactly when another season has the same start and end years |
| `Models.SeasonNotItsOwnDuplicate` | mezzanine_agenda/models.py:393-394 | a saved season is never compared with itself |
| `Models.SeasonCleanComparesEndYearOnly` | mezzanine_agenda/models.py:389-391 | a season 2020–2021 is rejected because of a season 2019–2021 as written, and accepted by the corrected check |
| `EventTags.CollectMonthDicts` | mezzanine_agenda/templatetags/event_tags.py:40-47 | the first loop keeps one dictionary per distinct first-of-month, in first-occurrence order |
| `EventTags.SetCounts` | mezzanine_agenda/templatetags/event_tags.py:48-50 | the count written into each kept dictionary is the number of dates in its month |
| `EventTags.EventMonths` | mezzanine_agenda/templatetags/event_tags.py:32-51 | one entry per distinct first-of-month in first-occurrence order; each count is the number of starts in that month, and the counts sum to the number of starts |
| `EventTags.SumOverDedup` | mezzanine_agenda/templatetags/event_tags.py:48-51 | the per-month counts of the distinct months add up to the number of dates |
| `EventTags.FeedTag` | mezzanine_agenda/templatetags/event_tags.py:92-97 | the tag lookup either fails on an unknown tag or keeps exactly the events carrying it |
| `EventTags.FeedLocation` | mezzanine_agenda/templatetags/event_tags.py:98-103 | the location lookup either fails on an unknown location or keeps exactly the events there |
| `EventTags.FeedAuthor` | mezzanine_agenda/templatetags/event_tags.py:104-109 | the author lookup either fails on an unknown user or keeps exactly that user's events |
| `EventTags.FeedQueryMembers` | mezzanine_agenda/templatetags/event_tags.py:89-110 | a feed keeps exactly the published events that pass its time test (recent: ended before now; upcoming: starting or ending after now) and the given tag, location and user |
| `EventTags.FeedQuerySorted` | mezzanine_agenda/templatetags/event_tags.py:89-110 | recent events come by start descending, upcoming ones by start ascending |
| `EventTags.FeedEvents` | mezzanine_agenda/templatetags/event_tags.py:75-150 | a feed has at most `limit` events, all published, and fails only when a lookup finds several rows |
| `EventTags.FeedEventsSpec` | mezzanine_agenda/templatetags/event_tags.py:75-150 | a feed is sorted, holds at most `limit` matching events, and holds all of them when it is shorter than `limit` |
| `EventTags.FeedEventsUnknown` | mezzanine_agenda/templatetags/event_tags.py:92-109 | an unknown tag, location or user gives `[]` |
| `EventTags.RecentEvents` | mezzanine_agenda/templatetags/event_tags.py:75-110 | at most `limit` recent events |
| `EventTags.UpcomingEvents` | mezzanine_agenda/templatetags/event_tags.py:114-150 | at most `limit` upcoming events |
| `EventTags.StampRoundTrip` | mezzanine_agenda/templatetags/event_tags.py:180-182 | a `YYYYMMDDTHHMMSSZ` stamp, with the year padded to four digits, has 16 characters, digits where digits belong, and parses back to its datetime |
| `EventTags.GoogleCalendarUrl` | mezzanine_agenda/templatetags/event_tags.py:173-190 | the URL is empty exactly when there is no event |
| `EventTags.GoogleCalendarDates` | mezzanine_agenda/templatetags/event_tags.py:177-190 | the dates parameter is the UTC start stamp, `/`, and the UTC end stamp, each parsing back to its datetime |
| `EventTags.GoogleCalendarEndDefault` | mezzanine_agenda/templatetags/event_tags.py:181-184 | without an end, the URL is that of the same event ending at its start |
| `EventTags.StrptimeMonth` | mezzanine_agenda/templatetags/event_tags.py:260-262 | `%B` parsing accepts exactly the month names, ignoring ASCII case |
| `EventTags.StrptimeMonthRoundTrip` | mezzanine_agenda/templatetags/event_tags.py:260-262 | every English month name parses to its month |
| `EventTags.IcalendarUrl` | mezzanine_agenda/templatetags/event_tags.py:248-272 | the route fails exactly when year and month are given (no event or tag) and the month is not a month name |
| `EventTags.IcalendarPriority` | mezzanine_agenda/templatetags/event_tags.py:252-272 | the route chosen is the first present in the order event, tag, year and month, year, location, author, plain |
| `EventTags.StepCountSpec` | mezzanine_agenda/templatetags/event_tags.py:280-284 | the number of steps is zero exactly when start ≥ end; the last step is below `end` and the next would not be |
| `EventTags.StepsIncreasing` | mezzanine_agenda/templatetags/event_tags.py:280-284 | the values are start, start+δ, …, strictly increasing and each below `end` |
| `EventTags.Perdelta` | mezzanine_agenda/templatetags/event_tags.py:280-284 | the generator yields those steps, or overflows when a step beyond the calendar would be computed |
| `EventTags.Earliest` | mezzanine_agenda/templatetags/event_tags.py:289-291 | the earliest start belongs to the starts and none is earlier |
| `EventTags.Latest` | mezzanine_agenda/templatetags/event_tags.py:292 | the latest start belongs to the starts and none is later |
| `EventTags.AllDays` | mezzanine_agenda/templatetags/event_tags.py:288-295 | no events give `[]`; otherwise the days step by one day from the earliest start |
| `EventTags.AllDaysValues` | mezzanine_agenda/templatetags/event_tags.py:288-295 | the days start at the earliest start, each is one day after the previous, and all lie before the latest start, which is excluded |
| `EventTags.IsoCalendarSpec` | mezzanine_agenda/templatetags/event_tags.py:308-309 | the ISO week is in 1..53 and the weekday is Monday-based; the date is that many weeks and days after week 1's Monday of the ISO year, which is the year before, the same or the next |
| `EventTags.AllWeeks` | mezzanine_agenda/templatetags/event_tags.py:304-310 | no events raise IndexError |
| `EventTags.AllWeeksSpec` | mezzanine_agenda/templatetags/event_tags.py:304-310 | the inclusive range of ISO week numbers from the first event's to the last event's |
| `EventTags.SameTimeInPeriods` | mezzanine_agenda/templatetags/event_tags.py:324-339 | True for no periods, AttributeError when the first period has no start, and otherwise whether every set start (and, when the first has an end, every set end) has the first period's time |
| `EventTags.SameTimePairwise` | mezzanine_agenda/templatetags/event_tags.py:324-339 | for fully dated periods, the same as all pairs agreeing on start and end times |
| `EventTags.TagIsExcluded` | mezzanine_agenda/templatetags/event_tags.py:354-355 | a tag is excluded exactly when it is in the exclusion list |
| `EventTags.TagIsExcludedAgreesWithListing` | mezzanine_agenda/templatetags/event_tags.py:354-355 | the template test agrees with the listing's tag cleanup |
| `Utils.DateKeyRoundTrip` | mezzanine_agenda/utils.py:30 | a `%Y-%m-%d` key, with the year padded to four digits, is well formed and parses back to its date |
| `Utils.DateKeyInjective` | mezzanine_agenda/utils.py:30 | two dates with the same key are the same date |
| `Utils.PeriodStampsMembers` | mezzanine_agenda/utils.py:31-32 | the stored period datetimes are exactly the periods' starts |
| `Utils.EventStampsMembers` | mezzanine_agenda/utils.py:29-32 | an event stores its start and each of its periods' starts |
| `Utils.StampsMembers` | mezzanine_agenda/utils.py:29-32 | the stored datetimes are exactly those of some event |
| `Utils.AddPeriodDates` | mezzanine_agenda/utils.py:31-32 | the period loop fails with AttributeError exactly when a period has no start, and otherwise adds exactly the periods' dates |
| `Utils.AddEventDates` | mezzanine_agenda/utils.py:29-32 | one event adds its start date and its periods' dates |
| `Utils.AddDates` | mezzanine_agenda/utils.py:29-32 | the loop fails exactly when some period has no start, and otherwise keys exactly the dates of all stored datetimes |
| `Utils.FilteredSubset` | mezzanine_agenda/utils.py:34-45 | the filtered dates are among all dates |
| `Utils.FilteredWithoutMatch` | mezzanine_agenda/utils.py:34-45 | without locations, or when none matches, the filtered dates are all dates |
| `Utils.FilteredWithMatch` | mezzanine_agenda/utils.py:36-45 | when some event matches a location, a date is filtered exactly when a matching event stores it |
| `Utils.DaysFromOrdinals` | mezzanine_agenda/utils.py:47 | the day list is valid dates on consecutive ordinals |
| `Utils.EarliestKey` | mezzanine_agenda/utils.py:47 | the loop finds the earliest date key |
| `Utils.LatestKey` | mezzanine_agenda/utils.py:47 | the loop finds the latest date key |
| `Utils.DateRange` | mezzanine_agenda/utils.py:47 | the daily range from the earliest to the latest date, inclusive |
| `Utils.DayDict` | mezzanine_agenda/utils.py:48-49 | the ordered day dictionary keys each day of the range by its `%Y-%m-%d` text |
| `Utils.DayDictKeysDistinct` | mezzanine_agenda/utils.py:48-49 | no key of the day dictionary repeats, so no day overwrites another |
| `Utils.DayEntries` | mezzanine_agenda/utils.py:52-60 | one entry per day of the dictionary, in order |
| `Utils.EventsListDaysForm` | mezzanine_agenda/utils.py:17-63 | fails with AttributeError exactly when a period has no start, and with ValueError (empty `min()`) exactly when there are no events; otherwise it is the day grid of all the dates against the filtered ones |
| `Utils.DayGrid` | mezzanine_agenda/utils.py:47-63 | the grid of two date dictionaries is the entries of the range of the first against the keys of the second |
| `Utils.FormDaysSpec` | mezzanine_agenda/utils.py:47-49 | the grid starts at the earliest date, ends at the latest, steps one day at a time, and covers every stored date |
| `Utils.DaysFormEntries` | mezzanine_agenda/utils.py:52-60 | each entry's key parses back to its day, its label is the day of the month, and it is `disabled` exactly when its day is not among the filtered dates |
| `Utils.CategoryManager` | mezzanine_agenda/utils.py:66-76 | the loop keeps length and order and highlights entry by entry |
| `Utils.HighlightSpec` | mezzanine_agenda/utils.py:68-75 | highlighting keeps each pair; exactly the entries whose key is the setting get the lower-cased setting as class with their original label; without the setting nothing changes |
| `Utils.HighlightAsciiClass` | mezzanine_agenda/utils.py:71 | with the ASCII lower-casing, the class holds no upper-case letter |
| `Utils.SignUrl` | mezzanine_agenda/utils.py:96-97 | signing fails exactly when the URL or the secret is missing or empty |
| `Utils.SignUrlShape` | mezzanine_agenda/utils.py:99-118 | the result is `scheme://netloc path?query`, then `&signature=`, then the signature of `path?query` |
| `Utils.SignatureIgnoresHost` | mezzanine_agenda/utils.py:102-113 | two URLs with the same path and query get the same signature whatever their scheme and host |

## Left out

- Everything of the ORM is replaced by sequences: database access,
  `published()`, `select_related` and prefetching, and the
  `get_or_create` side effect. Published events and the order of tables are
  inputs; a stable insertion sort stands for `order_by`.
- The row duplication of images, departments and links in `Event.save`
  (models.py:103-130) is left out: it creates database rows.
- The geocoder (models.py:305-314) is a function parameter that can fail.
  The debug `print` calls are left out.
- The HMAC-SHA1 and base64 steps of `sign_url`, and `urlparse`, are
  function parameters. The model reads the parts as decoded text.
  `google_static_map`, the only caller, passes bytes. A `str` argument would
  raise AttributeError on `.decode` under Python 3, and that path is not
  modelled.
- Time-zone handling (`_get_utc`, `make_naive`) is a function parameter.
  So are `reverse`, `urlquote` and the site domain, and `to_ical`
  serialisation. The French month names that `translation.override('fr')`
  yields are a fixed table (see `Views.Label`).
- Floats are left out: prices (`is_free` becomes a boolean field,
  `hasFreePrice`) and the lat/lon formatting of `google_static_map`.
  Latitude and longitude are integers in units of 10^-7 degrees.
- `same_day_in_periods` is left out: it compares bound methods.
- These event_tags.py helpers are left out; they are wrappers around a
  query or a route with no rule of their own: `google_static_map`,
  `google_nav_url`, `event_locations`, `event_authors`, `all_events`,
  `events_in_day`, `week_range`, `subtract` and `get_tag`.
- Framework code is left out: menu building in `get_context_data`, AJAX
  serialisation, template selection, the `ArchiveListView.get` redirect,
  `urls.py`, `admin.py`, `forms.py`, `translation.py`, `setup.py` and the
  migrations.
- Microseconds of datetimes are not modelled; seconds are the finest unit.
- Views.Label: the key the code evidently intends, with the second month
  name in English. As written, the key expression adds `str` and the lazy
  translation proxy `MONTH_CHOICES[month]` (views.py:196-203, 402-408), which
  raises TypeError under Django 1.10; the as-written views model that
  failure (see Findings). The request's active language is not modelled.
- Views.LabelParts: states the split of the intended key, which the source
  as written never builds (see `Views.Label`).
- Views.FillBuckets: the loop with the intended key. As written the first
  key already raises TypeError; `Views.EventList` and `Views.ArchiveList`
  with `asWritten` return KeyConcatenation before the loop.
- Views.FillMonthBuckets: the view's dictionary with the intended keys; as
  written it is never produced (see `Views.FillBuckets`).
- Views.EventList: with `asWritten` it models the source, where any month
  list that is not empty fails on its first key; without, the intended
  listing.
- Views.ArchiveList: with `asWritten` it models the source, with the month
  filter as written and the failing key; without, the corrected archive.
- Utils.DateKeyRoundTrip: the `%Y-%m-%d` key pads the year to four digits.
  CPython's `strftime('%Y')` on Linux writes years 1..999 without padding
  ("999-01-01"), so for those years the model's key differs from the
  source's; years 1000..9999 agree.
- EventTags.StampRoundTrip: the `%Y%m%dT%H%M%SZ` stamp pads the year to four
  digits and is 16 characters long. For years 1..999 CPython on Linux writes
  the year unpadded (year 5 gives "50304T010203Z"), so the model's stamp
  differs from the source's there; years 1000..9999 agree.
- Utils.EventsListDaysForm: takes the smallest and largest date of the date
  dictionary as the range ends. The source takes `min` and `max` of the
  `%Y-%m-%d` strings. For years 1000..9999 the two orders agree, but that
  agreement is not proved. With a year below 1000 they disagree: the
  unpadded "999-…" sorts after "1000-…".
- Utils.DayEntries: the weekend class the source computes is never used, so
  the model does not compute it.
- Utils.EventsListDaysForm: the limits of `pandas.date_range` (timestamps
  beyond the year 2262) are not modelled. Dates are Python dates up to the
  year 9999.
- Utils.DayGrid: the date dictionaries are keyed by date rather than by the
  `%Y-%m-%d` text. The two are interchangeable because the key text is
  injective (`Utils.DateKeyInjective`).
- EventTags.StrptimeMonth: folds ASCII case only; locale month names other
  than English are not modelled.
- EventTags.Perdelta: requires δ > 0. The template tag is only called with
  one day, and for δ ≤ 0 the generator would not stop.
- EventTags.RecentEvents: states only the length bound. Sorting and
  membership are stated for both feeds by `EventTags.FeedEventsSpec`.
- EventTags.UpcomingEvents: states only the length bound. Sorting and
  membership are stated for both feeds by `EventTags.FeedEventsSpec`.
- Views.ArchiveListing: the corrected archive view, which answers 404 for a
  month above 12 and builds the intended keys; the view as written is
  `Views.ArchiveListingAsWritten` (see Findings).
- Views.SeasonTitle: renders the parsed year. The source concatenates
  `str(self.year)`, the URL's own four digits, so `/archive/0999/` gives
  "Season 0999-1000" there and "Season 999-1000" here; without a year in the
  URL the two agree (`Common.DecimalStringNoLeadingZero`).
- Utils.CategoryManager: Python's `str.lower` is a parameter (`lower`), since
  it follows the full Unicode case tables; `Utils.HighlightAsciiClass` fixes
  it to the ASCII lower-casing.
- EventTags.FeedEvents: `limit` is a natural number. A negative limit makes
  the QuerySet slice `events[:limit]` (event_tags.py:110, 150) raise
  AssertionError ("Negative indexing is not supported."); the model's `nat`
  excludes that case.
- Concurrency between requests and the order of database writes are not
  modelled.

## Findings

| source | as written | input that shows it | evidently intended | confidence | as-written member | corrected member |
|---|---|---|---|---|---|---|
| mezzanine_agenda/models.py:389-391 | `Q(start…) and Q(end…)` evaluates to the second `Q`, so only the end year is compared | a saved season 2019-07-31..2021-08-01 and a new season 2020-07-31..2021-08-01: the new one is rejected | reject only a season with the same start year and the same end year (`&` of the two `Q`s) | high; not executed | `Models.SeasonCleanComparesEndYearOnly` | `Models.SeasonClean` |
| mezzanine_agenda/models.py:309-311 | the `ValueError` handler formats `e.message`; Python 3 exceptions have no `message` attribute, so the handler raises AttributeError instead of the intended ValidationError | a location without coordinates whose mappable location makes the geocoder raise ValueError | a validation error carrying the message, as for `GeocoderQueryError` (`error=e`) | high; not executed | `Models.CleanLocationValueErrorHasNoMessage` | `Models.CleanLocation` |
| mezzanine_agenda/models.py:391 | `end__startswith=self.end.strftime('%Y')` compares text: the stored date is padded to four digits, while `%Y` on Linux writes years below 1000 unpadded, and a short year is a prefix of longer ones | a saved season ending 9995-08-01 and a new one ending 0999-08-01: the new one is rejected; a second season ending 0999-08-01 is accepted | compare the end years as numbers (`end__year`) | medium; not executed | `Models.SeasonCleanSmallYears` | `Models.SeasonClean` |
| mezzanine_agenda/views.py:196-203 | the key `m + ' ' + str(year) + ',' + MONTH_CHOICES[month]` adds a `str` and a lazy translation proxy; the proxy of Django 1.10 copies `str`'s methods and `str` has no `__radd__`, so the first key raises TypeError (also views.py:227-234, 402-408, 433-440) | the `event_list` route (the agenda's root URL) with one published upcoming event | the key `"<French month> <year>,<month> <year>"` with the second name rendered as text | medium; not executed | `Views.ListingKeyRaises` | `Views.ListingByStartMonth` |
| mezzanine_agenda/views.py:359-380 | `date(year, month, 1)` runs before `month_name[month]`, so a month of 13 raises ValueError in `date()` and the IndexError handler that answers 404 is never reached | `/archive/2020/13/` | a month above 12 is not found, as in the listing view (views.py:110-114) | high; not executed | `Views.ArchiveMonthNeverNotFound` | `Views.ArchiveMonthFilter` |
