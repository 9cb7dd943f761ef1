/** The entities of the agenda (Event, EventLocation, Season and the records
    they refer to) and the rules their model methods apply: date validation,
    the copy-down from a parent event on save, the detail URL, the iCalendar
    component, next/previous navigation, the reservation button, the
    location's coordinate pairing and the season uniqueness check. */
module Models {
  import opened Common
  import opened Calendar

  datatype Category = Category(id: nat, name: string)

  /** An EventLocation. Latitude and longitude are decimal fields with seven
      decimals, held here as integers counting 10^-7 degrees (so exactly). */
  datatype Location = Location(
    id: nat,
    title: string,
    slug: string,
    address: string,
    postalCode: string,
    city: string,
    mappableLocation: string,
    lat: Option<int>,
    lon: Option<int>,
    room: Option<string>)

  /** A related link: the slug of its link type, and its URL. */
  datatype Link = Link(linkType: string, url: string)

  /** An event period: its own start and end. */
  datatype Period = Period(dateFrom: Option<Timestamp>, dateTo: Option<Timestamp>)

  /** An Event row. `parent` is the id of the parent event; `hasFreePrice`
      says whether one of its prices has the value 0. */
  datatype Event = Event(
    id: nat,
    slug: string,
    title: string,
    user: Option<nat>,
    status: int,
    start: Timestamp,
    end: Option<Timestamp>,
    publishDate: Timestamp,
    rank: Option<int>,
    parent: Option<nat>,
    location: Option<Location>,
    category: Option<Category>,
    description: string,
    descriptionEn: string,
    mentions: string,
    mentionsEn: string,
    content: string,
    contentEn: string,
    keywords: seq<nat>,
    externalId: Option<int>,
    shop: Option<nat>,
    isFull: bool,
    hasFreePrice: bool,
    links: seq<Link>,
    periods: seq<Period>)

  datatype Validation = Accepted | Rejected(message: string)

  /** Python truthiness of a nullable number: None and 0 are false. */
  predicate Truthy(x: Option<int>) {
    x.Some? && x.value != 0
  }

  // --- Event.clean ---

  function CleanEvent(e: Event): Validation {
    if e.end.Some? && AbsSecond(e.start) > AbsSecond(e.end.value) then Rejected("Start must be sooner than end.")
    else Accepted
  }

  /** An event is rejected exactly when it has an end that comes, in Python's
      datetime order, strictly before its start; an end equal to the start
      is accepted. */
  lemma CleanEventOrder(e: Event)
    requires ValidTimestamp(e.start) && (e.end.Some? ==> ValidTimestamp(e.end.value))
    ensures CleanEvent(e).Rejected? <==>
              e.end.Some? && (DateBefore(e.end.value.date, e.start.date) ||
                              (e.end.value.date == e.start.date && e.end.value.second < e.start.second))
    ensures e.end == Some(e.start) ==> CleanEvent(e) == Accepted
  {
    if e.end.Some? {
      TimestampOrder(e.end.value, e.start);
    }
  }

  // --- Event.save: copy-down from the parent ---

  /** Event.save on a child event: title, user and status always come from
      the parent; location, description, category, mentions and content
      (with their English versions) only when the child's own is empty.
      Without a parent, nothing changes. */
  function CopyFromParent(e: Event, parent: Option<Event>): (r: Event)
    requires e.parent.Some? <==> parent.Some?
    requires parent.Some? ==> e.parent.value == parent.value.id
    ensures parent.None? ==> r == e
  {
    if parent.None? then e
    else
      var p := parent.value;
      // the source copies user and status again when they are empty; they are the parent's already
      e.(title := p.title, user := p.user, status := p.status,
         location := if e.location.None? then p.location else e.location,
         description := if e.description == "" then p.description else e.description,
         descriptionEn := if e.description == "" then p.descriptionEn else e.descriptionEn,
         category := if e.category.None? then p.category else e.category,
         mentions := if e.mentions == "" then p.mentions else e.mentions,
         mentionsEn := if e.mentions == "" then p.mentionsEn else e.mentionsEn,
         content := if e.content == "" then p.content else e.content,
         contentEn := if e.content == "" then p.contentEn else e.contentEn)
  }

  /** A child always takes its parent's title, owner and status, and its
      parent's location and category when it has none. */
  lemma CopyFromParentInherits(e: Event, p: Event)
    requires e.parent == Some(p.id)
    ensures var r := CopyFromParent(e, Some(p));
            && r.title == p.title && r.user == p.user && r.status == p.status
            && r.location == (if e.location.None? then p.location else e.location)
            && r.category == (if e.category.None? then p.category else e.category)
  {
  }

  /** An empty description, mentions or content text is replaced by the
      parent's, together with its English translation; a non-empty one is
      kept with the child's own translation. */
  lemma CopyFromParentTexts(e: Event, p: Event)
    requires e.parent == Some(p.id)
    ensures var r := CopyFromParent(e, Some(p));
            && (r.description, r.descriptionEn) == (if e.description == "" then (p.description, p.descriptionEn) else (e.description, e.descriptionEn))
            && (r.mentions, r.mentionsEn) == (if e.mentions == "" then (p.mentions, p.mentionsEn) else (e.mentions, e.mentionsEn))
            && (r.content, r.contentEn) == (if e.content == "" then (p.content, p.contentEn) else (e.content, e.contentEn))
  {
  }

  /** Every other field is the child's own. Links, images and departments
      are database rows the source duplicates from the parent; the model
      does not copy them, so `links` stays the child's. */
  lemma CopyFromParentKeepsOwn(e: Event, p: Event)
    requires e.parent == Some(p.id)
    ensures var r := CopyFromParent(e, Some(p));
            && r.id == e.id && r.slug == e.slug && r.start == e.start && r.end == e.end
            && r.publishDate == e.publishDate && r.rank == e.rank && r.parent == e.parent
            && r.keywords == e.keywords && r.externalId == e.externalId && r.shop == e.shop
            && r.isFull == e.isFull && r.hasFreePrice == e.hasFreePrice && r.links == e.links
            && r.periods == e.periods
  {
  }

  /** Saving a child twice copies nothing more than saving it once. */
  lemma CopyFromParentIdempotent(e: Event, parent: Option<Event>)
    requires e.parent.Some? <==> parent.Some?
    requires parent.Some? ==> e.parent.value == parent.value.id
    ensures CopyFromParent(CopyFromParent(e, parent), parent) == CopyFromParent(e, parent)
  {
    var r := CopyFromParent(e, parent);
    var r2 := CopyFromParent(r, parent);
    if parent.Some? {
      var p := parent.value;
      assert r2.location == r.location && r2.category == r.category;
      assert (r2.description, r2.descriptionEn) == (r.description, r.descriptionEn);
      assert (r2.mentions, r2.mentionsEn) == (r.mentions, r.mentionsEn);
      assert (r2.content, r2.contentEn) == (r.content, r.contentEn);
    }
  }

  // --- Event.get_absolute_url ---

  /** A reverse() call: the URL pattern's name and its keyword arguments in
      insertion order. */
  datatype Route = Route(name: string, kwargs: seq<(string, string)>)

  const DateParts: seq<string> := ["year", "month", "day"]

  /** Python's str(n). */
  function IntString(n: int): string {
    if n < 0 then "-" + DecimalString(-n) else DecimalString(n)
  }

  function ZeroPad(s: string): string {
    if |s| == 1 then "0" + s else s
  }

  function DatePartValue(d: Date, k: nat): int
    requires k < 3
  {
    if k == 0 then d.year else if k == 1 then d.month else d.day
  }

  /** The first n date parts of d as URL keyword arguments. */
  function DateKwargs(d: Date, n: nat): seq<(string, string)>
    requires n <= 3
  {
    if n == 0 then [] else DateKwargs(d, n - 1) + [(DateParts[n - 1], ZeroPad(IntString(DatePartValue(d, n - 1))))]
  }

  /** How many date parts a URL date format asks for. */
  function PartCount(dateFormat: string): nat
    requires dateFormat in DateParts
  {
    if dateFormat == "year" then 1 else if dateFormat == "month" then 2 else 3
  }

  /** The route that get_absolute_url reverses, for the setting EVENT_URLS_DATE_FORMAT. */
  function AbsoluteUrl(e: Event, dateFormat: string): Route {
    if dateFormat in DateParts then
      Route("event_detail_" + dateFormat, [("slug", e.slug)] + DateKwargs(e.publishDate.date, PartCount(dateFormat)))
    else Route("event_detail", [("slug", e.slug)])
  }

  /** get_absolute_url's loop over the date parts, stopping after the one the
      setting names. */
  method BuildAbsoluteUrl(e: Event, dateFormat: string) returns (r: Route)
    ensures r == AbsoluteUrl(e, dateFormat)
  {
    var name := "event_detail";
    var kwargs := [("slug", e.slug)];
    if dateFormat in DateParts {
      name := "event_detail_" + dateFormat;
      var i := 0;
      while i < 3
        invariant 0 <= i <= 3
        invariant i <= PartCount(dateFormat)
        invariant kwargs == [("slug", e.slug)] + DateKwargs(e.publishDate.date, i)
        invariant i > 0 ==> DateParts[i - 1] != dateFormat
        decreases 3 - i
      {
        var value := IntString(DatePartValue(e.publishDate.date, i));
        if |value| == 1 {
          value := "0" + value;
        }
        kwargs := kwargs + [(DateParts[i], value)];
        if DateParts[i] == dateFormat {
          assert kwargs == [("slug", e.slug)] + DateKwargs(e.publishDate.date, i + 1);
          break;
        }
        i := i + 1;
      }
    }
    r := Route(name, kwargs);
  }

  lemma {:induction false} DateKwargsShape(d: Date, n: nat)
    requires n <= 3 && ValidDate(d)
    ensures |DateKwargs(d, n)| == n
    ensures forall k :: 0 <= k < n ==>
              var (key, value) := DateKwargs(d, n)[k];
              && key == DateParts[k]
              && |value| >= 2
              && (forall j :: 0 <= j < |value| ==> IsDigit(value[j]))
              && ParseDecimal(value) == DatePartValue(d, k)
  {
    if n > 0 {
      DateKwargsShape(d, n - 1);
      var v := DatePartValue(d, n - 1);
      var s := DecimalString(v);
      ParseDecimalString(v);
      if |s| == 1 {
        ParseLeadingZero(s);
      }
      var last := ZeroPad(IntString(v));
      assert forall j :: 0 <= j < |last| ==> IsDigit(last[j]);
    }
  }

  /** With a date format of year, month or day, the URL holds the slug and
      then the publish date's parts from the year up to that format, each
      zero-padded to at least two digits and reading back as the date's own
      number; with any other setting it holds the slug alone. */
  lemma AbsoluteUrlShape(e: Event, dateFormat: string)
    requires ValidDate(e.publishDate.date)
    ensures var r := AbsoluteUrl(e, dateFormat);
            && r.kwargs[0] == ("slug", e.slug)
            && (dateFormat !in DateParts ==> r == Route("event_detail", [("slug", e.slug)]))
            && (dateFormat in DateParts ==>
                  && r.name == "event_detail_" + dateFormat
                  && |r.kwargs| == 1 + PartCount(dateFormat)
                  && r.kwargs[|r.kwargs| - 1].0 == dateFormat
                  && forall k :: 1 <= k < |r.kwargs| ==>
                       && r.kwargs[k].0 == DateParts[k - 1]
                       && |r.kwargs[k].1| >= 2
                       && (forall j :: 0 <= j < |r.kwargs[k].1| ==> IsDigit(r.kwargs[k].1[j]))
                       && ParseDecimal(r.kwargs[k].1) == DatePartValue(e.publishDate.date, k - 1))
  {
    if dateFormat in DateParts {
      var n := PartCount(dateFormat);
      DateKwargsShape(e.publishDate.date, n);
      var r := AbsoluteUrl(e, dateFormat);
      forall k | 1 <= k < |r.kwargs| ensures r.kwargs[k] == DateKwargs(e.publishDate.date, n)[k - 1] {
      }
    }
  }

  // --- Event.get_icalendar_event (RFC 5545, section 3.6.1) ---

  datatype PropertyValue = Text(text: string) | DateTime(stamp: Timestamp)

  datatype Property = Property(name: string, value: PropertyValue)

  /** The values a component holds for one property name, in order. */
  function Values(props: seq<Property>, name: string): seq<PropertyValue> {
    if |props| == 0 then []
    else Values(props[..|props| - 1], name) + (if props[|props| - 1].name == name then [props[|props| - 1].value] else [])
  }

  lemma {:induction false} ValuesAppend(a: seq<Property>, b: seq<Property>, name: string)
    ensures Values(a + b, name) == Values(a, name) + Values(b, name)
    decreases |b|
  {
    if |b| > 0 {
      var n := |b| - 1;
      assert (a + b)[..|a + b| - 1] == a + b[..n];
      ValuesAppend(a, b[..n], name);
    } else {
      assert a + b == a;
    }
  }

  /** The UID property (RFC 5545, section 3.8.4.7). */
  function Uid(id: nat, domain: string): string {
    "event-" + DecimalString(id) + "@" + domain
  }

  function Optional(present: bool, p: Property): seq<Property> {
    if present then [p] else []
  }

  lemma ValuesOptional(present: bool, p: Property, name: string)
    ensures Values(Optional(present, p), name) == if present && p.name == name then [p.value] else []
  {
    if present {
      assert Optional(present, p)[..0] == [];
    }
  }

  /** The VEVENT for an event, given the site's domain and the path that
      reverse() gives for the event's detail route. */
  function ICalendarEvent(e: Event, domain: string, path: string): seq<Property> {
    ICalendarParts(e, domain, path)[0] + ICalendarParts(e, domain, path)[1] + ICalendarParts(e, domain, path)[2]
    + ICalendarParts(e, domain, path)[3] + ICalendarParts(e, domain, path)[4] + ICalendarParts(e, domain, path)[5]
    + ICalendarParts(e, domain, path)[6]
  }

  /** The component's properties in the order the source adds them; the
      location and the end are added only when the event has them. */
  function ICalendarParts(e: Event, domain: string, path: string): (parts: seq<seq<Property>>)
    ensures |parts| == 7
  {
    [Optional(true, Property("SUMMARY", Text(e.title))),
     Optional(true, Property("URL", Text("http://" + domain + path))),
     Optional(e.location.Some?, Property("LOCATION", Text(if e.location.Some? then e.location.value.address else ""))),
     Optional(true, Property("DTSTAMP", DateTime(e.start))),
     Optional(true, Property("DTSTART", DateTime(e.start))),
     Optional(e.end.Some?, Property("DTEND", DateTime(if e.end.Some? then e.end.value else e.start))),
     Optional(true, Property("UID", Text(Uid(e.id, domain))))]
  }

  lemma ValuesOfParts(parts: seq<seq<Property>>, name: string)
    requires |parts| == 7
    ensures Values(parts[0] + parts[1] + parts[2] + parts[3] + parts[4] + parts[5] + parts[6], name)
            == Values(parts[0], name) + Values(parts[1], name) + Values(parts[2], name) + Values(parts[3], name)
               + Values(parts[4], name) + Values(parts[5], name) + Values(parts[6], name)
  {
    var p1, p2, p3, p4, p5, p6, p7 := parts[0], parts[1], parts[2], parts[3], parts[4], parts[5], parts[6];
    ValuesAppend(p1, p2, name);
    ValuesAppend(p1 + p2, p3, name);
    ValuesAppend(p1 + p2 + p3, p4, name);
    ValuesAppend(p1 + p2 + p3 + p4, p5, name);
    ValuesAppend(p1 + p2 + p3 + p4 + p5, p6, name);
    ValuesAppend(p1 + p2 + p3 + p4 + p5 + p6, p7, name);
  }

  /** The values the component holds for each property name: exactly one
      summary, URL, stamp, start and UID, a location and an end exactly when
      the event has them, and nothing under any other name. */
  lemma ICalendarValues(e: Event, domain: string, path: string, name: string)
    ensures Values(ICalendarEvent(e, domain, path), name) ==
              (if name == "SUMMARY" then [Text(e.title)]
               else if name == "URL" then [Text("http://" + domain + path)]
               else if name == "LOCATION" then (if e.location.Some? then [Text(e.location.value.address)] else [])
               else if name == "DTSTAMP" || name == "DTSTART" then [DateTime(e.start)]
               else if name == "DTEND" then (if e.end.Some? then [DateTime(e.end.value)] else [])
               else if name == "UID" then [Text(Uid(e.id, domain))]
               else [])
  {
    var parts := ICalendarParts(e, domain, path);
    ValuesOfParts(parts, name);
    var v0, v1, v2, v3, v4, v5, v6 := Values(parts[0], name), Values(parts[1], name), Values(parts[2], name), Values(parts[3], name), Values(parts[4], name), Values(parts[5], name), Values(parts[6], name);
    assert v0 == (if name == "SUMMARY" then [Text(e.title)] else []) by { ValuesOptional(true, Property("SUMMARY", Text(e.title)), name); }
    assert v1 == (if name == "URL" then [Text("http://" + domain + path)] else []) by { ValuesOptional(true, Property("URL", Text("http://" + domain + path)), name); }
    assert v2 == (if name == "LOCATION" && e.location.Some? then [Text(e.location.value.address)] else []) by { ValuesOptional(e.location.Some?, Property("LOCATION", Text(if e.location.Some? then e.location.value.address else "")), name); }
    assert v3 == (if name == "DTSTAMP" then [DateTime(e.start)] else []) by { ValuesOptional(true, Property("DTSTAMP", DateTime(e.start)), name); }
    assert v4 == (if name == "DTSTART" then [DateTime(e.start)] else []) by { ValuesOptional(true, Property("DTSTART", DateTime(e.start)), name); }
    assert v5 == (if name == "DTEND" && e.end.Some? then [DateTime(e.end.value)] else []) by { ValuesOptional(e.end.Some?, Property("DTEND", DateTime(if e.end.Some? then e.end.value else e.start)), name); }
    assert v6 == (if name == "UID" then [Text(Uid(e.id, domain))] else []) by { ValuesOptional(true, Property("UID", Text(Uid(e.id, domain))), name); }
    assert Values(ICalendarEvent(e, domain, path), name) == v0 + v1 + v2 + v3 + v4 + v5 + v6;
  }

  /** Events with different ids get different UIDs on the same site, as
      section 3.8.4.7 of RFC 5545 requires of a UID. */
  lemma UidUnique(a: nat, b: nat, domain: string)
    requires Uid(a, domain) == Uid(b, domain)
    ensures a == b
  {
    var sa, sb := DecimalString(a), DecimalString(b);
    var u := Uid(a, domain);
    assert u[6..] == sa + ['@'] + domain;
    assert Uid(b, domain)[6..] == sb + ['@'] + domain;
    assert '@' !in sa && '@' !in sb by {
      assert forall k :: 0 <= k < |sa| ==> IsDigit(sa[k]);
      assert forall k :: 0 <= k < |sb| ==> IsDigit(sb[k]);
    }
    SplitAtSeparator(sa, sb, '@', domain, domain);
    DecimalStringInjective(a, b);
  }

  // --- Event._get_next_or_previous_by_start_date ---

  datatype QueryError = NoneQueryValue | MultipleObjectsReturned

  /** The lookup of the next (start >= own start, rank >= own rank) or
      previous (start <= own start, rank < own rank) event, excluding the
      event itself and events that have a parent. A null rank never matches
      a comparison. */
  predicate IsCandidate(self: Event, c: Event, isNext: bool)
    requires self.rank.Some?
  {
    && c.id != self.id
    && c.parent.None?
    && c.rank.Some?
    && (if isNext then AbsSecond(c.start) >= AbsSecond(self.start) && c.rank.value >= self.rank.value
        else AbsSecond(c.start) <= AbsSecond(self.start) && c.rank.value < self.rank.value)
  }

  /** a comes strictly before b in the ordering (rank, start), descending for the previous event. */
  predicate Precedes(a: Event, b: Event, isNext: bool)
    requires a.rank.Some? && b.rank.Some?
  {
    if isNext then a.rank.value < b.rank.value || (a.rank.value == b.rank.value && AbsSecond(a.start) < AbsSecond(b.start))
    else a.rank.value > b.rank.value || (a.rank.value == b.rank.value && AbsSecond(a.start) > AbsSecond(b.start))
  }

  /** queryset[0] after ordering the candidates; ties keep the given order. */
  function FirstCandidate(self: Event, events: seq<Event>, isNext: bool): (r: Option<Event>)
    requires self.rank.Some?
    ensures r.Some? <==> exists c :: c in events && IsCandidate(self, c, isNext)
    ensures r.Some? ==> r.value in events && IsCandidate(self, r.value, isNext)
    ensures r.Some? ==> forall c :: c in events && IsCandidate(self, c, isNext) ==> !Precedes(c, r.value, isNext)
  {
    if |events| == 0 then None
    else
      var rest := FirstCandidate(self, events[1..], isNext);
      assert forall c :: c in events <==> c == events[0] || c in events[1..];
      if !IsCandidate(self, events[0], isNext) then rest
      else if rest.None? || !Precedes(rest.value, events[0], isNext) then Some(events[0])
      else rest
  }

  /** get_next_by_start_date / get_previous_by_start_date over the
      published events; Django refuses a null rank as a lookup value. */
  function NextOrPrevious(self: Event, published: seq<Event>, isNext: bool): (r: Result<Option<Event>, QueryError>)
    ensures self.rank.None? <==> r.Err?
    ensures r.Ok? ==> (r.value.None? <==> forall c :: c in published ==> !IsCandidate(self, c, isNext))
    ensures r.Ok? && r.value.Some? ==>
              && r.value.value in published && IsCandidate(self, r.value.value, isNext)
              && forall c :: c in published && IsCandidate(self, c, isNext) ==> !Precedes(c, r.value.value, isNext)
  {
    if self.rank.None? then Err(NoneQueryValue) else Ok(FirstCandidate(self, published, isNext))
  }

  // --- is_archived, has_shop, reserve_button ---

  function IsArchived(e: Event, now: Timestamp): bool {
    e.end.Some? && AbsSecond(e.end.value) < AbsSecond(now)
  }

  function HasShop(e: Event): bool {
    Truthy(e.externalId) && e.shop.Some?
  }

  /** The URL of the first link whose type is "vel", if any (has_vel / vel). */
  function VelUrl(links: seq<Link>): (r: Option<string>)
    ensures r.Some? <==> exists k :: 0 <= k < |links| && links[k].linkType == "vel"
    ensures r.Some? ==> exists k :: && 0 <= k < |links| && links[k].linkType == "vel" && links[k].url == r.value
                                   && forall j :: 0 <= j < k ==> links[j].linkType != "vel"
  {
    if |links| == 0 then None
    else if links[0].linkType == "vel" then Some(links[0].url)
    else
      var r := VelUrl(links[1..]);
      assert forall k :: 1 <= k < |links| ==> links[k] == links[1..][k - 1];
      if r.Some? then
        var k :| && 0 <= k < |links[1..]| && links[1..][k].linkType == "vel" && links[1..][k].url == r.value
                 && forall j :: 0 <= j < k ==> links[1..][j].linkType != "vel";
        assert forall j :: 0 <= j < k + 1 ==> links[j].linkType != "vel" by {
          forall j | 0 <= j < k + 1 ensures links[j].linkType != "vel" {
            if j > 0 { assert links[j] == links[1..][j - 1]; }
          }
        }
        r
      else r
  }

  datatype ButtonUrl = RouteUrl(route: Route) | PlainUrl(url: string)

  /** The button dictionary: empty, or its url, label text and target. */
  datatype Button = NoButton | Button(url: ButtonUrl, text: string, target: string)

  /** reserve_button: nothing for an archived or full event; otherwise free
      entry before the shop before the VEL link. */
  function ReserveButton(e: Event, now: Timestamp, dateFormat: string): (r: Button)
    ensures r.Button? <==> !IsArchived(e, now) && !e.isFull && (e.hasFreePrice || HasShop(e) || VelUrl(e.links).Some?)
    ensures r.Button? && e.hasFreePrice ==> r == Button(RouteUrl(AbsoluteUrl(e, dateFormat)), "Free entry", "_self")
    ensures r.Button? && !e.hasFreePrice && HasShop(e) ==> r == Button(RouteUrl(Route("event_booking", [("slug", e.slug)])), "Reserve", "_self")
    ensures r.Button? ==> (r.target == "_blank" <==> r.url.PlainUrl?)
    ensures r.Button? && r.url.PlainUrl? ==> Some(r.url.url) == VelUrl(e.links) && !e.hasFreePrice && !HasShop(e)
    ensures r.Button? && !e.hasFreePrice && !HasShop(e) ==> r == Button(PlainUrl(VelUrl(e.links).value), "Reserve", "_blank")
  {
    if IsArchived(e, now) || e.isFull then NoButton
    else if e.hasFreePrice then Button(RouteUrl(AbsoluteUrl(e, dateFormat)), "Free entry", "_self")
    else if HasShop(e) then Button(RouteUrl(Route("event_booking", [("slug", e.slug)])), "Reserve", "_self")
    else if VelUrl(e.links).Some? then Button(PlainUrl(VelUrl(e.links).value), "Reserve", "_blank")
    else NoButton
  }

  // --- EventLocation.clean ---

  /** address.replace("\n", " ").replace("\r", " ") */
  function FlattenLines(s: string): (r: string)
    ensures |r| == |s|
    ensures forall k :: 0 <= k < |s| ==> r[k] == (if s[k] == '\n' || s[k] == '\r' then ' ' else s[k])
  {
    if |s| == 0 then ""
    else FlattenLines(s[..|s| - 1]) + [if s[|s| - 1] == '\n' || s[|s| - 1] == '\r' then ' ' else s[|s| - 1]]
  }

  predicate CoordinatesComplete(loc: Location) {
    Truthy(loc.lat) && Truthy(loc.lon)
  }

  /** The default mappable location: flattened address, postal code and city. */
  function DefaultMappableLocation(loc: Location): string {
    FlattenLines(loc.address) + ", " + loc.postalCode + " " + loc.city
  }

  /** The step of clean that fills an empty mappable location when the
      coordinates are incomplete. */
  function FillMappableLocation(loc: Location): (r: Location)
    ensures r.(mappableLocation := loc.mappableLocation) == loc
    ensures r.mappableLocation ==
              if !CoordinatesComplete(loc) && loc.mappableLocation == "" then DefaultMappableLocation(loc)
              else loc.mappableLocation
  {
    if !CoordinatesComplete(loc) && loc.mappableLocation == "" then loc.(mappableLocation := DefaultMappableLocation(loc))
    else loc
  }

  /** The filled string never holds a line break, and it is never empty, so
      a location whose coordinates are incomplete is always geocoded. */
  lemma DefaultMappableLocationShape(loc: Location)
    ensures '\n' !in FlattenLines(loc.address) && '\r' !in FlattenLines(loc.address)
    ensures !CoordinatesComplete(loc) ==> FillMappableLocation(loc).mappableLocation != ""
  {
    var f := FlattenLines(loc.address);
    assert forall k :: 0 <= k < |f| ==> f[k] != '\n' && f[k] != '\r';
    var d := DefaultMappableLocation(loc);
    assert d[|f|] == ',';
  }

  /** The outcome of the geocoding service on a query string. */
  datatype GeocodeResult =
    | Located(address: string, lat: int, lon: int)
    | GeocoderQueryError(message: string)
    | GeocoderValueError(message: string)
    | NoMatch

  datatype LocationError =
    | LongitudeRequired
    | LatitudeRequired
    | NotFoundOnMap(detail: string)
    | NothingToUnpack
    | NoMessageAttribute

  /** The steps of EventLocation.clean with the geocoder as a parameter. A
      geocoder that finds nothing returns None, which the source then fails
      to unpack. A query error is reported as a validation error. A value
      error is reported as one only when `valueErrorHasMessage`: the handler
      reads `e.message`, which Python 3 exceptions do not have, so there the
      handler itself raises an AttributeError. */
  function CleanLocationBy(loc: Location, geocode: string -> GeocodeResult, valueErrorHasMessage: bool): Result<Location, LocationError>
  {
    if Truthy(loc.lat) && !Truthy(loc.lon) then Err(LongitudeRequired)
    else if Truthy(loc.lon) && !Truthy(loc.lat) then Err(LatitudeRequired)
    else
      var filled := FillMappableLocation(loc);
      if filled.mappableLocation != "" && !CoordinatesComplete(filled) then
        DefaultMappableLocationShape(loc);
        match geocode(filled.mappableLocation)
        case Located(address, lat, lon) => Ok(filled.(mappableLocation := address, lat := Some(lat), lon := Some(lon)))
        case GeocoderQueryError(m) => Err(NotFoundOnMap(m))
        case GeocoderValueError(m) => if valueErrorHasMessage then Err(NotFoundOnMap(m)) else Err(NoMessageAttribute)
        case NoMatch => Err(NothingToUnpack)
      else
        DefaultMappableLocationShape(loc);
        Ok(filled)
  }

  /** EventLocation.clean as it runs under Python 3: a geocoder value error
      ends in an AttributeError instead of a validation error. */
  function CleanLocationAsWritten(loc: Location, geocode: string -> GeocodeResult): (r: Result<Location, LocationError>)
    ensures Truthy(loc.lat) && !Truthy(loc.lon) ==> r == Err(LongitudeRequired)
    ensures Truthy(loc.lon) && !Truthy(loc.lat) ==> r == Err(LatitudeRequired)
    ensures CoordinatesComplete(loc) ==> r == Ok(loc)
    ensures !Truthy(loc.lat) && !Truthy(loc.lon) ==>
              var query := FillMappableLocation(loc).mappableLocation;
              match geocode(query)
              case Located(address, lat, lon) => r == Ok(loc.(mappableLocation := address, lat := Some(lat), lon := Some(lon)))
              case GeocoderQueryError(m) => r == Err(NotFoundOnMap(m))
              case GeocoderValueError(_) => r == Err(NoMessageAttribute)
              case NoMatch => r == Err(NothingToUnpack)
  {
    CleanLocationBy(loc, geocode, false)
  }

  /** EventLocation.clean as intended: both geocoder errors are validation
      errors that carry the geocoder's message. */
  function CleanLocation(loc: Location, geocode: string -> GeocodeResult): (r: Result<Location, LocationError>)
    ensures Truthy(loc.lat) && !Truthy(loc.lon) ==> r == Err(LongitudeRequired)
    ensures Truthy(loc.lon) && !Truthy(loc.lat) ==> r == Err(LatitudeRequired)
    ensures CoordinatesComplete(loc) ==> r == Ok(loc)
    ensures !Truthy(loc.lat) && !Truthy(loc.lon) ==>
              var query := FillMappableLocation(loc).mappableLocation;
              match geocode(query)
              case Located(address, lat, lon) => r == Ok(loc.(mappableLocation := address, lat := Some(lat), lon := Some(lon)))
              case GeocoderQueryError(m) => r == Err(NotFoundOnMap(m))
              case GeocoderValueError(m) => r == Err(NotFoundOnMap(m))
              case NoMatch => r == Err(NothingToUnpack)
  {
    CleanLocationBy(loc, geocode, true)
  }

  /** The two differ exactly on a geocoder value error for a location
      without coordinates: as written it is never a validation error. */
  lemma CleanLocationValueErrorHasNoMessage(loc: Location, geocode: string -> GeocodeResult)
    ensures CleanLocationAsWritten(loc, geocode) != CleanLocation(loc, geocode) <==>
              !Truthy(loc.lat) && !Truthy(loc.lon) && geocode(FillMappableLocation(loc).mappableLocation).GeocoderValueError?
    ensures var answer := geocode(FillMappableLocation(loc).mappableLocation);
            !Truthy(loc.lat) && !Truthy(loc.lon) && answer.GeocoderValueError? ==>
              CleanLocationAsWritten(loc, geocode) == Err(NoMessageAttribute) &&
              CleanLocation(loc, geocode) == Err(NotFoundOnMap(answer.message))
  {
    DefaultMappableLocationShape(loc);
  }

  // --- Season.clean ---

  /** A Season row; `id` is None for a season not saved yet. */
  datatype Season = Season(id: Option<nat>, title: string, start: Date, end: Date)

  /** Another row counts against s: the source excludes s's own id once s is saved. */
  predicate IsOther(s: Season, o: Season) {
    s.id.None? || o.id != s.id
  }

  /** `end__startswith=s.end.strftime('%Y')` against the row o: the stored
      date's text, whose year is padded to four digits, begins with s's end
      year as `%Y` writes it, which on Linux leaves years below 1000
      unpadded. Python dates have no negative years. */
  predicate EndYearPrefix(s: Season, o: Season) {
    && 0 <= s.end.year && 0 <= o.end.year
    && var written, stored := DecimalString(s.end.year as nat), PadTo(o.end.year as nat, 4);
       |written| <= |stored| && stored[..|written|] == written
  }

  /** For four-digit years the prefix test is "same end year". */
  lemma EndYearPrefixFourDigits(s: Season, o: Season)
    requires 1000 <= s.end.year <= 9999 && 1000 <= o.end.year <= 9999
    ensures EndYearPrefix(s, o) <==> o.end.year == s.end.year
  {
    var a, b := s.end.year as nat, o.end.year as nat;
    FourDigits(a);
    FourDigits(b);
    var written, stored := DecimalString(a), PadTo(b, 4);
    assert stored[..|written|] == stored;
    if EndYearPrefix(s, o) {
      ParseDecimalString(a);
      ParseDecimalString(b);
      assert written == stored;
    }
  }

  /** A year of four digits is written with exactly four, without padding. */
  lemma FourDigits(n: nat)
    requires 1000 <= n <= 9999
    ensures |DecimalString(n)| == 4 && PadTo(n, 4) == DecimalString(n)
  {
    var d1 := n / 10;
    var d2 := d1 / 10;
    var d3 := d2 / 10;
    assert 100 <= d1 <= 999 && 10 <= d2 <= 99 && 1 <= d3 <= 9;
    assert DecimalString(d2) == DecimalString(d3) + [Digit(d2 % 10)];
    assert DecimalString(d1) == DecimalString(d2) + [Digit(d1 % 10)];
    assert DecimalString(n) == DecimalString(d1) + [Digit(n % 10)];
  }

  /** Season.clean as written: `Q(start...) and Q(end...)` evaluates to the
      second Q alone, so only the end is compared, by the text prefix test. */
  function SeasonCleanAsWritten(s: Season, table: seq<Season>): (r: Validation)
    ensures r.Rejected? <==> exists o :: o in table && IsOther(s, o) && EndYearPrefix(s, o)
  {
    if exists o :: o in table && IsOther(s, o) && EndYearPrefix(s, o) then Rejected("This season already exists.")
    else Accepted
  }

  /** Season.clean as intended: a season is a duplicate when another season
      has both the same start year and the same end year. */
  function SeasonClean(s: Season, table: seq<Season>): (r: Validation)
    ensures r.Rejected? <==> exists o :: o in table && IsOther(s, o) && o.start.year == s.start.year && o.end.year == s.end.year
  {
    if exists o :: o in table && IsOther(s, o) && o.start.year == s.start.year && o.end.year == s.end.year then
      Rejected("This season already exists.")
    else Accepted
  }

  /** A saved season is never its own duplicate, and a table holding only
      itself accepts it under both readings. */
  lemma SeasonNotItsOwnDuplicate(s: Season)
    requires s.id.Some?
    ensures SeasonClean(s, [s]) == Accepted && SeasonCleanAsWritten(s, [s]) == Accepted
  {
    assert forall o :: o in [s] ==> o == s;
  }

  /** The as-written check rejects a 2020-2021 season because a 2019-2021
      season exists, although their start years differ; the intended check
      accepts it. */
  lemma SeasonCleanComparesEndYearOnly()
    ensures var existing := Season(Some(1), "Season 2019-2021", Date(2019, 7, 31), Date(2021, 8, 1));
            var newer := Season(None, "Season 2020-2021", Date(2020, 7, 31), Date(2021, 8, 1));
            SeasonCleanAsWritten(newer, [existing]).Rejected? && SeasonClean(newer, [existing]) == Accepted
  {
    var existing := Season(Some(1), "Season 2019-2021", Date(2019, 7, 31), Date(2021, 8, 1));
    var newer := Season(None, "Season 2020-2021", Date(2020, 7, 31), Date(2021, 8, 1));
    assert existing in [existing];
    assert forall o :: o in [existing] ==> o == existing;
    EndYearPrefixFourDigits(newer, existing);
  }

  /** Below the year 1000 the prefix test is not "same end year": a season
      ending in 999 is rejected because a season ending in 9995 exists, and
      a second season ending in 999 is accepted, while the intended check
      does the reverse in both cases. */
  lemma SeasonCleanSmallYears()
    ensures var late := Season(Some(1), "Season 9994-9995", Date(9994, 7, 31), Date(9995, 8, 1));
            var early := Season(None, "Season 998-999", Date(998, 7, 31), Date(999, 8, 1));
            SeasonCleanAsWritten(early, [late]).Rejected? && SeasonClean(early, [late]) == Accepted
    ensures var saved := Season(Some(1), "Season 998-999", Date(998, 7, 31), Date(999, 8, 1));
            var again := Season(None, "Season 998-999", Date(998, 7, 31), Date(999, 8, 1));
            SeasonCleanAsWritten(again, [saved]) == Accepted && SeasonClean(again, [saved]).Rejected?
  {
    var late := Season(Some(1), "Season 9994-9995", Date(9994, 7, 31), Date(9995, 8, 1));
    var early := Season(None, "Season 998-999", Date(998, 7, 31), Date(999, 8, 1));
    var saved := early.(id := Some(1));
    PrefixOfLate(early, late);
    NoPrefixOfPadded(early, saved);
    assert late in [late];
    assert forall o :: o in [late] ==> o == late;
    assert saved in [saved];
    assert forall o :: o in [saved] ==> o == saved;
  }

  lemma PrefixOfLate(s: Season, o: Season)
    requires s.end.year == 999 && o.end.year == 9995
    ensures EndYearPrefix(s, o)
  {
    assert DecimalString(999) == "999";
    FourDigits(9995);
    assert DecimalString(9995) == "9995";
  }

  lemma NoPrefixOfPadded(s: Season, o: Season)
    requires s.end.year == 999 && o.end.year == 999
    ensures !EndYearPrefix(s, o)
  {
    assert DecimalString(999) == "999";
    var stored := PadTo(999, 4);
    assert stored == Zeros(1) + "999";
    assert stored[0] == '0';
  }
}
