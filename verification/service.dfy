/** `EventServiceImpl`: create/read/update/delete over the event repository,
    plus four queries evaluated in memory over the repository's `findAll`.

    Every operation is a function of the repository contents and its
    arguments. A write returns the new contents; an error is returned before
    anything is written, so a failing call leaves the repository as it was.
    The sources of non-determinism in the Java code are parameters here:
    `freshId` stands for `UUID.randomUUID()`, `now` for
    `LocalDateTime.now()`, `all` for the list `findAll()` returns and `order`
    for the order in which it lists the stored events. */
module EventService {
  import opened Wrappers
  import opened Events
  import opened Text
  import opened Seqs

  /** Every failure is an `IllegalArgumentException`; the constructors tell
      its four messages apart. */
  datatype Error =
    | EventIsNull                    // "Event cannot be null"
    | EventNotFoundWithId(id: Uuid)  // "Event not found with id: " + id
    | EventNotFound                  // "Event not found"
    | InvalidPrice                   // "Invalid price"
  {
    /** The failures that report an unknown identifier. */
    predicate IsNotFound() {
      EventNotFoundWithId? || EventNotFound?
    }
  }

  /** A successful write: the repository afterwards, and the entity `save`
      handed back to the caller. */
  datatype Saved = Saved(store: Store, event: Event)

  /** Bounds of the price query when the caller leaves one out. */
  const DefaultMinPrice: real := 0.0
  const DefaultMaxPrice: real := 1000000.0

  // ---------------------------------------------------------------------
  // Create, read, update, delete

  /** `createEvent`: rejects a null event; an event without an id receives
      `freshId`, one with an id keeps it; the event is then saved. Nothing
      checks that `freshId` is unused. */
  function CreateEvent(store: Store, event: Option<Event>, freshId: Uuid): (r: Result<Saved, Error>)
    ensures event.None? <==> r == Failure(EventIsNull)
    ensures event.Some? <==> r.Success?
    ensures r.Success? ==>
      && event.Some?
      && r.value.event.id == Some(event.value.id.GetOr(freshId))
      && r.value.event.(id := event.value.id) == event.value
      && r.value.store.Keys == store.Keys + {event.value.id.GetOr(freshId)}
      && r.value.store[event.value.id.GetOr(freshId)] == r.value.event
      && OnlyChanged(store, r.value.store, event.value.id.GetOr(freshId))
    ensures r.Success? && WellKeyed(store) ==> WellKeyed(r.value.store)
  {
    match event
    case None => Failure(EventIsNull)
    case Some(e) =>
      var withId := if e.id.None? then e.(id := Some(freshId)) else e;
      Success(Saved(Save(store, withId), withId))
  }

  /** `getEventById`. */
  function GetEventById(store: Store, id: Uuid): (r: Result<Event, Error>)
    ensures r.Success? <==> id in store
    ensures r.Success? ==> r.value == store[id]
    ensures r.Failure? ==> r.error == EventNotFoundWithId(id)
  {
    if id in store then Success(store[id]) else Failure(EventNotFoundWithId(id))
  }

  /** `getAllEvents`, i.e. `findAll`: each stored event once, in the
      repository's order. */
  function GetAllEvents(store: Store, order: seq<Uuid>): (r: seq<Event>)
    requires EnumeratesKeys(store, order)
    ensures |r| == |order| == |store|
    ensures forall i :: 0 <= i < |r| ==> r[i] == store[order[i]]
    ensures forall k :: k in store ==> store[k] in r
    ensures forall i :: 0 <= i < |r| ==> r[i] in store.Values
  {
    DistinctCardinality(order);
    assert (set k | k in order) == store.Keys;
    var r := seq(|order|, i requires 0 <= i < |order| => store[order[i]]);
    assert forall k :: k in store ==> store[k] in r by {
      forall k | k in store ensures store[k] in r {
        var i :| 0 <= i < |order| && order[i] == k;
        assert r[i] == store[k];
      }
    }
    r
  }

  /** `updateEvent`: a full replacement. An unknown id is an error, whatever
      the event (even a null one); otherwise the event is stored under `id`,
      its own id overwritten with `id`. A null event with a stored id ends in
      a `NullPointerException`, which the requires clause excludes. */
  function UpdateEvent(store: Store, id: Uuid, event: Option<Event>): (r: Result<Saved, Error>)
    requires id in store ==> event.Some?
    ensures r.Failure? <==> id !in store
    ensures r.Failure? ==> r.error == EventNotFound
    ensures r.Success? ==>
      && event.Some?
      && r.value.event.id == Some(id)
      && r.value.event.(id := event.value.id) == event.value
      && r.value.store.Keys == store.Keys
      && r.value.store[id] == r.value.event
      && OnlyChanged(store, r.value.store, id)
    ensures r.Success? && WellKeyed(store) ==> WellKeyed(r.value.store)
  {
    if id !in store then Failure(EventNotFound)
    else
      var withId := event.value.(id := Some(id));
      Success(Saved(Save(store, withId), withId))
  }

  /** `deleteEvent`: an unknown id is an error; otherwise that one entry is
      removed. */
  function DeleteEvent(store: Store, id: Uuid): (r: Result<Store, Error>)
    ensures r.Failure? <==> id !in store
    ensures r.Failure? ==> r.error == EventNotFound
    ensures r.Success? ==> r.value.Keys == store.Keys - {id} && OnlyChanged(store, r.value, id)
    ensures r.Success? && WellKeyed(store) ==> WellKeyed(r.value)
  {
    if id !in store then Failure(EventNotFound) else Success(store - {id})
  }

  /** The field-by-field merge of `partialUpdateEvent`: each field of
      `partial` replaces the existing one only when it passes its own test,
      and the id is never touched. A negative price fails its test and is
      dropped without an error. */
  function Merge(existing: Event, partial: Event): (m: Event)
    ensures m.id == existing.id
    ensures m.eventName == (if partial.eventName.Some? then partial.eventName else existing.eventName)
    ensures m.tags == (if partial.tags.Some? && |partial.tags.value| > 0 then partial.tags else existing.tags)
    ensures m.ticketPrice ==
      (if partial.ticketPrice.Some? && partial.ticketPrice.value >= 0.0 then partial.ticketPrice else existing.ticketPrice)
    ensures m.eventDateTime == (if partial.eventDateTime.Some? then partial.eventDateTime else existing.eventDateTime)
    ensures m.durationMinutes == (if partial.durationMinutes > 0 then partial.durationMinutes else existing.durationMinutes)
  {
    var e1 := if partial.eventName.Some? then existing.(eventName := partial.eventName) else existing;
    var e2 := if partial.tags.Some? && |partial.tags.value| > 0 then e1.(tags := partial.tags) else e1;
    var e3 := if partial.ticketPrice.Some? && partial.ticketPrice.value >= 0.0 then e2.(ticketPrice := partial.ticketPrice) else e2;
    var e4 := if partial.eventDateTime.Some? then e3.(eventDateTime := partial.eventDateTime) else e3;
    if partial.durationMinutes > 0 then e4.(durationMinutes := partial.durationMinutes) else e4
  }

  /** `partialUpdateEvent`: an unknown id is an error, whatever the partial
      event (even a null one); otherwise the stored event, merged with
      `partial`, is saved back under `id`. A null partial event with a stored
      id ends in a `NullPointerException`, which the requires clause
      excludes. */
  function PartialUpdateEvent(store: Store, id: Uuid, partial: Option<Event>): (r: Result<Saved, Error>)
    requires WellKeyed(store)
    requires id in store ==> partial.Some?
    ensures r.Failure? <==> id !in store
    ensures r.Failure? ==> r.error == EventNotFound
    ensures r.Success? ==>
      && id in store
      && partial.Some?
      && r.value.event == Merge(store[id], partial.value)
      && r.value.event.id == Some(id)
      && r.value.store.Keys == store.Keys
      && r.value.store[id] == r.value.event
      && OnlyChanged(store, r.value.store, id)
    ensures r.Success? ==> WellKeyed(r.value.store)
  {
    if id !in store then Failure(EventNotFound)
    else
      var merged := Merge(store[id], partial.value);
      Success(Saved(Save(store, merged), merged))
  }

  /** `updateEventPrice`: a null or negative price is an error raised before
      the repository is consulted; then an unknown id is an error; otherwise
      only the price of the stored event changes. */
  function UpdateEventPrice(store: Store, id: Uuid, newPrice: Option<real>): (r: Result<Saved, Error>)
    requires WellKeyed(store)
    ensures newPrice.None? ==> r == Failure(InvalidPrice)
    ensures newPrice.Some? && newPrice.value < 0.0 ==> r == Failure(InvalidPrice)
    ensures newPrice.Some? && newPrice.value >= 0.0 && id !in store ==> r == Failure(EventNotFound)
    ensures r.Success? <==> newPrice.Some? && newPrice.value >= 0.0 && id in store
    ensures r.Success? ==>
      && id in store
      && r.value.event.ticketPrice == newPrice
      && r.value.event.(ticketPrice := store[id].ticketPrice) == store[id]
      && r.value.store.Keys == store.Keys
      && r.value.store[id] == r.value.event
      && OnlyChanged(store, r.value.store, id)
    ensures r.Success? ==> WellKeyed(r.value.store)
  {
    if newPrice.None? || newPrice.value < 0.0 then Failure(InvalidPrice)
    else if id !in store then Failure(EventNotFound)
    else
      var updated := store[id].(ticketPrice := newPrice);
      Success(Saved(Save(store, updated), updated))
  }

  // ---------------------------------------------------------------------
  // Queries over findAll

  /** The result of filtering `all` by `p`, stated without `Filter`: the
      order-preserving subsequence holding every occurrence of the elements
      that satisfy `p`. */
  lemma FilterSpec(all: seq<Event>, p: Event -> bool)
    ensures SubsequenceOf(Filter(all, p), all)
    ensures forall e :: e in Filter(all, p) <==> e in all && p(e)
    ensures forall e :: multiset(Filter(all, p))[e] == if p(e) then multiset(all)[e] else 0
  {
    FilterIsSubsequence(all, p);
    forall e ensures e in Filter(all, p) <==> e in all && p(e) {
      FilterMembers(all, p, e);
    }
    forall e ensures multiset(Filter(all, p))[e] == if p(e) then multiset(all)[e] else 0 {
      FilterCount(all, p, e);
    }
  }

  /** The tag query's match: the event has a tag list, and one of its
      non-null tags, lower-cased, contains `query`. */
  predicate HasTagContaining(e: Event, query: string) {
    e.tags.Some? && exists t :: t in e.tags.value && t.Some? && Contains(ToLower(t.value), query)
  }

  /** The search string `getEventsByTag` derives from its argument. */
  function SearchTag(tag: string): string {
    ToLower(Trim(tag))
  }

  function TagFilter(query: string): Event -> bool {
    e => HasTagContaining(e, query)
  }

  /** `getEventsByTag`: a null or blank argument gives an empty list;
      otherwise the events of `all`, in order, with a tag matching the
      trimmed, lower-cased argument. */
  function GetEventsByTag(all: seq<Event>, tag: Option<string>): (r: seq<Event>)
    ensures tag.None? || IsBlank(tag.value) ==> r == []
    ensures SubsequenceOf(r, all)
    ensures tag.Some? && !IsBlank(tag.value) ==>
      forall e :: e in r <==> e in all && HasTagContaining(e, SearchTag(tag.value))
    ensures tag.Some? && !IsBlank(tag.value) ==>
      forall e :: multiset(r)[e] == if HasTagContaining(e, SearchTag(tag.value)) then multiset(all)[e] else 0
  {
    if tag.None? || IsBlank(tag.value) then []
    else
      var p := TagFilter(SearchTag(tag.value));
      FilterSpec(all, p);
      Filter(all, p)
  }

  /** An event dated strictly after `now`. */
  predicate IsUpcoming(e: Event, now: int) {
    e.eventDateTime.Some? && e.eventDateTime.value > now
  }

  function UpcomingFilter(now: int): Event -> bool {
    e => IsUpcoming(e, now)
  }

  /** The sort key of `getUpcomingEvents`; it is only applied to events
      that have a date. */
  function TimeKey(e: Event): int {
    e.eventDateTime.GetOr(0)
  }

  /** The contract of `GetUpcomingEvents`, proved for its body. */
  lemma UpcomingSorted(all: seq<Event>, now: int, r: seq<Event>)
    requires r == SortBy(Filter(all, UpcomingFilter(now)), TimeKey)
    ensures
      && (forall e :: multiset(r)[e] == if IsUpcoming(e, now) then multiset(all)[e] else 0)
      && (forall i :: 0 <= i < |r| ==> IsUpcoming(r[i], now))
      && (forall i, j :: 0 <= i < j < |r| ==>
            r[i].eventDateTime.Some? && r[j].eventDateTime.Some? && r[i].eventDateTime.value <= r[j].eventDateTime.value)
  {
    FilterThenSort(all, UpcomingFilter(now), TimeKey);
    forall i, j | 0 <= i < j < |r|
      ensures r[i].eventDateTime.Some? && r[j].eventDateTime.Some? && r[i].eventDateTime.value <= r[j].eventDateTime.value
    {
      assert TimeKey(r[i]) <= TimeKey(r[j]);
    }
  }

  /** `getUpcomingEvents`: the events of `all` dated strictly after `now`,
      in ascending date order. */
  function GetUpcomingEvents(all: seq<Event>, now: int): (r: seq<Event>)
    ensures forall i :: 0 <= i < |r| ==> IsUpcoming(r[i], now)
    ensures forall i, j :: 0 <= i < j < |r| ==>
      (r[i].eventDateTime.Some? && r[j].eventDateTime.Some? && r[i].eventDateTime.value <= r[j].eventDateTime.value)
    ensures forall e :: multiset(r)[e] == if IsUpcoming(e, now) then multiset(all)[e] else 0
  {
    var r := SortBy(Filter(all, UpcomingFilter(now)), TimeKey);
    UpcomingSorted(all, now, r);
    r
  }

  /** The price query's match, with the bounds in either order and both
      ends included. */
  predicate PricedBetween(e: Event, a: real, b: real) {
    e.ticketPrice.Some? && ((a <= e.ticketPrice.value <= b) || (b <= e.ticketPrice.value <= a))
  }

  function PriceFilter(lo: real, hi: real): Event -> bool {
    (e: Event) => e.ticketPrice.Some? && lo <= e.ticketPrice.value <= hi
  }

  /** `getEventsByPriceRange`: missing bounds default to 0 and 1000000,
      inverted bounds are swapped, and the events of `all` priced within the
      bounds are kept in order. */
  function GetEventsByPriceRange(all: seq<Event>, minPrice: Option<real>, maxPrice: Option<real>): (r: seq<Event>)
    ensures SubsequenceOf(r, all)
    ensures forall e ::
              e in r <==> e in all && PricedBetween(e, minPrice.GetOr(DefaultMinPrice), maxPrice.GetOr(DefaultMaxPrice))
    ensures forall e ::
              multiset(r)[e] ==
                if PricedBetween(e, minPrice.GetOr(DefaultMinPrice), maxPrice.GetOr(DefaultMaxPrice))
                then multiset(all)[e] else 0
  {
    var min := minPrice.GetOr(DefaultMinPrice);
    var max := maxPrice.GetOr(DefaultMaxPrice);
    var lo := if min > max then max else min;
    var hi := if min > max then min else max;
    FilterSpec(all, PriceFilter(lo, hi));
    Filter(all, PriceFilter(lo, hi))
  }

  /** The date query's match, with the bounds in either order and both ends
      included. */
  predicate DatedBetween(e: Event, a: int, b: int) {
    e.eventDateTime.Some? && ((a <= e.eventDateTime.value <= b) || (b <= e.eventDateTime.value <= a))
  }

  function DateFilter(lo: int, hi: int): Event -> bool {
    (e: Event) => e.eventDateTime.Some? && !(e.eventDateTime.value < lo) && !(e.eventDateTime.value > hi)
  }

  /** `getEventsByDateRange`: a missing bound gives an empty list; otherwise
      the earlier bound is the start, and the events of `all` dated within
      the bounds are kept in order. */
  function GetEventsByDateRange(all: seq<Event>, start: Option<int>, end: Option<int>): (r: seq<Event>)
    ensures start.None? || end.None? ==> r == []
    ensures SubsequenceOf(r, all)
    ensures start.Some? && end.Some? ==>
      forall e :: e in r <==> e in all && DatedBetween(e, start.value, end.value)
    ensures start.Some? && end.Some? ==>
      forall e :: multiset(r)[e] == if DatedBetween(e, start.value, end.value) then multiset(all)[e] else 0
  {
    if start.None? || end.None? then []
    else
      var s := if start.value < end.value then start.value else end.value;
      var e := if start.value < end.value then end.value else start.value;
      FilterSpec(all, DateFilter(s, e));
      Filter(all, DateFilter(s, e))
  }
}
