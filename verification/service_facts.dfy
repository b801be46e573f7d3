/** Properties that relate several calls of the event service, or one call
    with different arguments. */
module EventServiceFacts {
  import opened Wrappers
  import opened Events
  import opened Text
  import opened Seqs
  import opened EventService

  // ---------------------------------------------------------------------
  // Create, read, update, delete

  /** Reading back the id a successful create reports yields the event it
      returned. */
  lemma GetAfterCreate(store: Store, event: Event, freshId: Uuid)
    ensures CreateEvent(store, Some(event), freshId).Success?
    ensures var saved := CreateEvent(store, Some(event), freshId).value;
      GetEventById(saved.store, event.id.GetOr(freshId)) == Success(saved.event)
  {
  }

  /** With an unused id, create adds exactly one entry. */
  lemma CreateWithUnusedIdAddsOne(store: Store, event: Event, freshId: Uuid)
    requires event.id.GetOr(freshId) !in store
    ensures |CreateEvent(store, Some(event), freshId).value.store| == |store| + 1
  {
    var store' := CreateEvent(store, Some(event), freshId).value.store;
    assert store'.Keys == store.Keys + {event.id.GetOr(freshId)};
  }

  /** Create never checks the id against the repository: with an id that is
      already in use it silently replaces the stored event. */
  lemma CreateWithUsedIdReplaces(store: Store, event: Event, freshId: Uuid)
    requires event.id.GetOr(freshId) in store
    ensures var saved := CreateEvent(store, Some(event), freshId).value;
      && saved.store.Keys == store.Keys
      && |saved.store| == |store|
      && saved.store[event.id.GetOr(freshId)] == event.(id := Some(event.id.GetOr(freshId)))
  {
    var store' := CreateEvent(store, Some(event), freshId).value.store;
    assert store'.Keys == store.Keys;
  }

  /** After a successful delete, the id is unknown. */
  lemma GetAfterDelete(store: Store, id: Uuid)
    requires id in store
    ensures DeleteEvent(store, id).Success?
    ensures GetEventById(DeleteEvent(store, id).value, id) == Failure(EventNotFoundWithId(id))
    ensures DeleteEvent(DeleteEvent(store, id).value, id) == Failure(EventNotFound)
  {
  }

  /** Whatever id the replacement carries, a full update behaves the same. */
  lemma UpdateIgnoresCarriedId(store: Store, id: Uuid, event: Event, carried: Option<Uuid>)
    ensures UpdateEvent(store, id, Some(event)) == UpdateEvent(store, id, Some(event.(id := carried)))
  {
  }

  /** Every operation addressing an unknown id fails with a not-found error,
      before a null event or partial event could cause a crash (the price
      update only once the price itself is acceptable). */
  lemma UnknownIdIsNotFound(store: Store, id: Uuid, event: Option<Event>, price: real)
    requires WellKeyed(store) && id !in store && price >= 0.0
    ensures GetEventById(store, id).Failure? && GetEventById(store, id).error.IsNotFound()
    ensures UpdateEvent(store, id, event).Failure? && UpdateEvent(store, id, event).error.IsNotFound()
    ensures DeleteEvent(store, id).Failure? && DeleteEvent(store, id).error.IsNotFound()
    ensures PartialUpdateEvent(store, id, event).Failure? && PartialUpdateEvent(store, id, event).error.IsNotFound()
    ensures UpdateEventPrice(store, id, Some(price)).Failure? && UpdateEventPrice(store, id, Some(price)).error.IsNotFound()
  {
  }

  /** Applying the same partial update twice is the same as applying it
      once. */
  lemma MergeIdempotent(existing: Event, partial: Event)
    ensures Merge(Merge(existing, partial), partial) == Merge(existing, partial)
  {
  }

  /** A partial event that carries nothing acceptable changes nothing. */
  lemma MergeNothingIsIdentity(existing: Event, partial: Event)
    requires partial.eventName.None? && partial.eventDateTime.None? && partial.durationMinutes <= 0
    requires partial.tags.None? || partial.tags == Some([])
    requires partial.ticketPrice.None? || partial.ticketPrice.value < 0.0
    ensures Merge(existing, partial) == existing
  {
  }

  /** Partial update drops a negative price without an error: the call
      behaves exactly as if no price had been given, and succeeds for any
      stored id. */
  lemma PartialUpdateIgnoresNegativePrice(store: Store, id: Uuid, partial: Event)
    requires WellKeyed(store)
    requires partial.ticketPrice.Some? && partial.ticketPrice.value < 0.0
    ensures PartialUpdateEvent(store, id, Some(partial)) == PartialUpdateEvent(store, id, Some(partial.(ticketPrice := None)))
    ensures id in store ==> PartialUpdateEvent(store, id, Some(partial)).Success?
    ensures id in store ==> PartialUpdateEvent(store, id, Some(partial)).value.event.ticketPrice == store[id].ticketPrice
  {
  }

  /** An empty tag list in a partial update cannot clear the stored tags. */
  lemma PartialUpdateKeepsTagsOnEmptyList(store: Store, id: Uuid, partial: Event)
    requires WellKeyed(store) && id in store
    requires partial.tags == Some([])
    ensures PartialUpdateEvent(store, id, Some(partial)).value.event.tags == store[id].tags
  {
  }

  /** A partial update carrying nothing acceptable writes the stored event
      back unchanged. */
  lemma PartialUpdateOfNothingKeepsStore(store: Store, id: Uuid, partial: Event)
    requires WellKeyed(store) && id in store
    requires partial.eventName.None? && partial.eventDateTime.None? && partial.durationMinutes <= 0
    requires partial.tags.None? || partial.tags == Some([])
    requires partial.ticketPrice.None? || partial.ticketPrice.value < 0.0
    ensures PartialUpdateEvent(store, id, Some(partial)) == Success(Saved(store, store[id]))
  {
    MergeNothingIsIdentity(store[id], partial);
    assert store[id := store[id]] == store;
  }

  /** After a successful price update, reading the event back shows the new
      price and every other field as before. */
  lemma GetAfterUpdatePrice(store: Store, id: Uuid, price: real)
    requires WellKeyed(store) && id in store && price >= 0.0
    ensures UpdateEventPrice(store, id, Some(price)).Success?
    ensures GetEventById(UpdateEventPrice(store, id, Some(price)).value.store, id)
         == Success(store[id].(ticketPrice := Some(price)))
  {
  }

  // ---------------------------------------------------------------------
  // Queries

  /** The tag query keeps the order of `findAll`: querying a concatenation
      is concatenating the queries. */
  lemma TagQueryKeepsOrder(a: seq<Event>, b: seq<Event>, tag: Option<string>)
    ensures GetEventsByTag(a + b, tag) == GetEventsByTag(a, tag) + GetEventsByTag(b, tag)
  {
    if tag.Some? && !IsBlank(tag.value) {
      FilterConcat(a, b, TagFilter(SearchTag(tag.value)));
    }
  }

  /** A query made only of ASCII control characters that are not white
      space is not blank, but trims to the empty string, which every string
      contains: it matches every event having at least one non-null tag. */
  lemma ControlCharQueryMatchesEveryTagged(all: seq<Event>, c: char)
    requires TrimRemoves(c) && !IsWhitespace(c)
    ensures forall e :: e in GetEventsByTag(all, Some([c])) <==>
      e in all && e.tags.Some? && exists t :: t in e.tags.value && t.Some?
  {
    TrimPadded([c], [], []);
    assert [c] + [] + [] == [c];
    assert SearchTag([c]) == [];
    forall e ensures HasTagContaining(e, []) <==> e.tags.Some? && exists t :: t in e.tags.value && t.Some? {
      if e.tags.Some? && exists t :: t in e.tags.value && t.Some? {
        var t :| t in e.tags.value && t.Some?;
        assert Contains(ToLower(t.value), []);
      }
    }
  }

  lemma SearchTagIgnoresCaseAndPadding()
    ensures SearchTag(" ROC ") == "roc"
  {
    TrimPadded([' '], "ROC", [' ']);
    assert [' '] + "ROC" + [' '] == " ROC ";
    assert ToLower("ROC") == "roc";
  }

  /** Matching ignores case and surrounding white space: " ROC " finds an
      event tagged "Rock". */
  lemma TagQueryIgnoresCase(e: Event)
    requires e.tags == Some([Some("Rock")])
    ensures GetEventsByTag([e], Some(" ROC ")) == [e]
  {
    SearchTagIgnoresCaseAndPadding();
    assert !IsWhitespace(" ROC "[1]);
    assert ToLower("Rock") == "rock";
    assert "roc" <= "rock";
    assert e.tags.value[0] == Some("Rock");
    assert HasTagContaining(e, "roc");
    FilterCons(e, [], TagFilter("roc"));
    assert [e] + [] == [e];
  }

  /** Among upcoming events with the same date, `getUpcomingEvents` keeps
      the order of `findAll` (Java's stream sort is stable). */
  lemma UpcomingTiesKeepFindAllOrder(all: seq<Event>, now: int, t: int)
    requires t > now
    ensures Filter(GetUpcomingEvents(all, now), DatedAt(t)) == Filter(all, DatedAt(t))
  {
    var upcoming := Filter(all, UpcomingFilter(now));
    assert GetUpcomingEvents(all, now) == SortBy(upcoming, TimeKey);
    DatedAtIsKeyOnSorted(all, now, t);
    SortStable(upcoming, TimeKey, t);
    DatedAtIsKeyOnUpcoming(all, now, t);
    FilterNested(all, UpcomingFilter(now), DatedAt(t));
  }

  /** On dated events, having date `t` is having sort key `t`. */
  lemma DatedAtIsKeyOnSorted(all: seq<Event>, now: int, t: int)
    ensures var r := SortBy(Filter(all, UpcomingFilter(now)), TimeKey);
      Filter(r, DatedAt(t)) == Filter(r, KeyIs(TimeKey, t))
  {
    var r := SortBy(Filter(all, UpcomingFilter(now)), TimeKey);
    FilterThenSort(all, UpcomingFilter(now), TimeKey);
    forall x | x in r ensures DatedAt(t)(x) <==> KeyIs(TimeKey, t)(x) {
      var i :| 0 <= i < |r| && r[i] == x;
      assert UpcomingFilter(now)(r[i]);
    }
    FilterAgree(r, DatedAt(t), KeyIs(TimeKey, t));
  }

  lemma DatedAtIsKeyOnUpcoming(all: seq<Event>, now: int, t: int)
    ensures var upcoming := Filter(all, UpcomingFilter(now));
      Filter(upcoming, KeyIs(TimeKey, t)) == Filter(upcoming, DatedAt(t))
  {
    var upcoming := Filter(all, UpcomingFilter(now));
    forall x | x in upcoming ensures KeyIs(TimeKey, t)(x) <==> DatedAt(t)(x) {
      FilterMembers(all, UpcomingFilter(now), x);
      assert UpcomingFilter(now)(x);
      assert KeyIs(TimeKey, t)(x) == (TimeKey(x) == t);
      assert DatedAt(t)(x) == (x.eventDateTime == Some(t));
    }
    FilterAgree(upcoming, KeyIs(TimeKey, t), DatedAt(t));
  }

  /** The events dated exactly `t`. */
  function DatedAt(t: int): Event -> bool {
    (e: Event) => e.eventDateTime == Some(t)
  }

  /** The price query does not depend on the order of its bounds when both
      are given. */
  lemma PriceRangeSymmetric(all: seq<Event>, a: real, b: real)
    ensures GetEventsByPriceRange(all, Some(a), Some(b)) == GetEventsByPriceRange(all, Some(b), Some(a))
  {
  }

  /** With one bound missing the order matters, because the missing bound is
      replaced by a default before the bounds are compared: an event priced
      3 lies in [0, 5] but not in [5, 1000000]. */
  lemma PriceRangeOneSidedIsNotSymmetric(e: Event)
    requires e.ticketPrice == Some(3.0)
    ensures GetEventsByPriceRange([e], None, Some(5.0)) == [e]
    ensures GetEventsByPriceRange([e], Some(5.0), None) == []
  {
    assert e in GetEventsByPriceRange([e], None, Some(5.0));
    assert |GetEventsByPriceRange([e], None, Some(5.0))| <= 1 by {
      SubsequenceLength(GetEventsByPriceRange([e], None, Some(5.0)), [e]);
    }
  }

  /** The price query keeps the order of `findAll`. */
  lemma PriceQueryKeepsOrder(a: seq<Event>, b: seq<Event>, minPrice: Option<real>, maxPrice: Option<real>)
    ensures GetEventsByPriceRange(a + b, minPrice, maxPrice)
         == GetEventsByPriceRange(a, minPrice, maxPrice) + GetEventsByPriceRange(b, minPrice, maxPrice)
  {
    var min := minPrice.GetOr(DefaultMinPrice);
    var max := maxPrice.GetOr(DefaultMaxPrice);
    var lo := if min > max then max else min;
    var hi := if min > max then min else max;
    FilterConcat(a, b, PriceFilter(lo, hi));
  }

  /** The date query does not depend on the order of its bounds. */
  lemma DateRangeSymmetric(all: seq<Event>, start: Option<int>, end: Option<int>)
    ensures GetEventsByDateRange(all, start, end) == GetEventsByDateRange(all, end, start)
  {
  }

  /** Both bounds of the date query are inclusive. */
  lemma DateRangeIncludesBounds(all: seq<Event>, e: Event, start: int, end: int)
    requires e in all && (e.eventDateTime == Some(start) || e.eventDateTime == Some(end))
    ensures e in GetEventsByDateRange(all, Some(start), Some(end))
  {
  }

  /** The date query keeps the order of `findAll`. */
  lemma DateQueryKeepsOrder(a: seq<Event>, b: seq<Event>, start: Option<int>, end: Option<int>)
    ensures GetEventsByDateRange(a + b, start, end)
         == GetEventsByDateRange(a, start, end) + GetEventsByDateRange(b, start, end)
  {
    if start.Some? && end.Some? {
      var s := if start.value < end.value then start.value else end.value;
      var e := if start.value < end.value then end.value else start.value;
      FilterConcat(a, b, DateFilter(s, e));
    }
  }
}
