/** The `Event` record and the event repository the service delegates to,
    reduced to a finite map from identifier to stored event. */
module Events {
  import opened Wrappers

  /** `java.util.UUID`: two 64-bit halves. Only equality is used. */
  datatype Uuid = Uuid(mostSigBits: bv64, leastSigBits: bv64)

  /** A Java `int`. */
  newtype Int32 = x: int | -0x8000_0000 <= x < 0x8000_0000

  /** An event. Every reference-typed field may be null (`None`); the duration
      is a primitive `int`. Ticket prices are exact decimals (`BigDecimal`,
      compared with `compareTo`, so scale is irrelevant) and date-times are
      points on a totally ordered time line (`LocalDateTime`). */
  datatype Event = Event(
    id: Option<Uuid>,
    eventName: Option<string>,
    tags: Option<seq<Option<string>>>,
    ticketPrice: Option<real>,
    eventDateTime: Option<int>,
    durationMinutes: Int32
  )

  /** The repository's contents: each stored event under its identifier. */
  type Store = map<Uuid, Event>

  /** The repository invariant: an entity is stored under its own id, so
      `findById(k)` yields an event whose id is `k`. */
  ghost predicate WellKeyed(store: Store) {
    forall k :: k in store ==> store[k].id == Some(k)
  }

  /** Only the entry under `k` may differ between `store` and `store'`: every
      other key is present in both or neither, with the same event. */
  ghost predicate OnlyChanged(store: Store, store': Store, k: Uuid) {
    forall j :: j != k ==> (j in store <==> j in store') && (j in store ==> store[j] == store'[j])
  }

  /** `EventRepository.save` for an entity whose id is set: it is stored
      under that id, replacing any entity already there. */
  function Save(store: Store, e: Event): (store': Store)
    requires e.id.Some?
    ensures store'.Keys == store.Keys + {e.id.value}
    ensures store'[e.id.value] == e
    ensures OnlyChanged(store, store', e.id.value)
    ensures WellKeyed(store) ==> WellKeyed(store')
  {
    store[e.id.value := e]
  }

  /** `order` lists every key of `store` exactly once: the order in which
      `findAll` happens to return the events. */
  ghost predicate EnumeratesKeys(store: Store, order: seq<Uuid>) {
    && (forall i, j :: 0 <= i < j < |order| ==> order[i] != order[j])
    && (forall k :: k in order <==> k in store)
  }

  /** A list without repetitions is as long as the set of its elements. */
  lemma {:induction false} DistinctCardinality(order: seq<Uuid>)
    requires forall i, j :: 0 <= i < j < |order| ==> order[i] != order[j]
    ensures |set k | k in order| == |order|
    decreases |order|
  {
    if |order| > 0 {
      var rest := order[1..];
      DistinctCardinality(rest);
      assert (set k | k in order) == {order[0]} + (set k | k in rest);
      assert order[0] !in rest;
    }
  }
}
