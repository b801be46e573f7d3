# Event service model

A Dafny model of `EventServiceImpl`, the service layer of a small Spring
application that stores `Event` records (name, tags, ticket price, date-time,
duration) and answers four in-memory queries over them. The model turns every
operation into a pure function of the repository contents and the call's
arguments, and proves what each operation promises.

Files:

- `wrappers.dfy` (`Wrappers`): `Option` for Java's nullable references and
  `Result` for "value or `IllegalArgumentException`".
- `events.dfy` (`Events`): the `Event` record, `Uuid`, the repository as a
  finite map `Store` from id to event, `Save` (the repository's `save`), the
  repository invariant `WellKeyed` (an event is stored under its own id), and
  `OnlyChanged` ("no key other than `k` changes").
- `text.dfy` (`Text`): `String.isBlank`, `String.trim`, `String.toLowerCase`
  and `String.contains`.
- `seqs.dfy` (`Seqs`): the order-preserving filter performed by
  `stream().filter(...).collect(toList())`, and a stable insertion sort
  standing for `stream().sorted(comparator)`.
- `service.dfy` (`EventService`): the eleven operations of the service.
- `service_facts.dfy` (`EventServiceFacts`): properties that relate several
  calls, or a call to an independent statement of what it should do.

Modelling decisions:

- The repository is a `map<Uuid, Event>`. A write returns the new map; a
  failure returns only the error, so a failing call leaves the repository as
  it was. `findById`, `existsById` and `deleteById` are map lookup, key test
  and key removal.
- The order of `findAll` is not specified. `GetAllEvents` takes `order`, a
  list of the stored keys without repetitions. The four queries take the list
  `all` that `findAll` returned.
- `UUID.randomUUID()` is the parameter `freshId` and `LocalDateTime.now()`
  is the parameter `now`. Nothing assumes `freshId` is unused, because the
  code never checks it.
- Prices are `real`: `BigDecimal.compareTo` is exact and ignores scale.
  Date-times are `int` points on a time line. `durationMinutes` is a Java
  `int` (`Int32`).
- Every failure in the code is an `IllegalArgumentException`. `Error` has one
  constructor per message ("Event cannot be null", "Event not found with id:
  …", "Event not found", "Invalid price"). This is a refinement of a single
  exception type: `IsNotFound` groups the two not-found messages.
- `PartialUpdateEvent` and `UpdateEventPrice` require `WellKeyed`: they read
  the event back with `findById` and save it again, which writes it under the
  id it carries, so the model relies on a stored event carrying its key.
  `CreateEvent`, `UpdateEvent` and `DeleteEvent` need no such requirement,
  and every write is proved to preserve `WellKeyed`.
- `isBlank` uses the exact `Character.isWhitespace` set. `trim` removes
  exactly the code points at or below U+0020. The two sets differ: a query
  made only of, say, U+0001 is not blank, trims to the empty string, and then
  matches every event that has at least one non-null tag
  (`ControlCharQueryMatchesEveryTagged`).
- The ordering of `getUpcomingEvents` is a stable sort by date, because a
  sort of an ordered Java stream is stable. Events with equal dates keep the
  order of `findAll` (`UpcomingTiesKeepFindAllOrder`).
- Three behaviours of the code that a reader might not expect, all modelled
  as written:
  - `partialUpdateEvent` ignores a negative price; it does not fail.
  - `createEvent` with an id that is already stored replaces that event;
    nothing keeps ids unique.
  - A null event passed to `updateEvent`, or a null partial event passed to
    `partialUpdateEvent`, fails with "Event not found" when the id is
    unknown, because the id is checked first; with a stored id it ends in a
    `NullPointerException`. The model takes both arguments as `Option<Event>`
    and its requires clause excludes only that crashing case.

## Model

| member | source | states |
|---|---|---|
| EventService.CreateEvent | src/main/java/az/edu/ada/wm2/lab5/service/EventServiceImpl.java:25-30 | a null event, and only a null event, fails with "Event cannot be null"; otherwise the saved event is the argument with its id kept, or set to the fresh id when missing; the store gains that key, maps it to the saved event, and no other key changes |
| EventServiceFacts.GetAfterCreate | src/main/java/az/edu/ada/wm2/lab5/service/EventServiceImpl.java:26-36 | a create of a non-null event always succeeds, and looking up the reported id afterwards returns the event that create returned |
| EventServiceFacts.CreateWithUnusedIdAddsOne | src/main/java/az/edu/ada/wm2/lab5/service/EventServiceImpl.java:28-29 | when the effective id is not yet stored, create grows the store by exactly one entry |
| EventServiceFacts.CreateWithUsedIdReplaces | src/main/java/az/edu/ada/wm2/lab5/service/EventServiceImpl.java:28-29 | when the effective id is already stored, create keeps the store's size and replaces that entry, since nothing checks uniqueness |
| EventService.GetEventById | src/main/java/az/edu/ada/wm2/lab5/service/EventServiceImpl.java:32-36 | succeeds exactly when the id is stored, with the stored event; otherwise fails with "Event not found with id" carrying that id |
| EventService.GetAllEvents | src/main/java/az/edu/ada/wm2/lab5/service/EventServiceImpl.java:38-41 | lists, position by position, the event stored under each key of the repository's order, so each stored entry appears exactly once; every stored event appears and nothing else does |
| EventService.UpdateEvent | src/main/java/az/edu/ada/wm2/lab5/service/EventServiceImpl.java:43-48 | fails with "Event not found" exactly when the id is unknown, even for a null event; otherwise stores the given event, all fields kept but its id forced to the path id, under that id; the key set stays the same and no other entry changes |
| EventServiceFacts.UpdateIgnoresCarriedId | src/main/java/az/edu/ada/wm2/lab5/service/EventServiceImpl.java:46 | the id the replacement event carries, or its absence, makes no difference to the outcome of a full update |
| EventService.DeleteEvent | src/main/java/az/edu/ada/wm2/lab5/service/EventServiceImpl.java:50-54 | fails with "Event not found" exactly when the id is unknown; otherwise removes exactly that key and leaves every other entry as it was |
| EventServiceFacts.GetAfterDelete | src/main/java/az/edu/ada/wm2/lab5/service/EventServiceImpl.java:32-54 | after a successful delete the id is unknown: a lookup fails with "Event not found with id", and a second delete fails with "Event not found" |
| EventServiceFacts.UnknownIdIsNotFound | src/main/java/az/edu/ada/wm2/lab5/service/EventServiceImpl.java:32-124 | on an unknown id, lookup, update, delete, partial update and a valid price update all fail with a not-found error, a null event or partial event included |
| EventService.Merge | src/main/java/az/edu/ada/wm2/lab5/service/EventServiceImpl.java:61-66 | each field takes the partial event's value only under its own guard: a name or date if non-null, tags if non-null and non-empty, a price if non-null and not negative, a duration if positive; the id is never changed |
| EventServiceFacts.MergeIdempotent | src/main/java/az/edu/ada/wm2/lab5/service/EventServiceImpl.java:61-66 | applying the same partial update twice gives the same event as applying it once |
| EventServiceFacts.MergeNothingIsIdentity | src/main/java/az/edu/ada/wm2/lab5/service/EventServiceImpl.java:61-66 | a partial event whose every field fails its guard leaves the existing event unchanged |
| EventService.PartialUpdateEvent | src/main/java/az/edu/ada/wm2/lab5/service/EventServiceImpl.java:56-69 | fails with "Event not found" exactly when the id is unknown, even for a null partial event; otherwise saves the stored event merged with the partial event under the same id, keeps the key set and leaves every other entry unchanged |
| EventServiceFacts.PartialUpdateIgnoresNegativePrice | src/main/java/az/edu/ada/wm2/lab5/service/EventServiceImpl.java:63-64 | a negative price in a partial update acts as if no price were given: no error is raised and the stored price is kept |
| EventServiceFacts.PartialUpdateKeepsTagsOnEmptyList | src/main/java/az/edu/ada/wm2/lab5/service/EventServiceImpl.java:62 | an empty tag list in a partial update does not clear the stored tags |
| EventServiceFacts.PartialUpdateOfNothingKeepsStore | src/main/java/az/edu/ada/wm2/lab5/service/EventServiceImpl.java:56-69 | a partial update carrying nothing acceptable (no name, no date, no positive duration, no or an empty tag list, no or a negative price) succeeds and leaves the store exactly as it was |
| EventService.UpdateEventPrice | src/main/java/az/edu/ada/wm2/lab5/service/EventServiceImpl.java:118-128 | a null or negative price fails with "Invalid price" whether or not the id is known; then an unknown id fails with "Event not found"; otherwise only the price of that one entry changes, to the new price |
| EventServiceFacts.GetAfterUpdatePrice | src/main/java/az/edu/ada/wm2/lab5/service/EventServiceImpl.java:118-128 | after a price update with a non-negative price, looking the event up shows the new price and every other field as before |
| EventService.GetEventsByTag | src/main/java/az/edu/ada/wm2/lab5/service/EventServiceImpl.java:71-79 | a null or blank query gives an empty list; otherwise the result is an order-preserving subsequence of findAll holding every occurrence of exactly the events with a non-null tag whose lower-cased form contains the trimmed, lower-cased query |
| EventServiceFacts.TagQueryKeepsOrder | src/main/java/az/edu/ada/wm2/lab5/service/EventServiceImpl.java:75-78 | querying a concatenation of two lists gives the results for the first list followed by those for the second |
| EventServiceFacts.ControlCharQueryMatchesEveryTagged | src/main/java/az/edu/ada/wm2/lab5/service/EventServiceImpl.java:73-77 | a one-character query at or below U+0020 that is not white space passes the blank test, trims to the empty string, and so matches exactly the events with at least one non-null tag |
| EventServiceFacts.SearchTagIgnoresCaseAndPadding | src/main/java/az/edu/ada/wm2/lab5/service/EventServiceImpl.java:74 | the query " ROC " becomes the search string "roc" |
| EventServiceFacts.TagQueryIgnoresCase | src/main/java/az/edu/ada/wm2/lab5/service/EventServiceImpl.java:73-78 | an event tagged "Rock" is found by the query " ROC " |
| Text.WhitespaceSet | src/main/java/az/edu/ada/wm2/lab5/service/EventServiceImpl.java:73-74 | the no-break spaces U+00A0, U+2007, U+202F and NEL are not white space for isBlank; among the characters trim removes, exactly TAB to CR and U+001C to the space are white space, so NUL is removed by trim yet is not white space; any white space trim keeps lies at or above U+1680 |
| Text.BlankMeansAllWhitespace | src/main/java/az/edu/ada/wm2/lab5/service/EventServiceImpl.java:73 | a string is blank exactly when all its characters are white space, and the empty string is blank |
| Text.AsciiBlankTrimsEmpty | src/main/java/az/edu/ada/wm2/lab5/service/EventServiceImpl.java:73-74 | a blank string made only of characters below U+0080 trims to the empty string |
| Text.Trim | src/main/java/az/edu/ada/wm2/lab5/service/EventServiceImpl.java:74 | the trimmed string is empty or starts and ends with a character above U+0020 |
| Text.TrimPadded | src/main/java/az/edu/ada/wm2/lab5/service/EventServiceImpl.java:74 | any padding of characters at or below U+0020 around a core that starts and ends above U+0020 is removed, and the core is returned unchanged |
| Text.TrimSplits | src/main/java/az/edu/ada/wm2/lab5/service/EventServiceImpl.java:74 | the trimmed string is a slice of the input with only characters at or below U+0020 cut from either end |
| Text.LowerChar | src/main/java/az/edu/ada/wm2/lab5/service/EventServiceImpl.java:74 | an ASCII capital maps to the matching small letter, every other character is unchanged, and no capital remains |
| Text.ToLower | src/main/java/az/edu/ada/wm2/lab5/service/EventServiceImpl.java:74 | lower-casing keeps the length and lower-cases each character in place |
| Text.ContainsIffOccurs | src/main/java/az/edu/ada/wm2/lab5/service/EventServiceImpl.java:77 | the substring test holds exactly when the query occurs at some start index |
| Seqs.FilterIsSubsequence | src/main/java/az/edu/ada/wm2/lab5/service/EventServiceImpl.java:97-101 | what a stream filter keeps is a subsequence of its input, in the input's order |
| Seqs.FilterMembers | src/main/java/az/edu/ada/wm2/lab5/service/EventServiceImpl.java:97-101 | an element is kept exactly when it occurs in the input and passes the test |
| Seqs.FilterCount | src/main/java/az/edu/ada/wm2/lab5/service/EventServiceImpl.java:97-101 | every occurrence of a passing element is kept and no failing one is |
| Seqs.FilterConcat | src/main/java/az/edu/ada/wm2/lab5/service/EventServiceImpl.java:97-101 | filtering a concatenation is the concatenation of the filtered parts |
| EventService.UpcomingSorted | src/main/java/az/edu/ada/wm2/lab5/service/EventServiceImpl.java:84-87 | filtering by "dated after now" and sorting by date gives every occurrence of exactly the upcoming events, each with a date, in ascending date order |
| EventService.GetUpcomingEvents | src/main/java/az/edu/ada/wm2/lab5/service/EventServiceImpl.java:81-88 | every returned event has a date strictly after now; dates ascend; the result is a permutation of the upcoming events of findAll |
| EventServiceFacts.UpcomingTiesKeepFindAllOrder | src/main/java/az/edu/ada/wm2/lab5/service/EventServiceImpl.java:84-87 | upcoming events sharing one date appear in the order findAll listed them |
| Seqs.InsertSorted | src/main/java/az/edu/ada/wm2/lab5/service/EventServiceImpl.java:86 | inserting into an ascending list keeps it ascending |
| Seqs.InsertCount | src/main/java/az/edu/ada/wm2/lab5/service/EventServiceImpl.java:86 | inserting adds one occurrence of the new element and loses nothing |
| Seqs.SortBySorted | src/main/java/az/edu/ada/wm2/lab5/service/EventServiceImpl.java:86 | the sort's output ascends by key |
| Seqs.SortByCount | src/main/java/az/edu/ada/wm2/lab5/service/EventServiceImpl.java:86 | the sort's output is a permutation of its input |
| Seqs.InsertStable | src/main/java/az/edu/ada/wm2/lab5/service/EventServiceImpl.java:86 | among elements with one key, an inserted element with that key goes first and the others keep their order |
| Seqs.SortStable | src/main/java/az/edu/ada/wm2/lab5/service/EventServiceImpl.java:86 | the sort is stable: the elements sharing a key keep their input order |
| Seqs.FilterThenSort | src/main/java/az/edu/ada/wm2/lab5/service/EventServiceImpl.java:84-87 | filtering then sorting gives an ascending list of every occurrence of exactly the passing elements |
| EventService.GetEventsByPriceRange | src/main/java/az/edu/ada/wm2/lab5/service/EventServiceImpl.java:90-102 | with a null minimum read as 0 and a null maximum as 1000000, the result is an order-preserving subsequence of findAll holding every occurrence of exactly the events whose non-null price lies between the two bounds, both ends included, in whichever order the bounds come |
| EventServiceFacts.PriceRangeSymmetric | src/main/java/az/edu/ada/wm2/lab5/service/EventServiceImpl.java:92-94 | with both bounds given, swapping them gives the same list |
| EventServiceFacts.PriceRangeOneSidedIsNotSymmetric | src/main/java/az/edu/ada/wm2/lab5/service/EventServiceImpl.java:92-94 | with one bound null, swapping the arguments can change the result, because the default fills the missing side before the swap |
| EventServiceFacts.PriceQueryKeepsOrder | src/main/java/az/edu/ada/wm2/lab5/service/EventServiceImpl.java:97-101 | querying a concatenation of two lists gives the results for the first list followed by those for the second |
| EventService.GetEventsByDateRange | src/main/java/az/edu/ada/wm2/lab5/service/EventServiceImpl.java:104-116 | a null bound gives an empty list; otherwise the result is an order-preserving subsequence of findAll holding every occurrence of exactly the events whose non-null date lies between the bounds, both ends included, in whichever order the bounds come |
| EventServiceFacts.DateRangeSymmetric | src/main/java/az/edu/ada/wm2/lab5/service/EventServiceImpl.java:106-108 | swapping start and end gives the same list, null bounds included |
| EventServiceFacts.DateRangeIncludesBounds | src/main/java/az/edu/ada/wm2/lab5/service/EventServiceImpl.java:112-114 | an event dated exactly at either bound is returned |
| EventServiceFacts.DateQueryKeepsOrder | src/main/java/az/edu/ada/wm2/lab5/service/EventServiceImpl.java:111-115 | querying a concatenation of two lists gives the results for the first list followed by those for the second |

## Left out

- Spring wiring (`@Service`, the `@Autowired` constructor, lines 15-23): framework plumbing with no behaviour of its own.
- `EventRepository` and `Event.java` are not part of this model. The repository is a finite map; `save` stores an entity under the id it carries, replacing what was there.
- Persistence effects such as transactions, database-generated values and JPA entity identity are not modelled.
- Object aliasing: the Java code mutates the entity it got from `findById` or from the caller (`setId`, `setTicketPrice` and the setters of the merge). The model uses values and an explicit write-back, which gives the same observable repository contents and return value.
- Randomness and the clock: `UUID.randomUUID()` and `LocalDateTime.now()` are the parameters `freshId` and `now`.
- The order of `findAll`: an input (`all`, `order`), not computed.
- Null arguments, only where they crash: a null `event` in `updateEvent` or a null `partialEvent`, with a stored id, ends in a `NullPointerException`, and the requires clauses exclude exactly that case (with an unknown id the model returns "Event not found", as the code does). A null id, which the repository rejects with a framework exception, is excluded by the `Uuid` parameter type.
- The text of the messages, including how a UUID prints in "Event not found with id: …"; the `Error` constructors stand for the messages.
- Text.LowerChar: maps only the ASCII capitals, because Java's full, locale-dependent Unicode case mapping is not modelled; non-ASCII letters are left unchanged.
- Text.ToLower: inherits the ASCII-only mapping of `Text.LowerChar`.
- `BigDecimal` scale and precision, and `LocalDateTime` calendar arithmetic: only their total orders are used.
