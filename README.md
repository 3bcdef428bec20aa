# Cultural events dashboard: verified model of its self-contained logic

This project models, in Dafny, the parts of the cultural-events dashboard
that work on their own: they do not need the event store or the backend.

- **Favorites service.** It keeps a set of favorited event ids and mirrors it
  into browser storage under the key `"favorites"` as a JSON array.
- **Countdown on the event detail page.** It splits the time left until an
  event into days, hours, minutes and seconds once a second. It stops and
  releases its interval when the event starts or the page is torn down.
- **Filter bar.** It derives flags from the bound filters, emits filter
  patches and a reset, and debounces the search box by 300 time units.
- **List page view model.** These are flags derived from the loading, error,
  count and filtered-list state.

Modules, one per concern:

- `wrappers.dfy` (module `Wrappers`): `Option`, standing for a nullable value (`T or null`)
- `event_model.dfy` (module `EventModel`): events, filters with the `'all'` wildcard, partial filter patches, store calls
- `json.dfy` (module `Json`): `JSON.stringify` / `JSON.parse` of an array of strings
- `favorites.dfy` (module `Favorites`): `FavoritesService` and the `localStorage` it writes
- `countdown.dfy` (module `Countdown`): the millisecond split done by `updateCountdown`
- `event_detail.dfy` (module `EventDetail`): `EventDetailComponent`: selection, subscription and interval state
- `text_trim.dfy` (module `TextTrim`): `String.prototype.trim`
- `debounce.dfy` (module `Debounce`): the debounced-search effect, as written and as intended
- `event_filter.dfy` (module `EventFilter`): `EventFilterComponent`: computeds, options, handlers
- `event_list.dfy` (module `EventList`): `EventListComponent`: computeds and actions

How the model handles state, time and collaborators:

- **Components.** Each component that updates fields in place is a class. Its
  methods state the whole new state.
- **Favorites order.** A JavaScript `Set` iterates in insertion order, so the
  favorites set is a sequence without duplicates. `[...set]` is then exactly
  that sequence, and `new Set(array)` keeps first occurrences (`Dedup`).
- **Time.** Time is a logical clock. `Date.now()` becomes a `now` argument.
- **Timers.** A `setInterval` handle is a natural number kept in the detail
  component's `live` set until it is cleared. A `setTimeout` is a pending
  `Timer` with a deadline.
- **Effects and streams.** An effect re-run is an explicit step. A delivery
  on the store's `selectedEvent$` stream is a method call.
- **Store calls.** Calls into the event store are recorded in order as
  `StoreCall` values. Nothing is assumed about what the store does with them.
- **Storage failures.** Whether `localStorage` throws is fixed by three flags
  on `LocalStorage` (read, write, remove).

## Model

| member | source | states |
|---|---|---|
| `Json.Encode` | libs/shared/src/lib/services/favorites.service.ts:46 | the stored JSON text is never empty (it starts with `[`), so the `raw ?` test on load always treats a written value as present |
| `Json.DecodeEncode` | libs/shared/src/lib/services/favorites.service.ts:31-46 | parsing what `JSON.stringify` wrote for an array of strings gives back the same array, element for element |
| `Json.Decode` | libs/shared/src/lib/services/favorites.service.ts:31 | the `JSON.parse` of an array of strings, with surrounding whitespace and every escape; any other text is no value. Its partner is `Json.DecodeEncode` |
| `Favorites.Remove` | libs/shared/src/lib/services/favorites.service.ts:17 | `delete(id)` leaves exactly the other ids |
| `Favorites.RemoveDistinct` | libs/shared/src/lib/services/favorites.service.ts:17 | deleting from a set leaves a set (no id twice) |
| `Favorites.Dedup` | libs/shared/src/lib/services/favorites.service.ts:31 | `new Set(array)` holds no id twice and has exactly the array's ids |
| `Favorites.DedupDistinct` | libs/shared/src/lib/services/favorites.service.ts:31 | an array without repeats becomes a set with the same ids in the same order |
| `Favorites.Toggled` | libs/shared/src/lib/services/favorites.service.ts:16-17 | the set after `toggle(id)`: `id` is a member exactly when it was not, and every other id keeps its membership |
| `Favorites.ToggledMembership` | libs/shared/src/lib/services/favorites.service.ts:15-20 | after `toggle(id)`, `id` is a member exactly when it was not before; every other id keeps its membership; the result is still a set |
| `Favorites.ToggleTwice` | libs/shared/src/lib/services/favorites.service.ts:15-20 | toggling the same id twice gives back the same set; when the id was absent, the exact same ordered set |
| `Favorites.Restore` | libs/shared/src/lib/services/favorites.service.ts:28-35 | loading always yields a set (no id twice), whatever the stored text |
| `Favorites.RestoreFallsBack` | libs/shared/src/lib/services/favorites.service.ts:28-35 | a missing key, an empty value, a value that is not a JSON array of strings, or a read that throws all load as the empty set, without failing |
| `Favorites.RestorePersisted` | libs/shared/src/lib/services/favorites.service.ts:28-51 | what `persist` writes loads back as the same set in the same order |
| `Favorites.FavoritesService.constructor` | libs/shared/src/lib/services/favorites.service.ts:8-10 | the initial set is what loading finds under `"favorites"` in the given storage |
| `Favorites.FavoritesService.IsFavorite` | libs/shared/src/lib/services/favorites.service.ts:37-39 | `isFavorite(id)` is membership in the held set and reads nothing else |
| `Favorites.FavoritesService.Toggle` | libs/shared/src/lib/services/favorites.service.ts:15-20 | the set becomes the toggled copy; when the write succeeds, storage maps `"favorites"` to the encoding of exactly the new set and nothing else in storage changes; when it fails, storage is unchanged, no error escapes and the in-memory set is updated all the same |
| `Favorites.FavoritesService.Persist` | libs/shared/src/lib/services/favorites.service.ts:42-51 | writes the whole set as a JSON array under `"favorites"`; a failed write changes nothing and is swallowed |
| `Favorites.FavoritesService.Clear` | libs/shared/src/lib/services/favorites.service.ts:22-25 | the set becomes empty and the `"favorites"` key is removed, not written empty; other keys are untouched; a throwing `removeItem` escapes, after the set is already empty |
| `Favorites.ReloadAfterToggle` | libs/shared/src/lib/services/favorites.service.ts:8-20 | after a toggle with working storage, a new service built from the same storage holds the same set, so `isFavorite` agrees on every id |
| `Countdown.Split` | apps/interview/src/app/pages/event-detail/event-detail.component.ts:121-126 | for a positive difference: days ≥ 0, hours < 24, minutes < 60, seconds < 60, all non-negative, and they recompose to the difference rounded down to a whole second |
| `Countdown.SplitUnique` | apps/interview/src/app/pages/event-detail/event-detail.component.ts:121-126 | any in-range days/hours/minutes/seconds that recompose to the difference rounded down to a second are exactly the ones computed |
| `Countdown.CountdownAt` | apps/interview/src/app/pages/event-detail/event-detail.component.ts:113-126 | no countdown exactly when the event's time is at or before `now`; otherwise an in-range split of the difference |
| `EventDetail.EventDetailComponent.constructor` | apps/interview/src/app/pages/event-detail/event-detail.component.ts:23-32 | no event, error, countdown or interval; nothing followed; no store call |
| `EventDetail.EventDetailComponent.NgOnInit` | apps/interview/src/app/pages/event-detail/event-detail.component.ts:39-47 | with no route id (or an empty one) nothing changes; otherwise the id is selected in the store and the selected-event stream is followed; the shown event, error, countdown and intervals are untouched either way |
| `EventDetail.EventDetailComponent.OnSelectedEvent` | apps/interview/src/app/pages/event-detail/event-detail.component.ts:48-54 | an emission sets the shown event to the emitted value or null and leaves the error alone; only a non-null event (re)starts the countdown, with a fresh handle as the only live interval, so null leaves countdown and interval as they were; after teardown or a stream error emissions change nothing |
| `EventDetail.EventDetailComponent.OnSelectedEventError` | apps/interview/src/app/pages/event-detail/event-detail.component.ts:55-57 | the error message is shown and the stream delivers nothing more |
| `EventDetail.EventDetailComponent.StartCountdown` | apps/interview/src/app/pages/event-detail/event-detail.component.ts:94-108 | no-op without an event; otherwise any held interval is released before a fresh one is registered, so at most one is live; the countdown is computed at once, and if the event has already started the fresh interval is released again |
| `EventDetail.EventDetailComponent.UpdateCountdown` | apps/interview/src/app/pages/event-detail/event-detail.component.ts:110-127 | no-op without an event; otherwise the countdown at `now`; when the difference is zero or negative the countdown becomes null, the handle null and no interval stays live |
| `EventDetail.EventDetailComponent.ClearCountdown` | apps/interview/src/app/pages/event-detail/event-detail.component.ts:129-134 | the held interval, if any, is released and the handle forgotten; nothing else changes |
| `EventDetail.EventDetailComponent.Tick` | apps/interview/src/app/pages/event-detail/event-detail.component.ts:101-104 | a released interval's callback never fires; a live one recomputes the countdown; the tick at or after the start releases the interval and forgets the handle, and a tick before it keeps the interval live |
| `EventDetail.CountdownRunsOut` | apps/interview/src/app/pages/event-detail/event-detail.component.ts:94-134 | opened 2.5 s before the start, the page ticks each second; the tick after the start ends the countdown with no handle and no live interval, and a later tick changes nothing |
| `EventDetail.EventDetailComponent.NgOnDestroy` | apps/interview/src/app/pages/event-detail/event-detail.component.ts:61-66 | any live interval is released (the stale handle stays), the stream is no longer followed, and the selection is cleared with `selectEvent(null)` |
| `EventDetail.EventDetailComponent.DeleteEvent` | apps/interview/src/app/pages/event-detail/event-detail.component.ts:83-92 | a delete of the shown event is requested only when there is one and the user confirmed; no other state changes and the interval invariant is kept |
| `TextTrim.Trim` | apps/interview/src/app/components/event-filter/event-filter.component.ts:84 | the trimmed search text neither starts nor ends with whitespace |
| `TextTrim.TrimCutsOnlyWhitespace` | apps/interview/src/app/components/event-filter/event-filter.component.ts:84 | the trimmed text is a contiguous part of the input, and everything cut from either end is whitespace |
| `TextTrim.TrimIdempotent` | apps/interview/src/app/components/event-filter/event-filter.component.ts:84 | trimming an already trimmed text changes nothing |
| `Debounce.CommittedTermSchedulesNothing` | apps/interview/src/app/components/event-filter/event-filter.component.ts:84-87 | when the trimmed search equals the bound `searchTerm`, no timeout is set and nothing is ever emitted by that run |
| `Debounce.EffectRun` | apps/interview/src/app/components/event-filter/event-filter.component.ts:83-94 | one run with the intended cleanup: no timeout exactly when the trimmed text is the bound term, otherwise one for the trimmed text due 300 units later |
| `Debounce.Advance` | apps/interview/src/app/components/event-filter/event-filter.component.ts:89-91 | a due timeout fires once, emitting its term, and is gone; a timeout not yet due stays and nothing is emitted |
| `Debounce.UnchangedTextKeepsTimeout` | apps/interview/src/app/components/event-filter/event-filter.component.ts:109-111 | a keystroke that leaves the text as it is does not re-run the effect, so a pending timeout keeps its deadline |
| `Debounce.RepeatedTextEmitsOnSchedule` | apps/interview/src/app/components/event-filter/event-filter.component.ts:83-111 | `ab` reported at 100 and again at 200 is emitted at 400, 300 units after the first report |
| `Debounce.BurstStaysQuiet` | apps/interview/src/app/components/event-filter/event-filter.component.ts:83-111 | with cancelling re-runs, a burst of keystrokes, each changing the text within 300 units of the last, emits nothing, and only the last keystroke's timeout is pending |
| `Debounce.BurstEmitsOnlyFinal` | apps/interview/src/app/components/event-filter/event-filter.component.ts:83-111 | with cancelling re-runs, such a burst emits exactly one `{searchTerm}` patch, for the last trimmed text, not before 300 units after the last keystroke; none if that text is the bound term |
| `Debounce.EffectRunAsWritten` | apps/interview/src/app/components/event-filter/event-filter.component.ts:83-94 | as written, a re-run cancels no earlier timeout: the pending ones are kept in order, and one is added exactly when the trimmed text differs from the bound term, for that text and due 300 units later |
| `Debounce.AdvanceAll` | apps/interview/src/app/components/event-filter/event-filter.component.ts:89-91 | as written, reaching a time fires every due timeout: the timeouts left and the timeouts fired are together exactly the ones pending before, none left is due and every one fired is |
| `Debounce.Terms` | apps/interview/src/app/components/event-filter/event-filter.component.ts:89-91 | each fired timeout emits its own term, in firing order |
| `Debounce.SetBy` | apps/interview/src/app/components/event-filter/event-filter.component.ts:84-111 | a keystroke sets a timeout exactly when it changes the text and the trimmed text is not the bound term, and then the one for the trimmed text due 300 units later |
| `Debounce.SetTimers` | apps/interview/src/app/components/event-filter/event-filter.component.ts:84-111 | the timeouts a run of keystrokes sets, at most one per keystroke |
| `Debounce.StepAsWrittenKeepsAll` | apps/interview/src/app/components/event-filter/event-filter.component.ts:83-111 | as written, a keystroke loses no timeout: each one pending before, or set by it, is still pending or has fired |
| `Debounce.ReplayAsWritten` | apps/interview/src/app/components/event-filter/event-filter.component.ts:83-111 | as written, no timeout is ever cancelled: the timeouts left pending together with those fired are exactly the ones pending before together with those the keystrokes set |
| `Debounce.AsWrittenBurstEmitsEveryTerm` | apps/interview/src/app/components/event-filter/event-filter.component.ts:83-94 | as written, typing `a` at 0 and `ab` at 100 emits both `a` and `ab` by time 400, where the intended debounce emits only `ab` |
| `EventFilter.StatusOptions` | apps/interview/src/app/components/event-filter/event-filter.component.ts:47-51 | the status choices in display order; `EventFilter.StatusOptionsEachOnce` proves each is offered exactly once |
| `EventFilter.CategoryOptions` | apps/interview/src/app/components/event-filter/event-filter.component.ts:53-58 | the category choices in display order; `EventFilter.CategoryOptionsEachOnce` proves each is offered exactly once |
| `EventFilter.StatusOptionsEachOnce` | apps/interview/src/app/components/event-filter/event-filter.component.ts:47-51 | each of the three statuses is offered exactly once |
| `EventFilter.CategoryOptionsEachOnce` | apps/interview/src/app/components/event-filter/event-filter.component.ts:53-58 | each of the four categories is offered exactly once |
| `EventFilter.HasActiveFilters` | apps/interview/src/app/components/event-filter/event-filter.component.ts:62-65 | false exactly when status and category are `'all'` and the search term is empty |
| `EventFilter.ActiveStatus` | apps/interview/src/app/components/event-filter/event-filter.component.ts:67-70 | null exactly when status is `'all'`, otherwise the chosen status |
| `EventFilter.ActiveCategory` | apps/interview/src/app/components/event-filter/event-filter.component.ts:72-75 | null exactly when category is `'all'`, otherwise the chosen category |
| `EventFilter.ActiveFiltersHaveAChip` | apps/interview/src/app/components/event-filter/event-filter.component.ts:62-77 | filters are active exactly when there is an active status, an active category or a search term to show |
| `EventFilter.FirstRunClearsStoredSearch` | apps/interview/src/app/components/event-filter/event-filter.component.ts:83-94 | the effect's first run with an empty search box, while the bound filters carry a search term, schedules an emission of the empty search term |
| `EventFilter.SearchPatches` | apps/interview/src/app/components/event-filter/event-filter.component.ts:89-91 | each fired timeout becomes one `{searchTerm}` patch, in firing order |
| `EventFilter.EventFilterComponent.constructor` | apps/interview/src/app/components/event-filter/event-filter.component.ts:37-43 | the parent's filters are bound, the search box is empty, nothing is scheduled or emitted |
| `EventFilter.EventFilterComponent.SetFilters` | apps/interview/src/app/components/event-filter/event-filter.component.ts:37 | the parent binds new filters; the effect reads them, so it re-runs, cancelling the pending timeout and setting one unless the trimmed search now is the bound term |
| `EventFilter.EventFilterComponent.OnSearchChange` | apps/interview/src/app/components/event-filter/event-filter.component.ts:109-111 | only the search text changes, and nothing is emitted |
| `EventFilter.EventFilterComponent.RunEffect` | apps/interview/src/app/components/event-filter/event-filter.component.ts:83-94 | a re-run cancels the pending timeout and sets at most one, for the trimmed text, 300 units ahead, unless that text is the bound term |
| `EventFilter.EventFilterComponent.AdvanceTo` | apps/interview/src/app/components/event-filter/event-filter.component.ts:89-91 | when the clock reaches the pending deadline, its `{searchTerm}` patch is emitted once and the timeout is gone; otherwise nothing is emitted |
| `EventFilter.EventFilterComponent.OnKeystroke` | apps/interview/src/app/components/event-filter/event-filter.component.ts:83-111 | time reaches the keystroke (a due timeout fires); the effect re-runs only when the text changed, as `search.set` with an equal string notifies nobody; this is the `Step` the burst lemmas are about |
| `EventFilter.EventFilterComponent.OnStatusChange` | apps/interview/src/app/components/event-filter/event-filter.component.ts:113-115 | emits one patch carrying only the chosen status |
| `EventFilter.EventFilterComponent.OnCategoryChange` | apps/interview/src/app/components/event-filter/event-filter.component.ts:117-119 | emits one patch carrying only the chosen category |
| `EventFilter.EventFilterComponent.ClearStatus` | apps/interview/src/app/components/event-filter/event-filter.component.ts:121-123 | emits one patch `{status: 'all'}` with no other field |
| `EventFilter.EventFilterComponent.ClearCategory` | apps/interview/src/app/components/event-filter/event-filter.component.ts:125-127 | emits one patch `{category: 'all'}` with no other field |
| `EventFilter.EventFilterComponent.ClearSearch` | apps/interview/src/app/components/event-filter/event-filter.component.ts:129-132 | the search box becomes empty and `{searchTerm: ''}` is emitted at once |
| `EventFilter.EventFilterComponent.ClearAll` | apps/interview/src/app/components/event-filter/event-filter.component.ts:134-137 | the search box becomes empty and `reset` is emitted, with no filter patch |
| `EventFilter.EventFilterComponent.Destroy` | apps/interview/src/app/components/event-filter/event-filter.component.ts:93 | the intended cleanup cancels a pending timeout on teardown |
| `EventList.InitialState` | apps/interview/src/app/pages/event-list/event-list.component.ts:22-35 | the signals' initial values: no events, all/all/empty filters, no counts, not loading, no error |
| `EventList.HasStats` | apps/interview/src/app/pages/event-list/event-list.component.ts:38-40 | `hasStats`: counts have arrived and count at least one event |
| `EventList.HasEvents` | apps/interview/src/app/pages/event-list/event-list.component.ts:42-44 | `hasEvents`: the filtered list is not empty |
| `EventList.IsEmpty` | apps/interview/src/app/pages/event-list/event-list.component.ts:46-51 | `isEmpty`: settled, no truthy error, no filtered events |
| `EventList.ShowGrid` | apps/interview/src/app/pages/event-list/event-list.component.ts:53-58 | `showGrid`: settled, no truthy error, some filtered events; the lemmas below relate the four flags |
| `EventList.EmptyAndGridExclusive` | apps/interview/src/app/pages/event-list/event-list.component.ts:46-58 | `isEmpty` and `showGrid` are never both true |
| `EventList.SettledShowsExactlyOne` | apps/interview/src/app/pages/event-list/event-list.component.ts:46-58 | when neither loading nor failed, exactly one of `isEmpty` and `showGrid` holds |
| `EventList.BusyShowsNeither` | apps/interview/src/app/pages/event-list/event-list.component.ts:46-58 | when loading or failed, both are false |
| `EventList.GridHasEvents` | apps/interview/src/app/pages/event-list/event-list.component.ts:42-58 | `showGrid` implies `hasEvents` |
| `EventList.InitialStateFlags` | apps/interview/src/app/pages/event-list/event-list.component.ts:22-35 | the initial filters are `'all'`/`'all'`/`''`; before the store emits there are no statistics or events and the empty state is shown |
| `EventList.EmptyErrorMessageIsIgnored` | apps/interview/src/app/pages/event-list/event-list.component.ts:46-58 | an error with an empty message is falsy and shows the page as if there were no error |
| `EventList.Dispatch` | apps/interview/src/app/pages/event-list/event-list.component.ts:60-93 | construction and `loadEvents` load the events; a filter change forwards its patch, a reset resets, a confirmed delete deletes the event and a status toggle toggles it, each as exactly one store call; an unconfirmed delete and the two navigations make none |

## Left out

- The event store, the filter predicate, the event API service and the event model file are not part of this model. Their commands (`selectEvent`, `deleteEvent`, `loadEvents`, `updateFilters`, `resetFilters`, `toggleEventStatus`) are recorded as `StoreCall` values and not interpreted. Patch merging, the status cycle and request ordering belong to the store.
- The status and category labels, `getStatusLabel`, `getCategoryLabel` and `formatDate` are not modelled. They are table lookups into the unseen model file and `Intl.DateTimeFormat` formatting.
- Both event-card components and the library's `index.ts` are not modelled. They only look up labels, format dates, stop DOM events and delegate.
- Angular and RxJS scheduling is not modelled. An effect's re-run is the explicit `RunEffect` (or `OnKeystroke`) step. `takeUntilDestroyed` is the `subscribed` flag. `NgZone.runOutsideAngular`, change detection and `console.log`/`console.warn` are dropped.
- Navigation is not modelled. That covers `router.navigate` after a successful delete, `editEvent` and `createEvent`. The `confirm()` dialog is a `confirmed` argument.
- Real time is not modelled. `Date.now()` is a `now` argument. Nothing enforces the 1000 ms interval period: `Tick` may be called at any time, and its contract holds for any schedule. `AdvanceTo` requires the logical clock not to go backwards.
- EventDetail.EventDetailComponent.UpdateCountdown: event dates are whole milliseconds. An invalid date (`getTime()` is `NaN`) and precision loss beyond 2^53 are not modelled.
- Favorites.Restore: the model does not reproduce what `new Set(JSON.parse(raw))` makes of JSON that is not an array of strings. An array with non-string elements, or a bare string that would become a set of its characters, both load as the empty set here.
- Json.DecodeEncode: a `\u` escape that names a surrogate code unit is rejected, since a character here is a Unicode scalar value. `JSON.parse` would pair surrogates instead.
- The favorites `favorites` read-only signal is not a separate member. The `favorites` field is the only thing methods write, which matches the source.
- Debounce.ReplayAsWritten: it assumes timeouts fire in the order they were set. That order is deadline order whenever the clock only moves forward.
- EventFilter.EventFilterComponent.AdvanceTo: after an emission, the parent binding the updated filters is a separate `SetFilters` step, not automatic.
- EventFilter.EventFilterComponent.SetFilters: every binding is taken to be a new filters object, as the store emits one per update, so the effect always re-runs. Re-binding the identical object, which would not re-run it, is not modelled.
- EventFilter.StatusOptions and EventFilter.CategoryOptions carry no contract of their own. Their lemmas state what they offer.

## Findings

| source | as written | input that shows it | evidently intended | confidence | as-written member | corrected member |
|---|---|---|---|---|---|---|
| apps/interview/src/app/components/event-filter/event-filter.component.ts:83-94 | The effect returns `() => clearTimeout(timeout)`. Angular's `effect()` ignores its callback's return value; cleanup must be registered through the `onCleanup` argument. So no timeout is cancelled on a re-run, and every run whose trimmed text differs from the bound term emits while the component is alive. Teardown does not cancel a pending timeout either, though Angular drops an emission on a destroyed output. | With bound term `""`, type `a` at time 0 and `ab` at time 100. Both `{searchTerm: 'a'}` (at 300) and `{searchTerm: 'ab'}` (at 400) are emitted. | Each re-run cancels the previous timeout, so a burst emits only its final trimmed term. Teardown cancels a pending timeout. | high (rests on Angular's `effect` signature); not executed | `Debounce.AsWrittenBurstEmitsEveryTerm` | `Debounce.BurstEmitsOnlyFinal` |

The rest of the model uses the corrected debounce. `EventFilter.EventFilterComponent.RunEffect` and `Destroy` cancel the pending timeout.
