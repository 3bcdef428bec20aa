/**
 * The list page's view model: boolean flags over the store's state as the
 * page's signals see it, and the page's actions, each a single store call.
 */
module EventList {
  import opened Wrappers
  import opened EventModel

  /** Aggregate counts over the whole, unfiltered collection; the page reads only `total`. */
  datatype EventCounts = EventCounts(total: nat, byStatus: map<Status, nat>, byCategory: map<Category, nat>)

  /** The store's state as the page's signals hold it. */
  datatype ListState = ListState(
    filteredEvents: seq<CulturalEvent>,
    filters: EventFilters,
    eventCounts: Option<EventCounts>,
    loading: bool,
    error: Option<string>)

  /** The signals' values before the store has emitted anything. */
  function InitialState(): (s: ListState) {
    ListState([], DefaultFilters(), None, false, None)
  }

  /** `!!error()`: an empty message is falsy and counts as no error. */
  predicate HasError(s: ListState) {
    s.error.Some? && s.error.value != ""
  }

  predicate HasStats(s: ListState) {
    s.eventCounts.Some? && s.eventCounts.value.total > 0
  }

  predicate HasEvents(s: ListState) {
    |s.filteredEvents| > 0
  }

  predicate IsEmpty(s: ListState) {
    !s.loading && !HasError(s) && |s.filteredEvents| == 0
  }

  predicate ShowGrid(s: ListState) {
    !s.loading && !HasError(s) && |s.filteredEvents| > 0
  }

  /** The empty-state message and the grid are never shown together. */
  lemma EmptyAndGridExclusive(s: ListState)
    ensures !(IsEmpty(s) && ShowGrid(s))
  {
  }

  /** Neither loading nor failed: exactly one of the empty-state message and the grid is shown. */
  lemma SettledShowsExactlyOne(s: ListState)
    requires !s.loading && !HasError(s)
    ensures IsEmpty(s) != ShowGrid(s)
  {
  }

  /** While loading, or after a failure, neither is shown. */
  lemma BusyShowsNeither(s: ListState)
    requires s.loading || HasError(s)
    ensures !IsEmpty(s) && !ShowGrid(s)
  {
  }

  /** The grid is only shown when there are events to put in it. */
  lemma GridHasEvents(s: ListState)
    ensures ShowGrid(s) ==> HasEvents(s)
  {
  }

  /** Before the store emits: default filters, no statistics, and the empty-state message. */
  lemma InitialStateFlags()
    ensures InitialState().filters == EventFilters(All, All, "")
    ensures !HasStats(InitialState()) && !HasEvents(InitialState())
    ensures IsEmpty(InitialState()) && !ShowGrid(InitialState())
  {
  }

  /** An error whose message is empty shows the page as if there were no error. */
  lemma EmptyErrorMessageIsIgnored(s: ListState)
    requires s.error == Some("")
    ensures IsEmpty(s) == IsEmpty(s.(error := None))
    ensures ShowGrid(s) == ShowGrid(s.(error := None))
  {
  }

  /** What the user asks of the page. Edit and create only navigate. */
  datatype ListIntent =
    | Reload
    | FiltersChanged(patch: FilterPatch)
    | ResetRequested
    | DeleteRequested(event: CulturalEvent, confirmed: bool)
    | ToggleStatusRequested(event: CulturalEvent)
    | EditRequested(event: CulturalEvent)
    | CreateRequested

  /**
   * The store calls an intent makes: exactly one for every intent except a
   * deletion the user did not confirm and the two navigations, which make
   * none; the call carries the intent's own patch or event. `Reload` is both
   * `loadEvents` and what constructing the page does.
   */
  function Dispatch(i: ListIntent): (calls: seq<StoreCall>)
    ensures |calls| <= 1
    ensures |calls| == 1 <==> !(i.DeleteRequested? && !i.confirmed) && !i.EditRequested? && !i.CreateRequested?
    ensures i.Reload? ==> calls == [LoadEvents]
    ensures i.FiltersChanged? ==> calls == [UpdateFilters(i.patch)]
    ensures i.ResetRequested? ==> calls == [ResetFilters]
    ensures i.DeleteRequested? && i.confirmed ==> calls == [DeleteEvent(i.event.id)]
    ensures i.ToggleStatusRequested? ==> calls == [ToggleEventStatus(i.event.id)]
    ensures forall c :: c in calls && (c.DeleteEvent? || c.ToggleEventStatus?) ==>
              (i.DeleteRequested? || i.ToggleStatusRequested?) && c.eventId == i.event.id
  {
    match i
    case Reload => [LoadEvents]
    case FiltersChanged(p) => [UpdateFilters(p)]
    case ResetRequested => [ResetFilters]
    case DeleteRequested(e, confirmed) => if confirmed then [DeleteEvent(e.id)] else []
    case ToggleStatusRequested(e) => [ToggleEventStatus(e.id)]
    case EditRequested(_) => []
    case CreateRequested => []
  }
}
