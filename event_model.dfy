/**
 * Entities shared by the components: the event record, the filter record with
 * its `'all'` wildcard, the partial filter patch that components emit, and the
 * store commands that components invoke. The store itself lives outside this
 * model; its commands are recorded, never interpreted.
 */
module EventModel {
  import opened Wrappers

  datatype Status = Draft | Published | Cancelled
  datatype Category = Concert | Opera | Theater | Exhibition

  /** `T | 'all'`: a filter field either matches everything or one value. */
  datatype Choice<T> = All | Only(value: T)

  /** The event's scheduled start `date` is kept as milliseconds since the epoch. */
  datatype CulturalEvent = CulturalEvent(
    id: string,
    title: string,
    date: int,
    category: Category,
    status: Status)

  datatype EventFilters = EventFilters(
    status: Choice<Status>,
    category: Choice<Category>,
    searchTerm: string)

  /** `Partial<EventFilters>`: a field that is `None` is absent from the patch. */
  datatype FilterPatch = FilterPatch(
    status: Option<Choice<Status>>,
    category: Option<Choice<Category>>,
    searchTerm: Option<string>)

  /** The all/all/empty filters every consumer starts from. */
  function DefaultFilters(): (f: EventFilters) {
    EventFilters(All, All, "")
  }

  function StatusPatch(s: Choice<Status>): (p: FilterPatch) {
    FilterPatch(Some(s), None, None)
  }

  function CategoryPatch(c: Choice<Category>): (p: FilterPatch) {
    FilterPatch(None, Some(c), None)
  }

  function SearchPatch(term: string): (p: FilterPatch) {
    FilterPatch(None, None, Some(term))
  }

  /** A call into the event store, recorded in the order it is made. */
  datatype StoreCall =
    | LoadEvents
    | SelectEvent(id: Option<string>)
    | UpdateFilters(patch: FilterPatch)
    | ResetFilters
    | DeleteEvent(eventId: string)
    | ToggleEventStatus(eventId: string)
}
