/**
 * The filter bar: derived flags over the bound filters, the option lists, the
 * handlers that emit filter patches or a reset, and the debounced search.
 * The debounce is the corrected one of module Debounce: each re-run of the
 * effect cancels the timeout of the run before it.
 */
module EventFilter {
  import opened Wrappers
  import opened EventModel
  import opened Debounce

  /** The status choices offered, in display order. */
  function StatusOptions(): (r: seq<Status>) {
    [Draft, Published, Cancelled]
  }

  /** The category choices offered, in display order. */
  function CategoryOptions(): (r: seq<Category>) {
    [Concert, Opera, Theater, Exhibition]
  }

  /** Every status is offered, and offered once. */
  lemma StatusOptionsEachOnce(s: Status)
    ensures multiset(StatusOptions())[s] == 1
  {
    var o := StatusOptions();
    assert o == [Draft] + [Published] + [Cancelled];
    assert multiset(o) == multiset{Draft} + multiset{Published} + multiset{Cancelled};
  }

  /** Every category is offered, and offered once. */
  lemma CategoryOptionsEachOnce(c: Category)
    ensures multiset(CategoryOptions())[c] == 1
  {
    var o := CategoryOptions();
    assert o == [Concert] + [Opera] + [Theater] + [Exhibition];
    assert multiset(o) == multiset{Concert} + multiset{Opera} + multiset{Theater} + multiset{Exhibition};
  }

  /** `hasActiveFilters`: false exactly for the all/all/empty filters. */
  function HasActiveFilters(f: EventFilters): (r: bool)
    ensures !r <==> f == DefaultFilters()
  {
    f.status != All || f.category != All || f.searchTerm != ""
  }

  /** `activeStatus`: the chosen status, or null when every status is shown. */
  function ActiveStatus(f: EventFilters): (r: Option<Status>)
    ensures r.None? <==> f.status == All
    ensures r.Some? ==> f.status == Only(r.value)
  {
    match f.status
    case All => None
    case Only(s) => Some(s)
  }

  /** `activeCategory`: the chosen category, or null when every category is shown. */
  function ActiveCategory(f: EventFilters): (r: Option<Category>)
    ensures r.None? <==> f.category == All
    ensures r.Some? ==> f.category == Only(r.value)
  {
    match f.category
    case All => None
    case Only(c) => Some(c)
  }

  /** The filters count as active exactly when one of the three active-filter chips has something to show. */
  lemma ActiveFiltersHaveAChip(f: EventFilters)
    ensures HasActiveFilters(f) <==> ActiveStatus(f).Some? || ActiveCategory(f).Some? || f.searchTerm != ""
  {
  }

  /**
   * The effect's first run, with an empty search box, while the bound
   * filters carry a search term: a timeout is set that will emit an empty
   * search term, clearing the term the store held.
   */
  lemma FirstRunClearsStoredSearch(committed: string, now: int)
    requires committed != ""
    ensures EffectRun("", committed, now) == Some(Timer("", now + QuietPeriod))
  {
    assert TextTrim.Trim("") == "";
  }

  /** What the component emits: a filter patch on `filtersChange`, or `reset`. */
  datatype Output = FiltersChange(patch: FilterPatch) | Reset

  /** Emitted search terms as `filtersChange` patches, in order. */
  function SearchPatches(terms: seq<string>): (r: seq<Output>)
    ensures |r| == |terms|
    ensures forall i :: 0 <= i < |terms| ==> r[i] == FiltersChange(SearchPatch(terms[i]))
  {
    if terms == [] then [] else [FiltersChange(SearchPatch(terms[0]))] + SearchPatches(terms[1..])
  }

  class EventFilterComponent {
    var filters: EventFilters
    var search: string
    var pending: Option<Timer>
    var clock: int
    var outputs: seq<Output>

    /** Created with the parent's filters bound; the search box starts empty and nothing is scheduled. */
    constructor (filters: EventFilters, now: int)
      ensures this.filters == filters && search == "" && pending == None
      ensures clock == now && outputs == []
    {
      this.filters := filters;
      search := "";
      pending := None;
      clock := now;
      outputs := [];
    }

    /**
     * The parent binds a new filters object (the store emits a fresh one on
     * every update). The effect reads the filters, so it re-runs: the pending
     * timeout is cancelled, and a new one is set unless the trimmed search
     * now is the bound term.
     */
    method SetFilters(f: EventFilters)
      modifies this`filters, this`pending
      ensures filters == f
      ensures pending == EffectRun(search, f.searchTerm, clock)
    {
      filters := f;
      RunEffect();
    }

    /** `onSearchChange`: only the search text changes; the effect re-runs separately. */
    method OnSearchChange(term: string)
      modifies this`search
      ensures search == term
    {
      search := term;
    }

    /** A run of the effect: the previous timeout is cancelled and at most one new one is set. */
    method RunEffect()
      modifies this`pending
      ensures pending == EffectRun(search, filters.searchTerm, clock)
    {
      var term := TextTrim.Trim(search);
      pending := None;
      if term == filters.searchTerm {
        return;
      }
      pending := Some(Timer(term, clock + QuietPeriod));
    }

    /** The clock reaches `now`; a due timeout fires and its patch is emitted. */
    method AdvanceTo(now: int)
      requires now >= clock
      modifies this`pending, this`clock, this`outputs
      ensures clock == now
      ensures pending == Advance(old(pending), now).0
      ensures outputs == old(outputs) + SearchPatches(Advance(old(pending), now).1)
    {
      if pending.Some? && pending.value.deadline <= now {
        outputs := outputs + [FiltersChange(SearchPatch(pending.value.term))];
        pending := None;
      }
      clock := now;
    }

    /**
     * The search box reports its text: time reaches the keystroke, and when
     * the text changed the effect re-runs.
     */
    method OnKeystroke(k: Keystroke)
      requires k.at >= clock
      modifies this`search, this`pending, this`clock, this`outputs
      ensures search == k.text && clock == k.at
      ensures pending == Step(old(pending), old(search), filters.searchTerm, k).0
      ensures outputs == old(outputs) + SearchPatches(Step(old(pending), old(search), filters.searchTerm, k).1)
    {
      AdvanceTo(k.at);
      if k.text != search {
        OnSearchChange(k.text);
        RunEffect();
      }
    }

    method OnStatusChange(status: Choice<Status>)
      modifies this`outputs
      ensures outputs == old(outputs) + [FiltersChange(FilterPatch(Some(status), None, None))]
    {
      outputs := outputs + [FiltersChange(StatusPatch(status))];
    }

    method OnCategoryChange(category: Choice<Category>)
      modifies this`outputs
      ensures outputs == old(outputs) + [FiltersChange(FilterPatch(None, Some(category), None))]
    {
      outputs := outputs + [FiltersChange(CategoryPatch(category))];
    }

    /** Emits a patch that sets the status back to `'all'` and carries no other field. */
    method ClearStatus()
      modifies this`outputs
      ensures outputs == old(outputs) + [FiltersChange(FilterPatch(Some(All), None, None))]
    {
      outputs := outputs + [FiltersChange(StatusPatch(All))];
    }

    /** Emits a patch that sets the category back to `'all'` and carries no other field. */
    method ClearCategory()
      modifies this`outputs
      ensures outputs == old(outputs) + [FiltersChange(FilterPatch(None, Some(All), None))]
    {
      outputs := outputs + [FiltersChange(CategoryPatch(All))];
    }

    /** Empties the search box and emits an empty search term at once, without waiting. */
    method ClearSearch()
      modifies this`search, this`outputs
      ensures search == ""
      ensures outputs == old(outputs) + [FiltersChange(FilterPatch(None, None, Some("")))]
    {
      search := "";
      outputs := outputs + [FiltersChange(SearchPatch(""))];
    }

    /** Empties the search box and emits `reset`, and no filter patch. */
    method ClearAll()
      modifies this`search, this`outputs
      ensures search == ""
      ensures outputs == old(outputs) + [Reset]
    {
      search := "";
      outputs := outputs + [Reset];
    }

    /** The view is destroyed: the effect's cleanup cancels a pending timeout. */
    method Destroy()
      modifies this`pending
      ensures pending == None
    {
      pending := None;
    }
  }
}
