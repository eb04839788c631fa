/**
 * The transformer store: its state fields, its actions, and the localStorage
 * entry it writes. Every selection or filter action ends by saving the
 * snapshot; a successful load replaces the catalog, selects every record and
 * then restores the snapshot over those defaults.
 */
module Store {
  import opened Wrappers
  import opened Seqs
  import opened TransformerTypes
  import opened Getters
  import opened Persistence

  const LoadFailedMessage: string := "Failed to load transformer data"
  const FallbackMessage: string := "An error occurred"

  /** A value thrown while fetching: an `Error` object, or anything else. */
  datatype Thrown = ErrorObject(message: string) | NonError

  /** The outcome of `fetch('/sampledata.json')` and `response.json()`. */
  datatype Response = Ok(data: seq<Transformer>) | NotOk | Threw(thrown: Thrown)

  /** The message the catch clause records for a thrown value. */
  function CaughtMessage(e: Thrown): string {
    match e
    case ErrorObject(message) => message
    case NonError => FallbackMessage
  }

  /** The error message a failed response leaves behind. */
  function FailureMessage(response: Response): string
    requires !response.Ok?
  {
    if response.NotOk? then CaughtMessage(ErrorObject(LoadFailedMessage))
    else CaughtMessage(response.thrown)
  }

  /** The new selection after toggling `id`: a set delete or a set add. */
  function Toggled(selection: seq<int>, id: int): (r: seq<int>)
    ensures NoDup(selection) ==> NoDup(r)
  {
    if id in selection then
      WhereNoDup(selection, Except(id));
      Where(selection, Except(id))
    else
      selection + [id]
  }

  /** Toggling flips the membership of `id` and of no other id. */
  lemma ToggleFlipsOnly(selection: seq<int>, id: int)
    ensures id in Toggled(selection, id) <==> id !in selection
    ensures forall y :: y != id ==> (y in Toggled(selection, id) <==> y in selection)
  {
  }

  /**
   * Toggling twice restores the set of selected ids; when `id` was not
   * selected it restores the sequence itself.
   */
  lemma ToggleTwice(selection: seq<int>, id: int)
    ensures forall y :: y in Toggled(Toggled(selection, id), id) <==> y in selection
    ensures id !in selection ==> Toggled(Toggled(selection, id), id) == selection
  {
    if id !in selection {
      var drop := Except(id);
      WhereConcat(selection, [id], drop);
      WhereKeepsAll(selection, drop);
      assert Where([id], drop) == [];
    }
  }

  class TransformerStore {
    var transformers: seq<Transformer>
    /** The JavaScript Set of selected ids, in insertion order. */
    var selectedTransformers: seq<int>
    var searchQuery: string
    var regionFilter: string
    var healthFilter: string
    var isLoading: bool
    var error: Option<string>
    /** The localStorage entry under "transformer-app-state". */
    var storage: Blob

    /** A Set holds each id once. */
    ghost predicate Valid()
      reads this
    {
      NoDup(selectedTransformers)
    }

    /** The fields a snapshot is taken of. */
    function Current(): Prefs
      reads this
    {
      Prefs(selectedTransformers, searchQuery, regionFilter, healthFilter)
    }

    /** The initial state; `stored` is whatever an earlier session left in storage. */
    constructor (stored: Blob)
      ensures Valid()
      ensures transformers == [] && selectedTransformers == []
      ensures searchQuery == "" && regionFilter == "" && healthFilter == ""
      ensures !isLoading && error == None && storage == stored
    {
      transformers := [];
      selectedTransformers := [];
      searchQuery := "";
      regionFilter := "";
      healthFilter := "";
      isLoading := false;
      error := None;
      storage := stored;
    }

    /** `savePersistedState`: the stored entry becomes a snapshot of the live fields. */
    method SavePersistedState()
      modifies this`storage
      ensures storage == Save(Current())
    {
      storage := Save(Prefs(selectedTransformers, searchQuery, regionFilter, healthFilter));
    }

    /**
     * `loadPersistedState`: each field found in the stored snapshot overrides
     * its live counterpart, one field at a time; a missing entry, an empty
     * string or a malformed value (only a warning is logged) leaves them all.
     */
    method LoadPersistedState()
      requires Valid()
      modifies this`selectedTransformers, this`searchQuery, this`regionFilter, this`healthFilter
      ensures Valid()
      ensures Current() == Restore(old(Current()), storage)
    {
      match storage
      case Absent =>
      case EmptyText =>
      case Malformed =>
      case Parsed(state) =>
        if state.selectedTransformers.Some? {
          selectedTransformers := Dedup(state.selectedTransformers.value);
        }
        if Truthy(state.searchQuery) {
          searchQuery := state.searchQuery.value;
        }
        if Truthy(state.regionFilter) {
          regionFilter := state.regionFilter.value;
        }
        if Truthy(state.healthFilter) {
          healthFilter := state.healthFilter.value;
        }
    }

    /**
     * `loadTransformers`, with the fetch outcome passed in. On success the
     * catalog is replaced, every record is selected, then the stored snapshot
     * is restored on top. On failure only `error` changes. Either way the
     * error is cleared first and loading ends.
     */
    method LoadTransformers(response: Response)
      requires Valid()
      modifies this`transformers, this`selectedTransformers, this`searchQuery, this`regionFilter,
               this`healthFilter, this`isLoading, this`error
      ensures Valid() && !isLoading
      ensures response.Ok? ==>
        && transformers == response.data
        && error == None
        && Current() == Restore(Prefs(Dedup(Ids(response.data)), old(searchQuery), old(regionFilter),
                                      old(healthFilter)), storage)
      ensures response.Ok? && !storage.Parsed? ==>
        SelectedTransformerData(transformers, selectedTransformers) == transformers
      ensures !response.Ok? ==>
        && transformers == old(transformers)
        && Current() == old(Current())
        && error == Some(FailureMessage(response))
    {
      isLoading := true;
      error := None;
      match response {
        case Ok(data) =>
          transformers := data;
          selectedTransformers := Dedup(Ids(data));
          SelectAllSelectsCatalog(data);
          LoadPersistedState();
        case NotOk =>
          error := Some(CaughtMessage(ErrorObject(LoadFailedMessage)));
        case Threw(thrown) =>
          error := Some(CaughtMessage(thrown));
      }
      isLoading := false;
    }

    /** `toggleTransformerSelection`: flips one id, then saves. */
    method ToggleTransformerSelection(transformerId: int)
      requires Valid()
      modifies this`selectedTransformers, this`storage
      ensures Valid()
      ensures selectedTransformers == Toggled(old(selectedTransformers), transformerId)
      ensures storage == Save(Current())
    {
      var newSelection := Toggled(selectedTransformers, transformerId);
      selectedTransformers := newSelection;
      SavePersistedState();
    }

    /** `selectAllTransformers`: selects every catalog id, then saves. */
    method SelectAllTransformers()
      modifies this`selectedTransformers, this`storage
      ensures Valid()
      ensures selectedTransformers == Dedup(Ids(transformers))
      ensures SelectedTransformerData(transformers, selectedTransformers) == transformers
      ensures storage == Save(Current())
    {
      selectedTransformers := Dedup(Ids(transformers));
      SelectAllSelectsCatalog(transformers);
      SavePersistedState();
    }

    /** `deselectAllTransformers`: empties the selection, then saves. */
    method DeselectAllTransformers()
      modifies this`selectedTransformers, this`storage
      ensures Valid()
      ensures selectedTransformers == []
      ensures SelectedTransformerData(transformers, selectedTransformers) == []
      ensures storage == Save(Current())
    {
      selectedTransformers := [];
      DeselectAllSelectsNothing(transformers);
      SavePersistedState();
    }

    /** `setSearchQuery`. */
    method SetSearchQuery(query: string)
      modifies this`searchQuery, this`storage
      ensures searchQuery == query
      ensures storage == Save(Current())
    {
      searchQuery := query;
      SavePersistedState();
    }

    /** `setRegionFilter`. */
    method SetRegionFilter(region: string)
      modifies this`regionFilter, this`storage
      ensures regionFilter == region
      ensures storage == Save(Current())
    {
      regionFilter := region;
      SavePersistedState();
    }

    /** `setHealthFilter`. */
    method SetHealthFilter(health: string)
      modifies this`healthFilter, this`storage
      ensures healthFilter == health
      ensures storage == Save(Current())
    {
      healthFilter := health;
      SavePersistedState();
    }

    /** `clearFilters`: all three filters become empty, so the filtered list is the catalog. */
    method ClearFilters()
      modifies this`searchQuery, this`regionFilter, this`healthFilter, this`storage
      ensures searchQuery == "" && regionFilter == "" && healthFilter == ""
      ensures FilteredTransformers(transformers, searchQuery, regionFilter, healthFilter) == transformers
      ensures storage == Save(Current())
    {
      searchQuery := "";
      regionFilter := "";
      healthFilter := "";
      FilteredIdentity(transformers);
      SavePersistedState();
    }
  }
}
