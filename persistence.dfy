/**
 * The persisted interaction state. `savePersistedState` writes the selection
 * and the three filters under the key "transformer-app-state";
 * `loadPersistedState` reads that value back and lets each field it finds
 * override the live one. The JSON text itself is abstracted: a Blob is what
 * `getItem` followed by `JSON.parse` yields.
 */
module Persistence {
  import opened Wrappers
  import opened Seqs

  /** The live fields a snapshot is taken of. */
  datatype Prefs = Prefs(selection: seq<int>, searchQuery: string, regionFilter: string, healthFilter: string)

  /** A parsed snapshot object; a field may be missing. */
  datatype Snapshot = Snapshot(
    selectedTransformers: Option<seq<int>>,
    searchQuery: Option<string>,
    regionFilter: Option<string>,
    healthFilter: Option<string>)

  /**
   * The stored value: no entry, the empty string (falsy, so skipped), text
   * that `JSON.parse` rejects or whose fields cannot be read, or a parsed
   * object.
   */
  datatype Blob = Absent | EmptyText | Malformed | Parsed(state: Snapshot)

  /** `savePersistedState`: every field is written, empty strings included. */
  function Save(p: Prefs): (b: Blob)
    ensures NoDup(p.selection) ==> Restore(p, b) == p
  {
    DedupOfNoDup(p.selection);
    Parsed(Snapshot(Some(p.selection), Some(p.searchQuery), Some(p.regionFilter), Some(p.healthFilter)))
  }

  /** A JavaScript truthiness test on an optional string field. */
  predicate Truthy(field: Option<string>) {
    field.Some? && field.value != ""
  }

  /**
   * `loadPersistedState` applied to the live fields `p`: a present id array
   * (even an empty one) replaces the selection, as a set; a string field
   * replaces its filter only when it is non-empty; an unusable blob changes
   * nothing.
   */
  function Restore(p: Prefs, b: Blob): (r: Prefs)
    ensures NoDup(p.selection) ==> NoDup(r.selection)
  {
    match b
    case Parsed(state) =>
      Prefs(
        if state.selectedTransformers.Some? then Dedup(state.selectedTransformers.value) else p.selection,
        if Truthy(state.searchQuery) then state.searchQuery.value else p.searchQuery,
        if Truthy(state.regionFilter) then state.regionFilter.value else p.regionFilter,
        if Truthy(state.healthFilter) then state.healthFilter.value else p.healthFilter)
    case _ => p
  }

  /**
   * Each field is restored from its own snapshot field alone: two snapshots
   * that agree on one field restore the same value into it, whatever their
   * other fields hold, so a missing or empty field never blocks another.
   */
  lemma RestoreFieldwise(p: Prefs, a: Snapshot, b: Snapshot)
    ensures a.selectedTransformers == b.selectedTransformers ==>
      Restore(p, Parsed(a)).selection == Restore(p, Parsed(b)).selection
    ensures a.searchQuery == b.searchQuery ==>
      Restore(p, Parsed(a)).searchQuery == Restore(p, Parsed(b)).searchQuery
    ensures a.regionFilter == b.regionFilter ==>
      Restore(p, Parsed(a)).regionFilter == Restore(p, Parsed(b)).regionFilter
    ensures a.healthFilter == b.healthFilter ==>
      Restore(p, Parsed(a)).healthFilter == Restore(p, Parsed(b)).healthFilter
  {
  }

  /**
   * A field missing from a parsed snapshot (`undefined`, falsy) keeps the
   * live value, and so does a filter stored as the empty string.
   */
  lemma RestoreMissingKeeps(p: Prefs, s: Snapshot)
    ensures s.selectedTransformers == None ==> Restore(p, Parsed(s)).selection == p.selection
    ensures s.searchQuery == None || s.searchQuery == Some("") ==>
      Restore(p, Parsed(s)).searchQuery == p.searchQuery
    ensures s.regionFilter == None || s.regionFilter == Some("") ==>
      Restore(p, Parsed(s)).regionFilter == p.regionFilter
    ensures s.healthFilter == None || s.healthFilter == Some("") ==>
      Restore(p, Parsed(s)).healthFilter == p.healthFilter
  {
  }

  /**
   * A present id array, even an empty one or one with repeats, becomes the
   * selection as a Set built from it; a present non-empty filter string
   * replaces the live filter.
   */
  lemma RestorePresentApplies(p: Prefs, s: Snapshot)
    ensures s.selectedTransformers.Some? ==>
      Restore(p, Parsed(s)).selection == Dedup(s.selectedTransformers.value)
    ensures s.searchQuery.Some? && s.searchQuery.value != "" ==>
      Restore(p, Parsed(s)).searchQuery == s.searchQuery.value
    ensures s.regionFilter.Some? && s.regionFilter.value != "" ==>
      Restore(p, Parsed(s)).regionFilter == s.regionFilter.value
    ensures s.healthFilter.Some? && s.healthFilter.value != "" ==>
      Restore(p, Parsed(s)).healthFilter == s.healthFilter.value
  {
  }

  /** An absent, empty or malformed blob leaves the live fields as they are. */
  lemma RestoreUnusable(p: Prefs, b: Blob)
    requires b.Absent? || b.EmptyText? || b.Malformed?
    ensures Restore(p, b) == p
  {
  }

  /**
   * Save then restore over any live state `current` brings back the saved
   * selection exactly (same ids, same order) and every non-empty filter;
   * an empty saved filter leaves the live value in place.
   */
  lemma SaveRestore(saved: Prefs, current: Prefs)
    requires NoDup(saved.selection)
    ensures Restore(current, Save(saved)) == Prefs(
      saved.selection,
      if saved.searchQuery != "" then saved.searchQuery else current.searchQuery,
      if saved.regionFilter != "" then saved.regionFilter else current.regionFilter,
      if saved.healthFilter != "" then saved.healthFilter else current.healthFilter)
  {
    DedupOfNoDup(saved.selection);
  }

  /** With no empty filter the round trip is exact. */
  lemma SaveRestoreExact(saved: Prefs, current: Prefs)
    requires NoDup(saved.selection)
    requires saved.searchQuery != "" && saved.regionFilter != "" && saved.healthFilter != ""
    ensures Restore(current, Save(saved)) == saved
  {
    SaveRestore(saved, current);
  }

  /** Restoring the same blob a second time changes nothing more. */
  lemma RestoreIdempotent(p: Prefs, b: Blob)
    ensures Restore(Restore(p, b), b) == Restore(p, b)
  {
    if b.Parsed? && b.state.selectedTransformers.Some? {
      DedupIdempotent(b.state.selectedTransformers.value);
    }
  }
}
