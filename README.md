# Transformer store — a Dafny model

This project models the Pinia store `useTransformerStore` of the transformer
dashboard (`src/stores/transformer.ts`), the client-side state that holds the
catalog of monitored transformers. The store has three parts:

- **Getters.** The filtered list (search, region and health stages, combined
  with AND), the sorted region and health facets, and the selected records.
- **Actions.** Toggle one id, select all, deselect all, set each filter,
  clear the filters, and load the catalog.
- **Persistence.** A snapshot `{selectedTransformers, searchQuery, regionFilter,
  healthFilter}` is saved to localStorage after every selection or filter
  action, and restored after a successful load.

Layout, one module per file:

- `wrappers.dfy` — `Option`.
- `seqs.dfy` — `Where` (`Array.prototype.filter`) and `Dedup` (`Array.from(new Set(a))`).
  Both come with their laws: filter fusion, order preservation (`SubsequenceOf`), and no duplicates.
- `strings.dfy` — ASCII `Lower`, `Contains` (`includes`), the lexicographic order `Below`, and insertion `Sort`.
  It proves that `Below` is a strict total order and that a strictly sorted sequence is unique.
- `types.dfy` — the `Transformer` record and its five-valued `Health`.
- `getters.dfy` — the four computed getters as functions of the fields they read, with lemmas.
- `persistence.dfy` — the snapshot, the stored blob, `Save`, `Restore`, and the round trip.
- `store.dfy` — the class `TransformerStore`. Its fields are the store's refs plus `storage`, the
  localStorage entry. Its methods are the actions, each proved against `Toggled`, `Restore` and the getters.
- `scenarios.dfy` — results proved for a two-record example catalog.

The selection is a `seq<int>` without duplicates, because a JavaScript `Set` iterates in
insertion order and `Array.from` writes that order into the snapshot. The selection
is therefore a set for membership, and its order is also known.

Three behaviours of the code are worth stating plainly:

- A load that fails before the catalog is assigned leaves the previous catalog and selection in place. That covers a not-ok response, a rejected fetch, and a body `response.json()` cannot parse. The catalog is not emptied.
- Toggling an id checks neither that the catalog is non-empty nor that the id exists.
- Restoring a snapshot can select ids that are not in the new catalog. `selectedTransformerData` then ignores them (`Getters.SelectedSpec`).

## Model

| member | source | states |
|---|---|---|
| `Getters.SearchHit` | src/stores/transformer.ts:22-25 | The search test on one record: the lower-cased query occurs in the lower-cased name or region. An empty query hits every record. A hit needs the query to be no longer than the name or the region. |
| `Getters.FilteredTransformers` | src/stores/transformer.ts:16-43 | `filteredTransformers`: never longer than the catalog. A record is in it iff the record is in the catalog and `Matches` the three filters. |
| `Getters.FilteredIsConjunction` | src/stores/transformer.ts:16-43 | The three stages run in order, each skipped when its filter is empty. Together they equal one filter by the AND of the three criteria. |
| `Getters.FilteredSpec` | src/stores/transformer.ts:16-43 | The filtered list keeps catalog order (a subsequence). A record is in it iff it is in the catalog and meets every active criterion. A catalog without duplicates gives a list without duplicates. |
| `Getters.FilteredIdentity` | src/stores/transformer.ts:16-43 | With all three filters empty, the filtered list is the catalog. |
| `Getters.SearchIgnoresQueryCase` | src/stores/transformer.ts:20-25 | Lower-casing the query does not change the result, so the search is case-insensitive in the query. |
| `Strings.Lower` | src/stores/transformer.ts:21-24 | `toLowerCase` keeps the length, maps each character, and leaves no upper-case ASCII letter. |
| `Strings.LowerIdempotent` | src/stores/transformer.ts:21-24 | Lower-casing twice is the same as lower-casing once. |
| `Strings.Contains` | src/stores/transformer.ts:23-24 | `includes`: the empty needle is contained in every text, and a contained needle is no longer than the text. |
| `Strings.ContainsAt` | src/stores/transformer.ts:23-24 | `includes` holds iff the needle is a prefix of some suffix of the text. |
| `Getters.Regions` | src/stores/transformer.ts:46 | `map(t => t.region)` holds exactly the regions that occur in the catalog. |
| `Getters.HealthNames` | src/stores/transformer.ts:51 | `map(t => t.health)` holds exactly the health names that occur in the catalog. |
| `Getters.SortedDistinct` | src/stores/transformer.ts:46-47 | `Array.from(new Set(v)).sort()` is strictly increasing, has no duplicates, and holds exactly the values of `v`. |
| `Getters.AvailableRegions` | src/stores/transformer.ts:45-48 | Strictly sorted and duplicate-free. It holds exactly the regions of the unfiltered catalog, and no filter field is an input. |
| `Getters.AvailableHealthStatuses` | src/stores/transformer.ts:50-53 | Strictly sorted and duplicate-free. It holds exactly the health names of the unfiltered catalog, and no filter field is an input. |
| `Strings.Below` | src/stores/transformer.ts:47 | The order of the default `sort()`: lexicographic by character, with a proper prefix sorting first. No string is below an equal one. |
| `Strings.BelowIrreflexive` | src/stores/transformer.ts:47 | The default sort order never puts a string below itself. |
| `Strings.BelowTransitive` | src/stores/transformer.ts:47 | The default sort order is transitive. |
| `Strings.BelowTotal` | src/stores/transformer.ts:47 | Any two different strings are ordered one way or the other. |
| `Strings.Sort` | src/stores/transformer.ts:47 | Sorting is a permutation: the result holds the same multiset of values, hence the same length and the same elements. |
| `Strings.SortStrictlySorted` | src/stores/transformer.ts:47 | Sorting distinct strings gives a strictly increasing sequence. |
| `Strings.SortedUnique` | src/stores/transformer.ts:47 | Two strictly sorted sequences with the same elements are equal, so any correct sort gives the facet's result. |
| `Seqs.Where` | src/stores/transformer.ts:56-58 | `filter` keeps exactly the elements the predicate accepts and never grows the sequence. |
| `Seqs.WhereFuse` | src/stores/transformer.ts:22-39 | Two filters in a row equal one filter by their conjunction. |
| `Seqs.WhereIsSubsequence` | src/stores/transformer.ts:22-39 | A filter result is an order-preserving subsequence of its input. |
| `Seqs.WhereNoDup` | src/stores/transformer.ts:22-39 | Filtering a duplicate-free sequence gives a duplicate-free result. |
| `Getters.SelectedTransformerData` | src/stores/transformer.ts:55-59 | `selectedTransformerData`: never longer than the catalog. A record is in it iff the record is in the catalog and its id is selected. |
| `Getters.SelectedSpec` | src/stores/transformer.ts:55-59 | The selected data are exactly the catalog records whose id is selected, in catalog order. Selected ids missing from the catalog contribute nothing. |
| `Getters.Ids` | src/stores/transformer.ts:76 | `map(t => t.assetId)` holds exactly the catalog's ids. |
| `Seqs.Dedup` | src/stores/transformer.ts:76 | `new Set(a)` has no duplicates and holds exactly the values of `a`. |
| `Seqs.DedupOfNoDup` | src/stores/transformer.ts:147 | A Set built from a duplicate-free array iterates in that array's order. |
| `Seqs.DedupIsSubsequence` | src/stores/transformer.ts:133 | A Set's iteration order is an order-preserving subsequence of the array it was built from. |
| `Seqs.DedupFront` | src/stores/transformer.ts:76 | A Set built from `[x] + s` iterates `x` first, then the Set of `s` without `x`. This fixes first-occurrence order, which `Array.from` at line 133 writes into the snapshot. |
| `Seqs.DedupIdempotent` | src/stores/transformer.ts:147 | Building a Set from a Set's contents changes nothing. |
| `Getters.SelectAllSelectsCatalog` | src/stores/transformer.ts:98-101 | Once every catalog id is selected, the selected data are the whole catalog, in order. |
| `Getters.DeselectAllSelectsNothing` | src/stores/transformer.ts:103-106 | With an empty selection, the selected data are empty. |
| `Store.Toggled` | src/stores/transformer.ts:88-93 | Toggling keeps the selection duplicate-free. |
| `Store.ToggleFlipsOnly` | src/stores/transformer.ts:88-93 | Toggling `x` flips `x`'s membership and no other id's. |
| `Store.ToggleTwice` | src/stores/transformer.ts:88-93 | Toggling `x` twice restores the selected set. If `x` was not selected, it restores the exact sequence. |
| `Store.TransformerStore.constructor` | src/stores/transformer.ts:7-13 | The initial state: empty catalog and selection, empty filters, not loading, no error, and storage as an earlier session left it. |
| `Store.TransformerStore.ToggleTransformerSelection` | src/stores/transformer.ts:87-96 | The selection becomes `Toggled(old, id)`. Only the selection and storage change, and storage holds the new snapshot. |
| `Store.TransformerStore.SelectAllTransformers` | src/stores/transformer.ts:98-101 | The selection becomes the catalog's distinct ids, so the selected data are the catalog. Then the snapshot is saved. |
| `Store.TransformerStore.DeselectAllTransformers` | src/stores/transformer.ts:103-106 | The selection becomes empty, so the selected data are empty. Then the snapshot is saved. |
| `Store.TransformerStore.SetSearchQuery` | src/stores/transformer.ts:108-111 | Only `searchQuery` changes, and the snapshot is saved. |
| `Store.TransformerStore.SetRegionFilter` | src/stores/transformer.ts:113-116 | Only `regionFilter` changes, and the snapshot is saved. |
| `Store.TransformerStore.SetHealthFilter` | src/stores/transformer.ts:118-121 | Only `healthFilter` changes, and the snapshot is saved. |
| `Store.TransformerStore.ClearFilters` | src/stores/transformer.ts:123-128 | All three filters become empty, so the filtered list is the catalog. The selection and catalog are untouched, and the snapshot is saved. |
| `Persistence.Save` | src/stores/transformer.ts:131-139 | The snapshot written with all four fields present. Restoring it over the state it was taken from changes nothing. |
| `Store.TransformerStore.SavePersistedState` | src/stores/transformer.ts:131-139 | Storage becomes the snapshot of the current selection and filters, with every field present. |
| `Store.TransformerStore.LoadPersistedState` | src/stores/transformer.ts:141-162 | The selection and filters become `Restore(old ones, storage)`, and the selection stays duplicate-free. |
| `Store.TransformerStore.LoadTransformers` | src/stores/transformer.ts:62-85 | Success: catalog replaced, error cleared, every id selected, then the snapshot restored; with no usable snapshot the selection is the whole catalog. Failure: only `error` changes, to the not-ok message or the thrown error's message. Loading ends false either way. |
| `Persistence.Restore` | src/stores/transformer.ts:146-157 | Restoring keeps the selection duplicate-free. |
| `Persistence.RestoreFieldwise` | src/stores/transformer.ts:146-157 | Each field is restored from its own snapshot field alone. Two snapshots that agree on a field restore the same value into it, whatever their other fields hold, so a missing or empty field never blocks another. |
| `Persistence.RestoreMissingKeeps` | src/stores/transformer.ts:146-157 | A field missing from a parsed snapshot keeps the live value, and so does a filter stored as the empty string. |
| `Persistence.RestorePresentApplies` | src/stores/transformer.ts:146-157 | A present id array, even an empty one or one with repeats, becomes the selection as the Set built from it. A present non-empty filter string replaces the live filter. |
| `Persistence.RestoreUnusable` | src/stores/transformer.ts:142-143 | An absent entry, an empty string, or a malformed value changes nothing. |
| `Persistence.SaveRestore` | src/stores/transformer.ts:131-162 | Save then restore brings back the saved selection exactly and every non-empty filter. An empty saved filter leaves the live value in place. |
| `Persistence.SaveRestoreExact` | src/stores/transformer.ts:131-162 | With no empty filter, save then restore is the identity. |
| `Persistence.RestoreIdempotent` | src/stores/transformer.ts:141-162 | Restoring the same blob twice equals restoring it once. |
| `TransformerTypes.HealthName` | src/types/transformer.ts:10 | Each of the five health values is its string literal, and none of them is empty. |
| `Getters.HealthFilterSelects` | src/stores/transformer.ts:36-40 | Because no health literal is empty, a health value chosen as the only filter always engages the health stage and keeps exactly the records of that health. |
| `Scenarios.SearchExample` | src/stores/transformer.ts:20-26 | On the two-record catalog, the query "alp" keeps only "Alpha". |
| `Scenarios.RegionHealthExamples` | src/stores/transformer.ts:28-40 | Region "South" keeps "Beta". Adding health "Poor" still keeps "Beta". Region "North" with health "Poor" keeps nothing. |
| `Scenarios.FacetExamples` | src/stores/transformer.ts:45-53 | The facets of the two-record catalog are ["North", "South"] and ["Good", "Poor"]. |
| `Scenarios.LoadOverStoredSnapshot` | src/stores/transformer.ts:73-79 | After loading over a snapshot that selects id 2 and sets region "North", the selection is [2], the region is "North", and the empty saved strings leave the filters empty. |
| `Scenarios.LoadOverMalformedSnapshot` | src/stores/transformer.ts:143-160 | A malformed stored value leaves every record selected and every filter empty after a load. |

## Left out

- Network I/O: `fetch('/sampledata.json')` and `response.json()` are not modelled. Their outcome is the parameter `Response` of `LoadTransformers`: the records, a not-ok response, or a thrown value.
- JSON text and the localStorage API are not modelled. The entry under `"transformer-app-state"` is the field `storage`, holding what `getItem` followed by `JSON.parse` yields. `stringify` then `parse` is taken to preserve an integer array and strings.
- Ill-typed JSON is not modelled, such as a non-array `selectedTransformers` or a non-string filter value. Text that parses to `null` counts as `Malformed`, because reading a field of `null` throws into the same catch. A parsed primitive counts as a snapshot with every field missing.
- Exceptions from `localStorage.getItem` or `setItem` (quota, security) are not modelled. Saving is treated as infallible.
- `console.warn` on a malformed value is logging only.
- Vue and Pinia reactivity are not modelled: `ref`, `computed` memoisation, and the `defineStore` singleton. Getters are functions recomputed on demand. Consumers writing the exposed refs directly is not modelled.
- async/await is not modelled. `LoadTransformers` runs start to finish, so `isLoading == true` during the fetch is not observable in the model.
- `Strings.Lower` lower-cases ASCII letters only, where `toLowerCase` covers all of Unicode.
- `Strings.Below` compares Dafny characters (Unicode scalar values). The default `sort` compares UTF-16 code units, and the two orders differ only between supplementary-plane characters and U+E000–U+FFFF.
- `assetId` is an unbounded integer. JavaScript numbers are doubles; NaN, -0 and fractional ids are not modelled.
- `deselectAllTransformers` clears the existing Set in place (line 104), where the model assigns an empty sequence. Aliasing of that Set object is not modelled.
- `Store.TransformerStore.LoadTransformers` leaves out two failures that happen after line 73 has already replaced the catalog. The first is `data.map` at line 76 throwing on a payload that is not an array of records. The second is `localStorage.getItem` at line 142 throwing when storage is disabled; here every id is already selected too. In both, the catch at line 80 records the error but keeps the new catalog. The model types the payload as records and treats storage reads as infallible, so its failure paths all happen before the catalog changes.
- `Store.CaughtMessage` and `Store.FailureMessage` carry no contract of their own. The messages they produce are stated by `LoadTransformers`.
- From `src/types/transformer.ts`, `VoltageReading`, the `lastTenVoltgageReadings` payload, `TransformerData`, `ChartDataPoint` and `ChartDataset` are not part of this model. The store never reads them.
