/**
 * The store's derived views: the filtered list, the region and health facets
 * and the selected records. Each is a function of the fields it reads; the
 * facets take only the catalog, so no filter can influence them.
 */
module Getters {
  import opened Seqs
  import opened Strings
  import opened TransformerTypes

  /** The search test on one record, for a query that is already lower-cased. */
  predicate SearchHit(t: Transformer, query: string)
    ensures query == "" ==> SearchHit(t, query)
    ensures SearchHit(t, query) ==> |query| <= |t.name| || |query| <= |t.region|
  {
    Contains(Lower(t.name), query) || Contains(Lower(t.region), query)
  }

  /** The search stage's test, for a query that is already lower-cased. */
  function SearchStage(query: string): Transformer -> bool {
    (t: Transformer) => SearchHit(t, query)
  }

  /** The region stage's test: exact, case-sensitive equality. */
  function RegionStage(regionFilter: string): Transformer -> bool {
    (t: Transformer) => t.region == regionFilter
  }

  /** The health stage's test: the health value's name equals the filter string. */
  function HealthStage(healthFilter: string): Transformer -> bool {
    (t: Transformer) => HealthName(t.health) == healthFilter
  }

  /**
   * `filteredTransformers`: the search, region and health stages in that
   * order, each skipped when its filter string is empty.
   */
  function FilteredTransformers(catalog: seq<Transformer>, searchQuery: string,
                                regionFilter: string, healthFilter: string): (r: seq<Transformer>)
    ensures |r| <= |catalog|
    ensures forall t :: t in r <==> t in catalog && Matches(t, searchQuery, regionFilter, healthFilter)
  {
    var afterSearch :=
      if searchQuery != "" then Where(catalog, SearchStage(Lower(searchQuery))) else catalog;
    var afterRegion :=
      if regionFilter != "" then Where(afterSearch, RegionStage(regionFilter)) else afterSearch;
    if healthFilter != "" then Where(afterRegion, HealthStage(healthFilter)) else afterRegion
  }

  /** The three criteria together; an empty filter string places no constraint. */
  predicate Matches(t: Transformer, searchQuery: string, regionFilter: string, healthFilter: string)
  {
    && (searchQuery == "" || SearchHit(t, Lower(searchQuery)))
    && (regionFilter == "" || t.region == regionFilter)
    && (healthFilter == "" || HealthName(t.health) == healthFilter)
  }

  /**
   * Every health literal is non-empty, so choosing a health value as the
   * filter always engages the health stage: alone, it keeps exactly the
   * records of that health.
   */
  lemma HealthFilterSelects(catalog: seq<Transformer>, h: Health)
    ensures forall t :: t in FilteredTransformers(catalog, "", "", HealthName(h)) <==> t in catalog && t.health == h
  {
  }

  /** The staged filter is one filter by the conjunction of the three criteria. */
  lemma FilteredIsConjunction(catalog: seq<Transformer>, searchQuery: string,
                              regionFilter: string, healthFilter: string)
    ensures FilteredTransformers(catalog, searchQuery, regionFilter, healthFilter)
         == Where(catalog, t => Matches(t, searchQuery, regionFilter, healthFilter))
  {
    var p1 := (t: Transformer) => searchQuery == "" || SearchHit(t, Lower(searchQuery));
    var p2 := (t: Transformer) => regionFilter == "" || t.region == regionFilter;
    var p3 := (t: Transformer) => healthFilter == "" || HealthName(t.health) == healthFilter;
    var p12 := (t: Transformer) => p1(t) && p2(t);
    var all := (t: Transformer) => Matches(t, searchQuery, regionFilter, healthFilter);
    var a := if searchQuery != "" then Where(catalog, SearchStage(Lower(searchQuery))) else catalog;
    var b := if regionFilter != "" then Where(a, RegionStage(regionFilter)) else a;
    WhereWhenOn(catalog, searchQuery != "", SearchStage(Lower(searchQuery)), p1);
    WhereWhenOn(a, regionFilter != "", RegionStage(regionFilter), p2);
    WhereWhenOn(b, healthFilter != "", HealthStage(healthFilter), p3);
    WhereFuse(catalog, p1, p2, p12);
    WhereFuse(catalog, p12, p3, all);
  }

  /** With every filter empty the filtered list is the catalog itself. */
  lemma FilteredIdentity(catalog: seq<Transformer>)
    ensures FilteredTransformers(catalog, "", "", "") == catalog
  {
  }

  /**
   * A record is in the filtered list exactly when it is in the catalog and
   * meets every active criterion; the list keeps catalog order, and a
   * duplicate-free catalog gives a duplicate-free list.
   */
  lemma FilteredSpec(catalog: seq<Transformer>, searchQuery: string,
                     regionFilter: string, healthFilter: string)
    ensures var r := FilteredTransformers(catalog, searchQuery, regionFilter, healthFilter);
      && SubsequenceOf(r, catalog)
      && (NoDup(catalog) ==> NoDup(r))
      && forall t :: t in r <==> t in catalog && Matches(t, searchQuery, regionFilter, healthFilter)
  {
    var keep := (t: Transformer) => Matches(t, searchQuery, regionFilter, healthFilter);
    FilteredIsConjunction(catalog, searchQuery, regionFilter, healthFilter);
    WhereIsSubsequence(catalog, keep);
    if NoDup(catalog) {
      WhereNoDup(catalog, keep);
    }
  }

  /** The search ignores the letter case of the query. */
  lemma SearchIgnoresQueryCase(catalog: seq<Transformer>, searchQuery: string,
                               regionFilter: string, healthFilter: string)
    ensures FilteredTransformers(catalog, Lower(searchQuery), regionFilter, healthFilter)
         == FilteredTransformers(catalog, searchQuery, regionFilter, healthFilter)
  {
    LowerIdempotent(searchQuery);
    if searchQuery != "" {
      assert Lower(searchQuery) != "";
    } else {
      assert Lower(searchQuery) == "";
    }
  }

  /** `catalog.map(t => t.region)`. */
  function Regions(catalog: seq<Transformer>): (r: seq<string>)
    ensures forall v :: v in r <==> exists t :: t in catalog && t.region == v
  {
    if catalog == [] then [] else [catalog[0].region] + Regions(catalog[1..])
  }

  /** `catalog.map(t => t.health)`, as strings. */
  function HealthNames(catalog: seq<Transformer>): (r: seq<string>)
    ensures forall v :: v in r <==> exists t :: t in catalog && HealthName(t.health) == v
  {
    if catalog == [] then [] else [HealthName(catalog[0].health)] + HealthNames(catalog[1..])
  }

  /** `catalog.map((t: Transformer) => t.assetId)`. */
  function Ids(catalog: seq<Transformer>): (r: seq<int>)
    ensures forall id :: id in r <==> exists t :: t in catalog && t.assetId == id
  {
    if catalog == [] then [] else [catalog[0].assetId] + Ids(catalog[1..])
  }

  /** `Array.from(new Set(values)).sort()`. */
  function SortedDistinct(values: seq<string>): (r: seq<string>)
    ensures StrictlySorted(r) && NoDup(r)
    ensures forall v :: v in r <==> v in values
  {
    var distinct := Dedup(values);
    SortStrictlySorted(distinct);
    StrictlySortedNoDup(Sort(distinct));
    Sort(distinct)
  }

  /** `availableRegions`: each region of the unfiltered catalog once, in sorted order. */
  function AvailableRegions(catalog: seq<Transformer>): (r: seq<string>)
    ensures StrictlySorted(r) && NoDup(r)
    ensures forall v :: v in r <==> exists t :: t in catalog && t.region == v
  {
    SortedDistinct(Regions(catalog))
  }

  /** `availableHealthStatuses`: each health name of the unfiltered catalog once, in sorted order. */
  function AvailableHealthStatuses(catalog: seq<Transformer>): (r: seq<string>)
    ensures StrictlySorted(r) && NoDup(r)
    ensures forall v :: v in r <==> exists t :: t in catalog && HealthName(t.health) == v
  {
    SortedDistinct(HealthNames(catalog))
  }

  /** `selectedTransformerData`: the catalog records whose id is selected, in catalog order. */
  function SelectedTransformerData(catalog: seq<Transformer>, selection: seq<int>): (r: seq<Transformer>)
    ensures |r| <= |catalog|
    ensures forall t :: t in r <==> t in catalog && t.assetId in selection
  {
    Where(catalog, (t: Transformer) => t.assetId in selection)
  }

  /**
   * Exactly the catalog records whose id is selected, in catalog order;
   * selected ids that no record carries contribute nothing.
   */
  lemma SelectedSpec(catalog: seq<Transformer>, selection: seq<int>)
    ensures var r := SelectedTransformerData(catalog, selection);
      && SubsequenceOf(r, catalog)
      && (forall t :: t in r <==> t in catalog && t.assetId in selection)
      && (forall id :: id in selection && id !in Ids(catalog) ==> forall t :: t in r ==> t.assetId != id)
  {
    WhereIsSubsequence(catalog, (t: Transformer) => t.assetId in selection);
  }

  /** Selecting every catalog id selects the whole catalog, in order. */
  lemma SelectAllSelectsCatalog(catalog: seq<Transformer>)
    ensures SelectedTransformerData(catalog, Dedup(Ids(catalog))) == catalog
  {
    var selection := Dedup(Ids(catalog));
    forall t | t in catalog ensures t.assetId in selection {
      assert t.assetId in Ids(catalog);
    }
    WhereKeepsAll(catalog, (t: Transformer) => t.assetId in selection);
  }

  /** An empty selection selects nothing. */
  lemma {:induction false} DeselectAllSelectsNothing(catalog: seq<Transformer>)
    ensures SelectedTransformerData(catalog, []) == []
  {
    if catalog != [] {
      DeselectAllSelectsNothing(catalog[1..]);
    }
  }
}
