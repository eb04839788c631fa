/** Examples on a two-record catalog: search, region and health filters, facets, and loads over a stored and a malformed snapshot. */
module Scenarios {
  import opened Wrappers
  import opened Seqs
  import opened Strings
  import opened TransformerTypes
  import opened Getters
  import opened Persistence
  import opened Store

  function Alpha(): Transformer { Transformer(1, "Alpha", "North", Good) }
  function Beta(): Transformer { Transformer(2, "Beta", "South", Poor) }

  /** A needle whose first character does not occur in the text is not contained in it. */
  lemma {:induction false} FirstCharMissing(hay: string, needle: string)
    requires needle != [] && needle[0] !in hay
    ensures !Contains(hay, needle)
    decreases |hay|
  {
    if hay != [] {
      FirstCharMissing(hay[1..], needle);
    }
  }

  /** "alp" occurs in the lower-cased name of the first record. */
  lemma AlpHitsAlpha()
    ensures SearchHit(Alpha(), "alp")
  {
    assert Lower("Alpha") == "alpha";
    assert "alp" <= "alpha";
  }

  /** The lower-cased name and region of the second record. */
  lemma LowerNames()
    ensures Lower("Beta") == "beta" && Lower("South") == "south"
  {
  }

  /** "alp" does not occur in "beta". */
  lemma AlpNotInBeta()
    ensures !Contains("beta", "alp")
  {
    assert "beta"[1..] == "eta" && "eta"[1..] == "ta";
    assert "beta"[0] != "alp"[0] && "eta"[0] != "alp"[0];
    TooShort("ta", "alp");
  }

  /** A needle longer than the text is not contained in it. */
  lemma {:induction false} TooShort(hay: string, needle: string)
    requires |hay| < |needle|
    ensures !Contains(hay, needle)
    decreases |hay|
  {
    if hay != [] {
      TooShort(hay[1..], needle);
    }
  }

  /** "alp" does not occur in "south". */
  lemma AlpNotInSouth()
    ensures !Contains("south", "alp")
  {
    FirstCharMissing("south", "alp");
  }

  /** "alp" occurs in neither the name nor the region of the second record. */
  lemma AlpMissesBeta()
    ensures !SearchHit(Beta(), "alp")
  {
    LowerNames();
    AlpNotInBeta();
    AlpNotInSouth();
    assert SearchHit(Beta(), "alp") == (Contains("beta", "alp") || Contains("south", "alp"));
  }

  /** The search "alp" keeps exactly the first record. */
  lemma SearchExample()
    ensures FilteredTransformers([Alpha(), Beta()], "alp", "", "") == [Alpha()]
  {
    assert Lower("alp") == "alp";
    AlpHitsAlpha();
    AlpMissesBeta();
    var keep := SearchStage("alp");
    assert Where([Beta()], keep) == [];
    assert Where([Alpha(), Beta()], keep) == [Alpha()] + Where([Beta()], keep);
  }

  /** The region filter alone, and region and health filters together (AND). */
  lemma RegionHealthExamples()
    ensures FilteredTransformers([Alpha(), Beta()], "", "South", "") == [Beta()]
    ensures FilteredTransformers([Alpha(), Beta()], "", "South", "Poor") == [Beta()]
    ensures FilteredTransformers([Alpha(), Beta()], "", "North", "Poor") == []
  {
    var south := RegionStage("South");
    assert Where([Beta()], south) == [Beta()] + Where([], south);
    assert Where([Alpha(), Beta()], south) == Where([Beta()], south);
    var poor := HealthStage("Poor");
    assert Where([Beta()], poor) == [Beta()] + Where([], poor);
    var north := RegionStage("North");
    assert Where([Beta()], north) == Where([], north);
    assert Where([Alpha(), Beta()], north) == [Alpha()] + Where([Beta()], north);
    assert Where([Alpha()], poor) == Where([], poor);
  }

  /** The region facet of the example catalog. */
  lemma RegionFacet()
    ensures AvailableRegions([Alpha(), Beta()]) == ["North", "South"]
  {
    var catalog := [Alpha(), Beta()];
    assert Below("North", "South");
    assert Regions(catalog) == ["North", "South"] by {
      assert Regions(catalog[1..]) == ["South"] + Regions(catalog[2..]);
    }
    SortedUnique(SortedDistinct(["North", "South"]), ["North", "South"]);
  }

  /** The health facet of the example catalog. */
  lemma HealthFacet()
    ensures AvailableHealthStatuses([Alpha(), Beta()]) == ["Good", "Poor"]
  {
    var catalog := [Alpha(), Beta()];
    assert Below("Good", "Poor");
    assert HealthNames(catalog) == ["Good", "Poor"] by {
      assert HealthNames(catalog[1..]) == ["Poor"] + HealthNames(catalog[2..]);
    }
    SortedUnique(SortedDistinct(["Good", "Poor"]), ["Good", "Poor"]);
  }

  /** The facets of the example catalog. */
  lemma FacetExamples()
    ensures AvailableRegions([Alpha(), Beta()]) == ["North", "South"]
    ensures AvailableHealthStatuses([Alpha(), Beta()]) == ["Good", "Poor"]
  {
    RegionFacet();
    HealthFacet();
  }

  /**
   * A stored snapshot selecting only id 2 with region "North" and empty
   * search and health strings, restored after loading the example catalog.
   */
  method LoadOverStoredSnapshot() returns (selection: seq<int>, search: string, region: string, health: string)
    ensures selection == [2] && region == "North" && search == "" && health == ""
  {
    var stored := Parsed(Snapshot(Some([2]), Some(""), Some("North"), Some("")));
    var store := new TransformerStore(stored);
    store.LoadTransformers(Ok([Alpha(), Beta()]));
    assert Dedup([2]) == [2];
    selection, search, region, health :=
      store.selectedTransformers, store.searchQuery, store.regionFilter, store.healthFilter;
  }

  /** Malformed stored text: the load keeps every record selected and the filters empty. */
  method LoadOverMalformedSnapshot() returns (selected: seq<Transformer>, search: string, region: string, health: string)
    ensures selected == [Alpha(), Beta()] && region == "" && search == "" && health == ""
  {
    var store := new TransformerStore(Malformed);
    store.LoadTransformers(Ok([Alpha(), Beta()]));
    selected := SelectedTransformerData(store.transformers, store.selectedTransformers);
    search, region, health := store.searchQuery, store.regionFilter, store.healthFilter;
  }
}
