/** The dashboard's catalog view: the records shown for a search term and a
    category tab, recomputed from scratch whenever either or the loaded
    catalog changes. */
module Filtering {
  import opened Seqs
  import opened Text
  import opened Catalog

  /** The category tab that switches the category filter off. */
  const All := "All"

  /** The tabs offered above the catalog, in display order. */
  const CategoryTabs: seq<string> := [All] + Categories

  /** Case-insensitive search over name or description. */
  predicate MatchesSearch(sw: Software, term: string) {
    Includes(ToLower(sw.name), ToLower(term)) || Includes(ToLower(sw.description), ToLower(term))
  }

  function InCategory(category: string): Software -> bool {
    (sw: Software) => sw.category == category
  }

  function MatchingSearch(term: string): Software -> bool {
    (sw: Software) => MatchesSearch(sw, term)
  }

  /** The view as the dashboard computes it: first the category filter
      (skipped for "All"), then the search filter (skipped for an empty term). */
  function FilterSoftware(software: seq<Software>, searchTerm: string, category: string): (view: seq<Software>)
    ensures forall i :: 0 <= i < |view| ==> category != All ==> view[i].category == category
    ensures forall i :: 0 <= i < |view| ==> searchTerm != [] ==> MatchesSearch(view[i], searchTerm)
    ensures forall sw :: sw in view ==> sw in software
    ensures forall sw :: sw in software && Visible(sw, searchTerm, category) ==> sw in view
  {
    var byCategory := if category != All then Filter(InCategory(category), software) else software;
    assert forall sw :: sw in byCategory ==> sw in software;
    assert forall sw :: sw in software && Visible(sw, searchTerm, category) ==> sw in byCategory;
    if searchTerm != [] then Filter(MatchingSearch(searchTerm), byCategory) else byCategory
  }

  /** The view's defining condition, stated on one record: the record is in
      the selected category (or the tab is "All") and the term is empty or
      found in its name or description. */
  predicate Visible(sw: Software, term: string, category: string) {
    (category == All || sw.category == category) && (term == [] || MatchesSearch(sw, term))
  }

  function VisibleUnder(term: string, category: string): Software -> bool {
    (sw: Software) => Visible(sw, term, category)
  }

  /** The two-stage computation is a single filter by `Visible`. */
  lemma FilterSoftwareIsOnePass(software: seq<Software>, term: string, category: string)
    ensures FilterSoftware(software, term, category) == Filter(VisibleUnder(term, category), software)
  {
    var v := VisibleUnder(term, category);
    if category != All && term != [] {
      FilterThenFilter(InCategory(category), MatchingSearch(term), v, software);
    } else if category != All {
      FilterExtensional(InCategory(category), v, software);
    } else if term != [] {
      FilterExtensional(MatchingSearch(term), v, software);
    } else {
      FilterKeepsAllIff(v, software);
    }
  }

  /** The view keeps the catalog's relative order. */
  lemma FilterSoftwareIsSubseq(software: seq<Software>, term: string, category: string)
    ensures IsSubseq(FilterSoftware(software, term, category), software)
  {
    FilterSoftwareIsOnePass(software, term, category);
  }

  /** The view is the whole catalog exactly when every record is visible;
      in particular with the "All" tab and an empty search. */
  lemma FilterSoftwareKeepsAllIff(software: seq<Software>, term: string, category: string)
    ensures FilterSoftware(software, term, category) == software
        <==> forall i :: 0 <= i < |software| ==> Visible(software[i], term, category)
    ensures FilterSoftware(software, [], All) == software
  {
    FilterSoftwareIsOnePass(software, term, category);
    FilterKeepsAllIff(VisibleUnder(term, category), software);
  }

  /** Filtering the view again with the same term and tab changes nothing. */
  lemma FilterSoftwareIdempotent(software: seq<Software>, term: string, category: string)
    ensures FilterSoftware(FilterSoftware(software, term, category), term, category)
         == FilterSoftware(software, term, category)
  {
    var view := FilterSoftware(software, term, category);
    FilterSoftwareIsOnePass(software, term, category);
    FilterSoftwareIsOnePass(view, term, category);
    FilterIdempotent(VisibleUnder(term, category), software);
  }

  /** The letter case of the search term does not matter. */
  lemma SearchIgnoresCase(software: seq<Software>, term: string, category: string)
    ensures FilterSoftware(software, ToLower(term), category) == FilterSoftware(software, term, category)
  {
    ToLowerIdempotent(term);
    forall sw ensures MatchesSearch(sw, ToLower(term)) == MatchesSearch(sw, term) {
    }
    FilterSoftwareIsOnePass(software, term, category);
    FilterSoftwareIsOnePass(software, ToLower(term), category);
    FilterExtensional(VisibleUnder(ToLower(term), category), VisibleUnder(term, category), software);
  }

  /** Every record of the static catalog lies under one of the tabs other
      than "All", so no record is unreachable by category. */
  lemma CatalogCategoriesHaveTabs()
    ensures forall i :: 0 <= i < |SoftwareData| ==> SoftwareData[i].category in CategoryTabs[1..]
  {
    CatalogShape();
    assert CategoryTabs[1..] == Categories;
  }
}
