/**
 * The off-flavor search of the backup application (`/search`): the records
 * having an off-flavor exactly equal to one of the comma-separated terms.
 */
module Search {
  import opened Text
  import opened OrderedMap
  import opened Defects
  import opened Requests
  import Troubleshoot

  /**
   * The query's comma-separated pieces, each stripped. Unlike the troubleshooting
   * guide there is no guard for an empty query: "" gives the single term "".
   */
  function SearchTerms(query: string): (terms: seq<string>)
    ensures |terms| == Count(query, ',') + 1
    ensures query == "" ==> terms == [""]
  {
    SplitPieces(query, ',');
    StripAll(Split(query, ','))
  }

  /** Some term equals one of the record's lower-cased off-flavors. */
  predicate AnyTermMatches(terms: seq<string>, d: Defect) {
    exists q :: q in terms && HasOffFlavor(d, q)
  }

  /** The dict comprehension over the catalog: the matching entries, in catalog order. */
  function SearchCatalog(entries: Dict<Defect>, terms: seq<string>): (r: Dict<Defect>)
    ensures |r| <= |entries|
  {
    if entries == [] then []
    else (if AnyTermMatches(terms, entries[0].1) then [entries[0]] else []) + SearchCatalog(entries[1..], terms)
  }

  /**
   * The search is the off-flavor half of the troubleshooting filter: for
   * a non-empty term list it selects what the filter with no stage selects.
   */
  lemma {:induction false} SearchIsFlavorFilter(entries: Dict<Defect>, terms: seq<string>)
    requires terms != []
    ensures SearchCatalog(entries, terms) == Troubleshoot.Filter(entries, "", terms)
  {
    if entries != [] {
      SearchIsFlavorFilter(entries[1..], terms);
    }
  }

  /**
   * A record is found if and only if some term equals one of its
   * lower-cased off-flavors; the result keeps catalog order and names.
   */
  lemma SearchMembers(entries: Dict<Defect>, terms: seq<string>)
    requires terms != []
    ensures forall e :: e in SearchCatalog(entries, terms) <==> e in entries && AnyTermMatches(terms, e.1)
    ensures IsSubsequence(SearchCatalog(entries, terms), entries)
    ensures DistinctKeys(entries) ==> DistinctKeys(SearchCatalog(entries, terms))
  {
    SearchIsFlavorFilter(entries, terms);
    Troubleshoot.FilterMembers(entries, "", terms);
    Troubleshoot.FilterSubsequence(entries, "", terms);
    if DistinctKeys(entries) {
      Troubleshoot.FilterDistinct(entries, "", terms);
    }
  }

  /** The term "" finds nothing when no record has an empty off-flavor. */
  lemma {:induction false} EmptyTermFindsNothing(entries: Dict<Defect>)
    requires forall e :: e in entries ==> "" !in e.1.OffFlavorList()
    ensures SearchCatalog(entries, [""]) == []
  {
    if entries != [] {
      var d := entries[0].1;
      assert entries[0] in entries;
      HasOffFlavorIff(d, "");
      forall k | 0 <= k < |d.OffFlavorList()| ensures ToLower(d.OffFlavorList()[k]) != "" {
        assert d.OffFlavorList()[k] in d.OffFlavorList();
      }
      assert !AnyTermMatches([""], d);
      EmptyTermFindsNothing(entries[1..]);
    }
  }

  /** A blank or white-space-only query normalises to "", whose only term is "". */
  lemma BlankQueryTerms(form: map<string, string>)
    requires AllSpace(FormGet(form, "query"))
    ensures NormalizedField(form, "query") == ""
    ensures SearchTerms(NormalizedField(form, "query")) == [""]
  {
    StripAllSpace(FormGet(form, "query"));
  }

  /**
   * A query already in normal form (no white space at its ends, no capital)
   * and without a comma is its own single search term.
   */
  lemma PlainQueryTerms(form: map<string, string>)
    requires var q := FormGet(form, "query");
      q != [] && !IsSpace(q[0]) && !IsSpace(q[|q| - 1]) && ',' !in q &&
      forall k :: 0 <= k < |q| ==> !IsUpper(q[k])
    ensures NormalizedField(form, "query") == FormGet(form, "query")
    ensures SearchTerms(NormalizedField(form, "query")) == [FormGet(form, "query")]
  {
    var q := FormGet(form, "query");
    StripUntrimmed(q);
    LowerOfLower(q);
    SplitNoSep(q, ',');
  }

  /** What the search page shows: the normalised query and the matches. */
  datatype SearchPage = SearchPage(query: string, matches: Dict<Defect>)

  /**
   * `search_defects()`. A GET shows an empty form and no matches. A POST
   * strips and lower-cases the query and returns exactly the catalog entries
   * with an off-flavor equal to one of its terms, in catalog order.
   */
  function SearchDefects(catalog: Catalog, request: Request): (page: SearchPage)
    ensures request.Get? ==> page == SearchPage("", [])
    ensures request.Post? ==> page.query == NormalizedField(request.form, "query")
    ensures forall e :: e in page.matches <==>
      request.Post? && e in catalog && AnyTermMatches(SearchTerms(page.query), e.1)
    ensures DistinctKeys(page.matches) && IsSubsequence(page.matches, catalog)
  {
    match request
    case Get => SearchPage("", [])
    case Post(form) =>
      var query := NormalizedField(form, "query");
      SearchMembers(catalog, SearchTerms(query));
      SearchPage(query, SearchCatalog(catalog, SearchTerms(query)))
  }
}
