/**
 * The defect catalog: an insertion-ordered dictionary from a unique defect
 * name to its record, and the single-defect page's lookup.
 */
module Defects {
  import opened Wrappers
  import opened Text
  import opened OrderedMap

  /**
   * One defect record. The fields that the code reads with a default
   * (looked up with a fallback value) or that a record may lack ("Prevention" is missing
   * from Oxidation in the primary catalog) are optional.
   */
  datatype Defect = Defect(
    chemicalMakeup: string,
    brewingStage: Option<string>,
    origins: string,
    offFlavors: Option<seq<string>>,
    solutions: seq<string>,
    prevention: Option<seq<string>>,
    learnMore: string,
    category: Option<string>)
  {
    /** The brewing stage, or "" when the record has none. */
    function Stage(): string {
      brewingStage.GetOr("")
    }

    /** The off-flavor list, or no off-flavors when the record has none. */
    function OffFlavorList(): seq<string> {
      offFlavors.GetOr([])
    }

    /** The category, or "Uncategorized" when the record has none. */
    function CategoryName(): string {
      category.GetOr("Uncategorized")
    }
  }

  /** The catalog is a dict literal, so its names are distinct. */
  type Catalog = c: Dict<Defect> | DistinctKeys(c)

  /**
   * The off-flavor membership test: the term is
   * exactly equal to one of the record's lower-cased off-flavors.
   */
  predicate HasOffFlavor(d: Defect, term: string) {
    term in LowerAll(d.OffFlavorList())
  }

  /** HasOffFlavor is whole-string equality, position by position. */
  lemma HasOffFlavorIff(d: Defect, term: string)
    ensures HasOffFlavor(d, term) <==>
      exists k :: 0 <= k < |d.OffFlavorList()| && ToLower(d.OffFlavorList()[k]) == term
  {
    var l := LowerAll(d.OffFlavorList());
    if HasOffFlavor(d, term) {
      var k :| 0 <= k < |l| && l[k] == term;
      assert ToLower(d.OffFlavorList()[k]) == term;
    } else {
      forall k | 0 <= k < |l| ensures ToLower(d.OffFlavorList()[k]) != term {
        assert l[k] == ToLower(d.OffFlavorList()[k]);
      }
    }
  }

  const NotFoundStatus: int := 404
  const NotFoundBody: string := "Defect not found"

  /** What `/defect/<name>` answers: the detail page of a record, or the 404 outcome. */
  datatype DetailResponse =
    | DetailPage(name: string, defect: Defect)
    | NotFound(body: string, status: int)

  /**
   * `defect_detail(name)`: a case-sensitive exact lookup. A record is never
   * an empty dict, so `if defect:` is true exactly when the name is present.
   */
  function DefectDetail(catalog: Catalog, name: string): (r: DetailResponse)
    ensures r.NotFound? <==> name !in Keys(catalog)
    ensures r.NotFound? ==> r.body == "Defect not found" && r.status == 404
    ensures r.DetailPage? ==> r.name == name && (name, r.defect) in catalog
  {
    match Get(catalog, name)
    case Some(d) => DetailPage(name, d)
    case None => NotFound(NotFoundBody, NotFoundStatus)
  }

  /** A present name yields exactly the record stored under it. */
  lemma DetailOfPresent(catalog: Catalog, i: nat)
    requires i < |catalog|
    ensures DefectDetail(catalog, catalog[i].0) == DetailPage(catalog[i].0, catalog[i].1)
  {
    GetStored(catalog, i);
  }

  /** An absent name yields the not-found outcome with status 404. */
  lemma DetailOfAbsent(catalog: Catalog, name: string)
    requires forall i :: 0 <= i < |catalog| ==> catalog[i].0 != name
    ensures DefectDetail(catalog, name) == NotFound("Defect not found", 404)
  {
  }
}
