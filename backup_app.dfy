/**
 * The backup application, `beer_defects_app_backup.py`: its three-entry
 * catalog and what the search, the grouped listing and the detail page give
 * for it.
 */
module BackupApp {
  import opened Wrappers
  import opened Text
  import opened OrderedMap
  import opened Defects
  import opened Requests
  import opened Search
  import opened Grouping

  // The records of `flavor_defects`, one constant each.

  const Diacetyl: Defect := Defect(
    chemicalMakeup := "2,3-butanedione",
    brewingStage := Some("Fermentation"),
    origins := "Insufficient yeast activity or bacterial contamination during fermentation.",
    offFlavors := Some(["Buttery", "Butterscotch"]),
    solutions := [
      "Perform a diacetyl rest during fermentation by raising the temperature slightly before cold-crashing.",
      "Ensure proper sanitation to avoid bacterial contamination.",
      "Pitch a healthy amount of yeast."
    ],
    prevention := Some([
      "Monitor fermentation closely and avoid premature racking or bottling.",
      "Use high-quality yeast and ensure adequate oxygenation before pitching."
    ]),
    learnMore := "https://beerandbrewing.com/off-flavor-diacetyl/",
    category := Some("Fermentation"))

  const Acetaldehyde: Defect := Defect(
    chemicalMakeup := "Ethanal",
    brewingStage := Some("Fermentation"),
    origins := "Incomplete fermentation or premature bottling/kegging.",
    offFlavors := Some(["Green Apple", "Raw Pumpkin"]),
    solutions := [
      "Allow the beer to fully ferment and condition before packaging.",
      "Increase the fermentation temperature slightly for lagers to allow yeast to clean up residual acetaldehyde."
    ],
    prevention := Some([
      "Give the beer adequate time for fermentation and conditioning.",
      "Avoid stress on the yeast by maintaining a consistent fermentation temperature."
    ]),
    learnMore := "https://beerandbrewing.com/off-flavor-acetaldehyde/",
    category := Some("Fermentation"))

  const DimethylSulfide: Defect := Defect(
    chemicalMakeup := "Dimethyl sulfide",
    brewingStage := Some("Boil"),
    origins := "Improper wort boil or rapid cooling, or bacterial contamination.",
    offFlavors := Some(["Cooked Corn", "Cabbage", "Vegetal"]),
    solutions := [
      "Ensure a vigorous boil to drive off DMS precursors.",
      "Cool the wort quickly after the boil to prevent further DMS formation."
    ],
    prevention := Some([
      "Avoid covering the boil kettle, which traps DMS.",
      "Use high-quality malt with lower DMS precursors."
    ]),
    learnMore := "https://beerandbrewing.com/off-flavor-dms/",
    category := Some("Boil"))

  /** `flavor_defects`, in its insertion order. */
  const FlavorDefects: Catalog := [
    ("Diacetyl", Diacetyl),
    ("Acetaldehyde", Acetaldehyde),
    ("DMS (Dimethyl Sulfide)", DimethylSulfide)
  ]

  /**
   * The three names, whatever the records. Several lemmas below take the
   * records as parameters `d0`, `d1`, `d2` with `Shaped` as a requires: the
   * fact is proved for any records under the three names and then applied
   * to the real ones, which keeps the records' long text out of the proof.
   */
  predicate Shaped(c: Dict<Defect>, d0: Defect, d1: Defect, d2: Defect) {
    c == [("Diacetyl", d0), ("Acetaldehyde", d1), ("DMS (Dimethyl Sulfide)", d2)]
  }

  /**
   * The catalog's names in insertion order, and the fields the queries read:
   * stages and categories, off-flavors and prevention lists all present.
   */
  lemma CatalogEntries()
    ensures Keys(FlavorDefects) == ["Diacetyl", "Acetaldehyde", "DMS (Dimethyl Sulfide)"]
    ensures [Diacetyl.Stage(), Acetaldehyde.Stage(), DimethylSulfide.Stage()] == ["Fermentation", "Fermentation", "Boil"]
    ensures [Diacetyl.CategoryName(), Acetaldehyde.CategoryName(), DimethylSulfide.CategoryName()] ==
      ["Fermentation", "Fermentation", "Boil"]
    ensures forall e :: e in FlavorDefects ==> e.1.offFlavors.Some? && e.1.prevention.Some?
  {
    NamesOfThree(FlavorDefects, Diacetyl, Acetaldehyde, DimethylSulfide);
  }

  lemma NamesOfThree(c: Dict<Defect>, d0: Defect, d1: Defect, d2: Defect)
    requires Shaped(c, d0, d1, d2)
    ensures Keys(c) == ["Diacetyl", "Acetaldehyde", "DMS (Dimethyl Sulfide)"]
  {
  }

  /** Diacetyl tastes "buttery". */
  lemma DiacetylButtery()
    ensures AnyTermMatches(["buttery"], Diacetyl)
  {
    LowerWord("Buttery", "buttery");
    assert LowerAll(Diacetyl.OffFlavorList())[0] == "buttery";
    assert HasOffFlavor(Diacetyl, "buttery");
  }

  /** Acetaldehyde's off-flavors are longer than "buttery". */
  lemma AcetaldehydeNotButtery()
    ensures !AnyTermMatches(["buttery"], Acetaldehyde)
  {
    HasOffFlavorIff(Acetaldehyde, "buttery");
  }

  /** The off-flavors of DMS are longer than "buttery" or start with another letter. */
  lemma DimethylSulfideNotButtery()
    ensures !AnyTermMatches(["buttery"], DimethylSulfide)
  {
    HasOffFlavorIff(DimethylSulfide, "buttery");
    assert ToLower("Cabbage")[0] == 'c' && ToLower("Vegetal")[0] == 'v';
  }

  /** No record of the catalog has an empty off-flavor. */
  lemma NoEmptyOffFlavor()
    ensures "" !in Diacetyl.OffFlavorList() && "" !in Acetaldehyde.OffFlavorList()
    ensures "" !in DimethylSulfide.OffFlavorList()
  {
  }

  /** The query "buttery", as typed into the search form. */
  lemma ButteryQuery(form: map<string, string>)
    requires form == map["query" := "buttery"]
    ensures SearchTerms(NormalizedField(form, "query")) == ["buttery"]
  {
    var q := FormGet(form, "query");
    assert q == "buttery";
    assert !IsSpace(q[0]) && !IsSpace(q[|q| - 1]);
    PlainQueryTerms(form);
  }

  lemma SearchFirstOfThree(c: Dict<Defect>, d0: Defect, d1: Defect, d2: Defect, terms: seq<string>)
    requires Shaped(c, d0, d1, d2)
    requires AnyTermMatches(terms, d0) && !AnyTermMatches(terms, d1) && !AnyTermMatches(terms, d2)
    ensures SearchCatalog(c, terms) == [("Diacetyl", d0)]
  {
    assert SearchCatalog(c[3..], terms) == [];
    assert SearchCatalog(c[2..], terms) == [];
    assert SearchCatalog(c[1..], terms) == [];
  }

  /** Searching "buttery" finds exactly Diacetyl. */
  lemma SearchButtery(form: map<string, string>)
    requires form == map["query" := "buttery"]
    ensures SearchDefects(FlavorDefects, Post(form)).matches == [("Diacetyl", Diacetyl)]
  {
    ButteryQuery(form);
    DiacetylButtery();
    AcetaldehydeNotButtery();
    DimethylSulfideNotButtery();
    SearchFirstOfThree(FlavorDefects, Diacetyl, Acetaldehyde, DimethylSulfide, ["buttery"]);
  }

  /**
   * An empty query is not rejected: it is split into the single term "",
   * which no record has as an off-flavor, so nothing is found.
   */
  lemma SearchEmpty(form: map<string, string>)
    requires form == map["query" := ""]
    ensures SearchDefects(FlavorDefects, Post(form)).matches == []
  {
    BlankQueryTerms(form);
    NoEmptyOffFlavor();
    EmptyTermFindsNothingOfThree(FlavorDefects, Diacetyl, Acetaldehyde, DimethylSulfide);
  }

  lemma EmptyTermFindsNothingOfThree(c: Dict<Defect>, d0: Defect, d1: Defect, d2: Defect)
    requires Shaped(c, d0, d1, d2)
    requires "" !in d0.OffFlavorList() && "" !in d1.OffFlavorList() && "" !in d2.OffFlavorList()
    ensures SearchCatalog(c, [""]) == []
  {
    EmptyTermFindsNothing(c);
  }

  /** The first entry opens the first group. */
  lemma GroupFirst(e0: (string, Defect))
    ensures Grouped([e0]) == [(e0.1.CategoryName(), [e0])]
  {
    assert Keys(Grouped([])) == [];
    GroupStepNew([], e0);
    assert [] + [e0] == [e0];
  }

  /** A second entry of the same category joins the first group. */
  lemma GroupSecondSame(e0: (string, Defect), e1: (string, Defect))
    requires e1.1.CategoryName() == e0.1.CategoryName()
    ensures Grouped([e0, e1]) == [(e0.1.CategoryName(), [e0, e1])]
  {
    GroupFirst(e0);
    assert Keys(Grouped([e0])) == [e0.1.CategoryName()];
    GroupStepSeen([e0], e1);
    assert [e0] + [e1] == [e0, e1];
  }

  /** A third entry of another category opens a second group after it. */
  lemma GroupThirdNew(e0: (string, Defect), e1: (string, Defect), e2: (string, Defect))
    requires e1.1.CategoryName() == e0.1.CategoryName() != e2.1.CategoryName()
    ensures Grouped([e0, e1, e2]) ==
      [(e0.1.CategoryName(), [e0, e1]), (e2.1.CategoryName(), [e2])]
  {
    GroupSecondSame(e0, e1);
    assert Keys(Grouped([e0, e1])) == [e0.1.CategoryName()];
    GroupStepNew([e0, e1], e2);
    assert [e0, e1] + [e2] == [e0, e1, e2];
  }

  lemma GroupThree(c: Dict<Defect>, d0: Defect, d1: Defect, d2: Defect)
    requires Shaped(c, d0, d1, d2)
    requires d0.CategoryName() == "Fermentation" && d1.CategoryName() == "Fermentation"
    requires d2.CategoryName() == "Boil"
    ensures Grouped(c) == [("Fermentation", [c[0], c[1]]), ("Boil", [c[2]])]
  {
    assert "Boil" != "Fermentation";
    GroupThirdNew(c[0], c[1], c[2]);
    assert [c[0], c[1], c[2]] == c;
  }

  /**
   * The grouped listing shows Fermentation (Diacetyl, then Acetaldehyde)
   * and then Boil (DMS), the order in which the categories first occur.
   */
  lemma ListedGroups()
    ensures Grouped(FlavorDefects) == [
      ("Fermentation", [("Diacetyl", Diacetyl), ("Acetaldehyde", Acetaldehyde)]),
      ("Boil", [("DMS (Dimethyl Sulfide)", DimethylSulfide)])]
  {
    GroupThree(FlavorDefects, Diacetyl, Acetaldehyde, DimethylSulfide);
  }

  lemma LookupsOfThree(c: Catalog, d0: Defect, d1: Defect, d2: Defect)
    requires Shaped(c, d0, d1, d2)
    ensures DefectDetail(c, "DMS (Dimethyl Sulfide)") == DetailPage("DMS (Dimethyl Sulfide)", d2)
    ensures DefectDetail(c, "Oxidation") == NotFound("Defect not found", 404)
  {
    DetailOfPresent(c, 2);
    DetailOfAbsent(c, "Oxidation");
  }

  /**
   * The detail page of "DMS (Dimethyl Sulfide)" shows its record; Oxidation,
   * which only the primary catalog has, is not found here.
   */
  lemma DetailLookups()
    ensures DefectDetail(FlavorDefects, "DMS (Dimethyl Sulfide)") == DetailPage("DMS (Dimethyl Sulfide)", DimethylSulfide)
    ensures DefectDetail(FlavorDefects, "Oxidation") == NotFound("Defect not found", 404)
  {
    LookupsOfThree(FlavorDefects, Diacetyl, Acetaldehyde, DimethylSulfide);
  }
}
