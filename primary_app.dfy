/**
 * The primary application, `beer_defects_app.py`: its eight-entry catalog
 * and what the troubleshooting guide and the detail page give for it.
 */
module PrimaryApp {
  import opened Wrappers
  import opened Text
  import opened OrderedMap
  import opened Defects
  import opened Troubleshoot

  // The records of `flavor_defects`, one constant each.

  const Diacetyl: Defect := Defect(
    chemicalMakeup := "2,3-butanedione",
    brewingStage := Some("Fermentation"),
    origins := "Insufficient yeast activity or bacterial contamination during fermentation.",
    offFlavors := Some(["Buttery", "Butterscotch"]),
    solutions := [
      "Perform a diacetyl rest during fermentation by raising the temperature slightly before cold-crashing.",
      "Ensure proper sanitation to avoid bacterial contamination.",
      "Pitch a healthy amount of yeast."
    ],
    prevention := Some([
      "Monitor fermentation closely and avoid premature racking or bottling.",
      "Use high-quality yeast and ensure adequate oxygenation before pitching."
    ]),
    learnMore := "https://beerandbrewing.com/off-flavor-diacetyl/",
    category := Some("Fermentation"))

  const Phenolic: Defect := Defect(
    chemicalMakeup := "Phenols",
    brewingStage := Some("Fermentation"),
    origins := "Wild yeast contamination, improper yeast strain selection, or chlorine in water.",
    offFlavors := Some(["Medicinal", "Band-Aid", "Clove"]),
    solutions := [
      "Sanitize all equipment thoroughly to avoid wild yeast contamination.",
      "Filter or treat brewing water to remove chlorine or chloramines."
    ],
    prevention := Some([
      "Use appropriate yeast strains for the desired beer style.",
      "Perform proper cleaning and sanitation."
    ]),
    learnMore := "https://beerandbrewing.com/off-flavor-phenolic/",
    category := Some("Fermentation"))

  const Oxidation: Defect := Defect(
    chemicalMakeup := "Various oxidative compounds",
    brewingStage := Some("Packaging and Storage"),
    origins := "Exposure to oxygen during or after fermentation.",
    offFlavors := Some(["Papery", "Cardboard", "Stale"]),
    solutions := [
      "Minimize oxygen exposure during packaging and storage.",
      "Purge oxygen from containers with CO2 before filling."
    ],
    prevention := None,
    learnMore := "https://beerandbrewing.com/off-flavor-oxidation/",
    category := Some("Packaging"))

  const Metallic: Defect := Defect(
    chemicalMakeup := "Iron, copper, or other metal ions",
    brewingStage := Some("Water and Equipment"),
    origins := "Exposure to metal equipment, poor water quality, or contaminated ingredients.",
    offFlavors := Some(["Metallic", "Blood-like", "Tinny"]),
    solutions := [
      "Check brewing equipment for corrosion or metal exposure.",
      "Use a water filter to remove metallic ions."
    ],
    prevention := Some([
      "Avoid using old or corroded metal equipment.",
      "Monitor water quality and filter as needed."
    ]),
    learnMore := "https://beerandbrewing.com/off-flavor-metallic/",
    category := Some("Water"))

  const Astringency: Defect := Defect(
    chemicalMakeup := "Polyphenols, tannins",
    brewingStage := Some("Mashing/Sparging"),
    origins := "Over-sparging, over-crushing grains, or excessive steeping of specialty grains.",
    offFlavors := Some(["Tart", "Dry", "Puckering"]),
    solutions := [
      "Avoid over-sparging or using excessively hot water during sparging.",
      "Use proper grain-crushing techniques."
    ],
    prevention := Some([
      "Monitor sparge water temperature and pH.",
      "Steep specialty grains at appropriate temperatures."
    ]),
    learnMore := "https://beerandbrewing.com/off-flavor-astringency/",
    category := Some("Mashing"))

  const Alcoholic: Defect := Defect(
    chemicalMakeup := "Ethanol and fusel alcohols",
    brewingStage := Some("Fermentation"),
    origins := "High fermentation temperatures or excessive fermentation stress.",
    offFlavors := Some(["Hot", "Solvent-like"]),
    solutions := [
      "Control fermentation temperatures within the yeast's recommended range.",
      "Pitch an adequate amount of yeast to avoid stress."
    ],
    prevention := Some([
      "Ferment at the proper temperature for the yeast strain.",
      "Avoid under-pitching yeast."
    ]),
    learnMore := "https://beerandbrewing.com/off-flavor-alcoholic/",
    category := Some("Fermentation"))

  const Chlorophenolic: Defect := Defect(
    chemicalMakeup := "Chlorophenols",
    brewingStage := Some("Water and Equipment"),
    origins := "Chlorine or chloramine in brewing water or sanitizers.",
    offFlavors := Some(["Plastic", "Medicinal", "Band-Aid"]),
    solutions := [
      "Use filtered or treated water to remove chlorine or chloramine.",
      "Rinse equipment thoroughly after sanitizing."
    ],
    prevention := Some([
      "Use brewing water free of chlorine or chloramines.",
      "Sanitize carefully and rinse thoroughly."
    ]),
    learnMore := "https://beerandbrewing.com/off-flavor-chlorophenolic/",
    category := Some("Water"))

  const Sourness: Defect := Defect(
    chemicalMakeup := "Lactic acid, acetic acid",
    brewingStage := Some("Fermentation/Contamination"),
    origins := "Bacterial contamination or intentional souring processes.",
    offFlavors := Some(["Tart", "Sour"]),
    solutions := [
      "Ensure thorough sanitation to prevent unwanted bacterial contamination.",
      "Control the souring process in intentionally soured beers."
    ],
    prevention := Some([
      "Use a controlled souring process with known lactic acid bacteria.",
      "Sanitize all equipment thoroughly."
    ]),
    learnMore := "https://beerandbrewing.com/off-flavor-sourness/",
    category := Some("Fermentation"))

  /** `flavor_defects`, in its insertion order. Oxidation is the one entry without a Prevention list. */
  const FlavorDefects: Catalog := [
    ("Diacetyl", Diacetyl),
    ("Phenolic", Phenolic),
    ("Oxidation", Oxidation),
    ("Metallic", Metallic),
    ("Astringency", Astringency),
    ("Alcoholic", Alcoholic),
    ("Chlorophenolic", Chlorophenolic),
    ("Sourness", Sourness)
  ]

  // Several lemmas below take the eight records as parameters `d0` ... `d7`
  // with a requires fixing the catalog's shape: the fact is proved for any
  // records under the eight names and then applied to the real ones, which
  // keeps the records' long text out of the proof.

  lemma NamesOfEight(c: Dict<Defect>, d0: Defect, d1: Defect, d2: Defect, d3: Defect,
                     d4: Defect, d5: Defect, d6: Defect, d7: Defect)
    requires c == [("Diacetyl", d0), ("Phenolic", d1), ("Oxidation", d2), ("Metallic", d3),
                   ("Astringency", d4), ("Alcoholic", d5), ("Chlorophenolic", d6), ("Sourness", d7)]
    ensures Keys(c) == ["Diacetyl", "Phenolic", "Oxidation", "Metallic",
                        "Astringency", "Alcoholic", "Chlorophenolic", "Sourness"]
  {
  }

  /**
   * The catalog's names in insertion order, and the fields the queries read:
   * each record's brewing stage and category, its off-flavors being present,
   * and Oxidation being the only record without a prevention list.
   */
  lemma CatalogEntries()
    ensures Keys(FlavorDefects) == ["Diacetyl", "Phenolic", "Oxidation", "Metallic",
                                    "Astringency", "Alcoholic", "Chlorophenolic", "Sourness"]
    ensures [Diacetyl.Stage(), Phenolic.Stage(), Oxidation.Stage(), Metallic.Stage()] ==
      ["Fermentation", "Fermentation", "Packaging and Storage", "Water and Equipment"]
    ensures [Astringency.Stage(), Alcoholic.Stage(), Chlorophenolic.Stage(), Sourness.Stage()] ==
      ["Mashing/Sparging", "Fermentation", "Water and Equipment", "Fermentation/Contamination"]
    ensures [Diacetyl.CategoryName(), Phenolic.CategoryName(), Oxidation.CategoryName(), Metallic.CategoryName()] ==
      ["Fermentation", "Fermentation", "Packaging", "Water"]
    ensures [Astringency.CategoryName(), Alcoholic.CategoryName(), Chlorophenolic.CategoryName(), Sourness.CategoryName()] ==
      ["Mashing", "Fermentation", "Water", "Fermentation"]
    ensures forall e :: e in FlavorDefects ==> e.1.offFlavors.Some?
    ensures forall e :: e in FlavorDefects ==> (e.1.prevention.None? <==> e.0 == "Oxidation")
  {
    NamesOfEight(FlavorDefects, Diacetyl, Phenolic, Oxidation, Metallic, Astringency, Alcoholic, Chlorophenolic, Sourness);
    FieldsOfEight(FlavorDefects, Diacetyl, Phenolic, Oxidation, Metallic, Astringency, Alcoholic, Chlorophenolic, Sourness);
  }

  lemma FieldsOfEight(c: Dict<Defect>, d0: Defect, d1: Defect, d2: Defect, d3: Defect,
                      d4: Defect, d5: Defect, d6: Defect, d7: Defect)
    requires c == [("Diacetyl", d0), ("Phenolic", d1), ("Oxidation", d2), ("Metallic", d3),
                   ("Astringency", d4), ("Alcoholic", d5), ("Chlorophenolic", d6), ("Sourness", d7)]
    requires d0.offFlavors.Some? && d1.offFlavors.Some? && d2.offFlavors.Some? && d3.offFlavors.Some?
    requires d4.offFlavors.Some? && d5.offFlavors.Some? && d6.offFlavors.Some? && d7.offFlavors.Some?
    requires d0.prevention.Some? && d1.prevention.Some? && d2.prevention.None? && d3.prevention.Some?
    requires d4.prevention.Some? && d5.prevention.Some? && d6.prevention.Some? && d7.prevention.Some?
    ensures forall e :: e in c ==> e.1.offFlavors.Some?
    ensures forall e :: e in c ==> (e.1.prevention.None? <==> e.0 == "Oxidation")
  {
  }

  /** A stage containing neither `f` nor `F` does not match the stage "fermentation". */
  lemma NotFermentation(d: Defect)
    requires 'f' !in d.Stage() && 'F' !in d.Stage()
    ensures !MatchesStage("fermentation", d)
  {
    LowerMissing(d.Stage(), 'f');
    MissingFirstChar(ToLower(d.Stage()), "fermentation");
  }

  lemma LowerFermentation(s: string)
    requires s == "Fermentation"
    ensures ToLower(s) == "fermentation"
  {
    var r := ToLower(s);
    forall k | 0 <= k < |s| ensures r[k] == "fermentation"[k] {
      assert r[k] == LowerChar(s[k]);
    }
  }

  /** A stage that starts with "Fermentation" matches the stage "fermentation". */
  lemma IsFermentation(d: Defect, s: string, rest: string)
    requires s == "Fermentation" && d.Stage() == s + rest
    ensures MatchesStage("fermentation", d)
  {
    LowerFermentation(s);
    LowerAppend(s, rest);
    assert OccursAt(ToLower(d.Stage()), "fermentation", 0);
  }

  lemma DiacetylStage()
    ensures MatchesStage("fermentation", Diacetyl)
  {
    IsFermentation(Diacetyl, "Fermentation", "");
  }

  lemma PhenolicStage()
    ensures MatchesStage("fermentation", Phenolic)
  {
    IsFermentation(Phenolic, "Fermentation", "");
  }

  lemma OxidationStage()
    ensures !MatchesStage("fermentation", Oxidation)
  {
    NotFermentation(Oxidation);
  }

  lemma MetallicStage()
    ensures !MatchesStage("fermentation", Metallic)
  {
    NotFermentation(Metallic);
  }

  lemma AstringencyStage()
    ensures !MatchesStage("fermentation", Astringency)
  {
    NotFermentation(Astringency);
  }

  lemma AlcoholicStage()
    ensures MatchesStage("fermentation", Alcoholic)
  {
    IsFermentation(Alcoholic, "Fermentation", "");
  }

  lemma ChlorophenolicStage()
    ensures !MatchesStage("fermentation", Chlorophenolic)
  {
    NotFermentation(Chlorophenolic);
  }

  lemma SournessStage()
    ensures MatchesStage("fermentation", Sourness)
  {
    assert "Fermentation/Contamination" == "Fermentation" + "/Contamination";
    IsFermentation(Sourness, "Fermentation", "/Contamination");
  }

  /** Which of eight entries the filter keeps, given which of them match. */
  lemma SelectFermentation(c: Dict<Defect>, d0: Defect, d1: Defect, d2: Defect, d3: Defect,
                           d4: Defect, d5: Defect, d6: Defect, d7: Defect)
    requires c == [("Diacetyl", d0), ("Phenolic", d1), ("Oxidation", d2), ("Metallic", d3),
                   ("Astringency", d4), ("Alcoholic", d5), ("Chlorophenolic", d6), ("Sourness", d7)]
    requires MatchesStage("fermentation", d0) && MatchesStage("fermentation", d1)
    requires !MatchesStage("fermentation", d2) && !MatchesStage("fermentation", d3)
    requires !MatchesStage("fermentation", d4) && MatchesStage("fermentation", d5)
    requires !MatchesStage("fermentation", d6) && MatchesStage("fermentation", d7)
    ensures Filter(c, "fermentation", []) ==
      [("Diacetyl", d0), ("Phenolic", d1), ("Alcoholic", d5), ("Sourness", d7)]
  {
    var stage := "fermentation";
    assert Filter(c[8..], stage, []) == [];
    assert Filter(c[7..], stage, []) == [c[7]];
    assert Filter(c[6..], stage, []) == [c[7]];
    assert Filter(c[5..], stage, []) == [c[5], c[7]];
    assert Filter(c[4..], stage, []) == [c[5], c[7]];
    assert Filter(c[3..], stage, []) == [c[5], c[7]];
    assert Filter(c[2..], stage, []) == [c[5], c[7]];
    assert Filter(c[1..], stage, []) == [c[1], c[5], c[7]];
  }

  /**
   * Asking for the stage "fermentation" alone lists Diacetyl, Phenolic,
   * Alcoholic and Sourness (whose stage is "Fermentation/Contamination"),
   * in catalog order; Oxidation and the other stages are left out.
   */
  lemma FermentationStage()
    ensures Filter(FlavorDefects, "fermentation", []) ==
      [("Diacetyl", Diacetyl), ("Phenolic", Phenolic), ("Alcoholic", Alcoholic), ("Sourness", Sourness)]
  {
    DiacetylStage();
    PhenolicStage();
    OxidationStage();
    MetallicStage();
    AstringencyStage();
    AlcoholicStage();
    ChlorophenolicStage();
    SournessStage();
    SelectFermentation(FlavorDefects, Diacetyl, Phenolic, Oxidation, Metallic, Astringency, Alcoholic, Chlorophenolic, Sourness);
  }

  /**
   * Off-flavor terms are compared whole: "buttery" finds Diacetyl, while
   * "butter", a substring of "buttery", does not.
   */
  lemma WholeWordFlavor()
    ensures MatchesFlavor(["buttery"], Diacetyl)
    ensures Contains("buttery", "butter") && !MatchesFlavor(["butter"], Diacetyl)
  {
    LowerWord("Buttery", "buttery");
    assert LowerAll(Diacetyl.OffFlavorList())[0] == "buttery";
    assert HasOffFlavor(Diacetyl, "buttery");
    assert OccursAt("buttery", "butter", 0);
    HasOffFlavorIff(Diacetyl, "butter");
  }

  /**
   * The two conditions are combined with AND: Sourness and Astringency both
   * taste "tart", but only Sourness is at the fermentation stage.
   */
  lemma BothConditions()
    ensures Matches("fermentation", ["tart"], Sourness)
    ensures MatchesFlavor(["tart"], Astringency) && !Matches("fermentation", ["tart"], Astringency)
  {
    SournessStage();
    AstringencyStage();
    LowerWord("Tart", "tart");
    assert LowerAll(Sourness.OffFlavorList())[0] == "tart";
    assert HasOffFlavor(Sourness, "tart");
    assert LowerAll(Astringency.OffFlavorList())[0] == "tart";
    assert HasOffFlavor(Astringency, "tart");
  }

  /** In a catalog shaped like the shipped one, "Oxidation" is found at position 2. */
  lemma PresentOfEight(c: Catalog, d0: Defect, d1: Defect, d2: Defect, d3: Defect,
                       d4: Defect, d5: Defect, d6: Defect, d7: Defect)
    requires c == [("Diacetyl", d0), ("Phenolic", d1), ("Oxidation", d2), ("Metallic", d3),
                   ("Astringency", d4), ("Alcoholic", d5), ("Chlorophenolic", d6), ("Sourness", d7)]
    ensures DefectDetail(c, "Oxidation") == DetailPage("Oxidation", d2)
  {
    DetailOfPresent(c, 2);
  }

  /** Every name of the shipped catalog is capitalised, so no lower-case name is found. */
  lemma AbsentOfEight(c: Catalog, d0: Defect, d1: Defect, d2: Defect, d3: Defect,
                      d4: Defect, d5: Defect, d6: Defect, d7: Defect)
    requires c == [("Diacetyl", d0), ("Phenolic", d1), ("Oxidation", d2), ("Metallic", d3),
                   ("Astringency", d4), ("Alcoholic", d5), ("Chlorophenolic", d6), ("Sourness", d7)]
    ensures DefectDetail(c, "oxidation") == NotFound("Defect not found", 404)
  {
    forall i | 0 <= i < |c| ensures c[i].0 != "oxidation" {
      assert c[i].0[0] != 'o';
    }
    DetailOfAbsent(c, "oxidation");
  }

  /**
   * The detail page of Oxidation shows its record, which has no prevention
   * list; the lookup is case-sensitive, so "oxidation" is not found.
   */
  lemma OxidationDetail()
    ensures DefectDetail(FlavorDefects, "Oxidation") == DetailPage("Oxidation", Oxidation)
    ensures Oxidation.prevention.None?
    ensures DefectDetail(FlavorDefects, "oxidation") == NotFound("Defect not found", 404)
  {
    PresentOfEight(FlavorDefects, Diacetyl, Phenolic, Oxidation, Metallic, Astringency, Alcoholic, Chlorophenolic, Sourness);
    AbsentOfEight(FlavorDefects, Diacetyl, Phenolic, Oxidation, Metallic, Astringency, Alcoholic, Chlorophenolic, Sourness);
  }
}
