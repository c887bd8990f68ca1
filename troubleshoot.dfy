/**
 * The troubleshooting guide of the primary application (`/troubleshoot`):
 * a scan of the catalog that keeps every defect whose brewing stage contains
 * the requested stage and which has one of the requested off-flavors.
 */
module Troubleshoot {
  import opened Text
  import opened OrderedMap
  import opened Defects
  import opened Requests

  /**
   * The stage condition: no stage asked for, or the stage is a substring of
   * the record's lower-cased brewing stage. The first case is contained in
   * the second, since "" is a substring of every string.
   */
  predicate MatchesStage(stage: string, d: Defect): (b: bool)
    ensures b <==> Contains(ToLower(d.Stage()), stage)
  {
    stage == "" || Contains(ToLower(d.Stage()), stage)
  }

  /** The flavor condition: no terms, or some term equal to one of the record's lower-cased off-flavors. */
  predicate MatchesFlavor(terms: seq<string>, d: Defect) {
    terms == [] || exists t :: t in terms && HasOffFlavor(d, t)
  }

  /** Both conditions, combined with AND. */
  predicate Matches(stage: string, terms: seq<string>, d: Defect) {
    MatchesStage(stage, d) && MatchesFlavor(terms, d)
  }

  /**
   * The flavor terms of the (already stripped and lower-cased) off-flavor
   * field: none for an empty field, otherwise its comma-separated pieces, each stripped.
   */
  function FlavorTerms(offFlavors: string): (terms: seq<string>)
    ensures offFlavors == "" <==> terms == []
    ensures offFlavors != "" ==> |terms| == Count(offFlavors, ',') + 1
  {
    if offFlavors == "" then []
    else
      SplitPieces(offFlavors, ',');
      StripAll(Split(offFlavors, ','))
  }

  /** The entries of `entries` that match, in their original order. */
  function Filter(entries: Dict<Defect>, stage: string, terms: seq<string>): (r: Dict<Defect>)
    ensures |r| <= |entries|
  {
    if entries == [] then []
    else (if Matches(stage, terms, entries[0].1) then [entries[0]] else []) + Filter(entries[1..], stage, terms)
  }

  /** Scanning one more entry adds it at the end exactly when it matches. */
  lemma {:induction false} FilterAppend(entries: Dict<Defect>, e: (string, Defect), stage: string, terms: seq<string>)
    ensures Filter(entries + [e], stage, terms) ==
      Filter(entries, stage, terms) + (if Matches(stage, terms, e.1) then [e] else [])
  {
    if entries == [] {
      assert Filter([e][1..], stage, terms) == [];
    } else {
      var t := entries + [e];
      var head := if Matches(stage, terms, entries[0].1) then [entries[0]] else [];
      assert t[0] == entries[0] && t[1..] == entries[1..] + [e];
      var last := if Matches(stage, terms, e.1) then [e] else [];
      var rest := Filter(entries[1..], stage, terms);
      assert Filter(t, stage, terms) == head + Filter(entries[1..] + [e], stage, terms);
      FilterAppend(entries[1..], e, stage, terms);
      assert Filter(entries, stage, terms) == head + rest;
      assert head + (rest + last) == (head + rest) + last;
    }
  }

  /** An entry is in the result if and only if it is in the catalog and satisfies both conditions. */
  lemma {:induction false} FilterMembers(entries: Dict<Defect>, stage: string, terms: seq<string>)
    ensures forall e :: e in Filter(entries, stage, terms) <==> e in entries && Matches(stage, terms, e.1)
  {
    if entries != [] {
      FilterMembers(entries[1..], stage, terms);
      assert entries == [entries[0]] + entries[1..];
    }
  }

  /** The result keeps the catalog's order: it is a subsequence of the catalog. */
  lemma {:induction false} FilterSubsequence(entries: Dict<Defect>, stage: string, terms: seq<string>)
    ensures IsSubsequence(Filter(entries, stage, terms), entries)
  {
    if entries != [] {
      FilterSubsequence(entries[1..], stage, terms);
      var r := Filter(entries, stage, terms);
      if Matches(stage, terms, entries[0].1) {
        assert r[0] == entries[0] && r[1..] == Filter(entries[1..], stage, terms);
      } else {
        assert r == Filter(entries[1..], stage, terms);
      }
    }
  }

  /** Every name in the result is a name of the catalog. */
  lemma FilterKeys(entries: Dict<Defect>, stage: string, terms: seq<string>)
    ensures forall k :: k in Keys(Filter(entries, stage, terms)) ==> k in Keys(entries)
  {
    var r := Filter(entries, stage, terms);
    FilterMembers(entries, stage, terms);
    forall k | k in Keys(r) ensures k in Keys(entries) {
      var j := IndexOf(r, k);
      assert r[j] in entries;
      var m :| 0 <= m < |entries| && entries[m] == r[j];
      assert Keys(entries)[m] == k;
    }
  }

  /** A catalog filtered is again a catalog: names stay distinct. */
  lemma {:induction false} FilterDistinct(entries: Dict<Defect>, stage: string, terms: seq<string>)
    requires DistinctKeys(entries)
    ensures DistinctKeys(Filter(entries, stage, terms))
  {
    if entries != [] {
      FilterDistinct(entries[1..], stage, terms);
      FilterMembers(entries[1..], stage, terms);
      var rest := Filter(entries[1..], stage, terms);
      if Matches(stage, terms, entries[0].1) {
        forall j | 0 <= j < |rest| ensures rest[j].0 != entries[0].0 {
          assert rest[j] in entries[1..];
          var m :| 0 <= m < |entries[1..]| && entries[1..][m] == rest[j];
          assert entries[m + 1] == rest[j];
        }
      }
    }
  }

  /** With no stage and no off-flavors, every entry comes back, in order and unchanged. */
  lemma {:induction false} FilterIdentity(entries: Dict<Defect>)
    ensures Filter(entries, "", []) == entries
  {
    if entries != [] {
      FilterIdentity(entries[1..]);
    }
  }

  /** Filtering the result again with the same inputs changes nothing. */
  lemma {:induction false} FilterIdempotent(entries: Dict<Defect>, stage: string, terms: seq<string>)
    ensures Filter(Filter(entries, stage, terms), stage, terms) == Filter(entries, stage, terms)
  {
    if entries != [] {
      FilterIdempotent(entries[1..], stage, terms);
      var r := Filter(entries, stage, terms);
      if Matches(stage, terms, entries[0].1) {
        assert r[0] == entries[0] && r[1..] == Filter(entries[1..], stage, terms);
      } else {
        assert r == Filter(entries[1..], stage, terms);
      }
    }
  }

  /** In a catalog, the name at position `i` does not occur before it. */
  lemma NewName(catalog: Catalog, i: nat)
    requires i < |catalog|
    ensures catalog[i].0 !in Keys(catalog[..i])
  {
    var ks := Keys(catalog[..i]);
    forall j | 0 <= j < |ks| ensures ks[j] != catalog[i].0 {
      assert ks[j] == catalog[j].0;
    }
  }

  /** One iteration of the scan: the match, if any, is a new name and goes at the end. */
  lemma ScanStep(catalog: Catalog, i: nat, stage: string, terms: seq<string>)
    requires i < |catalog|
    ensures var before := Filter(catalog[..i], stage, terms);
      Filter(catalog[..i + 1], stage, terms) ==
        if Matches(stage, terms, catalog[i].1) then Put(before, catalog[i].0, catalog[i].1) else before
  {
    assert catalog[..i + 1] == catalog[..i] + [catalog[i]];
    FilterAppend(catalog[..i], catalog[i], stage, terms);
    FilterKeys(catalog[..i], stage, terms);
    NewName(catalog, i);
    PutNew(Filter(catalog[..i], stage, terms), catalog[i].0, catalog[i].1);
  }

  /** What the troubleshooting page shows: the normalised inputs and the matches. */
  datatype TroubleshootPage = TroubleshootPage(stage: string, offFlavors: string, matches: Dict<Defect>)

  /**
   * The loop of `troubleshoot()`: every record that satisfies both
   * conditions is stored under its name in `matches`, in catalog order.
   */
  method CollectMatches(catalog: Catalog, stage: string, terms: seq<string>) returns (matches: Dict<Defect>)
    ensures matches == Filter(catalog, stage, terms)
    ensures DistinctKeys(matches) && IsSubsequence(matches, catalog)
    ensures forall e :: e in matches <==> e in catalog && Matches(stage, terms, e.1)
  {
    matches := [];
    var i := 0;
    while i < |catalog|
      invariant 0 <= i <= |catalog|
      invariant matches == Filter(catalog[..i], stage, terms)
    {
      var (name, details) := catalog[i];
      var matchesStage := MatchesStage(stage, details);
      var matchesFlavor := MatchesFlavor(terms, details);
      ScanStep(catalog, i, stage, terms);
      if matchesStage && matchesFlavor {
        matches := Put(matches, name, details);
      }
      i := i + 1;
    }
    assert catalog[..i] == catalog;
    FilterMembers(catalog, stage, terms);
    FilterSubsequence(catalog, stage, terms);
    FilterDistinct(catalog, stage, terms);
  }

  /**
   * `troubleshoot()`. A GET shows an empty form and no matches. A POST
   * strips and lower-cases both fields, splits the off-flavors on commas
   * (an empty field gives no terms) and collects the matches.
   */
  method Troubleshoot(catalog: Catalog, request: Request) returns (page: TroubleshootPage)
    ensures request.Get? ==> page == TroubleshootPage("", "", [])
    ensures request.Post? ==>
      page.stage == NormalizedField(request.form, "stage") &&
      page.offFlavors == NormalizedField(request.form, "off_flavors") &&
      page.matches == Filter(catalog, page.stage, FlavorTerms(page.offFlavors))
  {
    var stage := "";
    var offFlavors := "";
    var matches: Dict<Defect> := [];
    if request.Post? {
      stage := NormalizedField(request.form, "stage");
      offFlavors := NormalizedField(request.form, "off_flavors");
      var offFlavorList := FlavorTerms(offFlavors);
      matches := CollectMatches(catalog, stage, offFlavorList);
    }
    page := TroubleshootPage(stage, offFlavors, matches);
  }
}
