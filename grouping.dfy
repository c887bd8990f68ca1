/**
 * The grouped listing of the backup application (`/defects`): catalog
 * entries bucketed by category, groups in order of first appearance.
 */
module Grouping {
  import opened Wrappers
  import opened OrderedMap
  import opened Defects

  /** `defects_by_category`: category name to the list of `(name, details)` pairs. */
  type Groups = Dict<Dict<Defect>>

  /** The category of every entry, in catalog order. */
  function Categories(entries: Dict<Defect>): (r: seq<string>)
    ensures |r| == |entries|
    ensures forall i :: 0 <= i < |entries| ==> r[i] == entries[i].1.CategoryName()
  {
    seq(|entries|, i requires 0 <= i < |entries| => entries[i].1.CategoryName())
  }

  predicate Distinct(xs: seq<string>) {
    forall i, j :: 0 <= i < j < |xs| ==> xs[i] != xs[j]
  }

  /** The distinct values of `xs`, each placed where it first occurs. */
  function FirstOccurrences(xs: seq<string>): (r: seq<string>)
    ensures forall x :: x in r <==> x in xs
    ensures Distinct(r)
  {
    if xs == [] then []
    else
      var before := FirstOccurrences(xs[..|xs| - 1]);
      assert xs == xs[..|xs| - 1] + [xs[|xs| - 1]];
      if xs[|xs| - 1] in before then before else before + [xs[|xs| - 1]]
  }

  /** The first position of `x` in `xs`. */
  function FirstIndex(xs: seq<string>, x: string): (i: nat)
    requires x in xs
    ensures i < |xs| && xs[i] == x
    ensures forall j :: 0 <= j < i ==> xs[j] != x
  {
    if xs[0] == x then 0 else 1 + FirstIndex(xs[1..], x)
  }

  /** Values appear in FirstOccurrences in the order of their first occurrence in `xs`. */
  lemma {:induction false} FirstOccurrencesOrder(xs: seq<string>, i: nat, j: nat)
    requires i < j < |FirstOccurrences(xs)|
    ensures FirstIndex(xs, FirstOccurrences(xs)[i]) < FirstIndex(xs, FirstOccurrences(xs)[j])
  {
    var r := FirstOccurrences(xs);
    var p := xs[..|xs| - 1];
    var before := FirstOccurrences(p);
    var a, b := r[i], r[j];
    assert xs == p + [xs[|xs| - 1]];
    if j < |before| {
      FirstOccurrencesOrder(p, i, j);
      FirstIndexPrefix(p, xs, a);
      FirstIndexPrefix(p, xs, b);
    } else {
      assert b == xs[|xs| - 1] && b !in p;
      assert a in p;
      FirstIndexPrefix(p, xs, a);
      assert FirstIndex(xs, b) == |p|;
    }
  }

  lemma FirstIndexPrefix(p: seq<string>, xs: seq<string>, x: string)
    requires x in p && p <= xs
    ensures FirstIndex(xs, x) == FirstIndex(p, x)
  {
    var i := FirstIndex(p, x);
    var k := FirstIndex(xs, x);
    assert xs[i] == x;
    assert p[k] == x || k >= |p|;
  }

  /** The entries of category `k`, in catalog order. */
  function InCategory(entries: Dict<Defect>, k: string): Dict<Defect> {
    if entries == [] then []
    else (if entries[0].1.CategoryName() == k then [entries[0]] else []) + InCategory(entries[1..], k)
  }

  lemma {:induction false} InCategoryAppend(entries: Dict<Defect>, e: (string, Defect), k: string)
    ensures InCategory(entries + [e], k) == InCategory(entries, k) + if e.1.CategoryName() == k then [e] else []
  {
    if entries == [] {
      assert InCategory([e][1..], k) == [];
    } else {
      var t := entries + [e];
      var head := if entries[0].1.CategoryName() == k then [entries[0]] else [];
      assert t[0] == entries[0] && t[1..] == entries[1..] + [e];
      var last := if e.1.CategoryName() == k then [e] else [];
      var rest := InCategory(entries[1..], k);
      assert InCategory(t, k) == head + InCategory(entries[1..] + [e], k);
      InCategoryAppend(entries[1..], e, k);
      assert InCategory(entries, k) == head + rest;
      assert head + (rest + last) == (head + rest) + last;
    }
  }

  /** The members of a category are exactly the entries with that category, in catalog order. */
  lemma {:induction false} InCategoryMembers(entries: Dict<Defect>, k: string)
    ensures forall e :: e in InCategory(entries, k) <==> e in entries && e.1.CategoryName() == k
    ensures IsSubsequence(InCategory(entries, k), entries)
  {
    if entries != [] {
      InCategoryMembers(entries[1..], k);
      assert entries == [entries[0]] + entries[1..];
      var r := InCategory(entries, k);
      if entries[0].1.CategoryName() == k {
        assert r[0] == entries[0] && r[1..] == InCategory(entries[1..], k);
      } else {
        assert r == InCategory(entries[1..], k);
      }
    }
  }

  /** A category that no entry has gets no members. */
  lemma {:induction false} InCategoryAbsent(entries: Dict<Defect>, k: string)
    requires k !in Categories(entries)
    ensures InCategory(entries, k) == []
  {
    if entries != [] {
      assert Categories(entries)[0] == entries[0].1.CategoryName();
      assert forall i :: 0 <= i < |entries| - 1 ==> Categories(entries[1..])[i] == Categories(entries)[i + 1];
      InCategoryAbsent(entries[1..], k);
    }
  }

  /**
   * The listing as the page presents it: one group per category, in order
   * of first appearance, each holding that category's entries in catalog order.
   */
  function Grouped(entries: Dict<Defect>): (g: Groups)
    ensures Keys(g) == FirstOccurrences(Categories(entries))
    ensures DistinctKeys(g)
  {
    var ks := FirstOccurrences(Categories(entries));
    seq(|ks|, j requires 0 <= j < |ks| => (ks[j], InCategory(entries, ks[j])))
  }

  /** An entry of a category not seen before opens a new group at the end. */
  lemma GroupStepNew(entries: Dict<Defect>, e: (string, Defect))
    requires e.1.CategoryName() !in Keys(Grouped(entries))
    ensures Grouped(entries + [e]) == Grouped(entries) + [(e.1.CategoryName(), [e])]
  {
    var g := Grouped(entries);
    var k := e.1.CategoryName();
    var ks := FirstOccurrences(Categories(entries));
    var next := entries + [e];
    assert Categories(next)[..|next| - 1] == Categories(entries);
    assert FirstOccurrences(Categories(next)) == ks + [k];
    InCategoryAbsent(entries, k);
    var g2 := Grouped(next);
    assert |g2| == |g| + 1;
    forall j | 0 <= j < |g2| ensures g2[j] == (g + [(k, [e])])[j] {
      var c := (ks + [k])[j];
      InCategoryAppend(entries, e, c);
      assert g2[j] == (c, InCategory(next, c));
      if j < |ks| {
        assert c == ks[j] && c != k;
        assert g[j] == (c, InCategory(entries, c));
        assert InCategory(next, c) == InCategory(entries, c);
      } else {
        assert c == k;
        assert InCategory(next, k) == [e];
      }
    }
  }

  /** An entry of a category already seen is appended to that category's group. */
  lemma GroupStepSeen(entries: Dict<Defect>, e: (string, Defect))
    requires e.1.CategoryName() in Keys(Grouped(entries))
    ensures var g := Grouped(entries);
      var j0 := IndexOf(g, e.1.CategoryName());
      Grouped(entries + [e]) == g[j0 := (e.1.CategoryName(), g[j0].1 + [e])]
  {
    var g := Grouped(entries);
    var k := e.1.CategoryName();
    var j0 := IndexOf(g, k);
    var g2 := Grouped(entries + [e]);
    var updated := g[j0 := (k, g[j0].1 + [e])];
    SeenSameKeys(entries, e);
    forall j | 0 <= j < |g2| ensures g2[j] == updated[j] {
      SeenGroupAt(entries, e, j);
    }
  }

  /** A category already seen adds no group. */
  lemma SeenSameKeys(entries: Dict<Defect>, e: (string, Defect))
    requires e.1.CategoryName() in Keys(Grouped(entries))
    ensures FirstOccurrences(Categories(entries + [e])) == FirstOccurrences(Categories(entries))
  {
    var next := entries + [e];
    var cs := Categories(next);
    assert cs[..|cs| - 1] == Categories(entries);
    assert cs[|cs| - 1] == e.1.CategoryName();
    assert e.1.CategoryName() in FirstOccurrences(cs[..|cs| - 1]);
  }

  /** Group `j` after appending an entry of an already seen category. */
  lemma SeenGroupAt(entries: Dict<Defect>, e: (string, Defect), j: nat)
    requires e.1.CategoryName() in Keys(Grouped(entries))
    requires j < |Grouped(entries)|
    ensures var g := Grouped(entries);
      var k := e.1.CategoryName();
      var j0 := IndexOf(g, k);
      j < |Grouped(entries + [e])| &&
      Grouped(entries + [e])[j] == g[j0 := (k, g[j0].1 + [e])][j]
  {
    var g := Grouped(entries);
    var k := e.1.CategoryName();
    var ks := FirstOccurrences(Categories(entries));
    var next := entries + [e];
    SeenSameKeys(entries, e);
    var j0 := IndexOf(g, k);
    var c := ks[j];
    InCategoryAppend(entries, e, c);
    assert Grouped(next)[j] == (c, InCategory(next, c));
    assert g[j] == (c, InCategory(entries, c));
    if j == j0 {
      assert c == k;
    } else {
      assert Keys(g)[j] == c && Keys(g)[j0] == k;
      assert c != k;
      assert InCategory(next, c) == InCategory(entries, c);
    }
  }

  /** One iteration of the loop turns the groups of a prefix into the groups of the next prefix. */
  lemma GroupStep(entries: Dict<Defect>, e: (string, Defect), g: Groups, g1: Groups)
    requires g == Grouped(entries)
    requires g1 == if e.1.CategoryName() !in Keys(g) then Put(g, e.1.CategoryName(), []) else g
    ensures Get(g1, e.1.CategoryName()).Some?
    ensures Put(g1, e.1.CategoryName(), Get(g1, e.1.CategoryName()).value + [e]) == Grouped(entries + [e])
  {
    if e.1.CategoryName() !in Keys(g) {
      NewCategoryStep(entries, e, g, g1);
    } else {
      SeenCategoryStep(entries, e, g);
    }
  }

  lemma NewCategoryStep(entries: Dict<Defect>, e: (string, Defect), g: Groups, g1: Groups)
    requires g == Grouped(entries) && e.1.CategoryName() !in Keys(g)
    requires g1 == Put(g, e.1.CategoryName(), [])
    ensures Get(g1, e.1.CategoryName()).Some?
    ensures Put(g1, e.1.CategoryName(), Get(g1, e.1.CategoryName()).value + [e]) == Grouped(entries + [e])
  {
    var k := e.1.CategoryName();
    PutNewTwice(g, k, [], [e]);
    assert Get(g1, k) == Some([]);
    assert Get(g1, k).value + [e] == [e];
    GroupStepNew(entries, e);
  }

  lemma SeenCategoryStep(entries: Dict<Defect>, e: (string, Defect), g: Groups)
    requires g == Grouped(entries) && e.1.CategoryName() in Keys(g)
    ensures Get(g, e.1.CategoryName()).Some?
    ensures Put(g, e.1.CategoryName(), Get(g, e.1.CategoryName()).value + [e]) == Grouped(entries + [e])
  {
    var k := e.1.CategoryName();
    var j0 := IndexOf(g, k);
    GetStored(g, j0);
    PutAt(g, j0, g[j0].1 + [e]);
    GroupStepSeen(entries, e);
  }

  /** GroupStep for the entry at position `i` of the catalog that the loop walks. */
  lemma ScanStep(catalog: Dict<Defect>, i: nat, g: Groups, g1: Groups)
    requires i < |catalog| && g == Grouped(catalog[..i])
    requires g1 == if catalog[i].1.CategoryName() !in Keys(g) then Put(g, catalog[i].1.CategoryName(), []) else g
    ensures Get(g1, catalog[i].1.CategoryName()).Some?
    ensures Put(g1, catalog[i].1.CategoryName(), Get(g1, catalog[i].1.CategoryName()).value + [catalog[i]]) ==
      Grouped(catalog[..i + 1])
  {
    assert catalog[..i + 1] == catalog[..i] + [catalog[i]];
    GroupStep(catalog[..i], catalog[i], g, g1);
  }

  /**
   * `list_defects()`: walks the catalog once; a category seen for the first
   * time gets an empty list, and every entry is appended to its category's list.
   */
  method ListDefects(catalog: Catalog) returns (groups: Groups)
    ensures groups == Grouped(catalog)
  {
    groups := [];
    var i := 0;
    while i < |catalog|
      invariant 0 <= i <= |catalog|
      invariant groups == Grouped(catalog[..i])
    {
      var (name, details) := catalog[i];
      var category := details.CategoryName();
      ghost var before := groups;
      if category !in Keys(groups) {
        groups := Put(groups, category, []);
      }
      ScanStep(catalog, i, before, groups);
      groups := Put(groups, category, Get(groups, category).value + [(name, details)]);
      i := i + 1;
    }
    assert catalog[..i] == catalog;
  }

  /**
   * Every entry lies in exactly one group: the one keyed by its category
   * ("Uncategorized" when it has none); and groups hold nothing else.
   */
  lemma GroupPartition(entries: Dict<Defect>, e: (string, Defect))
    requires e in entries
    ensures e.1.CategoryName() in Keys(Grouped(entries))
    ensures forall j :: 0 <= j < |Grouped(entries)| ==>
      (e in Grouped(entries)[j].1 <==> Grouped(entries)[j].0 == e.1.CategoryName())
  {
    var i :| 0 <= i < |entries| && entries[i] == e;
    assert Categories(entries)[i] == e.1.CategoryName();
    forall j | 0 <= j < |Grouped(entries)| ensures
      (e in Grouped(entries)[j].1 <==> Grouped(entries)[j].0 == e.1.CategoryName())
    {
      InCategoryMembers(entries, Grouped(entries)[j].0);
    }
  }

  /** Groups appear in order of the first entry of each category, and each keeps catalog order. */
  lemma GroupOrder(entries: Dict<Defect>)
    ensures forall i, j :: 0 <= i < j < |Grouped(entries)| ==>
      FirstIndex(Categories(entries), Grouped(entries)[i].0) < FirstIndex(Categories(entries), Grouped(entries)[j].0)
    ensures forall j :: 0 <= j < |Grouped(entries)| ==> IsSubsequence(Grouped(entries)[j].1, entries)
  {
    var g := Grouped(entries);
    forall i, j | 0 <= i < j < |g| ensures
      FirstIndex(Categories(entries), g[i].0) < FirstIndex(Categories(entries), g[j].0)
    {
      assert Keys(g)[i] == g[i].0 && Keys(g)[j] == g[j].0;
      FirstOccurrencesOrder(Categories(entries), i, j);
    }
    forall j | 0 <= j < |g| ensures IsSubsequence(g[j].1, entries) {
      InCategoryMembers(entries, g[j].0);
    }
  }

  /** The total number of entries over all groups. */
  function TotalSize(groups: Groups): nat {
    if groups == [] then 0 else |groups[0].1| + TotalSize(groups[1..])
  }

  lemma {:induction false} TotalSizeAppend(groups: Groups, x: (string, Dict<Defect>))
    ensures TotalSize(groups + [x]) == TotalSize(groups) + |x.1|
  {
    if groups != [] {
      assert (groups + [x])[1..] == groups[1..] + [x];
      TotalSizeAppend(groups[1..], x);
    }
  }

  lemma {:induction false} TotalSizeUpdate(groups: Groups, j: nat, x: (string, Dict<Defect>))
    requires j < |groups|
    ensures TotalSize(groups[j := x]) == TotalSize(groups) - |groups[j].1| + |x.1|
  {
    if j > 0 {
      assert groups[j := x][1..] == groups[1..][j - 1 := x];
      TotalSizeUpdate(groups[1..], j - 1, x);
    }
  }

  /** The group sizes add up to the size of the catalog. */
  lemma {:induction false} GroupSizes(entries: Dict<Defect>)
    ensures TotalSize(Grouped(entries)) == |entries|
    decreases |entries|
  {
    if entries == [] {
      assert Grouped(entries) == [];
    } else {
      var p := entries[..|entries| - 1];
      var e := entries[|entries| - 1];
      assert entries == p + [e];
      GroupSizes(p);
      var g := Grouped(p);
      var k := e.1.CategoryName();
      if k !in Keys(g) {
        GroupStepNew(p, e);
        TotalSizeAppend(g, (k, [e]));
      } else {
        GroupStepSeen(p, e);
        var j0 := IndexOf(g, k);
        TotalSizeUpdate(g, j0, (k, g[j0].1 + [e]));
      }
    }
  }
}
