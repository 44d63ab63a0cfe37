/** Metadata extraction: the filter table built from a response's facets
    (`extract_filters`) and the category table built from a product sample
    (the comprehension in `update_filter_cache`). */
module Filters {
  import opened Optional
  import opened Catalog
  import Tables

  /** What the filter table keeps of a facet value. */
  datatype FilterEntry = FilterEntry(name: string, slug: string)

  type FilterTable = map<string, seq<FilterEntry>>

  type CategoryTable = map<string, Category>

  function EntryOf(v: FacetValue): FilterEntry
  {
    FilterEntry(v.name, v.slug)
  }

  /** The enabled values of a facet, as entries, in their original order. */
  function EnabledEntries(vs: seq<FacetValue>): (r: seq<FilterEntry>)
    ensures |r| <= |vs|
    ensures forall e :: e in r <==> exists i :: 0 <= i < |vs| && vs[i].enabled && EntryOf(vs[i]) == e
    ensures r == [] <==> forall i :: 0 <= i < |vs| ==> !vs[i].enabled
    ensures (forall i :: 0 <= i < |vs| ==> vs[i].enabled) ==> |r| == |vs|
  {
    if |vs| == 0 then []
    else
      var rest := EnabledEntries(vs[1..]);
      assert forall i :: 1 <= i < |vs| ==> vs[1..][i - 1] == vs[i];
      if vs[0].enabled then [EntryOf(vs[0])] + rest else rest
  }

  /** Order preservation: the enabled entries of a concatenation are those of
      each part, in sequence. */
  lemma {:induction false} EnabledEntriesAppend(a: seq<FacetValue>, b: seq<FacetValue>)
    ensures EnabledEntries(a + b) == EnabledEntries(a) + EnabledEntries(b)
    decreases |a|
  {
    if |a| > 0 {
      assert (a + b)[0] == a[0];
      assert (a + b)[1..] == a[1..] + b;
      EnabledEntriesAppend(a[1..], b);
    } else {
      assert a + b == b;
    }
  }

  /** `if code and values`: the facet has a non-empty code and at least one
      value. */
  predicate Contributes(f: Facet)
  {
    f.code.Some? && f.code.value != "" && |f.values| > 0
  }

  function CodeOf(f: Facet): string
  {
    f.code.GetOr("")
  }

  function EntriesOf(f: Facet): seq<FilterEntry>
  {
    EnabledEntries(f.values)
  }

  /** `extract_filters`: each contributing facet maps its code to its enabled
      entries; a later facet with the same code overwrites an earlier one. */
  function ExtractFilters(facets: seq<Facet>): (t: FilterTable)
    ensures forall code :: code in t <==>
              exists i :: 0 <= i < |facets| && Contributes(facets[i]) && facets[i].code == Some(code)
    ensures "" !in t
  {
    Tables.LastWins(facets, Contributes, CodeOf, EntriesOf)
  }

  /** The list stored for a code is the enabled entries of the last facet
      with that code, and nothing of an earlier facet with that code. */
  lemma {:induction false} ExtractFiltersLastFacet(facets: seq<Facet>, i: int)
    requires 0 <= i < |facets| && Contributes(facets[i])
    requires forall j :: i < j < |facets| && Contributes(facets[j]) ==> facets[j].code != facets[i].code
    ensures facets[i].code.value in ExtractFilters(facets)
    ensures ExtractFilters(facets)[facets[i].code.value] == EnabledEntries(facets[i].values)
  {
    assert forall j :: i < j < |facets| && Contributes(facets[j]) ==> CodeOf(facets[j]) != CodeOf(facets[i]);
    Tables.LastWinsAt(facets, Contributes, CodeOf, EntriesOf, i);
  }

  /** Facet `i` contributes and no later facet contributes the same code. */
  ghost predicate LastContributing(facets: seq<Facet>, i: int)
  {
    0 <= i < |facets| && Contributes(facets[i]) &&
    forall j :: i < j < |facets| && Contributes(facets[j]) ==> facets[j].code != facets[i].code
  }

  /** Every code of the table holds the entries of its last contributing
      facet. */
  lemma FilterValues(facets: seq<Facet>)
    ensures forall i :: LastContributing(facets, i) ==>
              facets[i].code.value in ExtractFilters(facets) &&
              ExtractFilters(facets)[facets[i].code.value] == EnabledEntries(facets[i].values)
  {
    forall i | LastContributing(facets, i)
      ensures facets[i].code.value in ExtractFilters(facets)
      ensures ExtractFilters(facets)[facets[i].code.value] == EnabledEntries(facets[i].values)
    {
      ExtractFiltersLastFacet(facets, i);
    }
  }

  function HasCategory(p: Product): bool { p.category.Some? }

  function CategorySlugOf(p: Product): string
  {
    match p.category
    case Some(c) => c.slug
    case None => ""
  }

  function CategoryOf(p: Product): Category
  {
    match p.category
    case Some(c) => c
    case None => Category("", "", None)
  }

  /** The category table: each product that has a category contributes its
      category under the category's slug; the last one wins. */
  function BuildCategoryTable(products: seq<Product>): (t: CategoryTable)
    ensures forall slug :: slug in t <==>
              exists i :: 0 <= i < |products| && products[i].category.Some? && products[i].category.value.slug == slug
  {
    Tables.LastWins(products, HasCategory, CategorySlugOf, CategoryOf)
  }

  /** Each key maps to the category of the last product carrying that slug;
      so every stored category's slug is its key. */
  lemma {:induction false} CategoryTableLastProduct(products: seq<Product>, i: int)
    requires 0 <= i < |products| && products[i].category.Some?
    requires forall j :: i < j < |products| && products[j].category.Some? ==>
               products[j].category.value.slug != products[i].category.value.slug
    ensures products[i].category.value.slug in BuildCategoryTable(products)
    ensures BuildCategoryTable(products)[products[i].category.value.slug] == products[i].category.value
  {
    assert forall j :: i < j < |products| && HasCategory(products[j]) ==>
             CategorySlugOf(products[j]) != CategorySlugOf(products[i]);
    Tables.LastWinsAt(products, HasCategory, CategorySlugOf, CategoryOf, i);
  }

  /** Products without a category do not affect the table. */
  lemma {:induction false} CategoryTableIgnoresUncategorised(a: seq<Product>, p: Product, b: seq<Product>)
    requires p.category.None?
    ensures BuildCategoryTable(a + [p] + b) == BuildCategoryTable(a + b)
  {
    Tables.LastWinsAppend(a + [p], b, HasCategory, CategorySlugOf, CategoryOf);
    Tables.LastWinsAppend(a, b, HasCategory, CategorySlugOf, CategoryOf);
    assert (a + [p])[..|a + [p]| - 1] == a;
  }

  /** Product `i` has a category and no later product has one with the same
      slug. */
  ghost predicate LastCategorised(products: seq<Product>, i: int)
  {
    0 <= i < |products| && products[i].category.Some? &&
    forall j :: i < j < |products| && products[j].category.Some? ==>
      products[j].category.value.slug != products[i].category.value.slug
  }

  /** Every slug of the table holds the category of the last product with
      that slug. */
  lemma CategoryValues(products: seq<Product>)
    ensures forall i :: LastCategorised(products, i) ==>
              products[i].category.value.slug in BuildCategoryTable(products) &&
              BuildCategoryTable(products)[products[i].category.value.slug] == products[i].category.value
  {
    forall i | LastCategorised(products, i)
      ensures products[i].category.value.slug in BuildCategoryTable(products)
      ensures BuildCategoryTable(products)[products[i].category.value.slug] == products[i].category.value
    {
      CategoryTableLastProduct(products, i);
    }
  }
}
