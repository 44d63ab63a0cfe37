/** The metadata refresh (`update_filter_cache`): one `/product` request
    for facets, one unfiltered sample of up to 1000 products for the
    category table. */
module Metadata {
  import opened Optional
  import opened Catalog
  import opened Filters
  import opened Query

  datatype MetaTables = MetaTables(filters: FilterTable, categories: CategoryTable)

  /** The parameters of `fetch_facets`. */
  function FacetParams(cityUuid: string): Params
  {
    map[CityKey := Text(cityUuid), PageKey := Number(1), PerPageKey := Number(100)]
  }

  /** The parameters of the category sample request. */
  function SampleParams(cityUuid: string): Params
  {
    BuildParams(cityUuid, None, 1, 1000, [])
  }

  /** Without a category and without selections, `fetch_products` sends
      exactly the three fixed parameters; so `fetch_facets` is the same
      request as `fetch_products` with page 1 and 100 per page. */
  lemma UnfilteredParams(cityUuid: string, page: int, perPage: int)
    ensures BuildParams(cityUuid, None, page, perPage, [])
            == map[CityKey := Text(cityUuid), PageKey := Number(page), PerPageKey := Number(perPage)]
  {
    var p := BuildParams(cityUuid, None, page, perPage, []);
    var q := map[CityKey := Text(cityUuid), PageKey := Number(page), PerPageKey := Number(perPage)];
    assert forall k :: k in p ==> k in q && p[k] == q[k] by {
      forall k | k in p ensures k in q && p[k] == q[k] {
        assert IsFixedKey(k) || SelectsKey(k, []);
      }
    }
  }

  /** `update_filter_cache`. The source dereferences the facet response
      unconditionally, so a failed facet request is excluded here; a failed
      sample request yields an empty category table. */
  function UpdateMetadata(api: Api, cityUuid: string): (m: MetaTables)
    requires api(FacetParams(cityUuid)).Some?
    ensures var facets := api(FacetParams(cityUuid)).value.facets;
            forall code :: code in m.filters <==>
              exists i :: 0 <= i < |facets| && Contributes(facets[i]) && facets[i].code == Some(code)
    ensures api(SampleParams(cityUuid)).None? ==> m.categories == map[]
    ensures api(SampleParams(cityUuid)).Some? ==>
              var sample := api(SampleParams(cityUuid)).value.results;
              forall slug :: slug in m.categories <==>
                exists i :: 0 <= i < |sample| && sample[i].category.Some? && sample[i].category.value.slug == slug
    ensures var facets := api(FacetParams(cityUuid)).value.facets;
            forall i :: LastContributing(facets, i) ==>
              m.filters[facets[i].code.value] == EnabledEntries(facets[i].values)
    ensures api(SampleParams(cityUuid)).Some? ==>
              var sample := api(SampleParams(cityUuid)).value.results;
              forall i :: LastCategorised(sample, i) ==>
                m.categories[sample[i].category.value.slug] == sample[i].category.value
  {
    var facets := api(FacetParams(cityUuid)).value.facets;
    var products := FetchProducts(api, SampleParams(cityUuid));
    FilterValues(facets);
    CategoryValues(products);
    MetaTables(ExtractFilters(facets), BuildCategoryTable(products))
  }
}
