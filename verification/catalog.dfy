/** The JSON records the scraper reads from the remote API, reduced to the
    fields the scraper inspects. Everything else a product carries (price,
    URLs, filter labels, ...) is an opaque payload passed through unchanged. */
module Catalog {
  import opened Optional

  /** One entry of a facet's value list; `enabled` is the truthiness of the
      value's `enabled` field. */
  datatype FacetValue = FacetValue(name: string, slug: string, enabled: bool)

  /** A server-described filterable attribute; `code` is None when the facet
      has no `code` key. */
  datatype Facet = Facet(code: Option<string>, values: seq<FacetValue>)

  /** The `parent` object embedded in a category. */
  datatype ParentCategory = ParentCategory(slug: string, name: string)

  /** The `category` object embedded in a product. */
  datatype Category = Category(slug: string, name: string, parent: Option<ParentCategory>)

  /** A product; `category` is None when the product has no `category` key. */
  datatype Product = Product(uuid: string, name: string, category: Option<Category>, payload: string)

  /** A parsed `/product` response: `meta.facets` and `results`, each empty
      when its key is missing. */
  datatype ProductDoc = ProductDoc(facets: seq<Facet>, results: seq<Product>)
}
