# Alkoteka scraper: a Dafny model of its decision logic

This project models the pure decision logic of `alkoteka_scraper.py`. That
script pulls the product catalog of alkoteka.com for one city and writes it to
an NDJSON file. The model covers:

- **City resolution** (`get_city_uuid`). The `/city` listing is folded into a
  name → uuid table: the `meta.accented` entries first, then `results`, and
  the last entry wins. The table is cached. The requested name is then looked
  up in it.
- **Filter table** (`extract_filters`). For each facet with a non-empty code
  and at least one value, the code maps to the enabled values as
  `{name, slug}`, in order.
- **Category table** (the comprehension in `update_filter_cache`). Each
  product that has a `category` contributes it under its slug, and the last
  one wins.
- **Query parameters** (the first half of `fetch_products`). The fixed keys
  are always sent. `root_category_slug` is sent only for a non-empty category.
  Each selected slug becomes one entry under `options[<code>][]`.
- **Output naming** (`sanitize_filename_component` and the `parts` list of
  `main`).
- **Pagination and the run as a whole** (`main`). Fetch-all asks for pages 1,
  2, 3, … until the first empty page. Single-page mode makes one request.

The remote API is an oracle `Params -> Option<ProductDoc>`, where `None` is a
failed request. Pagination works on a page oracle `int -> seq<Product>` built
from it. The city cache and the `/city` response are inputs. The date stamp is
an input too. The run returns a `Report` that says what it would write: the
city table, the metadata tables, the requested pages, the gathered products,
and the outcome with the file name.

Modules:

- `Optional`: the option type.
- `Tables`: the shared last-writer-wins fold.
- `Catalog`: the JSON records.
- `Cities`, `Filters`, `Query`, `Filenames`, `Pagination`, `Metadata` and
  `Cache`: one module per component.
- `Scraper`: `main`.

Two consequences of the code worth knowing:

- Colour and sugar parts of the file name are not tagged, so `--color red`
  and `--sugar red` give the same name (`Filenames.ColorAndSugarShareNames`).
  Likewise, `--color all` without fetch-all gives the same name as fetch-all
  without colours. Fetch-all with everything else the same does always
  change the name (`Filenames.FetchAllChangesFilename`).
- A failed category-sample request still overwrites the category cache with
  an empty table, because `fetch_products` turns the failure into `[]`
  (`Metadata.UpdateMetadata`).

## Model

| member | source | states |
|---|---|---|
| Tables.LastWins | alkoteka_scraper.py:76-77 | a key is in the folded table iff some kept record has that key |
| Tables.LastWinsAt | alkoteka_scraper.py:77 | the value stored for a key is that of the last kept record with the key (last writer wins) |
| Tables.LastWinsAppend | alkoteka_scraper.py:76-77 | folding `a + b` equals the fold of `a` overwritten by the fold of `b` |
| Cities.BuildCityTable | alkoteka_scraper.py:76-77 | the city table's names are exactly the names listed in the accented list or in the results |
| Cities.AccentedThenResults | alkoteka_scraper.py:76-77 | the city table is the accented table overwritten by the results table |
| Cities.DefaultResultsWin | alkoteka_scraper.py:76-79 | a name listed in the results resolves to the uuid of its last result entry, whatever the accented list holds |
| Cities.AccentedOnlyKept | alkoteka_scraper.py:76-79 | a name only in the accented list resolves to its last accented uuid |
| Cities.ResolveCity | alkoteka_scraper.py:69-79 | a non-empty cache is used without fetching; a missing or empty cache causes a fetch; a failed fetch or an empty JSON object gives no uuid and writes nothing; otherwise the built table is written and the name is found iff it is listed |
| Filters.EnabledEntries | alkoteka_scraper.py:103-107 | an entry is kept iff it comes from an enabled value; no value enabled gives `[]`; all enabled keeps every value |
| Filters.EnabledEntriesAppend | alkoteka_scraper.py:103-107 | order is preserved: the entries of a concatenation are those of each part, in sequence |
| Filters.ExtractFilters | alkoteka_scraper.py:96-108 | a code is a key iff some facet has that non-empty code and a non-empty value list; the empty code is never a key |
| Filters.ExtractFiltersLastFacet | alkoteka_scraper.py:99-107 | a code maps to the enabled entries of the last contributing facet with that code |
| Filters.BuildCategoryTable | alkoteka_scraper.py:119-121 | the keys are exactly the category slugs of products that have a category |
| Filters.CategoryTableLastProduct | alkoteka_scraper.py:119-121 | a slug maps to the category of the last product with that slug |
| Filters.CategoryTableIgnoresUncategorised | alkoteka_scraper.py:120 | inserting a product without a category anywhere leaves the table unchanged |
| Query.OptionKey | alkoteka_scraper.py:143 | an option key is eleven characters longer than its code and starts with `o`, so it never equals a fixed key |
| Query.OptionKeyInjective | alkoteka_scraper.py:143 | two codes with the same option key are equal |
| Query.AppendValues | alkoteka_scraper.py:144 | `setdefault(...).append` over a slug list appends the slugs in order under the key and touches no other key |
| Query.AddSelectionsElsewhere | alkoteka_scraper.py:140-144 | keys that no selection with slugs names keep their presence and value |
| Query.AddSelectionsAt | alkoteka_scraper.py:140-144 | under a selected code's key, the selected slugs are appended in order |
| Query.BuildParams | alkoteka_scraper.py:133-144 | `city_uuid`, `page` and `per_page` are always present with the given values; `root_category_slug` is present iff the category is non-empty; `options[code][]` is present iff slugs are selected for the code and then holds exactly them, in order; no other key appears |
| Query.EntryCountForSingleSelection | alkoteka_scraper.py:140-144 | with distinct codes, a code's key holds exactly its selected slugs, one entry per slug |
| Filenames.Lower | alkoteka_scraper.py:152 | lower-casing yields a non-upper-case character, fixes lower-case ones, and keeps word-char-ness and whitespace-ness |
| Filenames.StripBounds | alkoteka_scraper.py:152 | what `strip` removes is whitespace, and a non-empty remainder neither starts nor ends with whitespace |
| Filenames.SafeChars | alkoteka_scraper.py:152 | the substitution is applied character by character and keeps the length |
| Filenames.Sanitize | alkoteka_scraper.py:150-152 | the output is as long as the stripped input; every output character is a lower-case word character or `-`; a character whose lower case is a word character or `-` becomes that lower case, any other becomes `_` |
| Filenames.SanitizeIdempotent | alkoteka_scraper.py:150-152 | sanitising twice is sanitising once |
| Filenames.SanitizeExample | alkoteka_scraper.py:150-152 | "Красный/Белый" becomes "красный_белый" |
| Filenames.JoinIsFirstThenPrefixed | alkoteka_scraper.py:253 | a join is the first part followed by each other part with the separator in front |
| Filenames.OutputFilename | alkoteka_scraper.py:243-253 | the name starts with `alkoteka_` and then the sanitised category, and ends with `_<date>.ndjson` |
| Filenames.FilenameLayout | alkoteka_scraper.py:243-253 | the name is the prefix, the category, each colour, each sugar, `all` in fetch-all mode, then the date and the extension; the category, colours and sugars are sanitised, and every part after the prefix is preceded by `_` |
| Filenames.FetchAllChangesFilename | alkoteka_scraper.py:249-253 | fetch-all makes the name exactly four characters longer than it is otherwise |
| Filenames.ColorAndSugarShareNames | alkoteka_scraper.py:244-248 | the same slug as a colour or as a sugar gives the same file name |
| Pagination.FetchAll | alkoteka_scraper.py:255-276 | requests pages 1, 2, … in order and never twice; stops at the first empty page k after exactly k requests; gathers pages 1 to k-1 concatenated in order |
| Pagination.PagesBeforeLength | alkoteka_scraper.py:268 | the number of gathered items is the sum of the sizes of the pages before the stop |
| Pagination.ThreePageExample | alkoteka_scraper.py:257-274 | pages of 2, then 1, then 0 items give three requests and three items |
| Metadata.UnfilteredParams | alkoteka_scraper.py:83-93 | without a category or selections, exactly the three fixed parameters are sent, so the facet request is a `fetch_products` request |
| Metadata.UpdateMetadata | alkoteka_scraper.py:111-124 | the filter keys are the codes of the contributing facets in the facet response; each code maps to the enabled entries of its last contributing facet; the category keys are the category slugs of the 1000-product sample, or none when that request fails, and each slug maps to the category of the last sample product carrying it |
| Cache.Save | alkoteka_scraper.py:54-57 | loading a saved path gives the saved document back, and other paths are unchanged |
| Scraper.FailedRequestStops | alkoteka_scraper.py:146-147 | after non-empty pages 1 .. k-1, the fetch-all walk stops at page k iff that request failed or returned no results: an absent response counts as an empty page |
| Scraper.SelectionsOf | alkoteka_scraper.py:235-239 | the colours are selected under `cvet`, the sugars under `soderzanie-saxara`, and nothing under any other code |
| Scraper.ProductPhase | alkoteka_scraper.py:255-283 | single-page mode makes exactly one request, for the given page, and returns its result; fetch-all mode behaves as `FetchAll` |
| Scraper.Run | alkoteka_scraper.py:222-292 | a missing or empty uuid stops the run with no further request; metadata is refreshed iff asked to or the filter cache is missing; an empty accumulator saves nothing; otherwise the products are saved under `OutputFilename` |

## Left out

- HTTP, `aiohttp` and `asyncio`: `fetch_json` is the API oracle. An
  `aiohttp.ClientError` (a transport failure or a non-success status) or an
  empty body is its `None`.
- Any other exception in `fetch_json`, such as a body that is not valid JSON
  (`json.JSONDecodeError` from `response.json()`), is not caught by the source
  and ends the run before anything is saved. It is not modelled: the oracle
  has no outcome for it.
- The `rich` progress bar, the logging setup and the console output of
  `display_product`.
- Scraper.Run: a product's `Category.parent == None` stands for an absent
  `parent` key, and a product's `filter_labels` are not modelled. A JSON
  `null` `parent` or `filter_labels` is not modelled: in the source it makes
  `display_product` raise before anything is saved, while `Run` reports
  `Saved` for such products.
- Reading and writing files (`load_json`, `save_json`, `save_products`) and
  the `CACHE_DIR.mkdir` at import time. The caches enter `Run` as inputs: the
  city table as read, and whether the filter cache file exists. The `Cache`
  module states the load and save behaviour on its own and is not wired into
  `Run`. The run reports the products and the file name instead of writing
  NDJSON. JSON serialisation itself is not modelled.
- `parse_arguments`: its result is the `Args` datatype. An absent
  `--color`/`--sugar` and one given without values are both the empty list,
  as both are falsy in the source.
- `datetime.now()`: the date stamp is a parameter.
- Filenames.Lower: Python's `\w`, `str.isspace` and `str.lower` are
  Unicode-wide. Here, word characters and case mapping cover ASCII and the
  Cyrillic block U+0400..U+045F only. Case mappings that change a string's
  length are not modelled. Whitespace is Python's exact set.
- Metadata.UpdateMetadata: requires the facet request to succeed, because the
  source calls `.get` on `None` and crashes. Exceptions are not modelled.
- Pagination.FetchAll: requires a named empty page `stop` (a ghost
  witness), because the source loops forever when no page is empty.
- Missing keys inside records (`city["name"]`, `val["slug"]`,
  `p["category"]["slug"]`) raise `KeyError` in the source. Here they are
  record fields that are always present. A product's `category` is either
  absent or an object: a JSON `null` category, which crashes the source, is
  not modelled. Nor are the JSON `null` values that crash the source:
  `results: null` in the category sample (iterating `None` at
  `alkoteka_scraper.py:120`) or in the city listing (`list + None` at line
  76), and `meta: null` (`.get` on `None` at lines 76 and 113). In the product
  phase a `null` `results` does not crash: `fetch_products` returns `None`,
  which ends fetch-all (line 266) and is skipped in single-page mode (line
  281), exactly as the model's empty page is.
- The JSON truthiness of non-boolean `enabled` values and of non-string
  `code` values: `enabled` is a boolean, and `code` is an optional string.
