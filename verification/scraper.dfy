/** `main`: resolve the city, refresh the metadata when asked to or when
    the filter cache is missing, fetch one page or every page, and name the
    output file. Console output and the file writes themselves are left to
    the caller; the report says what would be written. */
module Scraper {
  import opened Optional
  import opened Catalog
  import opened Cities
  import opened Query
  import opened Filenames
  import opened Pagination
  import opened Metadata

  const ColorCode: string := "cvet"
  const SugarCode: string := "soderzanie-saxara"

  /** The parsed command line; `--color` and `--sugar` without values and
      their absence both give the empty list. */
  datatype Args = Args(
    city: string,
    category: string,
    colors: seq<string>,
    sugars: seq<string>,
    page: int,
    perPage: int,
    refreshMeta: bool,
    fetchAll: bool)

  /** The `filters` dict of `main`: colours under `cvet`, sugars under
      `soderzanie-saxara`, each only when some were given. */
  function SelectionsOf(args: Args): (sel: Selections)
    ensures Selected(sel, ColorCode) == args.colors
    ensures Selected(sel, SugarCode) == args.sugars
    ensures forall code :: code != ColorCode && code != SugarCode ==> Selected(sel, code) == []
  {
    var colors: Selections := if args.colors != [] then [(ColorCode, args.colors)] else [];
    var sugars: Selections := if args.sugars != [] then [(SugarCode, args.sugars)] else [];
    SelectedAppend(colors, sugars);
    forall code ensures Selected(colors, code) == if code == ColorCode then args.colors else [] {
      if args.colors != [] {
        SelectedSingle(ColorCode, args.colors, code);
      }
    }
    forall code ensures Selected(sugars, code) == if code == SugarCode then args.sugars else [] {
      if args.sugars != [] {
        SelectedSingle(SugarCode, args.sugars, code);
      }
    }
    assert ColorCode != SugarCode by {
      assert ColorCode[0] != SugarCode[0];
    }
    colors + sugars
  }

  lemma SelectedSingle(code: string, slugs: seq<string>, other: string)
    ensures Selected([(code, slugs)], other) == if code == other then slugs else []
  {
    var sel := [(code, slugs)];
    assert sel[1..] == [];
    assert Selected(sel, other) == (if code == other then slugs else []) + [];
  }

  lemma {:induction false} SelectedAppend(a: Selections, b: Selections)
    ensures forall code :: Selected(a + b, code) == Selected(a, code) + Selected(b, code)
    decreases |a|
  {
    forall code
      ensures Selected(a + b, code) == Selected(a, code) + Selected(b, code)
    {
      if |a| == 0 {
        assert a + b == b;
      } else {
        assert (a + b)[1..] == a[1..] + b;
        SelectedAppend(a[1..], b);
      }
    }
  }

  /** One `fetch_products` call of the product phase. */
  function PageOf(api: Api, cityUuid: string, args: Args, page: int): seq<Product>
  {
    FetchProducts(api, BuildParams(cityUuid, Some(args.category), page, args.perPage, SelectionsOf(args)))
  }

  function PageOracle(api: Api, cityUuid: string, args: Args): int -> seq<Product>
  {
    page => PageOf(api, cityUuid, args, page)
  }

  /** In fetch-all mode a failed request ends the walk like an empty page:
      after non-empty pages 1 .. k - 1, page k is where the walk stops iff
      its request failed or returned no results. */
  lemma FailedRequestStops(api: Api, cityUuid: string, args: Args, k: int)
    requires 1 <= k
    requires forall p :: 1 <= p < k ==> |PageOf(api, cityUuid, args, p)| > 0
    ensures var response := api(BuildParams(cityUuid, Some(args.category), k, args.perPage, SelectionsOf(args)));
            FirstEmpty(PageOracle(api, cityUuid, args), k) <==> response.None? || response.value.results == []
  {
    var fetch := PageOracle(api, cityUuid, args);
    assert fetch(k) == PageOf(api, cityUuid, args, k);
    forall p | 1 <= p < k
      ensures |fetch(p)| > 0
    {
      assert fetch(p) == PageOf(api, cityUuid, args, p);
    }
  }

  /** `if not city_uuid`: a missing or empty uuid stops the run. */
  predicate Resolved(c: CityResolution)
  {
    c.uuid.Some? && c.uuid.value != ""
  }

  predicate NeedsMeta(args: Args, filterCacheExists: bool)
  {
    args.refreshMeta || !filterCacheExists
  }

  datatype Outcome = CityNotFound | NoProducts | Saved(filename: string)

  /** What a run did: the city resolution, the metadata tables written (if
      any), the pages requested in the product phase, the products gathered,
      and how the run ended. */
  datatype Report = Report(
    city: CityResolution,
    meta: Option<MetaTables>,
    pages: seq<int>,
    products: seq<Product>,
    outcome: Outcome)

  /** The product phase of `main`: every page until the first empty one in
      fetch-all mode, otherwise the one requested page. */
  method ProductPhase(api: Api, cityUuid: string, args: Args, ghost stop: int) returns (products: seq<Product>, pages: seq<int>)
    requires args.fetchAll ==> 1 <= stop && |PageOf(api, cityUuid, args, stop)| == 0
    ensures !args.fetchAll ==> pages == [args.page] && products == PageOf(api, cityUuid, args, args.page)
    ensures args.fetchAll ==>
              && FirstEmpty(PageOracle(api, cityUuid, args), |pages|)
              && (forall i :: 0 <= i < |pages| ==> pages[i] == i + 1)
              && products == PagesBefore(PageOracle(api, cityUuid, args), |pages|)
  {
    if args.fetchAll {
      var fetch := PageOracle(api, cityUuid, args);
      assert fetch(stop) == PageOf(api, cityUuid, args, stop);
      products, pages := FetchAll(fetch, stop);
    } else {
      products := PageOf(api, cityUuid, args, args.page);
      pages := [args.page];
    }
  }

  /** The conditions under which `main` returns: the facet request of a
      refresh succeeds (the source crashes otherwise), and in fetch-all mode
      some page comes back empty (the source loops forever otherwise). */
  ghost predicate CanRun(args: Args, cityCache: Option<CityTable>, cityResponse: Option<CityDoc>,
                         filterCacheExists: bool, api: Api)
  {
    var c := ResolveCity(cityCache, cityResponse, args.city);
    Resolved(c) ==>
      && (NeedsMeta(args, filterCacheExists) ==> api(FacetParams(c.uuid.value)).Some?)
      && (args.fetchAll ==> exists k :: 1 <= k && |PageOf(api, c.uuid.value, args, k)| == 0)
  }

  method Run(args: Args, cityCache: Option<CityTable>, cityResponse: Option<CityDoc>,
             filterCacheExists: bool, api: Api, timestamp: string) returns (r: Report)
    requires CanRun(args, cityCache, cityResponse, filterCacheExists, api)
    ensures r.city == ResolveCity(cityCache, cityResponse, args.city)
    ensures !Resolved(r.city) ==> r.outcome == CityNotFound && r.meta.None? && r.pages == [] && r.products == []
    ensures Resolved(r.city) ==> (r.meta.Some? <==> NeedsMeta(args, filterCacheExists))
    ensures Resolved(r.city) && r.meta.Some? ==> r.meta.value == UpdateMetadata(api, r.city.uuid.value)
    ensures Resolved(r.city) && !args.fetchAll ==>
              r.pages == [args.page] && r.products == PageOf(api, r.city.uuid.value, args, args.page)
    ensures Resolved(r.city) && args.fetchAll ==>
              && FirstEmpty(PageOracle(api, r.city.uuid.value, args), |r.pages|)
              && (forall i :: 0 <= i < |r.pages| ==> r.pages[i] == i + 1)
              && r.products == PagesBefore(PageOracle(api, r.city.uuid.value, args), |r.pages|)
    ensures r.outcome.Saved? <==> Resolved(r.city) && r.products != []
    ensures r.outcome.NoProducts? <==> Resolved(r.city) && r.products == []
    ensures r.outcome.Saved? ==>
              r.outcome.filename == OutputFilename(args.category, args.colors, args.sugars, args.fetchAll, timestamp)
  {
    var city := ResolveCity(cityCache, cityResponse, args.city);
    if !Resolved(city) {
      return Report(city, None, [], [], CityNotFound);
    }
    ghost var stop := 1;
    if args.fetchAll {
      stop :| 1 <= stop && |PageOf(api, city.uuid.value, args, stop)| == 0;
    }
    var meta, pages, products, outcome := Scrape(args, city.uuid.value, filterCacheExists, api, timestamp, stop);
    r := Report(city, meta, pages, products, outcome);
  }

  /** `main` after the city is resolved to a non-empty uuid. */
  method Scrape(args: Args, cityUuid: string, filterCacheExists: bool, api: Api, timestamp: string, ghost stop: int)
    returns (meta: Option<MetaTables>, pages: seq<int>, products: seq<Product>, outcome: Outcome)
    requires NeedsMeta(args, filterCacheExists) ==> api(FacetParams(cityUuid)).Some?
    requires args.fetchAll ==> 1 <= stop && |PageOf(api, cityUuid, args, stop)| == 0
    ensures meta.Some? <==> NeedsMeta(args, filterCacheExists)
    ensures meta.Some? ==> meta.value == UpdateMetadata(api, cityUuid)
    ensures !args.fetchAll ==> pages == [args.page] && products == PageOf(api, cityUuid, args, args.page)
    ensures args.fetchAll ==>
              && FirstEmpty(PageOracle(api, cityUuid, args), |pages|)
              && (forall i :: 0 <= i < |pages| ==> pages[i] == i + 1)
              && products == PagesBefore(PageOracle(api, cityUuid, args), |pages|)
    ensures outcome != CityNotFound
    ensures outcome.Saved? <==> products != []
    ensures outcome.Saved? ==>
              outcome.filename == OutputFilename(args.category, args.colors, args.sugars, args.fetchAll, timestamp)
  {
    meta := None;
    if NeedsMeta(args, filterCacheExists) {
      meta := Some(UpdateMetadata(api, cityUuid));
    }
    var filename := OutputFilename(args.category, args.colors, args.sugars, args.fetchAll, timestamp);
    products, pages := ProductPhase(api, cityUuid, args, stop);
    outcome := if |products| == 0 then NoProducts else Saved(filename);
  }
}
