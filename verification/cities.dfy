/** City resolution (`get_city_uuid`): the `/city` listing is folded into a
    name -> uuid table, cached, and the requested name is looked up in it. */
module Cities {
  import opened Optional
  import Tables

  datatype City = City(name: string, uuid: string)

  /** A parsed `/city` response: `meta.accented` and `results`, each empty
      when its key is missing. `hasKeys` is false for the empty JSON object,
      which is falsy and so treated like a failed request. */
  datatype CityDoc = CityDoc(accented: seq<City>, results: seq<City>, hasKeys: bool)

  type CityTable = map<string, string>

  /** What one resolution did: the uuid found (if any), whether the `/city`
      endpoint was requested, and the table written to the cache (if any). */
  datatype CityResolution = CityResolution(uuid: Option<string>, fetched: bool, written: Option<CityTable>)

  function KeepAll(c: City): bool { true }
  function NameOf(c: City): string { c.name }
  function UuidOf(c: City): string { c.uuid }

  /** Some city of `cities` is called `name`. */
  ghost predicate Listed(cities: seq<City>, name: string)
  {
    exists i :: 0 <= i < |cities| && cities[i].name == name
  }

  /** The table built from a listing: accented entries first, then the
      default results, later entries overwriting earlier ones. */
  function BuildCityTable(doc: CityDoc): (t: CityTable)
    ensures forall name :: name in t <==> Listed(doc.accented, name) || Listed(doc.results, name)
  {
    var all := doc.accented + doc.results;
    assert forall name :: Listed(all, name) <==> Listed(doc.accented, name) || Listed(doc.results, name) by {
      forall name
        ensures Listed(all, name) ==> Listed(doc.accented, name) || Listed(doc.results, name)
      {
        if Listed(all, name) {
          var i :| 0 <= i < |all| && all[i].name == name;
          if i >= |doc.accented| {
            assert doc.results[i - |doc.accented|] == all[i];
          }
        }
      }
      forall name
        ensures Listed(doc.accented, name) ==> Listed(all, name)
      {
        if Listed(doc.accented, name) {
          var i :| 0 <= i < |doc.accented| && doc.accented[i].name == name;
          assert all[i] == doc.accented[i];
        }
      }
      forall name
        ensures Listed(doc.results, name) ==> Listed(all, name)
      {
        if Listed(doc.results, name) {
          var i :| 0 <= i < |doc.results| && doc.results[i].name == name;
          assert all[|doc.accented| + i] == doc.results[i];
        }
      }
    }
    Tables.LastWins(all, KeepAll, NameOf, UuidOf)
  }

  /** The tie-break of the merge: a name listed in the default results maps to
      the uuid of the last such result, whatever the accented list says. */
  lemma {:induction false} DefaultResultsWin(doc: CityDoc, i: int)
    requires 0 <= i < |doc.results|
    requires forall j :: i < j < |doc.results| ==> doc.results[j].name != doc.results[i].name
    ensures Get(BuildCityTable(doc), doc.results[i].name) == Some(doc.results[i].uuid)
  {
    Tables.LastWinsAppend(doc.accented, doc.results, KeepAll, NameOf, UuidOf);
    Tables.LastWinsAt(doc.results, KeepAll, NameOf, UuidOf, i);
  }

  /** The city table is the accented table overwritten by the results
      table. */
  lemma AccentedThenResults(doc: CityDoc)
    ensures BuildCityTable(doc)
            == Tables.LastWins(doc.accented, KeepAll, NameOf, UuidOf) + Tables.LastWins(doc.results, KeepAll, NameOf, UuidOf)
  {
    Tables.LastWinsAppend(doc.accented, doc.results, KeepAll, NameOf, UuidOf);
  }

  /** A name listed only in the accented list maps to the uuid of the last
      accented entry with that name. */
  lemma {:induction false} AccentedOnlyKept(doc: CityDoc, i: int)
    requires 0 <= i < |doc.accented|
    requires forall j :: i < j < |doc.accented| ==> doc.accented[j].name != doc.accented[i].name
    requires !Listed(doc.results, doc.accented[i].name)
    ensures Get(BuildCityTable(doc), doc.accented[i].name) == Some(doc.accented[i].uuid)
  {
    Tables.LastWinsAppend(doc.accented, doc.results, KeepAll, NameOf, UuidOf);
    Tables.LastWinsAt(doc.accented, KeepAll, NameOf, UuidOf, i);
  }

  /** The response is truthy: it arrived and is not the empty object. A
      response that lists any city has a key, whatever `hasKeys` says. */
  predicate Usable(response: Option<CityDoc>)
  {
    response.Some? && (response.value.hasKeys || response.value.accented != [] || response.value.results != [])
  }

  /** `get_city_uuid`: a cached table is used unless the cache file is
      missing or holds an empty table (`if not cities`); otherwise the
      listing is fetched. A failed fetch or an empty object gives None and
      writes nothing (`if not data`); any other listing is built into a
      table, written to the cache, and searched. */
  function ResolveCity(cached: Option<CityTable>, response: Option<CityDoc>, name: string): (r: CityResolution)
    ensures r.fetched <==> cached.None? || cached.value == map[]
    ensures !r.fetched ==> r.uuid == Get(cached.value, name) && r.written.None?
    ensures r.fetched && !Usable(response) ==> r.uuid.None? && r.written.None?
    ensures r.fetched && Usable(response) ==> r.written == Some(BuildCityTable(response.value))
    ensures r.fetched && Usable(response) ==>
              (r.uuid.Some? <==> Listed(response.value.accented, name) || Listed(response.value.results, name))
    ensures r.written.Some? ==> r.uuid == Get(r.written.value, name)
  {
    if cached.Some? && cached.value != map[] then
      CityResolution(Get(cached.value, name), false, None)
    else if !Usable(response) then
      CityResolution(None, true, None)
    else
      var t := BuildCityTable(response.value);
      CityResolution(Get(t, name), true, Some(t))
  }
}
