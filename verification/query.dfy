/** Query construction for `/product` (the parameter half of
    `fetch_products`) and the fetch itself against an API oracle. */
module Query {
  import opened Optional
  import opened Catalog

  /** A query-parameter value: a string, an integer, or a list whose items
      are sent as one repeated entry each. */
  datatype ParamValue = Text(text: string) | Number(number: int) | Multi(items: seq<string>)

  type Params = map<string, ParamValue>

  /** Filter selections: filter code -> selected slugs, in dict order. */
  type Selections = seq<(string, seq<string>)>

  /** The remote `/product` endpoint: None models a failed request. */
  type Api = Params -> Option<ProductDoc>

  const CityKey: string := "city_uuid"
  const PageKey: string := "page"
  const PerPageKey: string := "per_page"
  const CategoryKey: string := "root_category_slug"

  /** The repeated array-style key for one filter code. */
  function OptionKey(code: string): (k: string)
    ensures |k| == |code| + 11 && k[0] == 'o'
  {
    "options[" + code + "][]"
  }

  /** Different codes never share a key. */
  lemma OptionKeyInjective(a: string, b: string)
    requires OptionKey(a) == OptionKey(b)
    ensures a == b
  {
    assert a == OptionKey(a)[8..|OptionKey(a)| - 3];
    assert b == OptionKey(b)[8..|OptionKey(b)| - 3];
  }

  /** An option key is never one of the fixed keys (they start with another letter). */
  predicate IsFixedKey(k: string)
  {
    k == CityKey || k == PageKey || k == PerPageKey || k == CategoryKey
  }

  /** The slugs selected for `code`: the values of every selection entry
      with that code, in order (a Python dict has at most one). */
  function Selected(sel: Selections, code: string): seq<string>
  {
    if |sel| == 0 then []
    else (if sel[0].0 == code then sel[0].1 else []) + Selected(sel[1..], code)
  }

  /** The items already stored under `key` by earlier `setdefault` calls. */
  function Existing(p: Params, key: string): seq<string>
  {
    if key in p && p[key].Multi? then p[key].items else []
  }

  /** `params.setdefault(key, []).append(v)` for each `v` of `vs`, in order. */
  function AppendValues(p: Params, key: string, vs: seq<string>): (r: Params)
    ensures vs == [] ==> r == p
    ensures key in r <==> key in p || vs != []
    ensures vs != [] ==> r[key] == Multi(Existing(p, key) + vs)
    ensures forall k :: k != key ==> (k in r <==> k in p)
    ensures forall k :: k != key && k in p ==> r[k] == p[k]
    decreases |vs|
  {
    if |vs| == 0 then p
    else
      var p' := p[key := Multi(Existing(p, key) + [vs[0]])];
      var r := AppendValues(p', key, vs[1..]);
      assert Existing(p', key) + vs[1..] == Existing(p, key) + vs;
      r
  }

  /** The `for code, values in filters.items()` loop. */
  function AddSelections(p: Params, sel: Selections): Params
    decreases |sel|
  {
    if |sel| == 0 then p
    else AddSelections(AppendValues(p, OptionKey(sel[0].0), sel[0].1), sel[1..])
  }

  /** Some selection entry with at least one slug has key `k`. */
  ghost predicate SelectsKey(k: string, sel: Selections)
  {
    exists i :: 0 <= i < |sel| && sel[i].1 != [] && k == OptionKey(sel[i].0)
  }

  lemma SelectsKeyTail(k: string, sel: Selections)
    requires |sel| > 0
    ensures SelectsKey(k, sel) <==> (sel[0].1 != [] && k == OptionKey(sel[0].0)) || SelectsKey(k, sel[1..])
  {
    if SelectsKey(k, sel[1..]) {
      var i :| 0 <= i < |sel[1..]| && sel[1..][i].1 != [] && k == OptionKey(sel[1..][i].0);
      assert sel[i + 1] == sel[1..][i];
    }
    if SelectsKey(k, sel) && !(sel[0].1 != [] && k == OptionKey(sel[0].0)) {
      var i :| 0 <= i < |sel| && sel[i].1 != [] && k == OptionKey(sel[i].0);
      assert sel[1..][i - 1] == sel[i];
    }
  }

  /** A key is selected exactly when its code has selected slugs. */
  lemma {:induction false} SelectsKeyIffSelected(code: string, sel: Selections)
    ensures SelectsKey(OptionKey(code), sel) <==> Selected(sel, code) != []
    decreases |sel|
  {
    if |sel| > 0 {
      SelectsKeyTail(OptionKey(code), sel);
      SelectsKeyIffSelected(code, sel[1..]);
      if OptionKey(code) == OptionKey(sel[0].0) {
        OptionKeyInjective(code, sel[0].0);
      }
    }
  }

  /** Keys no selection touches keep their presence and value. */
  lemma {:induction false} AddSelectionsElsewhere(p: Params, sel: Selections, k: string)
    requires !SelectsKey(k, sel)
    ensures k in AddSelections(p, sel) <==> k in p
    ensures k in p ==> AddSelections(p, sel)[k] == p[k]
    decreases |sel|
  {
    if |sel| > 0 {
      SelectsKeyTail(k, sel);
      AddSelectionsElsewhere(AppendValues(p, OptionKey(sel[0].0), sel[0].1), sel[1..], k);
    }
  }

  /** The selected slugs of a code are appended, in order, under its key. */
  lemma {:induction false} AddSelectionsAt(p: Params, sel: Selections, code: string)
    requires Selected(sel, code) != []
    ensures OptionKey(code) in AddSelections(p, sel)
    ensures AddSelections(p, sel)[OptionKey(code)] == Multi(Existing(p, OptionKey(code)) + Selected(sel, code))
    decreases |sel|, 2
  {
    var key := OptionKey(sel[0].0);
    var p' := AppendValues(p, key, sel[0].1);
    assert AddSelections(p, sel) == AddSelections(p', sel[1..]);
    if sel[0].0 == code {
      AddSelectionsAtHead(p, sel, code);
    } else {
      if OptionKey(code) == key {
        OptionKeyInjective(code, sel[0].0);
      }
      assert Selected(sel, code) == Selected(sel[1..], code);
      assert Existing(p', OptionKey(code)) == Existing(p, OptionKey(code));
      AddSelectionsAt(p', sel[1..], code);
    }
  }

  lemma {:induction false} AddSelectionsAtHead(p: Params, sel: Selections, code: string)
    requires Selected(sel, code) != []
    requires |sel| > 0 && sel[0].0 == code
    ensures OptionKey(code) in AddSelections(p, sel)
    ensures AddSelections(p, sel)[OptionKey(code)] == Multi(Existing(p, OptionKey(code)) + Selected(sel, code))
    decreases |sel|, 1
  {
    assert Selected(sel, code) == sel[0].1 + Selected(sel[1..], code);
    if Selected(sel[1..], code) == [] {
      AddSelectionsLastAtHead(p, sel, code);
    } else {
      AddSelectionsAtHeadAndTail(p, sel, code);
    }
  }

  /** The head entry and later entries both select `code`. */
  lemma {:induction false} AddSelectionsAtHeadAndTail(p: Params, sel: Selections, code: string)
    requires |sel| > 0 && sel[0].0 == code
    requires Selected(sel[1..], code) != []
    ensures OptionKey(code) in AddSelections(p, sel)
    ensures AddSelections(p, sel)[OptionKey(code)] == Multi(Existing(p, OptionKey(code)) + sel[0].1 + Selected(sel[1..], code))
    decreases |sel|, 0
  {
    var key := OptionKey(code);
    var p' := AppendValues(p, key, sel[0].1);
    assert AddSelections(p, sel) == AddSelections(p', sel[1..]);
    AddSelectionsAt(p', sel[1..], code);
    assert Existing(p', key) == Existing(p, key) + sel[0].1;
  }

  /** The head entry is the only one selecting `code`. */
  lemma AddSelectionsLastAtHead(p: Params, sel: Selections, code: string)
    requires |sel| > 0 && sel[0].0 == code && sel[0].1 != []
    requires Selected(sel[1..], code) == []
    ensures OptionKey(code) in AddSelections(p, sel)
    ensures AddSelections(p, sel)[OptionKey(code)] == Multi(Existing(p, OptionKey(code)) + sel[0].1)
  {
    var key := OptionKey(code);
    var p' := AppendValues(p, key, sel[0].1);
    assert AddSelections(p, sel) == AddSelections(p', sel[1..]);
    SelectsKeyIffSelected(code, sel[1..]);
    AddSelectionsElsewhere(p', sel[1..], key);
  }

  /** The parameter set of `fetch_products`. */
  function BuildParams(cityUuid: string, category: Option<string>, page: int, perPage: int, sel: Selections): (p: Params)
    ensures CityKey in p && p[CityKey] == Text(cityUuid)
    ensures PageKey in p && p[PageKey] == Number(page)
    ensures PerPageKey in p && p[PerPageKey] == Number(perPage)
    ensures CategoryKey in p <==> category.Some? && category.value != ""
    ensures CategoryKey in p ==> p[CategoryKey] == Text(category.value)
    ensures forall code :: OptionKey(code) in p <==> Selected(sel, code) != []
    ensures forall code :: OptionKey(code) in p ==> p[OptionKey(code)] == Multi(Selected(sel, code))
    ensures forall k :: k in p ==> IsFixedKey(k) || SelectsKey(k, sel)
  {
    var base := map[CityKey := Text(cityUuid), PageKey := Number(page), PerPageKey := Number(perPage)];
    var start := if category.Some? && category.value != "" then base[CategoryKey := Text(category.value)] else base;
    var p := AddSelections(start, sel);
    forall k | IsFixedKey(k)
      ensures k in p <==> k in start
      ensures k in start ==> p[k] == start[k]
    {
      AddSelectionsElsewhere(start, sel, k);
    }
    forall code
      ensures OptionKey(code) in p <==> Selected(sel, code) != []
      ensures OptionKey(code) in p ==> p[OptionKey(code)] == Multi(Selected(sel, code))
    {
      assert OptionKey(code) !in start by {
        assert OptionKey(code)[0] == 'o';
      }
      SelectsKeyIffSelected(code, sel);
      if Selected(sel, code) != [] {
        AddSelectionsAt(start, sel, code);
      } else {
        AddSelectionsElsewhere(start, sel, OptionKey(code));
      }
    }
    forall k | k in p
      ensures IsFixedKey(k) || SelectsKey(k, sel)
    {
      if !SelectsKey(k, sel) {
        AddSelectionsElsewhere(start, sel, k);
      }
    }
    p
  }

  /** The number of repeated entries sent for a code is the number of slugs
      selected for it. */
  lemma {:induction false} EntryCountForSingleSelection(cityUuid: string, category: Option<string>, page: int, perPage: int,
                                                        sel: Selections, i: int)
    requires 0 <= i < |sel| && sel[i].1 != []
    requires forall j :: 0 <= j < |sel| && j != i ==> sel[j].0 != sel[i].0
    ensures OptionKey(sel[i].0) in BuildParams(cityUuid, category, page, perPage, sel)
    ensures BuildParams(cityUuid, category, page, perPage, sel)[OptionKey(sel[i].0)] == Multi(sel[i].1)
  {
    SelectedUnique(sel, i);
  }

  /** With distinct codes, the selection for a code is exactly its entry. */
  lemma {:induction false} SelectedUnique(sel: Selections, i: int)
    requires 0 <= i < |sel|
    requires forall j :: 0 <= j < |sel| && j != i ==> sel[j].0 != sel[i].0
    ensures Selected(sel, sel[i].0) == sel[i].1
    decreases |sel|
  {
    if i == 0 {
      SelectedAbsent(sel[1..], sel[0].0);
    } else {
      assert sel[1..][i - 1] == sel[i];
      SelectedUnique(sel[1..], i - 1);
    }
  }

  lemma {:induction false} SelectedAbsent(sel: Selections, code: string)
    requires forall j :: 0 <= j < |sel| ==> sel[j].0 != code
    ensures Selected(sel, code) == []
    decreases |sel|
  {
    if |sel| > 0 {
      SelectedAbsent(sel[1..], code);
    }
  }

  /** `fetch_products` after the parameters are built: the `results` of the
      response, or nothing when the request failed. */
  function FetchProducts(api: Api, params: Params): (r: seq<Product>)
    ensures api(params).None? ==> r == []
    ensures api(params).Some? ==> r == api(params).value.results
  {
    match api(params)
    case Some(doc) => doc.results
    case None => []
  }
}
