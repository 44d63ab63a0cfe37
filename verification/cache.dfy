/** The cache files (`load_json` / `save_json`) as a map from path to
    document: loading a missing path gives None, saving overwrites in full. */
module Cache {
  import opened Optional

  type Store<D> = map<string, D>

  function Load<D>(store: Store<D>, path: string): (r: Option<D>)
    ensures r.Some? <==> path in store
    ensures r.Some? ==> r.value == store[path]
  {
    Get(store, path)
  }

  /** Saving then loading the same path gives the saved document back, and
      every other path is untouched. */
  function Save<D>(store: Store<D>, path: string, doc: D): (r: Store<D>)
    ensures Load(r, path) == Some(doc)
    ensures forall p :: p != path ==> Load(r, p) == Load(store, p)
  {
    store[path := doc]
  }
}
