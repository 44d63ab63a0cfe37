/** The "last writer wins" table build shared by the city table, the filter
    table and the category table: a sequence of records is folded, front to
    back, into a map; records the build does not keep are skipped, and a
    later record overwrites an earlier one with the same key, exactly as a
    Python dict comprehension or a `d[k] = v` loop does. */
module Tables {

  /** Index `i` holds the LAST kept record of `xs` with the key `xs[i]` has. */
  ghost predicate IsLastKept<T, K>(xs: seq<T>, keep: T -> bool, key: T -> K, i: int)
  {
    && 0 <= i < |xs|
    && keep(xs[i])
    && forall j :: i < j < |xs| && keep(xs[j]) ==> key(xs[j]) != key(xs[i])
  }

  /** Folds `xs` into a map from `key` to `val`, in order, skipping the
      records `keep` rejects; the last kept record for a key wins. */
  function LastWins<T, K(==, !new), V>(xs: seq<T>, keep: T -> bool, key: T -> K, val: T -> V): (m: map<K, V>)
    ensures forall k :: k in m <==> exists i :: 0 <= i < |xs| && keep(xs[i]) && key(xs[i]) == k
    decreases |xs|
  {
    if |xs| == 0 then map[]
    else
      var m := LastWins(xs[..|xs| - 1], keep, key, val);
      var x := xs[|xs| - 1];
      if keep(x) then m[key(x) := val(x)] else m
  }

  /** The value stored for a key is the value of the last kept record with
      that key. */
  lemma {:induction false} LastWinsAt<T, K(!new), V>(xs: seq<T>, keep: T -> bool, key: T -> K, val: T -> V, i: int)
    requires IsLastKept(xs, keep, key, i)
    ensures key(xs[i]) in LastWins(xs, keep, key, val)
    ensures LastWins(xs, keep, key, val)[key(xs[i])] == val(xs[i])
    decreases |xs|
  {
    if i < |xs| - 1 {
      var init := xs[..|xs| - 1];
      assert init[i] == xs[i];
      assert IsLastKept(init, keep, key, i) by {
        forall j | i < j < |init| && keep(init[j])
          ensures key(init[j]) != key(init[i])
        {
          assert init[j] == xs[j];
        }
      }
      LastWinsAt(init, keep, key, val, i);
    }
  }

  /** Building over `a + b` is building over `a`, then overwriting with the
      table built over `b`: keys of `b` take precedence (Dafny's map `+` is
      right-biased). */
  lemma {:induction false} LastWinsAppend<T, K(!new), V>(a: seq<T>, b: seq<T>, keep: T -> bool, key: T -> K, val: T -> V)
    ensures LastWins(a + b, keep, key, val) == LastWins(a, keep, key, val) + LastWins(b, keep, key, val)
    decreases |b|
  {
    if |b| == 0 {
      assert a + b == a;
    } else {
      var b' := b[..|b| - 1];
      assert (a + b)[..|a + b| - 1] == a + b';
      assert (a + b)[|a + b| - 1] == b[|b| - 1];
      LastWinsAppend(a, b', keep, key, val);
    }
  }
}
