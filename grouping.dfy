/** Grouping a sequence of keyed values and summing each group, with the
    groups in ascending key order: what `groupby(key)[col].sum()` does to the
    volume column, and what `.values(key).annotate(Count).order_by(key)` does
    to the sessions. A result is an association list of (key, group value). */
module Grouping {

  /** `lt` is irreflexive, transitive and relates any two different keys. */
  ghost predicate StrictTotalOrder<K(!new)>(lt: (K, K) -> bool)
  {
    && (forall x :: !lt(x, x))
    && (forall x, y, z :: lt(x, y) && lt(y, z) ==> lt(x, z))
    && (forall x, y :: x != y ==> lt(x, y) || lt(y, x))
  }

  /** The keys of `g` strictly increase. */
  ghost predicate Ascending<K>(g: seq<(K, int)>, lt: (K, K) -> bool)
  {
    forall i, j :: 0 <= i < j < |g| ==> lt(g[i].0, g[j].0)
  }

  function KeysOf<K>(g: seq<(K, int)>): set<K>
  {
    set i | 0 <= i < |g| :: g[i].0
  }

  /** The sum of all values. */
  function Total<K>(g: seq<(K, int)>): int
  {
    if g == [] then 0 else g[0].1 + Total(g[1..])
  }

  /** The value stored under `k` in a grouped list, 0 when `k` is absent. */
  function Lookup<K(==)>(g: seq<(K, int)>, k: K): int
  {
    if g == [] then 0 else if g[0].0 == k then g[0].1 else Lookup(g[1..], k)
  }

  /** The sum of the values of the entries whose key is `k`. */
  function SumAt<K(==)>(entries: seq<(K, int)>, k: K): int
  {
    if entries == [] then 0
    else (if entries[0].0 == k then entries[0].1 else 0) + SumAt(entries[1..], k)
  }

  /** Adds `v` to the group of `k`, opening that group at its place in key order. */
  function Add<K(==)>(g: seq<(K, int)>, k: K, v: int, lt: (K, K) -> bool): seq<(K, int)>
  {
    if g == [] then [(k, v)]
    else if g[0].0 == k then [(k, g[0].1 + v)] + g[1..]
    else if lt(k, g[0].0) then [(k, v)] + g
    else [g[0]] + Add(g[1..], k, v, lt)
  }

  /** One group per distinct key of `entries`, holding the sum of that key's values. */
  function GroupSum<K(==)>(entries: seq<(K, int)>, lt: (K, K) -> bool): seq<(K, int)>
  {
    if entries == [] then [] else Add(GroupSum(entries[1..], lt), entries[0].0, entries[0].1, lt)
  }

  lemma {:induction false} LookupAbsent<K>(g: seq<(K, int)>, k: K)
    requires k !in KeysOf(g)
    ensures Lookup(g, k) == 0
  {
    if g != [] {
      assert KeysOf(g[1..]) <= KeysOf(g) by {
        forall y | y in KeysOf(g[1..]) ensures y in KeysOf(g) {
          var i :| 0 <= i < |g[1..]| && g[1..][i].0 == y;
          assert g[i + 1].0 == y;
        }
      }
      LookupAbsent(g[1..], k);
    }
  }

  /** In a list with distinct keys, looking up an entry's key finds that entry's value. */
  lemma {:induction false} LookupAt<K(!new)>(g: seq<(K, int)>, lt: (K, K) -> bool, i: int)
    requires StrictTotalOrder(lt) && Ascending(g, lt)
    requires 0 <= i < |g|
    ensures Lookup(g, g[i].0) == g[i].1
  {
    if i > 0 {
      assert lt(g[0].0, g[i].0);
      assert Ascending(g[1..], lt);
      LookupAt(g[1..], lt, i - 1);
    }
  }

  lemma KeysCons<K>(g: seq<(K, int)>)
    requires g != []
    ensures KeysOf(g) == {g[0].0} + KeysOf(g[1..])
  {
    forall y | y in KeysOf(g) ensures y in {g[0].0} + KeysOf(g[1..]) {
      var i :| 0 <= i < |g| && g[i].0 == y;
      if i > 0 { assert g[1..][i - 1].0 == y; }
    }
    forall y | y in KeysOf(g[1..]) ensures y in KeysOf(g) {
      var i :| 0 <= i < |g[1..]| && g[1..][i].0 == y;
      assert g[i + 1].0 == y;
    }
  }

  /** In an ascending list every key lies above a bound below its first key. */
  lemma AboveFirst<K(!new)>(g: seq<(K, int)>, lt: (K, K) -> bool, k: K)
    requires StrictTotalOrder(lt) && Ascending(g, lt)
    requires g != [] && lt(k, g[0].0)
    ensures forall y :: y in KeysOf(g) ==> lt(k, y)
  {
    forall y | y in KeysOf(g) ensures lt(k, y) {
      var i :| 0 <= i < |g| && g[i].0 == y;
      if i > 0 { assert lt(g[0].0, g[i].0); }
    }
  }

  lemma {:induction false} AddKeys<K(!new)>(g: seq<(K, int)>, k: K, v: int, lt: (K, K) -> bool)
    ensures KeysOf(Add(g, k, v, lt)) == KeysOf(g) + {k}
  {
    var r := Add(g, k, v, lt);
    if g == [] {
      assert KeysOf(r) == {k} by { KeysCons(r); }
    } else {
      KeysCons(g);
      KeysCons(r);
      if g[0].0 == k {
        assert r[1..] == g[1..];
      } else if lt(k, g[0].0) {
        assert r[1..] == g;
      } else {
        assert r[1..] == Add(g[1..], k, v, lt);
        AddKeys(g[1..], k, v, lt);
      }
    }
  }

  lemma {:induction false} AddAscending<K(!new)>(g: seq<(K, int)>, k: K, v: int, lt: (K, K) -> bool)
    requires StrictTotalOrder(lt) && Ascending(g, lt)
    ensures Ascending(Add(g, k, v, lt), lt)
  {
    var r := Add(g, k, v, lt);
    if g == [] {
    } else if g[0].0 == k {
      assert forall i :: 0 <= i < |r| ==> r[i].0 == g[i].0;
    } else if lt(k, g[0].0) {
      AboveFirst(g, lt, k);
      forall i, j | 0 <= i < j < |r| ensures lt(r[i].0, r[j].0) {
        assert r[j] == g[j - 1];
        if i > 0 { assert r[i] == g[i - 1]; } else { assert g[j - 1].0 in KeysOf(g); }
      }
    } else {
      var tail := g[1..];
      var rt := Add(tail, k, v, lt);
      assert lt(g[0].0, k);
      assert Ascending(tail, lt);
      AddAscending(tail, k, v, lt);
      AddKeys(tail, k, v, lt);
      assert r[1..] == rt;
      forall i, j | 0 <= i < j < |r| ensures lt(r[i].0, r[j].0) {
        if i == 0 {
          assert r[j].0 in KeysOf(rt) by { assert rt[j - 1] == r[j]; }
          if r[j].0 != k {
            var m :| 0 <= m < |tail| && tail[m].0 == r[j].0;
            assert g[m + 1].0 == r[j].0;
          }
        } else {
          assert rt[i - 1] == r[i] && rt[j - 1] == r[j];
        }
      }
    }
  }

  lemma {:induction false} AddTotal<K>(g: seq<(K, int)>, k: K, v: int, lt: (K, K) -> bool)
    ensures Total(Add(g, k, v, lt)) == Total(g) + v
  {
    var r := Add(g, k, v, lt);
    if g != [] {
      if g[0].0 == k {
        assert r[1..] == g[1..];
      } else if lt(k, g[0].0) {
        assert r[1..] == g;
      } else {
        assert r[1..] == Add(g[1..], k, v, lt);
        AddTotal(g[1..], k, v, lt);
      }
    }
  }

  lemma {:induction false} AddLookup<K(!new)>(g: seq<(K, int)>, k: K, v: int, lt: (K, K) -> bool)
    requires StrictTotalOrder(lt) && Ascending(g, lt)
    ensures forall x :: Lookup(Add(g, k, v, lt), x) == Lookup(g, x) + (if x == k then v else 0)
  {
    var r := Add(g, k, v, lt);
    if g == [] {
    } else if g[0].0 == k {
      assert r[1..] == g[1..];
    } else if lt(k, g[0].0) {
      assert r[1..] == g;
      AboveFirst(g, lt, k);
      LookupAbsent(g, k);
    } else {
      assert r[1..] == Add(g[1..], k, v, lt);
      assert Ascending(g[1..], lt);
      AddLookup(g[1..], k, v, lt);
    }
  }

  /** Grouping yields distinct keys in ascending order, exactly the keys of the
      entries, the group of each key holds the sum of that key's values, and
      the groups together hold the sum of all values. */
  lemma {:induction false} GroupSumCorrect<K(!new)>(entries: seq<(K, int)>, lt: (K, K) -> bool)
    requires StrictTotalOrder(lt)
    ensures Ascending(GroupSum(entries, lt), lt)
    ensures forall i, j :: 0 <= i < j < |GroupSum(entries, lt)| ==>
      GroupSum(entries, lt)[i].0 != GroupSum(entries, lt)[j].0
    ensures KeysOf(GroupSum(entries, lt)) == KeysOf(entries)
    ensures Total(GroupSum(entries, lt)) == Total(entries)
    ensures forall x :: Lookup(GroupSum(entries, lt), x) == SumAt(entries, x)
    ensures forall i :: 0 <= i < |GroupSum(entries, lt)| ==>
      GroupSum(entries, lt)[i].1 == SumAt(entries, GroupSum(entries, lt)[i].0)
  {
    var g := GroupSum(entries, lt);
    if entries != [] {
      GroupSumCorrect(entries[1..], lt);
      var rest := GroupSum(entries[1..], lt);
      AddAscending(rest, entries[0].0, entries[0].1, lt);
      AddKeys(rest, entries[0].0, entries[0].1, lt);
      AddTotal(rest, entries[0].0, entries[0].1, lt);
      AddLookup(rest, entries[0].0, entries[0].1, lt);
      KeysCons(entries);
    }
    forall i | 0 <= i < |g| ensures g[i].1 == SumAt(entries, g[i].0) {
      LookupAt(g, lt, i);
    }
  }
}
