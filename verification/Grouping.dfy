/** Insertion-ordered grouping: the `dict`-of-lists loops of the services, and what they conserve. */
module Grouping {

  function Total<T>(xs: seq<T>, weight: T -> int): int {
    if xs == [] then 0 else Total(xs[..|xs| - 1], weight) + weight(xs[|xs| - 1])
  }

  lemma {:induction false} TotalConcat<T>(xs: seq<T>, ys: seq<T>, weight: T -> int)
    ensures Total(xs + ys, weight) == Total(xs, weight) + Total(ys, weight)
    decreases |ys|
  {
    if ys == [] {
      assert xs + ys == xs;
    } else {
      var init := ys[..|ys| - 1];
      TotalConcat(xs, init, weight);
      assert (xs + ys)[..|xs + ys| - 1] == xs + init;
    }
  }

  lemma TotalSnoc<T>(xs: seq<T>, x: T, weight: T -> int)
    ensures Total(xs + [x], weight) == Total(xs, weight) + weight(x)
  {
    assert (xs + [x])[..|xs|] == xs;
  }

  lemma {:induction false} TotalAgree<T>(xs: seq<T>, v: T -> int, w: T -> int)
    requires forall x :: x in xs ==> v(x) == w(x)
    ensures Total(xs, v) == Total(xs, w)
  {
    if xs != [] { TotalAgree(xs[..|xs| - 1], v, w); }
  }

  predicate Distinct<T(==)>(xs: seq<T>) {
    forall i, j :: 0 <= i < j < |xs| ==> xs[i] != xs[j]
  }

  /** The elements filed under `k`, in arrival order. */
  function FiledUnder<T, K(==,!new)>(xs: seq<T>, key: T -> K, k: K): seq<T> {
    if xs == [] then []
    else
      var init := FiledUnder(xs[..|xs| - 1], key, k);
      if key(xs[|xs| - 1]) == k then init + [xs[|xs| - 1]] else init
  }

  /** The keys in the order a `dict` first saw them. */
  function FirstSeen<T, K(==,!new)>(xs: seq<T>, key: T -> K): (order: seq<K>)
    ensures Distinct(order)
  {
    if xs == [] then []
    else
      var x := xs[|xs| - 1];
      var init := FirstSeen(xs[..|xs| - 1], key);
      if key(x) in init then init else init + [key(x)]
  }

  lemma FirstSeenSnoc<T, K(!new)>(xs: seq<T>, x: T, key: T -> K)
    ensures FirstSeen(xs + [x], key)
         == if key(x) in FirstSeen(xs, key) then FirstSeen(xs, key) else FirstSeen(xs, key) + [key(x)]
  {
    assert (xs + [x])[..|xs|] == xs;
  }

  /** The keys listed are exactly the keys that occur. */
  lemma {:induction false} SeenIff<T, K(!new)>(xs: seq<T>, key: T -> K, k: K)
    ensures k in FirstSeen(xs, key) <==> exists x :: x in xs && key(x) == k
  {
    if xs != [] {
      var init, x := xs[..|xs| - 1], xs[|xs| - 1];
      SeenIff(init, key, k);
      assert xs == init + [x];
    }
  }

  /** A key not listed has nothing filed under it, and a listed key has something. */
  lemma {:induction false} SeenIffFiled<T, K(!new)>(xs: seq<T>, key: T -> K, k: K)
    ensures k in FirstSeen(xs, key) <==> FiledUnder(xs, key, k) != []
  {
    if xs != [] { SeenIffFiled(xs[..|xs| - 1], key, k); }
  }

  /** What all groups named in `order` weigh together. */
  function SumGroups<T, K(==,!new)>(order: seq<K>, xs: seq<T>, key: T -> K, weight: T -> int): int {
    if order == [] then 0
    else
      SumGroups(order[..|order| - 1], xs, key, weight)
      + Total(FiledUnder(xs, key, order[|order| - 1]), weight)
  }

  lemma {:induction false} SumGroupsSnoc<T, K(!new)>(order: seq<K>, xs: seq<T>, x: T, key: T -> K, weight: T -> int)
    requires Distinct(order)
    ensures SumGroups(order, xs + [x], key, weight)
         == SumGroups(order, xs, key, weight) + if key(x) in order then weight(x) else 0
    decreases |order|
  {
    if order != [] {
      var init, k := order[..|order| - 1], order[|order| - 1];
      SumGroupsSnoc(init, xs, x, key, weight);
      assert order == init + [k];
      assert (xs + [x])[..|xs|] == xs;
      if key(x) == k {
        var f := FiledUnder(xs, key, k);
        assert FiledUnder(xs + [x], key, k) == f + [x];
        assert (f + [x])[..|f|] == f;
      }
    }
  }

  lemma SumGroupsFresh<T, K(!new)>(order: seq<K>, xs: seq<T>, x: T, key: T -> K, weight: T -> int)
    requires key(x) !in order && FiledUnder(xs, key, key(x)) == []
    ensures SumGroups(order + [key(x)], xs, key, weight) == SumGroups(order, xs, key, weight)
  {
    assert (order + [key(x)])[..|order|] == order;
  }

  /** Grouping conserves every additive quantity: each element is filed under exactly one key. */
  lemma {:induction false} GroupingConserves<T, K(!new)>(xs: seq<T>, key: T -> K, weight: T -> int)
    ensures SumGroups(FirstSeen(xs, key), xs, key, weight) == Total(xs, weight)
  {
    if xs != [] {
      var init, x := xs[..|xs| - 1], xs[|xs| - 1];
      var order := FirstSeen(init, key);
      assert init + [x] == xs;
      GroupingConserves(init, key, weight);
      if key(x) !in order {
        SeenIffFiled(init, key, key(x));
        SumGroupsFresh(order, init, x, key, weight);
        SumGroupsSnoc(order + [key(x)], init, x, key, weight);
      } else {
        SumGroupsSnoc(order, init, x, key, weight);
      }
    }
  }

  lemma {:induction false} FiledUnderIs<T, K(!new)>(xs: seq<T>, key: T -> K, k: K)
    ensures forall x :: x in FiledUnder(xs, key, k) <==> x in xs && key(x) == k
  {
    if xs != [] {
      FiledUnderIs(xs[..|xs| - 1], key, k);
      assert xs == xs[..|xs| - 1] + [xs[|xs| - 1]];
    }
  }

  /** Which elements are filed depends on nothing but which have the key. */
  lemma {:induction false} FiledAgree<T, K(!new), L(!new)>(xs: seq<T>, key: T -> K, k: K, name: T -> L, l: L)
    requires forall x :: x in xs ==> (key(x) == k <==> name(x) == l)
    ensures FiledUnder(xs, key, k) == FiledUnder(xs, name, l)
  {
    if xs != [] {
      assert xs[|xs| - 1] in xs;
      FiledAgree(xs[..|xs| - 1], key, k, name, l);
    }
  }

  /** What a group weighs, added up over all elements. */
  lemma {:induction false} FiledTotal<T, K(!new)>(xs: seq<T>, key: T -> K, k: K, weight: T -> int, share: T -> int)
    requires forall x :: x in xs ==> share(x) == if key(x) == k then weight(x) else 0
    ensures Total(FiledUnder(xs, key, k), weight) == Total(xs, share)
  {
    if xs != [] {
      var init, x := xs[..|xs| - 1], xs[|xs| - 1];
      assert x in xs;
      FiledTotal(init, key, k, weight, share);
      assert (FiledUnder(init, key, k) + [x])[..|FiledUnder(init, key, k)|] == FiledUnder(init, key, k);
    }
  }

  /** `for x in xs: groups.setdefault(key(x), []).append(x)`. */
  method GroupBy<T, K(==,!new)>(xs: seq<T>, key: T -> K) returns (order: seq<K>, groups: map<K, seq<T>>)
    ensures order == FirstSeen(xs, key)
    ensures forall k :: k in groups <==> k in order
    ensures forall k :: k in groups ==> groups[k] == FiledUnder(xs, key, k)
  {
    order, groups := [], map[];
    for i := 0 to |xs|
      invariant order == FirstSeen(xs[..i], key)
      invariant forall k :: k in groups <==> k in order
      invariant forall k :: k in groups ==> groups[k] == FiledUnder(xs[..i], key, k)
    {
      var k := key(xs[i]);
      assert xs[..i + 1][..i] == xs[..i];
      if k !in groups {
        SeenIffFiled(xs[..i], key, k);
        order, groups := order + [k], groups[k := []];
      }
      groups := groups[k := groups[k] + [xs[i]]];
    }
    assert xs[..|xs|] == xs;
  }
}
