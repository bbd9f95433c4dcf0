/**
 * The sort of `(order, value)` pairs that puts decoded list items into their
 * submitted order. Python sorts the tuples lexicographically; this model sorts
 * by the order field alone (stably), which is the same result whenever the
 * orders are distinct, and in every case a permutation sorted by order.
 */
module OrderSort {

  ghost predicate SortedByOrder<V>(s: seq<(int, V)>) {
    forall j, k :: 0 <= j < k < |s| ==> s[j].0 <= s[k].0
  }

  ghost predicate UniqueOrders<V>(s: seq<(int, V)>) {
    forall j, k :: 0 <= j < k < |s| ==> s[j].0 != s[k].0
  }

  /** Insert `x` before the first element with a larger-or-equal order. */
  function Insert<V>(x: (int, V), s: seq<(int, V)>): seq<(int, V)>
  {
    if s == [] || x.0 <= s[0].0 then [x] + s else [s[0]] + Insert(x, s[1..])
  }

  function SortByOrder<V>(s: seq<(int, V)>): seq<(int, V)>
  {
    if s == [] then [] else Insert(s[0], SortByOrder(s[1..]))
  }

  /** The values of sorted pairs, order fields dropped: `[v for (i, v) in pairs]`. */
  function Values<V>(s: seq<(int, V)>): (r: seq<V>)
    ensures |r| == |s|
    ensures forall k :: 0 <= k < |s| ==> r[k] == s[k].1
  {
    seq(|s|, k requires 0 <= k < |s| => s[k].1)
  }

  /** Insert adds exactly its element. */
  lemma {:induction false} InsertPermutation<V>(x: (int, V), s: seq<(int, V)>)
    ensures multiset(Insert(x, s)) == multiset(s) + multiset{x}
    decreases |s|
  {
    if !(s == [] || x.0 <= s[0].0) {
      InsertPermutation(x, s[1..]);
      assert s == [s[0]] + s[1..];
    }
  }

  lemma {:induction false} InsertSorted<V>(x: (int, V), s: seq<(int, V)>)
    requires SortedByOrder(s)
    ensures SortedByOrder(Insert(x, s))
    decreases |s|
  {
    if s == [] || x.0 <= s[0].0 {
      var r := [x] + s;
      assert Insert(x, s) == r;
      forall j, k | 0 <= j < k < |r| ensures r[j].0 <= r[k].0 {
        if j == 0 { assert r[k] == s[k - 1]; }
      }
    } else {
      var rest := Insert(x, s[1..]);
      InsertSorted(x, s[1..]);
      InsertPermutation(x, s[1..]);
      assert s == [s[0]] + s[1..];
      forall y: (int, V) | y in multiset(rest) ensures s[0].0 <= y.0 {
        assert y in multiset(s[1..]) || y == x;
      }
      var r := [s[0]] + rest;
      forall j, k | 0 <= j < k < |r| ensures r[j].0 <= r[k].0 {
        if j == 0 { assert r[k] in multiset(rest); }
      }
    }
  }

  /** SortByOrder yields a permutation of its input, sorted by order. */
  lemma {:induction false} SortByOrderSpec<V>(s: seq<(int, V)>)
    ensures SortedByOrder(SortByOrder(s))
    ensures multiset(SortByOrder(s)) == multiset(s)
  {
    if s != [] {
      SortByOrderSpec(s[1..]);
      InsertSorted(s[0], SortByOrder(s[1..]));
      InsertPermutation(s[0], SortByOrder(s[1..]));
      assert s == [s[0]] + s[1..];
    }
  }

  lemma {:induction false} InsertUnique<V>(x: (int, V), s: seq<(int, V)>)
    requires UniqueOrders(s)
    requires forall y :: y in s ==> y.0 != x.0
    ensures UniqueOrders(Insert(x, s))
    decreases |s|
  {
    if s == [] || x.0 <= s[0].0 {
      var r := [x] + s;
      forall j, k | 0 <= j < k < |r| ensures r[j].0 != r[k].0 {
        if j == 0 { assert r[k] in s; }
      }
    } else {
      assert s == [s[0]] + s[1..];
      InsertUnique(x, s[1..]);
      InsertPermutation(x, s[1..]);
      var r := [s[0]] + Insert(x, s[1..]);
      forall j, k | 0 <= j < k < |r| ensures r[j].0 != r[k].0 {
        if j == 0 {
          assert r[k] in multiset(Insert(x, s[1..]));
          assert r[k] in s[1..] || r[k] == x;
        }
      }
    }
  }

  lemma {:induction false} SortByOrderUnique<V>(s: seq<(int, V)>)
    requires UniqueOrders(s)
    ensures UniqueOrders(SortByOrder(s))
  {
    if s != [] {
      assert s == [s[0]] + s[1..];
      assert UniqueOrders(s[1..]) by {
        forall j, k | 0 <= j < k < |s[1..]| ensures s[1..][j].0 != s[1..][k].0 {
          assert s[1..][j] == s[j + 1] && s[1..][k] == s[k + 1];
        }
      }
      SortByOrderUnique(s[1..]);
      SortByOrderSpec(s[1..]);
      forall y: (int, V) | y in SortByOrder(s[1..]) ensures y.0 != s[0].0 {
        assert y in multiset(s[1..]);
        var k :| 0 <= k < |s[1..]| && s[1..][k] == y;
        assert s[k + 1] == y;
      }
      InsertUnique(s[0], SortByOrder(s[1..]));
    }
  }

  /** Two sorted permutations of each other with distinct orders are equal. */
  lemma {:induction false} SortedPermutationsEqual<V>(a: seq<(int, V)>, b: seq<(int, V)>)
    requires SortedByOrder(a) && SortedByOrder(b) && UniqueOrders(a)
    requires multiset(a) == multiset(b)
    ensures a == b
    decreases |a|
  {
    assert |a| == |multiset(a)| == |multiset(b)| == |b|;
    if a != [] {
      SortedHeadsEqual(a, b);
      TailPermutation(a, b);
      assert SortedByOrder(a[1..]) && SortedByOrder(b[1..]) && UniqueOrders(a[1..]) by {
        forall j, k | 0 <= j < k < |a| - 1 ensures a[1..][j].0 <= a[1..][k].0 && a[1..][j].0 != a[1..][k].0 {
          assert a[1..][j] == a[j + 1] && a[1..][k] == a[k + 1];
        }
        forall j, k | 0 <= j < k < |b| - 1 ensures b[1..][j].0 <= b[1..][k].0 {
          assert b[1..][j] == b[j + 1] && b[1..][k] == b[k + 1];
        }
      }
      SortedPermutationsEqual(a[1..], b[1..]);
      assert a == [a[0]] + a[1..] && b == [b[0]] + b[1..];
    }
  }

  lemma SortedHeadsEqual<V>(a: seq<(int, V)>, b: seq<(int, V)>)
    requires SortedByOrder(a) && SortedByOrder(b) && UniqueOrders(a)
    requires multiset(a) == multiset(b) && a != [] && b != []
    ensures a[0] == b[0]
  {
    assert a[0] in multiset(b) && b[0] in multiset(a);
    var m :| 0 <= m < |b| && b[m] == a[0];
    var n :| 0 <= n < |a| && a[n] == b[0];
    assert b[0].0 <= a[0].0 && a[0].0 <= b[0].0;
  }

  lemma TailPermutation<V>(a: seq<(int, V)>, b: seq<(int, V)>)
    requires multiset(a) == multiset(b) && a != [] && b != [] && a[0] == b[0]
    ensures multiset(a[1..]) == multiset(b[1..])
  {
    assert a == [a[0]] + a[1..] && b == [b[0]] + b[1..];
    assert multiset(a) == multiset{a[0]} + multiset(a[1..]);
    assert multiset(b) == multiset{b[0]} + multiset(b[1..]);
    assert multiset(a[1..]) == multiset(a) - multiset{a[0]};
    assert multiset(b[1..]) == multiset(b) - multiset{b[0]};
  }

  /**
   * When the orders are distinct, SortByOrder agrees with every sort by order,
   * in particular with Python's sort of `(order, value)` tuples.
   */
  lemma SortByOrderDetermined<V>(s: seq<(int, V)>, sorted: seq<(int, V)>)
    requires UniqueOrders(s)
    requires SortedByOrder(sorted) && multiset(sorted) == multiset(s)
    ensures SortByOrder(s) == sorted
  {
    SortByOrderSpec(s);
    SortByOrderUnique(s);
    SortedPermutationsEqual(SortByOrder(s), sorted);
  }
}
