/** The stream pipelines the controller builds over repository lists:
    `filter` on a key, `count` as the length of what passes, and `flatMap`
    of a per-key query over an enumeration of keys. */
module Streams {

  /** `s.stream().filter(x -> ks.contains(key(x)))`: the elements of `s`
      whose key is in `ks`, in their original order. */
  function Select<T, K(==)>(s: seq<T>, key: T -> K, ks: set<K>): (r: seq<T>)
    ensures |r| <= |s|
    ensures forall i :: 0 <= i < |r| ==> key(r[i]) in ks
  {
    if s == [] then []
    else (if key(s[0]) in ks then [s[0]] else []) + Select(s[1..], key, ks)
  }

  /** What a selection holds, up to order: every element of `s` keeps its
      multiplicity when its key is selected and is dropped otherwise. */
  lemma {:induction false} SelectMultiset<T(!new), K>(s: seq<T>, key: T -> K, ks: set<K>)
    ensures forall x :: multiset(Select(s, key, ks))[x] == if key(x) in ks then multiset(s)[x] else 0
  {
    if s != [] {
      SelectMultiset(s[1..], key, ks);
      assert s == [s[0]] + s[1..];
    }
  }

  /** No key occurs twice in `ks`. */
  predicate Distinct<K(==)>(ks: seq<K>) {
    forall i, j :: 0 <= i < j < |ks| ==> ks[i] != ks[j]
  }

  /** `order.stream().flatMap(k -> Select(s, key, {k}).stream())`. */
  function Gather<T, K(==)>(s: seq<T>, key: T -> K, order: seq<K>): (r: seq<T>)
    ensures forall i :: 0 <= i < |r| ==> key(r[i]) in order
  {
    if order == [] then []
    else Select(s, key, {order[0]}) + Gather(s, key, order[1..])
  }

  /** Selecting on two disjoint key sets splits the selection on their
      union: nothing is counted twice, and together they count at most
      all of `s`. */
  lemma SelectDisjoint<T(!new), K>(s: seq<T>, key: T -> K, ks1: set<K>, ks2: set<K>)
    requires ks1 !! ks2
    ensures multiset(Select(s, key, ks1 + ks2)) == multiset(Select(s, key, ks1)) + multiset(Select(s, key, ks2))
    ensures |Select(s, key, ks1)| + |Select(s, key, ks2)| == |Select(s, key, ks1 + ks2)| <= |s|
  {
    var u, a, b := Select(s, key, ks1 + ks2), Select(s, key, ks1), Select(s, key, ks2);
    SelectMultiset(s, key, ks1 + ks2);
    SelectMultiset(s, key, ks1);
    SelectMultiset(s, key, ks2);
    forall x ensures multiset(u)[x] == (multiset(a) + multiset(b))[x] {
    }
    assert multiset(u) == multiset(a) + multiset(b);
    assert |multiset(u)| == |multiset(a)| + |multiset(b)|;
  }

  /** When every element's key lies in one of two disjoint key sets, the two
      selections partition `s`. */
  lemma SelectCover<T(!new), K>(s: seq<T>, key: T -> K, ks1: set<K>, ks2: set<K>)
    requires ks1 !! ks2
    requires forall i :: 0 <= i < |s| ==> key(s[i]) in ks1 + ks2
    ensures |Select(s, key, ks1)| + |Select(s, key, ks2)| == |s|
  {
    SelectDisjoint(s, key, ks1, ks2);
    var u := Select(s, key, ks1 + ks2);
    SelectMultiset(s, key, ks1 + ks2);
    forall x ensures multiset(u)[x] == multiset(s)[x] {
      if x in s {
        var i :| 0 <= i < |s| && s[i] == x;
      }
    }
    assert multiset(u) == multiset(s);
    assert |multiset(u)| == |multiset(s)|;
  }

  /** A selection depends only on the multiset of its input: reordering the
      input does not change what, or how much, is selected. */
  lemma SelectPermutation<T(!new), K>(a: seq<T>, b: seq<T>, key: T -> K, ks: set<K>)
    requires multiset(a) == multiset(b)
    ensures multiset(Select(a, key, ks)) == multiset(Select(b, key, ks))
    ensures |Select(a, key, ks)| == |Select(b, key, ks)|
  {
    var ra, rb := Select(a, key, ks), Select(b, key, ks);
    SelectMultiset(a, key, ks);
    SelectMultiset(b, key, ks);
    forall x ensures multiset(ra)[x] == multiset(rb)[x] {
    }
    assert multiset(ra) == multiset(rb);
    assert |multiset(ra)| == |multiset(rb)|;
  }

  /** Gathering the per-key selections over an enumeration of distinct keys
      yields exactly the selection on the set of those keys: each element is
      gathered once, whatever the enumeration order. */
  lemma {:induction false} GatherIsSelect<T(!new), K>(s: seq<T>, key: T -> K, order: seq<K>)
    requires Distinct(order)
    ensures multiset(Gather(s, key, order)) == multiset(Select(s, key, set k | k in order))
  {
    if order == [] {
      assert (set k | k in order) == {};
      SelectNothing(s, key);
    } else {
      var first, rest := order[0], order[1..];
      var restKeys := set k | k in rest;
      DistinctTail(order);
      GatherIsSelect(s, key, rest);
      SelectDisjoint(s, key, {first}, restKeys);
      calc {
        multiset(Gather(s, key, order));
        multiset(Select(s, key, {first}) + Gather(s, key, rest));
        multiset(Select(s, key, {first})) + multiset(Select(s, key, restKeys));
        multiset(Select(s, key, {first} + restKeys));
      }
    }
  }

  /** Selecting on no keys selects nothing. */
  lemma SelectNothing<T(!new), K>(s: seq<T>, key: T -> K)
    ensures Select(s, key, {}) == []
  {
  }

  /** The tail of a duplicate-free enumeration is duplicate-free, does not
      hold the head, and with the head enumerates the same keys. */
  lemma DistinctTail<K>(order: seq<K>)
    requires Distinct(order) && order != []
    ensures Distinct(order[1..])
    ensures order[0] !in (set k | k in order[1..])
    ensures (set k | k in order) == {order[0]} + (set k | k in order[1..])
  {
    var rest := order[1..];
    forall i, j | 0 <= i < j < |rest| ensures rest[i] != rest[j] {
      assert rest[i] == order[i + 1] && rest[j] == order[j + 1];
    }
    forall j | 0 <= j < |rest| ensures rest[j] != order[0] {
      assert rest[j] == order[j + 1];
    }
    assert order == [order[0]] + rest;
  }

  /** Selection distributes over concatenation. */
  lemma {:induction false} SelectConcat<T(!new), K>(a: seq<T>, b: seq<T>, key: T -> K, ks: set<K>)
    ensures Select(a + b, key, ks) == Select(a, key, ks) + Select(b, key, ks)
  {
    if a == [] {
      assert a + b == b;
    } else {
      SelectConcat(a[1..], b, key, ks);
      var head := if key(a[0]) in ks then [a[0]] else [];
      assert (a + b)[0] == a[0];
      assert (a + b)[1..] == a[1..] + b;
      calc {
        Select(a + b, key, ks);
        head + Select(a[1..] + b, key, ks);
        head + (Select(a[1..], key, ks) + Select(b, key, ks));
        (head + Select(a[1..], key, ks)) + Select(b, key, ks);
        Select(a, key, ks) + Select(b, key, ks);
      }
    }
  }

  /** A selection that leaves out some element of `s` is strictly shorter
      than `s`. */
  lemma SelectDropsOne<T(!new), K>(s: seq<T>, key: T -> K, ks: set<K>, i: int)
    requires 0 <= i < |s| && key(s[i]) !in ks
    ensures |Select(s, key, ks)| < |s|
  {
    var r := Select(s, key, ks);
    SelectMultiset(s, key, ks);
    assert multiset(r) <= multiset(s);
    var rest := multiset(s) - multiset(r);
    assert multiset(s) == multiset(r) + rest;
    assert s[i] in rest;
    assert |multiset(s)| == |multiset(r)| + |rest|;
  }

  /** The count of a selection agrees with an independent definition: the
      number of positions of `s` whose element has a selected key. */
  lemma {:induction false} SelectCountsPositions<T(!new), K>(s: seq<T>, key: T -> K, ks: set<K>)
    ensures |Select(s, key, ks)| == |set i | 0 <= i < |s| && key(s[i]) in ks|
  {
    if s != [] {
      var t, x := s[..|s| - 1], s[|s| - 1];
      assert s == t + [x];
      SelectCountsPositions(t, key, ks);
      SelectConcat(t, [x], key, ks);
      assert Select([x], key, ks) == (if key(x) in ks then [x] else []) + Select([], key, ks);
      var all := set i | 0 <= i < |s| && key(s[i]) in ks;
      var front := set i | 0 <= i < |t| && key(t[i]) in ks;
      if key(x) in ks {
        assert all == front + {|t|};
      } else {
        assert all == front;
      }
    }
  }
}
