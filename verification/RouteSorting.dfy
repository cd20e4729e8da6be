/** Python's stable sort by a text key, and what is known of its result. */
module RouteSorting {

  // ----- the order on texts -----

  /** Code point by code point; a prefix comes first. */
  predicate TextLeq(a: string, b: string) {
    a == [] || (b != [] && (a[0] < b[0] || (a[0] == b[0] && TextLeq(a[1..], b[1..]))))
  }

  lemma {:induction false} TextLeqIsTotal(a: string, b: string)
    ensures TextLeq(a, b) || TextLeq(b, a)
    decreases |a|
  {
    if a != [] && b != [] && a[0] == b[0] {
      TextLeqIsTotal(a[1..], b[1..]);
    }
  }

  lemma {:induction false} TextLeqIsTransitive(a: string, b: string, c: string)
    requires TextLeq(a, b) && TextLeq(b, c)
    ensures TextLeq(a, c)
    decreases |a|
  {
    if a != [] && a[0] == b[0] && b[0] == c[0] {
      TextLeqIsTransitive(a[1..], b[1..], c[1..]);
    }
  }

  lemma {:induction false} TextLeqIsAntisymmetric(a: string, b: string)
    requires TextLeq(a, b) && TextLeq(b, a)
    ensures a == b
    decreases |a|
  {
    if a != [] {
      TextLeqIsAntisymmetric(a[1..], b[1..]);
      assert a == [a[0]] + a[1..] && b == [b[0]] + b[1..];
    }
  }

  /** Where two texts first differ decides. */
  lemma {:induction false} FirstDifferenceDecides(prefix: string, x: char, a: string, y: char, b: string)
    requires x < y
    ensures !TextLeq(prefix + [y] + b, prefix + [x] + a)
    decreases |prefix|
  {
    if prefix != [] {
      var rest := prefix[1..];
      assert (prefix + [y] + b)[1..] == rest + [y] + b;
      assert (prefix + [x] + a)[1..] == rest + [x] + a;
      FirstDifferenceDecides(rest, x, a, y, b);
    } else {
      assert (prefix + [y] + b)[0] == y && (prefix + [x] + a)[0] == x;
    }
  }

  // ----- the sort -----

  /** Puts an item behind the items whose key is not greater. */
  function Insert<T>(key: T -> string, sorted: seq<T>, x: T): (r: seq<T>)
    ensures |r| == |sorted| + 1
  {
    if sorted == [] then [x]
    else if TextLeq(key(sorted[|sorted| - 1]), key(x)) then sorted + [x]
    else Insert(key, sorted[..|sorted| - 1], x) + [sorted[|sorted| - 1]]
  }

  function StableSort<T>(key: T -> string, items: seq<T>): (r: seq<T>)
    ensures |r| == |items|
  {
    if items == [] then []
    else Insert(key, StableSort(key, items[..|items| - 1]), items[|items| - 1])
  }

  ghost predicate SortedBy<T>(key: T -> string, s: seq<T>) {
    forall i, j :: 0 <= i < j < |s| ==> TextLeq(key(s[i]), key(s[j]))
  }

  /** The items with the given key, in order. */
  function WithKey<T>(key: T -> string, s: seq<T>, k: string): (r: seq<T>) {
    if s == [] then []
    else WithKey(key, s[..|s| - 1], k) + if key(s[|s| - 1]) == k then [s[|s| - 1]] else []
  }

  lemma {:induction false} InsertAdds<T>(key: T -> string, sorted: seq<T>, x: T)
    ensures multiset(Insert(key, sorted, x)) == multiset(sorted) + multiset{x}
    decreases |sorted|
  {
    if sorted != [] {
      assert sorted == sorted[..|sorted| - 1] + [sorted[|sorted| - 1]];
      if !TextLeq(key(sorted[|sorted| - 1]), key(x)) {
        InsertAdds(key, sorted[..|sorted| - 1], x);
      }
    }
  }

  lemma {:induction false} InsertSorted<T>(key: T -> string, sorted: seq<T>, x: T)
    requires SortedBy(key, sorted)
    ensures SortedBy(key, Insert(key, sorted, x))
    decreases |sorted|
  {
    if sorted != [] {
      var init, last := sorted[..|sorted| - 1], sorted[|sorted| - 1];
      assert sorted == init + [last];
      if TextLeq(key(last), key(x)) {
        forall i | 0 <= i < |sorted|
          ensures TextLeq(key(sorted[i]), key(x))
        {
          if i < |init| {
            TextLeqIsTransitive(key(sorted[i]), key(last), key(x));
          }
        }
      } else {
        InsertSorted(key, init, x);
        InsertAdds(key, init, x);
        TextLeqIsTotal(key(last), key(x));
        var inner := Insert(key, init, x);
        forall i | 0 <= i < |inner|
          ensures TextLeq(key(inner[i]), key(last))
        {
          assert inner[i] in multiset(inner);
          assert inner[i] in multiset(init) || inner[i] == x;
        }
      }
    }
  }

  lemma WithKeySnoc<T>(key: T -> string, s: seq<T>, x: T, k: string)
    ensures WithKey(key, s + [x], k) == WithKey(key, s, k) + if key(x) == k then [x] else []
  {
    assert (s + [x])[..|s|] == s;
  }

  lemma {:induction false} InsertKeepsKeys<T>(key: T -> string, sorted: seq<T>, x: T, k: string)
    ensures WithKey(key, Insert(key, sorted, x), k) == WithKey(key, sorted, k) + if key(x) == k then [x] else []
    decreases |sorted|
  {
    WithKeySnoc(key, sorted, x, k);
    if sorted == [] {
      assert sorted + [x] == [x];
    } else {
      var init, last := sorted[..|sorted| - 1], sorted[|sorted| - 1];
      if !TextLeq(key(last), key(x)) {
        InsertKeepsKeys(key, init, x, k);
        WithKeySnoc(key, Insert(key, init, x), last, k);
        TextLeqIsTotal(key(x), key(x));
        assert key(last) != key(x);
      }
    }
  }

  /** The result is in key order, and items with equal keys keep their order. */
  lemma {:induction false} StableSortSorts<T>(key: T -> string, items: seq<T>)
    ensures SortedBy(key, StableSort(key, items))
    ensures multiset(StableSort(key, items)) == multiset(items)
    ensures forall k :: WithKey(key, StableSort(key, items), k) == WithKey(key, items, k)
    decreases |items|
  {
    if items != [] {
      var init, last := items[..|items| - 1], items[|items| - 1];
      assert items == init + [last];
      StableSortSorts(key, init);
      InsertSorted(key, StableSort(key, init), last);
      InsertAdds(key, StableSort(key, init), last);
      forall k
        ensures WithKey(key, StableSort(key, items), k) == WithKey(key, items, k)
      {
        InsertKeepsKeys(key, StableSort(key, init), last, k);
      }
    }
  }

  lemma {:induction false} WithKeyMembers<T>(key: T -> string, s: seq<T>, k: string)
    ensures forall x :: x in WithKey(key, s, k) <==> x in s && key(x) == k
    decreases |s|
  {
    if s != [] {
      WithKeyMembers(key, s[..|s| - 1], k);
      assert s == s[..|s| - 1] + [s[|s| - 1]];
    }
  }

  lemma LastWithKey<T>(key: T -> string, s: seq<T>)
    requires s != []
    ensures var last := s[|s| - 1];
            WithKey(key, s, key(last)) == WithKey(key, s[..|s| - 1], key(last)) + [last]
  {
  }

  /** The keys of the last items agree when each key's items agree. */
  lemma LastKeysAgree<T>(key: T -> string, r: seq<T>, t: seq<T>)
    requires SortedBy(key, r) && SortedBy(key, t) && r != []
    requires forall k :: WithKey(key, r, k) == WithKey(key, t, k)
    ensures t != [] && TextLeq(key(r[|r| - 1]), key(t[|t| - 1]))
  {
    var k := key(r[|r| - 1]);
    WithKeyMembers(key, r, k);
    WithKeyMembers(key, t, k);
    assert r[|r| - 1] in WithKey(key, r, k);
    var i :| 0 <= i < |t| && t[i] == r[|r| - 1];
    if i == |t| - 1 {
      TextLeqIsTotal(k, k);
    }
  }

  /** A list in key order is settled by what it holds under each key. */
  lemma {:induction false} SortedListsAgree<T>(key: T -> string, r: seq<T>, t: seq<T>)
    requires SortedBy(key, r) && SortedBy(key, t)
    requires forall k :: WithKey(key, r, k) == WithKey(key, t, k)
    ensures r == t
    decreases |r|
  {
    if r == [] {
      if t != [] {
        LastKeysAgree(key, t, r);
      }
    } else {
      LastKeysAgree(key, r, t);
      LastKeysAgree(key, t, r);
      var n, m := |r| - 1, |t| - 1;
      TextLeqIsAntisymmetric(key(r[n]), key(t[m]));
      LastWithKey(key, r);
      LastWithKey(key, t);
      var k0 := key(r[n]);
      assert WithKey(key, r, k0)[|WithKey(key, r, k0)| - 1] == r[n];
      forall k
        ensures WithKey(key, r[..n], k) == WithKey(key, t[..m], k)
      {
        assert WithKey(key, r, k) == WithKey(key, t, k);
        if k == k0 {
          assert WithKey(key, r, k)[..|WithKey(key, r, k)| - 1] == WithKey(key, r[..n], k);
          assert WithKey(key, t, k)[..|WithKey(key, t, k)| - 1] == WithKey(key, t[..m], k);
        } else {
          assert WithKey(key, r[..n], k) == WithKey(key, r, k);
          assert WithKey(key, t[..m], k) == WithKey(key, t, k);
        }
      }
      SortedListsAgree(key, r[..n], t[..m]);
      assert r == r[..n] + [r[n]] && t == t[..m] + [t[m]];
    }
  }

  /** In key order, with each key's items in the order they had. */
  ghost predicate IsStableSortOf<T>(key: T -> string, r: seq<T>, items: seq<T>) {
    SortedBy(key, r) && forall k :: WithKey(key, r, k) == WithKey(key, items, k)
  }

  /** The stable sort is the only such list. */
  lemma StableSortIsUnique<T>(key: T -> string, items: seq<T>, r: seq<T>)
    ensures r == StableSort(key, items) <==> IsStableSortOf(key, r, items)
  {
    var sorted := StableSort(key, items);
    StableSortSorts(key, items);
    assert IsStableSortOf(key, sorted, items);
    if IsStableSortOf(key, r, items) {
      forall k
        ensures WithKey(key, r, k) == WithKey(key, sorted, k)
      {
        assert WithKey(key, r, k) == WithKey(key, items, k);
      }
      SortedListsAgree(key, r, sorted);
    }
  }
}
