/**
 Python's insertion-ordered dictionary as the sequence of its items: writing an
 existing key changes the value and keeps the position.
 */
module OrderedDicts {
  import opened Prelude

  datatype Item<K, V> = Item(key: K, value: V)

  function Keys<K, V>(d: seq<Item<K, V>>): (ks: seq<K>)
    ensures |ks| == |d| && forall i :: 0 <= i < |d| ==> ks[i] == d[i].key
  {
    seq(|d|, i requires 0 <= i < |d| => d[i].key)
  }

  function Values<K, V>(d: seq<Item<K, V>>): (vs: seq<V>)
    ensures |vs| == |d| && forall i :: 0 <= i < |d| ==> vs[i] == d[i].value
  {
    seq(|d|, i requires 0 <= i < |d| => d[i].value)
  }

  ghost predicate Distinct<T>(s: seq<T>) {
    forall i, j :: 0 <= i < j < |s| ==> s[i] != s[j]
  }

  /** `d[k] = v`. */
  function Put<K(==), V>(d: seq<Item<K, V>>, k: K, v: V): seq<Item<K, V>> {
    if d == [] then [Item(k, v)]
    else if d[0].key == k then [Item(k, v)] + d[1..]
    else [d[0]] + Put(d[1..], k, v)
  }

  /** `d.update(items)`: the items are written one after the other. */
  function Update<K(==), V>(d: seq<Item<K, V>>, items: seq<Item<K, V>>): seq<Item<K, V>>
    decreases |items|
  {
    if items == [] then d else Update(Put(d, items[0].key, items[0].value), items[1..])
  }

  // ----- keys -----

  lemma {:induction false} PutKeys<K, V>(d: seq<Item<K, V>>, k: K, v: V)
    ensures Keys(Put(d, k, v)) == if k in Keys(d) then Keys(d) else Keys(d) + [k]
  {
    if d == [] {
      assert Keys(d) == [];
    } else {
      assert Keys(d) == [d[0].key] + Keys(d[1..]);
      if d[0].key != k {
        PutKeys(d[1..], k, v);
        assert Keys(Put(d, k, v)) == [d[0].key] + Keys(Put(d[1..], k, v));
      } else {
        assert Keys(Put(d, k, v)) == [k] + Keys(d[1..]);
      }
    }
  }

  lemma PutFresh<K, V>(d: seq<Item<K, V>>, k: K, v: V)
    requires k !in Keys(d)
    ensures Put(d, k, v) == d + [Item(k, v)]
  {
    if d != [] {
      assert Keys(d)[0] == d[0].key;
      assert forall i :: 0 <= i < |d[1..]| ==> Keys(d[1..])[i] == Keys(d)[i + 1];
      PutFresh(d[1..], k, v);
      assert [d[0]] + (d[1..] + [Item(k, v)]) == d + [Item(k, v)];
    }
  }

  /** First occurrences, in order. */
  function Firsts<T(==)>(s: seq<T>): (r: seq<T>)
    ensures (forall x :: x in r ==> x in s) && (forall x :: x in s ==> x in r)
    ensures Distinct(r)
  {
    if s == [] then []
    else
      var r := Firsts(s[..|s| - 1]);
      var last := s[|s| - 1];
      assert s == s[..|s| - 1] + [last];
      if last in r then r else r + [last]
  }

  lemma {:induction false} UpdateSnoc<K, V>(d: seq<Item<K, V>>, items: seq<Item<K, V>>, x: Item<K, V>)
    ensures Update(d, items + [x]) == Put(Update(d, items), x.key, x.value)
    decreases |items|
  {
    if items == [] {
      assert (items + [x])[1..] == [];
    } else {
      assert (items + [x])[1..] == items[1..] + [x];
      UpdateSnoc(Put(d, items[0].key, items[0].value), items[1..], x);
    }
  }

  lemma {:induction false} UpdateAppend<K, V>(d: seq<Item<K, V>>, a: seq<Item<K, V>>, b: seq<Item<K, V>>)
    ensures Update(d, a + b) == Update(Update(d, a), b)
    decreases |a|
  {
    if a == [] {
      assert a + b == b;
    } else {
      assert (a + b)[1..] == a[1..] + b;
      UpdateAppend(Put(d, a[0].key, a[0].value), a[1..], b);
    }
  }

  /** A dictionary filled from a list has the first occurrences as its keys. */
  lemma {:induction false} FilledKeys<K, V>(items: seq<Item<K, V>>)
    ensures Keys(Update([], items)) == Firsts(Keys(items))
  {
    if items == [] {
      assert Keys<K, V>([]) == [];
    } else {
      var init, x := items[..|items| - 1], items[|items| - 1];
      FilledKeys(init);
      assert items == init + [x];
      UpdateSnoc([], init, x);
      PutKeys(Update([], init), x.key, x.value);
      assert Keys(items)[..|items| - 1] == Keys(init);
    }
  }

  // ----- nested updates -----

  lemma PutTwice<K, V>(d: seq<Item<K, V>>, k: K, v: V, w: V)
    ensures Put(Put(d, k, v), k, w) == Put(d, k, w)
  {
    if d != [] && d[0].key != k {
      PutTwice(d[1..], k, v, w);
      assert Put(d, k, v)[1..] == Put(d[1..], k, v);
    }
  }

  /** Rewriting a key that is there commutes with writing another one. */
  lemma {:induction false} PutsCommute<K, V>(d: seq<Item<K, V>>, k: K, v: V, k': K, v': V)
    requires k in Keys(d) && k != k'
    ensures Put(Put(d, k', v'), k, v) == Put(Put(d, k, v), k', v')
  {
    assert Keys(d) == [d[0].key] + Keys(d[1..]);
    if d[0].key == k {
      assert Put(d, k, v)[1..] == d[1..];
      assert Put(d, k', v') == [d[0]] + Put(d[1..], k', v');
    } else {
      PutsCommute(d[1..], k, v, k', v');
      if d[0].key == k' {
        assert Put(d, k', v')[1..] == d[1..];
        assert Put(d, k, v)[1..] == Put(d[1..], k, v);
      } else {
        assert Put(d, k', v')[1..] == Put(d[1..], k', v');
        assert Put(d, k, v)[1..] == Put(d[1..], k, v);
      }
    }
  }

  lemma {:induction false} PutThenUpdate<K, V>(d: seq<Item<K, V>>, k: K, v: V, items: seq<Item<K, V>>)
    requires k in Keys(d) && k !in Keys(items)
    ensures Put(Update(d, items), k, v) == Update(Put(d, k, v), items)
    decreases |items|
  {
    if items != [] {
      var x := items[0];
      assert Keys(items)[0] == x.key;
      assert forall i :: 0 <= i < |items[1..]| ==> Keys(items[1..])[i] == Keys(items)[i + 1];
      PutKeys(d, x.key, x.value);
      PutThenUpdate(Put(d, x.key, x.value), k, v, items[1..]);
      PutsCommute(d, k, v, x.key, x.value);
    }
  }

  lemma {:induction false} UpdateByPut<K, V>(d: seq<Item<K, V>>, e: seq<Item<K, V>>, k: K, v: V)
    requires Distinct(Keys(e))
    ensures Update(d, Put(e, k, v)) == Put(Update(d, e), k, v)
    decreases |e|
  {
    if e == [] {
      assert Put(e, k, v)[1..] == [];
    } else {
      var y := e[0];
      assert Keys(e) == [y.key] + Keys(e[1..]);
      assert forall i :: 0 <= i < |e[1..]| ==> Keys(e[1..])[i] == Keys(e)[i + 1];
      assert Distinct(Keys(e[1..]));
      var d' := Put(d, y.key, y.value);
      if y.key == k {
        assert Put(e, k, v)[1..] == e[1..];
        PutKeys(d, y.key, y.value);
        PutThenUpdate(d', k, v, e[1..]);
        PutTwice(d, k, y.value, v);
      } else {
        assert Put(e, k, v)[1..] == Put(e[1..], k, v);
        UpdateByPut(d', e[1..], k, v);
      }
    }
  }

  /** Updating by a dictionary is updating by the list it was filled from. */
  lemma {:induction false} UpdateByFilled<K, V>(d: seq<Item<K, V>>, items: seq<Item<K, V>>)
    ensures Update(d, Update([], items)) == Update(d, items)
  {
    if items != [] {
      var init, x := items[..|items| - 1], items[|items| - 1];
      assert items == init + [x];
      UpdateByFilled(d, init);
      UpdateSnoc([], init, x);
      UpdateSnoc(d, init, x);
      FilledKeys(init);
      UpdateByPut(d, Update([], init), x.key, x.value);
    }
  }

  // ----- values -----

  /** The value a list of writes leaves under `k`: that of its last occurrence. */
  function LastValue<K(==), V>(items: seq<Item<K, V>>, k: K): Option<V> {
    if items == [] then None
    else if items[|items| - 1].key == k then Some(items[|items| - 1].value)
    else LastValue(items[..|items| - 1], k)
  }

  function Get<K(==), V>(d: seq<Item<K, V>>, k: K): Option<V> {
    if d == [] then None else if d[0].key == k then Some(d[0].value) else Get(d[1..], k)
  }

  lemma {:induction false} GetPut<K, V>(d: seq<Item<K, V>>, k: K, v: V, q: K)
    ensures Get(Put(d, k, v), q) == if q == k then Some(v) else Get(d, q)
  {
    if d != [] {
      if d[0].key == k {
        assert Put(d, k, v)[1..] == d[1..];
      } else {
        GetPut(d[1..], k, v, q);
        assert Put(d, k, v)[1..] == Put(d[1..], k, v);
      }
    }
  }

  lemma {:induction false} FilledValues<K, V>(items: seq<Item<K, V>>, k: K)
    ensures Get(Update([], items), k) == LastValue(items, k)
  {
    if items != [] {
      var init, x := items[..|items| - 1], items[|items| - 1];
      assert items == init + [x];
      UpdateSnoc([], init, x);
      GetPut(Update([], init), x.key, x.value, k);
      FilledValues(init, k);
    }
  }

  // ----- order -----

  ghost predicate Before<T>(s: seq<T>, a: T, b: T) {
    exists i, j :: 0 <= i < j < |s| && s[i] == a && s[j] == b
  }

  /** What comes first in a list still does among the first occurrences. */
  lemma {:induction false} FirstsKeepOrder<T>(s: seq<T>, p: nat, a: T)
    requires p < |s| && a in s[..p] && s[p] !in s[..p]
    ensures Before(Firsts(s), a, s[p])
  {
    var init := s[..|s| - 1];
    var r := Firsts(init);
    assert s == init + [s[|s| - 1]];
    if p < |s| - 1 {
      assert init[..p] == s[..p];
      FirstsKeepOrder(init, p, a);
      var i, j :| 0 <= i < j < |r| && r[i] == a && r[j] == s[p];
      assert Firsts(s)[i] == a && Firsts(s)[j] == s[p];
    } else {
      assert init[..p] == init;
      var i :| 0 <= i < |r| && r[i] == a;
      assert Firsts(s) == r + [s[p]];
      assert Firsts(s)[i] == a && Firsts(s)[|r|] == s[p];
    }
  }

  lemma BeforeIsAsymmetric<T>(s: seq<T>, a: T, b: T)
    requires Distinct(s) && Before(s, a, b)
    ensures !Before(s, b, a)
  {
  }
}
