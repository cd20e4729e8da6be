/** The collection of routes a router serves: indexed by a hash, served in path order. */
module RouteCollections {
  import opened Prelude
  import opened OrderedDicts
  import opened RouteSorting
  import Text

  datatype Kind = Operation | Mount | Host

  /** A route: its path (or host), its methods and versions, and a tag telling equal ones apart. */
  datatype Route = Route(
    kind: Kind,
    spec: string,
    name: string,
    className: string,
    methods: Option<seq<string>>,
    versions: seq<string>,
    tag: int)

  function SpecOf(r: Route): string {
    r.spec
  }

  /** Something handed to the collection, and the random text drawn if its hash is taken. */
  datatype Added = Added(route: Option<Route>, salt: string)

  type Index = seq<Item<int, Route>>

  // ----- the identity of a route -----

  function LowerChar(c: char): char {
    if 'A' <= c <= 'Z' then (c as int + 32) as char else c
  }

  function Lower(s: string): string {
    seq(|s|, i requires 0 <= i < |s| => LowerChar(s[i]))
  }

  function MethodsOf(r: Route): seq<string> {
    if r.kind == Operation then r.methods.GetOr(["WS"])
    else if r.name == "" || r.name == r.className then [r.className]
    else [r.name, r.className]
  }

  function VersionsOf(r: Route): seq<string> {
    if r.kind == Operation && r.versions != [] then r.versions else ["no_versioning"]
  }

  function JoinSorted(texts: seq<string>): string {
    if texts == [] then "" else Lower(Text.Join(StableSort(Same, texts), '_'))
  }

  /** The text whose hash indexes a route. */
  function IdText(r: Route, extra: string): string {
    r.spec + JoinSorted(MethodsOf(r)) + JoinSorted(VersionsOf(r)) + extra
  }

  function Same(t: string): string {
    t
  }

  lemma {:induction false} CopiesOfKey(texts: seq<string>, k: string)
    ensures WithKey(Same, texts, k) == seq(multiset(texts)[k], i => k)
    decreases |texts|
  {
    if texts != [] {
      var init, last := texts[..|texts| - 1], texts[|texts| - 1];
      assert texts == init + [last];
      CopiesOfKey(init, k);
    }
  }

  /** Sorting forgets in which order a set of methods or versions was listed. */
  lemma SortingForgetsListing(a: seq<string>, b: seq<string>)
    requires multiset(a) == multiset(b)
    ensures StableSort(Same, a) == StableSort(Same, b)
  {
    StableSortSorts(Same, a);
    StableSortSorts(Same, b);
    var sa, sb := StableSort(Same, a), StableSort(Same, b);
    forall k
      ensures WithKey(Same, sa, k) == WithKey(Same, sb, k)
    {
      CopiesOfKey(a, k);
      CopiesOfKey(b, k);
      assert WithKey(Same, sa, k) == WithKey(Same, a, k);
      assert WithKey(Same, sb, k) == WithKey(Same, b, k);
    }
    SortedListsAgree(Same, sa, sb);
  }

  /** A route's identity is settled by its path and its sets of methods and versions. */
  lemma IdentityForgetsListing(r: Route, q: Route, extra: string)
    requires r.spec == q.spec
    requires multiset(MethodsOf(r)) == multiset(MethodsOf(q)) && multiset(VersionsOf(r)) == multiset(VersionsOf(q))
    ensures IdText(r, extra) == IdText(q, extra)
  {
    SameSize(MethodsOf(r), MethodsOf(q));
    SameSize(VersionsOf(r), VersionsOf(q));
    SortingForgetsListing(MethodsOf(r), MethodsOf(q));
    SortingForgetsListing(VersionsOf(r), VersionsOf(q));
  }

  lemma SameSize(a: seq<string>, b: seq<string>)
    requires multiset(a) == multiset(b)
    ensures |a| == |b|
  {
    assert |multiset(a)| == |multiset(b)|;
  }

  // ----- adding -----

  function AddOne(hash: string -> int, routes: Index, r: Route, salt: string): Index {
    if hash(IdText(r, "")) in Keys(routes) then Put(routes, hash(IdText(r, salt)), r)
    else Put(routes, hash(IdText(r, "")), r)
  }

  function AddAll(hash: string -> int, routes: Index, items: seq<Added>): Index
    decreases |items|
  {
    if items == [] then routes else AddAll(hash, AddItem(hash, routes, items[0]), items[1..])
  }

  /** Anything that is not a route is ignored. */
  function AddItem(hash: string -> int, routes: Index, item: Added): Index {
    if item.route.Some? then AddOne(hash, routes, item.route.value, item.salt) else routes
  }

  /** The hash of the route, or else of its salted retry, is not taken. */
  predicate Fresh(hash: string -> int, routes: Index, r: Route, salt: string) {
    hash(IdText(r, "")) !in Keys(routes) || hash(IdText(r, salt)) !in Keys(routes)
  }

  /** One route is added at the end, and no other touched, exactly when one of its hashes is free. */
  lemma AddLosesNothingIffFresh(hash: string -> int, routes: Index, r: Route, salt: string)
    ensures Values(AddOne(hash, routes, r, salt)) == Values(routes) + [r] <==> Fresh(hash, routes, r, salt)
    ensures |AddOne(hash, routes, r, salt)| == |routes| + (if Fresh(hash, routes, r, salt) then 1 else 0)
    ensures Distinct(Keys(routes)) ==> Distinct(Keys(AddOne(hash, routes, r, salt)))
  {
    var h := if hash(IdText(r, "")) in Keys(routes) then hash(IdText(r, salt)) else hash(IdText(r, ""));
    PutKeys(routes, h, r);
    if Fresh(hash, routes, r, salt) {
      PutFresh(routes, h, r);
      assert Values(routes + [Item(h, r)]) == Values(routes) + [r];
    }
  }

  function RouteOf(item: Added): seq<Route> {
    if item.route.Some? then [item.route.value] else []
  }

  function RoutesIn(items: seq<Added>): seq<Route> {
    if items == [] then [] else RouteOf(items[0]) + RoutesIn(items[1..])
  }

  predicate FreshItem(hash: string -> int, routes: Index, item: Added) {
    item.route.Some? ==> Fresh(hash, routes, item.route.value, item.salt)
  }

  ghost predicate AllFresh(hash: string -> int, routes: Index, items: seq<Added>)
    decreases |items|
  {
    items != [] ==> FreshItem(hash, routes, items[0]) && AllFresh(hash, AddItem(hash, routes, items[0]), items[1..])
  }

  lemma AddItemLosesNothingIffFresh(hash: string -> int, routes: Index, item: Added)
    ensures FreshItem(hash, routes, item) ==> Values(AddItem(hash, routes, item)) == Values(routes) + RouteOf(item)
    ensures |AddItem(hash, routes, item)| <= |routes| + |RouteOf(item)|
    ensures |AddItem(hash, routes, item)| == |routes| + |RouteOf(item)| <==> FreshItem(hash, routes, item)
    ensures Distinct(Keys(routes)) ==> Distinct(Keys(AddItem(hash, routes, item)))
  {
    if item.route.Some? {
      AddLosesNothingIffFresh(hash, routes, item.route.value, item.salt);
    } else {
      assert Values(routes) + [] == Values(routes);
    }
  }

  lemma {:induction false} LengthIffFresh(hash: string -> int, routes: Index, items: seq<Added>)
    ensures |AddAll(hash, routes, items)| <= |routes| + |RoutesIn(items)|
    ensures |AddAll(hash, routes, items)| == |routes| + |RoutesIn(items)| <==> AllFresh(hash, routes, items)
    decreases |items|
  {
    if items != [] {
      AddItemLosesNothingIffFresh(hash, routes, items[0]);
      LengthIffFresh(hash, AddItem(hash, routes, items[0]), items[1..]);
    }
  }

  lemma {:induction false} FreshKeepsAll(hash: string -> int, routes: Index, items: seq<Added>)
    requires AllFresh(hash, routes, items)
    ensures Values(AddAll(hash, routes, items)) == Values(routes) + RoutesIn(items)
    decreases |items|
  {
    if items == [] {
      assert Values(routes) + [] == Values(routes);
    } else {
      var added := AddItem(hash, routes, items[0]);
      AddItemLosesNothingIffFresh(hash, routes, items[0]);
      FreshKeepsAll(hash, added, items[1..]);
      JoinThree(Values(routes), RouteOf(items[0]), RoutesIn(items[1..]));
    }
  }

  lemma JoinThree<T>(a: seq<T>, b: seq<T>, c: seq<T>)
    ensures a + b + c == a + (b + c)
  {
  }

  /** Over a whole list, the index keeps every route, in order, exactly when no retry ever collides. */
  lemma NothingIsLostIffFresh(hash: string -> int, routes: Index, items: seq<Added>)
    ensures Values(AddAll(hash, routes, items)) == Values(routes) + RoutesIn(items) <==> AllFresh(hash, routes, items)
    ensures |AddAll(hash, routes, items)| == |routes| + |RoutesIn(items)| <==> AllFresh(hash, routes, items)
  {
    LengthIffFresh(hash, routes, items);
    if AllFresh(hash, routes, items) {
      FreshKeepsAll(hash, routes, items);
    }
  }

  lemma {:induction false} AddAllKeepsDistinct(hash: string -> int, routes: Index, items: seq<Added>)
    requires Distinct(Keys(routes))
    ensures Distinct(Keys(AddAll(hash, routes, items)))
    decreases |items|
  {
    if items != [] {
      AddItemLosesNothingIffFresh(hash, routes, items[0]);
      AddAllKeepsDistinct(hash, AddItem(hash, routes, items[0]), items[1..]);
    }
  }

  // ----- when nothing can be lost -----

  predicate EndsWith(text: string, end: string) {
    |end| <= |text| && text[|text| - |end|..] == end
  }

  /** The random texts drawn are all of one length, all different, and no route's own text ends in one of them. */
  ghost predicate SaltsDiffer(items: seq<Added>) {
    && (forall i, j :: 0 <= i < j < |items| ==> |items[i].salt| == |items[j].salt| && items[i].salt != items[j].salt)
    && forall i, j :: 0 <= i < |items| && 0 <= j < |items| && items[i].route.Some? ==>
         !EndsWith(IdText(items[i].route.value, ""), items[j].salt)
  }

  ghost predicate Injective(hash: string -> int) {
    forall a, b :: hash(a) == hash(b) ==> a == b
  }

  /** Every key of the index is the hash of an item added before, plain or salted. */
  ghost predicate KeysComeFrom(hash: string -> int, routes: Index, items: seq<Added>, n: nat) {
    n <= |items| && forall k :: k in Keys(routes) ==> SeenBefore(hash, items, n, k)
  }

  ghost predicate SeenBefore(hash: string -> int, items: seq<Added>, n: nat, k: int) {
    exists j :: 0 <= j < n && KeyOfItem(hash, items, j, k)
  }

  ghost predicate KeyOfItem(hash: string -> int, items: seq<Added>, j: int, k: int) {
    && 0 <= j < |items| && items[j].route.Some?
    && (k == hash(IdText(items[j].route.value, "")) || k == hash(IdText(items[j].route.value, items[j].salt)))
  }

  lemma SaltEndsText(r: Route, salt: string)
    ensures IdText(r, salt) == IdText(r, "") + salt && EndsWith(IdText(r, salt), salt)
  {
    var own := IdText(r, "");
    assert IdText(r, salt) == own + salt;
  }

  lemma SaltedTextDiffers(hash: string -> int, items: seq<Added>, j: nat, n: nat)
    requires Injective(hash) && SaltsDiffer(items) && j < n < |items| && items[n].route.Some?
    ensures !KeyOfItem(hash, items, j, hash(IdText(items[n].route.value, items[n].salt)))
  {
    SaltEndsText(items[n].route.value, items[n].salt);
    if items[j].route.Some? {
      SaltEndsText(items[j].route.value, items[j].salt);
      assert |items[j].salt| == |items[n].salt|;
    }
  }

  /** The salted text of an item is that of no item before it. */
  lemma SaltedTextIsFree(hash: string -> int, routes: Index, items: seq<Added>, n: nat)
    requires Injective(hash) && SaltsDiffer(items) && n < |items| && KeysComeFrom(hash, routes, items, n)
    requires items[n].route.Some?
    ensures hash(IdText(items[n].route.value, items[n].salt)) !in Keys(routes)
  {
    forall j | 0 <= j < n
      ensures !KeyOfItem(hash, items, j, hash(IdText(items[n].route.value, items[n].salt)))
    {
      SaltedTextDiffers(hash, items, j, n);
    }
    assert !SeenBefore(hash, items, n, hash(IdText(items[n].route.value, items[n].salt)));
  }

  /** Adding the next item keeps all keys accounted for. */
  lemma AddingKeepsKeysKnown(hash: string -> int, routes: Index, items: seq<Added>, n: nat)
    requires n < |items| && KeysComeFrom(hash, routes, items, n)
    ensures KeysComeFrom(hash, AddItem(hash, routes, items[n]), items, n + 1)
  {
    var added := AddItem(hash, routes, items[n]);
    forall k | k in Keys(added)
      ensures SeenBefore(hash, items, n + 1, k)
    {
      if k in Keys(routes) {
        assert SeenBefore(hash, items, n, k);
        var j :| 0 <= j < n && KeyOfItem(hash, items, j, k);
        assert 0 <= j < n + 1 && KeyOfItem(hash, items, j, k);
      } else {
        NewKeyIsOfItem(hash, routes, items, n, k);
      }
    }
  }

  lemma NewKeyIsOfItem(hash: string -> int, routes: Index, items: seq<Added>, n: nat, k: int)
    requires n < |items| && k in Keys(AddItem(hash, routes, items[n])) && k !in Keys(routes)
    ensures KeyOfItem(hash, items, n, k)
  {
    if items[n].route.Some? {
      var r := items[n].route.value;
      PutKeys(routes, hash(IdText(r, "")), r);
      PutKeys(routes, hash(IdText(r, items[n].salt)), r);
    }
  }

  lemma {:induction false} SaltedAreAllFresh(hash: string -> int, routes: Index, items: seq<Added>, n: nat)
    requires Injective(hash) && SaltsDiffer(items) && n <= |items| && KeysComeFrom(hash, routes, items, n)
    ensures AllFresh(hash, routes, items[n..])
    decreases |items| - n
  {
    if n < |items| {
      assert items[n..][0] == items[n] && items[n..][1..] == items[n + 1..];
      if items[n].route.Some? {
        SaltedTextIsFree(hash, routes, items, n);
      }
      AddingKeepsKeysKnown(hash, routes, items, n);
      SaltedAreAllFresh(hash, AddItem(hash, routes, items[n]), items, n + 1);
    }
  }

  /** With a hash that never collides and salts that differ, every route added is served, whatever is repeated. */
  lemma DifferentSaltsLoseNothing(hash: string -> int, items: seq<Added>)
    requires Injective(hash) && SaltsDiffer(items)
    ensures Values(AddAll(hash, [], items)) == RoutesIn(items)
    ensures Served(AddAll(hash, [], items)) == StableSort(SpecOf, RoutesIn(items))
  {
    assert Keys<int, Route>([]) == [];
    SaltedAreAllFresh(hash, [], items, 0);
    assert items[0..] == items;
    NothingIsLostIffFresh(hash, [], items);
    assert Values<int, Route>([]) + RoutesIn(items) == RoutesIn(items);
  }

  /** The identity of an operation with one method: its path, the method and its version, if any, in small letters. */
  lemma TextOfOneMethod(spec: string, name: string, cls: string, m: string, v: string, tag: int, salt: string)
    ensures IdText(Route(Operation, spec, name, cls, Some([m]), [], tag), salt) ==
            spec + Lower(m) + "no_versioning" + salt
    ensures IdText(Route(Operation, spec, name, cls, Some([m]), [v], tag), salt) == spec + Lower(m) + Lower(v) + salt
    ensures IdText(Route(Operation, spec, name, cls, None, [v], tag), salt) == spec + "ws" + Lower(v) + salt
  {
    OneText(m);
    OneText(v);
    OneText("WS");
    OneText("no_versioning");
    LowerIsSmall();
  }

  /** Two methods stand in their order with an underscore between them. */
  lemma TextOfTwoMethods(spec: string, name: string, cls: string, m: string, n: string, tag: int, salt: string)
    requires TextLeq(m, n)
    ensures IdText(Route(Operation, spec, name, cls, Some([m, n]), [], tag), salt) ==
            spec + (Lower(m) + "_" + Lower(n)) + "no_versioning" + salt
  {
    TwoTexts(m, n);
    OneText("no_versioning");
    LowerIsSmall();
    var r := Route(Operation, spec, name, cls, Some([m, n]), [], tag);
    assert MethodsOf(r) == [m, n] && VersionsOf(r) == ["no_versioning"];
  }

  /** The identity of a mount or host: its path and its class, and its name when that is another. */
  lemma TextOfMount(
      kind: Kind, spec: string, name: string, cls: string, versions: seq<string>, tag: int, salt: string)
    requires kind != Operation
    ensures name == "" || name == cls ==>
              IdText(Route(kind, spec, name, cls, None, versions, tag), salt) ==
              spec + Lower(cls) + "no_versioning" + salt
    ensures name != "" && name != cls ==>
              IdText(Route(kind, spec, name, cls, None, versions, tag), salt) ==
              spec + (if TextLeq(name, cls) then Lower(name) + "_" + Lower(cls) else Lower(cls) + "_" + Lower(name)) +
              "no_versioning" + salt
  {
    OneText(cls);
    OneText("no_versioning");
    LowerIsSmall();
    TextLeqIsTotal(name, cls);
    if TextLeq(name, cls) {
      TwoTexts(name, cls);
    } else {
      TwoTexts(cls, name);
      SortingForgetsListing([name, cls], [cls, name]);
    }
  }

  lemma OneText(t: string)
    ensures JoinSorted([t]) == Lower(t)
  {
    assert [t][..0] == [];
    assert StableSort(Same, [t]) == [t];
  }

  lemma TwoTexts(a: string, b: string)
    requires TextLeq(a, b)
    ensures JoinSorted([a, b]) == Lower(a) + "_" + Lower(b)
  {
    assert [a][..0] == [] && [a, b][..1] == [a];
    assert StableSort(Same, [a]) == [a];
    assert StableSort(Same, [a, b]) == Insert(Same, [a], b) == [a, b];
    assert [a, b][1..] == [b];
    assert Text.Join([b], '_') == b;
    assert Text.Join([a, b], '_') == a + "_" + b;
  }

  lemma LowerIsSmall()
    ensures Lower("WS") == "ws" && Lower("no_versioning") == "no_versioning"
  {
  }

  // ----- batches -----

  lemma {:induction false} AddAllAppend(hash: string -> int, routes: Index, a: seq<Added>, b: seq<Added>)
    ensures AddAll(hash, routes, a + b) == AddAll(hash, AddAll(hash, routes, a), b)
    decreases |a|
  {
    if a == [] {
      assert a + b == b;
    } else {
      assert (a + b)[1..] == a[1..] + b;
      AddAllAppend(hash, AddItem(hash, routes, a[0]), a[1..], b);
    }
  }

  function AddBatches(hash: string -> int, routes: Index, batches: seq<seq<Added>>): Index
    decreases |batches|
  {
    if batches == [] then routes else AddBatches(hash, AddAll(hash, routes, batches[0]), batches[1..])
  }

  function Flatten<T>(batches: seq<seq<T>>): seq<T> {
    if batches == [] then [] else batches[0] + Flatten(batches[1..])
  }

  /** How the additions are batched makes no difference. */
  lemma {:induction false} BatchingDoesNotMatter(hash: string -> int, routes: Index, batches: seq<seq<Added>>)
    ensures AddBatches(hash, routes, batches) == AddAll(hash, routes, Flatten(batches))
    decreases |batches|
  {
    if batches != [] {
      BatchingDoesNotMatter(hash, AddAll(hash, routes, batches[0]), batches[1..]);
      AddAllAppend(hash, routes, batches[0], Flatten(batches[1..]));
    }
  }

  // ----- serving -----

  function Served(routes: Index): seq<Route> {
    StableSort(SpecOf, Values(routes))
  }

  /** A literal character below `{` is served before a parameter that starts at the same place. */
  lemma LiteralsAreServedFirst(routes: Index, i: nat, j: nat, prefix: string, c: char, a: string, b: string)
    requires i < |Served(routes)| && j < |Served(routes)| && c < '{'
    requires Served(routes)[i].spec == prefix + [c] + a && Served(routes)[j].spec == prefix + "{" + b
    ensures i < j
  {
    StableSortSorts(SpecOf, Values(routes));
    FirstDifferenceDecides(prefix, c, a, '{', b);
    TextLeqIsTotal(prefix + "{" + b, prefix + "{" + b);
    assert SpecOf(Served(routes)[j]) == prefix + ['{'] + b;
  }

  /** With nothing lost, what is served is the stable sort of everything that was added. */
  lemma ServedIsEverythingAdded(hash: string -> int, items: seq<Added>)
    ensures AllFresh(hash, [], items) <==> Served(AddAll(hash, [], items)) == StableSort(SpecOf, RoutesIn(items))
  {
    NothingIsLostIffFresh(hash, [], items);
    assert Values<int, Route>([]) + RoutesIn(items) == RoutesIn(items);
    StableSortSorts(SpecOf, Values(AddAll(hash, [], items)));
    StableSortSorts(SpecOf, RoutesIn(items));
    if Served(AddAll(hash, [], items)) == StableSort(SpecOf, RoutesIn(items)) {
      assert |multiset(Values(AddAll(hash, [], items)))| == |multiset(RoutesIn(items))|;
    }
  }

  // ----- the collection -----

  class RouteCollection {
    const hash: string -> int
    var routes: Index
    var served: seq<Route>

    ghost predicate Valid()
      reads this
    {
      Distinct(Keys(routes)) && IsStableSortOf(SpecOf, served, Values(routes))
    }

    constructor (hash: string -> int, items: seq<Added>)
      ensures Valid() && this.hash == hash && routes == AddAll(hash, [], items)
    {
      this.hash, routes, served := hash, [], [];
      new;
      Extend(items);
    }

    method AddOperation(item: Added)
      requires Distinct(Keys(routes))
      modifies this`routes
      ensures routes == AddAll(hash, old(routes), [item]) && Distinct(Keys(routes))
    {
      assert [item][1..] == [];
      AddAllKeepsDistinct(hash, routes, [item]);
      if item.route.None? {
        return;
      }
      var r := item.route.value;
      var h := hash(IdText(r, ""));
      if h in Keys(routes) {
        h := hash(IdText(r, item.salt));
      }
      routes := Put(routes, h, r);
    }

    method SortRoutes()
      modifies this`served
      ensures IsStableSortOf(SpecOf, served, Values(routes))
    {
      served := StableSort(SpecOf, Values(routes));
      StableSortIsUnique(SpecOf, Values(routes), served);
    }

    method Extend(items: seq<Added>)
      requires Distinct(Keys(routes))
      modifies this
      ensures Valid() && routes == AddAll(hash, old(routes), items)
    {
      var i := 0;
      assert items[..0] == [];
      while i < |items|
        invariant 0 <= i <= |items|
        invariant Distinct(Keys(routes)) && routes == AddAll(hash, old(routes), items[..i])
      {
        AddAllAppend(hash, old(routes), items[..i], [items[i]]);
        assert items[..i] + [items[i]] == items[..i + 1];
        AddOperation(items[i]);
        i := i + 1;
      }
      assert items[..|items|] == items;
      SortRoutes();
    }

    method Append(item: Added)
      requires Valid()
      modifies this
      ensures Valid() && routes == AddAll(hash, old(routes), [item])
    {
      AddOperation(item);
      SortRoutes();
    }

    /** `collection[i] = o` adds: the position is not looked at. */
    method SetItem(i: int, item: Added)
      requires Valid()
      modifies this
      ensures Valid() && routes == AddAll(hash, old(routes), [item])
    {
      AddOperation(item);
      SortRoutes();
    }

    /** The length is the index's, and it is also that of what is served. */
    method Len() returns (n: nat)
      requires Valid()
      ensures n == |routes| == |served|
    {
      StableSortIsUnique(SpecOf, Values(routes), served);
      StableSortSorts(SpecOf, Values(routes));
      assert |multiset(served)| == |multiset(Values(routes))|;
      n := |routes|;
    }
  }
}
