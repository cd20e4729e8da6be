/** Which modules an application is made of, and in which order they are built. */
module ModuleGraph {
  import opened OrderedDicts

  type Module = int

  /** What a setup asks the injector for; two services are known by name. */
  type Service = int

  const CONFIG: Service := 0
  const APP: Service := 1

  datatype Factory = NoFactory | Factory(returnsDynamicModule: bool)

  datatype ModuleSetup = ModuleSetup(mod: Module, inject: seq<Service>, factory: Factory)

  /** An entry of a module's `modules` list. */
  datatype Import = Plain(mod: Module) | Dynamic(mod: Module) | Prepared(setup: ModuleSetup)

  type Graph = map<Module, seq<Import>>

  function Simple(m: Module): ModuleSetup {
    ModuleSetup(m, [], NoFactory)
  }

  function SetupOf(imp: Import): ModuleSetup {
    match imp
    case Plain(m) => Simple(m)
    case Dynamic(m) => Simple(m)
    case Prepared(s) => s
  }

  function ModulesOf(g: Graph, m: Module): seq<Import> {
    if m in g then g[m] else []
  }

  ghost predicate Imports(g: Graph, m: Module, x: Module) {
    exists imp :: imp in ModulesOf(g, m) && SetupOf(imp).mod == x
  }

  ghost predicate Acyclic(rank: Module -> nat, g: Graph) {
    forall m, imp :: imp in ModulesOf(g, m) ==> rank(SetupOf(imp).mod) < rank(m)
  }

  type Found = seq<Item<Module, ModuleSetup>>

  // ----- reading the graph -----

  /** `read_all_module`: each import, then everything below it, written into one dictionary. */
  function ReadAll(rank: Module -> nat, g: Graph, m: Module): Found
    requires Acyclic(rank, g)
    decreases rank(m), 1, 0
  {
    ReadList(rank, g, [], ModulesOf(g, m), rank(m))
  }

  function ReadList(rank: Module -> nat, g: Graph, found: Found, imports: seq<Import>, top: nat): Found
    requires Acyclic(rank, g)
    requires forall imp :: imp in imports ==> rank(SetupOf(imp).mod) < top
    decreases top, 0, |imports|
  {
    if imports == [] then found
    else
      var s := SetupOf(imports[0]);
      ReadList(rank, g, Update(Put(found, s.mod, s), ReadAll(rank, g, s.mod)), imports[1..], top)
  }

  /** The depth-first preorder unfolding: every path is followed, repeats and all. */
  function Unfold(rank: Module -> nat, g: Graph, m: Module): Found
    requires Acyclic(rank, g)
    decreases rank(m), 1, 0
  {
    UnfoldList(rank, g, ModulesOf(g, m), rank(m))
  }

  function UnfoldList(rank: Module -> nat, g: Graph, imports: seq<Import>, top: nat): Found
    requires Acyclic(rank, g)
    requires forall imp :: imp in imports ==> rank(SetupOf(imp).mod) < top
    decreases top, 0, |imports|
  {
    if imports == [] then []
    else
      var s := SetupOf(imports[0]);
      [Item(s.mod, s)] + Unfold(rank, g, s.mod) + UnfoldList(rank, g, imports[1..], top)
  }

  lemma {:induction false} ReadIsFilled(rank: Module -> nat, g: Graph, m: Module)
    requires Acyclic(rank, g)
    ensures ReadAll(rank, g, m) == Update([], Unfold(rank, g, m))
    decreases rank(m), 1, 0
  {
    ReadListIsFilled(rank, g, [], ModulesOf(g, m), rank(m));
  }

  lemma {:induction false} ReadListIsFilled(rank: Module -> nat, g: Graph, found: Found, imports: seq<Import>, top: nat)
    requires Acyclic(rank, g)
    requires forall imp :: imp in imports ==> rank(SetupOf(imp).mod) < top
    ensures ReadList(rank, g, found, imports, top) == Update(found, UnfoldList(rank, g, imports, top))
    decreases top, 0, |imports|
  {
    if imports != [] {
      var s := SetupOf(imports[0]);
      var below, rest := Unfold(rank, g, s.mod), UnfoldList(rank, g, imports[1..], top);
      var found' := Put(found, s.mod, s);
      ReadIsFilled(rank, g, s.mod);
      UpdateByFilled(found', below);
      ReadListIsFilled(rank, g, Update(found', below), imports[1..], top);
      UpdateAppend(found', below, rest);
      var all := [Item(s.mod, s)] + below + rest;
      assert all[1..] == below + rest;
    }
  }

  /**
   The keys come in the order of their first occurrence in the unfolding; the
   setup kept for a module is that of its last occurrence.
   */
  lemma ReadOrder(rank: Module -> nat, g: Graph, m: Module)
    requires Acyclic(rank, g)
    ensures Keys(ReadAll(rank, g, m)) == Firsts(Keys(Unfold(rank, g, m)))
    ensures forall x :: Get(ReadAll(rank, g, m), x) == LastValue(Unfold(rank, g, m), x)
  {
    ReadIsFilled(rank, g, m);
    FilledKeys(Unfold(rank, g, m));
    forall x
      ensures Get(ReadAll(rank, g, m), x) == LastValue(Unfold(rank, g, m), x)
    {
      FilledValues(Unfold(rank, g, m), x);
    }
  }

  lemma UnfoldKeysStep(rank: Module -> nat, g: Graph, imports: seq<Import>, top: nat)
    requires Acyclic(rank, g) && imports != []
    requires forall imp :: imp in imports ==> rank(SetupOf(imp).mod) < top
    ensures var s := SetupOf(imports[0]);
            Keys(UnfoldList(rank, g, imports, top)) ==
            [s.mod] + Keys(Unfold(rank, g, s.mod)) + Keys(UnfoldList(rank, g, imports[1..], top))
  {
  }

  // ----- reachability -----

  ghost predicate Path(g: Graph, p: seq<Module>) {
    forall i :: 0 <= i < |p| - 1 ==> Imports(g, p[i], p[i + 1])
  }

  ghost predicate Reachable(g: Graph, m: Module, x: Module) {
    exists p :: |p| >= 2 && p[0] == m && p[|p| - 1] == x && Path(g, p)
  }

  lemma {:induction false} UnfoldedIsReachable(rank: Module -> nat, g: Graph, m: Module, x: Module)
    requires Acyclic(rank, g) && x in Keys(Unfold(rank, g, m))
    ensures Reachable(g, m, x)
    decreases rank(m), 1, 0
  {
    UnfoldedListIsReachable(rank, g, m, ModulesOf(g, m), x);
  }

  lemma {:induction false} UnfoldedListIsReachable(
      rank: Module -> nat, g: Graph, m: Module, imports: seq<Import>, x: Module)
    requires Acyclic(rank, g)
    requires forall imp :: imp in imports ==> imp in ModulesOf(g, m)
    requires x in Keys(UnfoldList(rank, g, imports, rank(m)))
    ensures Reachable(g, m, x)
    decreases rank(m), 0, |imports|
  {
    assert imports != [];
    UnfoldKeysStep(rank, g, imports, rank(m));
    var y := SetupOf(imports[0]).mod;
    assert imports[0] in ModulesOf(g, m);
    if x == y {
      assert Path(g, [m, x]);
    } else if x in Keys(Unfold(rank, g, y)) {
      UnfoldedIsReachable(rank, g, y, x);
      ReachableThrough(g, m, y, x);
    } else {
      UnfoldedListIsReachable(rank, g, m, imports[1..], x);
    }
  }

  lemma ReachableThrough(g: Graph, m: Module, y: Module, x: Module)
    requires Imports(g, m, y) && Reachable(g, y, x)
    ensures Reachable(g, m, x)
  {
    var p :| |p| >= 2 && p[0] == y && p[|p| - 1] == x && Path(g, p);
    PathCons(g, m, p);
  }

  lemma PathCons(g: Graph, m: Module, p: seq<Module>)
    requires |p| >= 1 && Path(g, p) && Imports(g, m, p[0])
    ensures Path(g, [m] + p)
  {
    var q := [m] + p;
    forall i | 0 <= i < |q| - 1
      ensures Imports(g, q[i], q[i + 1])
    {
      if i > 0 {
        assert q[i] == p[i - 1] && q[i + 1] == p[i];
      }
    }
  }

  lemma {:induction false} ReachableIsUnfolded(rank: Module -> nat, g: Graph, p: seq<Module>)
    requires Acyclic(rank, g) && |p| >= 2 && Path(g, p)
    ensures p[|p| - 1] in Keys(Unfold(rank, g, p[0]))
    decreases |p|
  {
    assert Imports(g, p[0], p[1]);
    var imp :| imp in ModulesOf(g, p[0]) && SetupOf(imp).mod == p[1];
    ImportIsUnfolded(rank, g, ModulesOf(g, p[0]), rank(p[0]), imp);
    if |p| > 2 {
      var q := p[1..];
      forall i | 0 <= i < |q| - 1
        ensures Imports(g, q[i], q[i + 1])
      {
        assert q[i] == p[i + 1] && q[i + 1] == p[i + 2];
      }
      ReachableIsUnfolded(rank, g, q);
    }
  }

  /** An import of a list is unfolded, and so is everything below it. */
  lemma {:induction false} ImportIsUnfolded(rank: Module -> nat, g: Graph, imports: seq<Import>, top: nat, imp: Import)
    requires Acyclic(rank, g)
    requires forall imp :: imp in imports ==> rank(SetupOf(imp).mod) < top
    requires imp in imports
    ensures var keys := Keys(UnfoldList(rank, g, imports, top));
            SetupOf(imp).mod in keys && forall x :: x in Keys(Unfold(rank, g, SetupOf(imp).mod)) ==> x in keys
    decreases |imports|
  {
    var s := SetupOf(imports[0]);
    var below, rest := Unfold(rank, g, s.mod), UnfoldList(rank, g, imports[1..], top);
    var keys := Keys(UnfoldList(rank, g, imports, top));
    assert keys == [s.mod] + Keys(below) + Keys(rest);
    if imp == imports[0] {
      assert keys[0] == s.mod;
    } else {
      ImportIsUnfolded(rank, g, imports[1..], top, imp);
    }
  }

  /** `read_all_module` finds exactly the modules reachable through imports, each once. */
  lemma ReadFindsExactlyTheReachable(rank: Module -> nat, g: Graph, m: Module)
    requires Acyclic(rank, g)
    ensures forall x :: x in Keys(ReadAll(rank, g, m)) <==> Reachable(g, m, x)
    ensures Distinct(Keys(ReadAll(rank, g, m)))
  {
    ReadOrder(rank, g, m);
    forall x
      ensures x in Keys(ReadAll(rank, g, m)) <==> Reachable(g, m, x)
    {
      if x in Keys(Unfold(rank, g, m)) {
        UnfoldedIsReachable(rank, g, m, x);
      }
      if Reachable(g, m, x) {
        var p :| |p| >= 2 && p[0] == m && p[|p| - 1] == x && Path(g, p);
        ReachableIsUnfolded(rank, g, p);
      }
    }
  }

  lemma {:induction false} PathsDescend(rank: Module -> nat, g: Graph, p: seq<Module>, i: nat, j: nat)
    requires Acyclic(rank, g) && Path(g, p) && i < j < |p|
    ensures rank(p[j]) < rank(p[i])
    decreases j - i
  {
    assert Imports(g, p[j - 1], p[j]);
    if i < j - 1 {
      PathsDescend(rank, g, p, i, j - 1);
    }
  }

  // ----- the build order -----

  /** `get_all_modules`: the root, then everything it imports. */
  function AllModules(rank: Module -> nat, g: Graph, root: Module): seq<ModuleSetup>
    requires Acyclic(rank, g)
  {
    [Simple(root)] + Values(ReadAll(rank, g, root))
  }

  function ModuleNames(setups: seq<ModuleSetup>): (names: seq<Module>)
    ensures |names| == |setups| && forall i :: 0 <= i < |setups| ==> names[i] == setups[i].mod
  {
    seq(|setups|, i requires 0 <= i < |setups| => setups[i].mod)
  }

  function Reverse<T>(s: seq<T>): (r: seq<T>)
    ensures |r| == |s| && forall i :: 0 <= i < |s| ==> r[i] == s[|s| - 1 - i]
  {
    seq(|s|, i requires 0 <= i < |s| => s[|s| - 1 - i])
  }

  /** The order in which `_build_modules` takes the modules. */
  function BuildOrder(rank: Module -> nat, g: Graph, root: Module): seq<Module>
    requires Acyclic(rank, g)
  {
    ModuleNames(Reverse(AllModules(rank, g, root)))
  }

  lemma {:induction false} UnfoldNamesItself(rank: Module -> nat, g: Graph, imports: seq<Import>, top: nat)
    requires Acyclic(rank, g)
    requires forall imp :: imp in imports ==> rank(SetupOf(imp).mod) < top
    ensures forall it :: it in UnfoldList(rank, g, imports, top) ==> it.key == it.value.mod
    decreases top, |imports|
  {
    if imports != [] {
      var s := SetupOf(imports[0]);
      UnfoldNamesItself(rank, g, ModulesOf(g, s.mod), rank(s.mod));
      UnfoldNamesItself(rank, g, imports[1..], top);
    }
  }

  lemma {:induction false} PutNamesItself(d: Found, s: ModuleSetup)
    requires forall it :: it in d ==> it.key == it.value.mod
    ensures forall it :: it in Put(d, s.mod, s) ==> it.key == it.value.mod
  {
    if d != [] && d[0].key != s.mod {
      PutNamesItself(d[1..], s);
    }
  }

  lemma {:induction false} UpdateNamesItself(d: Found, items: Found)
    requires forall it :: it in d || it in items ==> it.key == it.value.mod
    ensures forall it :: it in Update(d, items) ==> it.key == it.value.mod
    decreases |items|
  {
    if items != [] {
      assert items[0] in items;
      PutNamesItself(d, items[0].value);
      UpdateNamesItself(Put(d, items[0].key, items[0].value), items[1..]);
    }
  }

  /** Read from the back, the build order is the root and then the first occurrences. */
  lemma BuildOrderIsReversedFirsts(rank: Module -> nat, g: Graph, root: Module)
    requires Acyclic(rank, g)
    ensures BuildOrder(rank, g, root) == Reverse([root] + Firsts(Keys(Unfold(rank, g, root))))
    ensures [root] + Firsts(Keys(Unfold(rank, g, root))) == Firsts([root] + Keys(Unfold(rank, g, root)))
    ensures Distinct(BuildOrder(rank, g, root))
  {
    var unfolded := Unfold(rank, g, root);
    ReadOrder(rank, g, root);
    ReadIsFilled(rank, g, root);
    UnfoldNamesItself(rank, g, ModulesOf(g, root), rank(root));
    UpdateNamesItself([], unfolded);
    var all := AllModules(rank, g, root);
    var found := ReadAll(rank, g, root);
    forall i | 0 <= i < |found|
      ensures found[i].key == found[i].value.mod
    {
      assert found[i] in found;
    }
    assert ModuleNames(all) == [root] + Keys(found);
    assert ModuleNames(Reverse(all)) == Reverse(ModuleNames(all));
    if root in Keys(unfolded) {
      UnfoldedIsReachable(rank, g, root, root);
      var p :| |p| >= 2 && p[0] == root && p[|p| - 1] == root && Path(g, p);
      PathsDescend(rank, g, p, 0, |p| - 1);
    }
    FirstsCons(root, Keys(unfolded));
  }

  lemma {:induction false} FirstsCons(x: Module, s: seq<Module>)
    requires x !in s
    ensures Firsts([x] + s) == [x] + Firsts(s)
    decreases |s|
  {
    if s == [] {
      assert [x] + s == [x];
      assert [x][..0] == [];
    } else {
      var n := |s| - 1;
      FirstsCons(x, s[..n]);
      FirstsSnoc(s[..n], s[n]);
      FirstsSnoc([x] + s[..n], s[n]);
      assert s == s[..n] + [s[n]];
      assert [x] + s == [x] + s[..n] + [s[n]];
    }
  }

  lemma FirstsSnoc(s: seq<Module>, last: Module)
    ensures Firsts(s + [last]) == Firsts(s) + if last in Firsts(s) then [] else [last]
  {
    assert (s + [last])[..|s|] == s;
  }

  /** The root is always built last. */
  lemma RootIsBuiltLast(rank: Module -> nat, g: Graph, root: Module)
    requires Acyclic(rank, g)
    ensures var order := BuildOrder(rank, g, root);
            |order| > 0 && order[|order| - 1] == root
  {
    BuildOrderIsReversedFirsts(rank, g, root);
  }

  /** Every module is built after the modules it imports. */
  ghost predicate DependenciesFirst(rank: Module -> nat, g: Graph, root: Module)
    requires Acyclic(rank, g)
  {
    var order := BuildOrder(rank, g, root);
    forall m, x :: m in order && Imports(g, m, x) ==> Before(order, x, m)
  }

  /** No module of the application is imported by two others. */
  ghost predicate SingleImporter(g: Graph, root: Module) {
    forall a, b, x :: InApp(g, root, a) && InApp(g, root, b) && Imports(g, a, x) && Imports(g, b, x) ==> a == b
  }

  ghost predicate InApp(g: Graph, root: Module, m: Module) {
    m == root || Reachable(g, root, m)
  }

  /** Some importer of what stands at `p` stands before it, or is `m`, whose imports are listed. */
  ghost predicate ImporterBefore(g: Graph, m: Module, keys: seq<Module>, p: nat)
    requires p < |keys|
  {
    Imports(g, m, keys[p]) || exists q :: 0 <= q < p && Imports(g, keys[q], keys[p])
  }

  lemma {:induction false} UnfoldedHasImporterBefore(
      rank: Module -> nat, g: Graph, m: Module, imports: seq<Import>, p: nat)
    requires Acyclic(rank, g)
    requires forall imp :: imp in imports ==> imp in ModulesOf(g, m)
    requires p < |Keys(UnfoldList(rank, g, imports, rank(m)))|
    ensures ImporterBefore(g, m, Keys(UnfoldList(rank, g, imports, rank(m))), p)
    decreases rank(m), |imports|
  {
    assert imports != [];
    UnfoldKeysStep(rank, g, imports, rank(m));
    var y := SetupOf(imports[0]).mod;
    var below, rest := Keys(Unfold(rank, g, y)), Keys(UnfoldList(rank, g, imports[1..], rank(m)));
    assert imports[0] in ModulesOf(g, m);
    if 0 < p <= |below| {
      UnfoldedHasImporterBefore(rank, g, y, ModulesOf(g, y), p - 1);
      ImporterBeforeBelow(g, m, y, below, rest, p);
    } else if |below| < p {
      UnfoldedHasImporterBefore(rank, g, m, imports[1..], p - 1 - |below|);
      ImporterBeforeLater(g, m, [y] + below, rest, p);
    }
  }

  lemma ImporterBeforeBelow(g: Graph, m: Module, y: Module, below: seq<Module>, rest: seq<Module>, p: nat)
    requires 0 < p <= |below| && ImporterBefore(g, y, below, p - 1)
    ensures ImporterBefore(g, m, [y] + below + rest, p)
  {
    var keys := [y] + below + rest;
    assert keys[0] == y && keys[p] == below[p - 1];
    if !Imports(g, y, keys[p]) {
      var q :| 0 <= q < p - 1 && Imports(g, below[q], below[p - 1]);
      assert keys[q + 1] == below[q];
    }
  }

  lemma ImporterBeforeLater(g: Graph, m: Module, front: seq<Module>, rest: seq<Module>, p: nat)
    requires |front| <= p < |front| + |rest| && ImporterBefore(g, m, rest, p - |front|)
    ensures ImporterBefore(g, m, front + rest, p)
  {
    var k := |front|;
    var keys := front + rest;
    assert keys[p] == rest[p - k];
    if !Imports(g, m, keys[p]) {
      var q :| 0 <= q < p - k && Imports(g, rest[q], rest[p - k]);
      assert keys[q + k] == rest[q];
    }
  }

  /** Where a module first occurs, an importer with no rival has occurred before. */
  lemma SoleImporterOccursBefore(rank: Module -> nat, g: Graph, root: Module, keys: seq<Module>, a: Module, x: Module)
    requires Acyclic(rank, g) && SingleImporter(g, root) && keys == Keys(Unfold(rank, g, root))
    requires InApp(g, root, a) && Imports(g, a, x) && x in keys && x != root
    ensures a in ([root] + keys)[..IndexOf([root] + keys, x)]
  {
    var all := [root] + keys;
    var p := IndexOf(all, x);
    assert p > 0 && keys[p - 1] == x;
    UnfoldedHasImporterBefore(rank, g, root, ModulesOf(g, root), p - 1);
    var q := ImporterPosition(rank, g, root, keys, p - 1);
    assert all[q] == a;
    assert all[..p][q] == a;
  }

  /** In the list of all modules, read from the root, an importer with no rival comes first. */
  lemma SoleImporterComesFirst(rank: Module -> nat, g: Graph, root: Module, keys: seq<Module>, a: Module, x: Module)
    requires Acyclic(rank, g) && SingleImporter(g, root) && keys == Keys(Unfold(rank, g, root))
    requires InApp(g, root, a) && Imports(g, a, x)
    ensures Before(Firsts([root] + keys), a, x)
  {
    ImportedIsInApp(g, root, a, x);
    XIsListed(rank, g, root, x);
    SoleImporterOccursBefore(rank, g, root, keys, a, x);
    FirstsKeepOrder([root] + keys, IndexOf([root] + keys, x), a);
  }

  /** A module reachable from the root is in the unfolding and is not the root. */
  lemma XIsListed(rank: Module -> nat, g: Graph, root: Module, x: Module)
    requires Acyclic(rank, g) && Reachable(g, root, x)
    ensures x in Keys(Unfold(rank, g, root)) && x != root
  {
    var path :| |path| >= 2 && path[0] == root && path[|path| - 1] == x && Path(g, path);
    ReachableIsUnfolded(rank, g, path);
    PathsDescend(rank, g, path, 0, |path| - 1);
  }

  lemma ImporterPosition(rank: Module -> nat, g: Graph, root: Module, keys: seq<Module>, p: nat) returns (q: nat)
    requires Acyclic(rank, g) && keys == Keys(Unfold(rank, g, root))
    requires p < |keys| && ImporterBefore(g, root, keys, p)
    ensures q <= p && Imports(g, ([root] + keys)[q], keys[p]) && InApp(g, root, ([root] + keys)[q])
  {
    if Imports(g, root, keys[p]) {
      q := 0;
    } else {
      var i :| 0 <= i < p && Imports(g, keys[i], keys[p]);
      q := i + 1;
      UnfoldedIsReachable(rank, g, root, keys[i]);
    }
  }

  lemma ImportedIsInApp(g: Graph, root: Module, a: Module, x: Module)
    requires InApp(g, root, a) && Imports(g, a, x)
    ensures Reachable(g, root, x)
  {
    if a == root {
      assert Path(g, [root, x]);
    } else {
      var p :| |p| >= 2 && p[0] == root && p[|p| - 1] == a && Path(g, p);
      PathSnoc(g, p, x);
    }
  }

  lemma PathSnoc(g: Graph, p: seq<Module>, x: Module)
    requires |p| >= 1 && Path(g, p) && Imports(g, p[|p| - 1], x)
    ensures Path(g, p + [x])
  {
    var q := p + [x];
    forall i | 0 <= i < |q| - 1
      ensures Imports(g, q[i], q[i + 1])
    {
      if i < |p| - 1 {
        assert q[i] == p[i] && q[i + 1] == p[i + 1];
      }
    }
  }

  function IndexOf(s: seq<Module>, x: Module): (p: nat)
    requires x in s
    ensures p < |s| && s[p] == x && x !in s[..p]
  {
    if s[0] == x then 0 else 1 + IndexOf(s[1..], x)
  }

  /** With single importers, every module is built after everything it imports. */
  lemma SingleImportersBuildInOrder(rank: Module -> nat, g: Graph, root: Module)
    requires Acyclic(rank, g) && SingleImporter(g, root)
    ensures DependenciesFirst(rank, g, root)
  {
    var order := BuildOrder(rank, g, root);
    BuildOrderIsReversedFirsts(rank, g, root);
    var firsts := Firsts([root] + Keys(Unfold(rank, g, root)));
    forall m, x | m in order && Imports(g, m, x)
      ensures Before(order, x, m)
    {
      assert m in [root] + Keys(Unfold(rank, g, root));
      if m != root {
        UnfoldedIsReachable(rank, g, root, m);
      }
      SoleImporterComesFirst(rank, g, root, Keys(Unfold(rank, g, root)), m, x);
      BeforeReversed(firsts, m, x);
    }
  }

  lemma BeforeReversed<T>(s: seq<T>, a: T, b: T)
    requires Before(s, a, b)
    ensures Before(Reverse(s), b, a)
  {
    var i, j :| 0 <= i < j < |s| && s[i] == a && s[j] == b;
    assert Reverse(s)[|s| - 1 - j] == b && Reverse(s)[|s| - 1 - i] == a;
  }
}
