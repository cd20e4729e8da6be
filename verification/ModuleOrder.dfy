/**
 When the build order depends on how import lists are written: with two
 importers of one module, some listing builds an importer too early.
 */
module ModuleOrder {
  import opened OrderedDicts
  import opened ModuleGraph

  /** The same modules importing the same entries, listed in another order. */
  ghost predicate Relisted(g: Graph, g': Graph) {
    g.Keys == g'.Keys && forall m :: m in g ==> multiset(g'[m]) == multiset(g[m])
  }

  lemma RelistedImports(g: Graph, g': Graph)
    requires Relisted(g, g')
    ensures forall m, imp :: imp in ModulesOf(g', m) <==> imp in ModulesOf(g, m)
    ensures forall m, x :: Imports(g', m, x) <==> Imports(g, m, x)
  {
    forall m, imp
      ensures imp in ModulesOf(g', m) <==> imp in ModulesOf(g, m)
    {
      if m in g {
        assert imp in g'[m] <==> imp in multiset(g'[m]);
        assert imp in g[m] <==> imp in multiset(g[m]);
      }
    }
  }

  lemma RelistedSingleImporter(g: Graph, g': Graph, root: Module)
    requires Relisted(g, g')
    ensures forall p :: Path(g', p) <==> Path(g, p)
    ensures SingleImporter(g', root) <==> SingleImporter(g, root)
  {
    RelistedImports(g, g');
    assert forall m :: InApp(g', root, m) <==> InApp(g, root, m);
  }

  // ----- listing a path first -----

  /** The list with its first import of `x` moved to the front. */
  function MoveFront(imports: seq<Import>, x: Module): (r: seq<Import>)
    requires exists imp :: imp in imports && SetupOf(imp).mod == x
    ensures |r| == |imports| && r != [] && SetupOf(r[0]).mod == x
    ensures multiset(r) == multiset(imports)
  {
    if SetupOf(imports[0]).mod == x then imports
    else
      var rest := MoveFront(imports[1..], x);
      assert imports == [imports[0]] + imports[1..];
      assert rest == [rest[0]] + rest[1..];
      [rest[0], imports[0]] + rest[1..]
  }

  /** Along a path, every module lists its successor first. */
  function Follow(g: Graph, path: seq<Module>): (g': Graph)
    requires Path(g, path)
    ensures Relisted(g, g')
    decreases |path|
  {
    if |path| < 2 then g
    else
      assert Imports(g, path[0], path[1]);
      TailIsPath(g, path);
      var g' := Follow(g, path[1..]);
      RelistedImports(g, g');
      assert Imports(g', path[0], path[1]);
      g'[path[0] := MoveFront(g'[path[0]], path[1])]
  }

  lemma TailIsPath(g: Graph, path: seq<Module>)
    requires Path(g, path) && |path| >= 1
    ensures Path(g, path[1..])
  {
  }

  ghost predicate ListsPathFirst(g: Graph, path: seq<Module>) {
    forall i :: 0 <= i < |path| - 1 ==>
      ModulesOf(g, path[i]) != [] && SetupOf(ModulesOf(g, path[i])[0]).mod == path[i + 1]
  }

  lemma {:induction false} FollowListsPathFirst(rank: Module -> nat, g: Graph, path: seq<Module>)
    requires Acyclic(rank, g) && Path(g, path)
    ensures ListsPathFirst(Follow(g, path), path)
    decreases |path|
  {
    if |path| >= 2 {
      TailIsPath(g, path);
      FollowListsPathFirst(rank, g, path[1..]);
      var g1, g' := Follow(g, path[1..]), Follow(g, path);
      forall i | 0 <= i < |path| - 1
        ensures ModulesOf(g', path[i]) != [] && SetupOf(ModulesOf(g', path[i])[0]).mod == path[i + 1]
      {
        if i > 0 {
          PathsDescend(rank, g, path, 0, i);
          assert path[1..][i - 1] == path[i] && path[1..][i] == path[i + 1];
          assert ModulesOf(g', path[i]) == ModulesOf(g1, path[i]);
        }
      }
    }
  }

  /** A path whose steps are listed first is how the unfolding begins. */
  lemma {:induction false} UnfoldingBeginsWithPath(rank: Module -> nat, g: Graph, path: seq<Module>)
    requires Acyclic(rank, g) && ListsPathFirst(g, path) && |path| >= 1
    ensures path <= [path[0]] + Keys(Unfold(rank, g, path[0]))
    decreases |path|
  {
    if |path| >= 2 {
      var imports := ModulesOf(g, path[0]);
      UnfoldKeysStep(rank, g, imports, rank(path[0]));
      assert forall i :: 0 <= i < |path[1..]| - 1 ==> path[1..][i] == path[i + 1];
      UnfoldingBeginsWithPath(rank, g, path[1..]);
      assert path == [path[0]] + path[1..];
    }
  }

  lemma RelistedAcyclic(rank: Module -> nat, g: Graph, g': Graph)
    requires Acyclic(rank, g) && Relisted(g, g')
    ensures Acyclic(rank, g')
  {
    RelistedImports(g, g');
  }

  /**
   A module `x` at the end of a path that avoids one of its importers `a`: listing
   the path first has `a` built before `x`.
   */
  lemma PathAroundImporter(rank: Module -> nat, g: Graph, path: seq<Module>, a: Module)
    requires Acyclic(rank, g) && Path(g, path) && |path| >= 2
    requires InApp(g, path[0], a) && Imports(g, a, path[|path| - 1]) && a !in path
    ensures var g' := Follow(g, path);
            Acyclic(rank, g') && !DependenciesFirst(rank, g', path[0])
  {
    var g' := Follow(g, path);
    var root, x := path[0], path[|path| - 1];
    RelistedAcyclic(rank, g, g');
    RelistedImports(g, g');
    RelistedSingleImporter(g, g', root);
    FollowListsPathFirst(rank, g, path);
    UnfoldingBeginsWithPath(rank, g', path);
    assert Reachable(g', root, a) || a == root;
    TooEarlyWhenListedFirst(rank, g', path, a);
  }

  lemma TooEarlyWhenListedFirst(rank: Module -> nat, g: Graph, path: seq<Module>, a: Module)
    requires Acyclic(rank, g) && |path| >= 2 && path <= [path[0]] + Keys(Unfold(rank, g, path[0]))
    requires Reachable(g, path[0], a) || a == path[0]
    requires Imports(g, a, path[|path| - 1]) && a !in path
    ensures !DependenciesFirst(rank, g, path[0])
  {
    var root, x := path[0], path[|path| - 1];
    var all := [root] + Keys(Unfold(rank, g, root));
    XIsListed(rank, g, root, a);
    var p := IndexOf(all, a);
    assert forall k :: 0 <= k < |path| ==> all[k] == path[k] && path[k] in path;
    assert all[..p][|path| - 1] == x;
    FirstsKeepOrder(all, p, x);
    BuildOrderIsReversedFirsts(rank, g, root);
    BeforeReversed(Firsts(all), x, a);
    NotAlsoBefore(rank, g, root, a, x);
  }

  lemma NotAlsoBefore(rank: Module -> nat, g: Graph, root: Module, a: Module, x: Module)
    requires Acyclic(rank, g) && Imports(g, a, x) && Before(BuildOrder(rank, g, root), a, x)
    ensures !DependenciesFirst(rank, g, root)
  {
    BuildOrderIsReversedFirsts(rank, g, root);
    BeforeIsAsymmetric(BuildOrder(rank, g, root), a, x);
  }

  /** Of two importers of one module, some path to the module avoids one. */
  lemma PathAvoidingAnImporter(rank: Module -> nat, g: Graph, root: Module, a: Module, b: Module, x: Module)
    returns (path: seq<Module>, avoided: Module)
    requires Acyclic(rank, g) && InApp(g, root, a) && InApp(g, root, b) && a != b
    requires Imports(g, a, x) && Imports(g, b, x)
    ensures Path(g, path) && |path| >= 2 && path[0] == root && path[|path| - 1] == x
    ensures avoided !in path && avoided in {a, b}
  {
    var toA := [root];
    if a != root {
      toA :| |toA| >= 2 && toA[0] == root && toA[|toA| - 1] == a && Path(g, toA);
    }
    if b in toA {
      var i :| 0 <= i < |toA| && toA[i] == b;
      var toB := toA[..i + 1];
      assert Path(g, toB);
      path, avoided := toB + [x], a;
      PathSnoc(g, toB, x);
      PathsDescend(rank, g, toA, i, |toA| - 1);
      AvoidsLater(rank, g, toA, i);
    } else {
      path, avoided := toA + [x], b;
      PathSnoc(g, toA, x);
    }
    ImportIsSmaller(rank, g, avoided, x);
  }

  lemma AvoidsLater(rank: Module -> nat, g: Graph, path: seq<Module>, i: nat)
    requires Acyclic(rank, g) && Path(g, path) && i < |path| - 1
    ensures path[|path| - 1] !in path[..i + 1]
  {
    forall k | 0 <= k <= i
      ensures path[k] != path[|path| - 1]
    {
      PathsDescend(rank, g, path, k, |path| - 1);
    }
  }

  lemma ImportIsSmaller(rank: Module -> nat, g: Graph, m: Module, x: Module)
    requires Acyclic(rank, g) && Imports(g, m, x)
    ensures rank(x) < rank(m)
  {
  }

  /**
   However the import lists are written, every module is built after its
   imports, exactly when no module has two importers.
   */
  lemma OrderIsRightForEveryListingIffSingleImporter(rank: Module -> nat, g: Graph, root: Module)
    requires Acyclic(rank, g)
    ensures SingleImporter(g, root) <==>
            forall g' :: Relisted(g, g') ==> Acyclic(rank, g') && DependenciesFirst(rank, g', root)
  {
    if SingleImporter(g, root) {
      forall g' | Relisted(g, g')
        ensures Acyclic(rank, g') && DependenciesFirst(rank, g', root)
      {
        RelistedAcyclic(rank, g, g');
        RelistedSingleImporter(g, g', root);
        SingleImportersBuildInOrder(rank, g', root);
      }
    } else {
      var a, b, x :| InApp(g, root, a) && InApp(g, root, b) && Imports(g, a, x) && Imports(g, b, x) && a != b;
      var path, avoided := PathAvoidingAnImporter(rank, g, root, a, b, x);
      PathAroundImporter(rank, g, path, avoided);
      assert Relisted(g, Follow(g, path));
    }
  }

  // ----- the smallest case -----

  /** The root lists a module before another module that imports it. */
  const DIAMOND: Graph := map[0 := [Plain(1), Plain(2)], 2 := [Plain(1)]]

  function DiamondRank(m: Module): nat {
    if m == 0 then 2 else if m == 2 then 1 else 0
  }

  lemma DiamondIsAcyclic()
    ensures Acyclic(DiamondRank, DIAMOND)
    ensures ModulesOf(DIAMOND, 0) == [Plain(1), Plain(2)] && ModulesOf(DIAMOND, 1) == [] &&
            ModulesOf(DIAMOND, 2) == [Plain(1)]
  {
  }

  lemma DiamondUnfolds()
    ensures Acyclic(DiamondRank, DIAMOND)
    ensures Keys(Unfold(DiamondRank, DIAMOND, 0)) == [1, 2, 1]
  {
    DiamondIsAcyclic();
    DiamondUnfoldsTwo();
    DiamondUnfoldsLast();
    UnfoldKeysStep(DiamondRank, DIAMOND, [Plain(1), Plain(2)], 2);
    assert [Plain(1), Plain(2)][1..] == [Plain(2)];
    assert Unfold(DiamondRank, DIAMOND, 1) == [];
  }

  lemma DiamondUnfoldsLast()
    ensures Acyclic(DiamondRank, DIAMOND)
    ensures Keys(UnfoldList(DiamondRank, DIAMOND, [Plain(2)], 2)) == [2, 1]
  {
    DiamondIsAcyclic();
    DiamondUnfoldsTwo();
    UnfoldKeysStep(DiamondRank, DIAMOND, [Plain(2)], 2);
    assert [Plain(2)][1..] == [];
  }

  lemma DiamondUnfoldsTwo()
    ensures Acyclic(DiamondRank, DIAMOND)
    ensures Keys(Unfold(DiamondRank, DIAMOND, 2)) == [1]
  {
    assert Unfold(DiamondRank, DIAMOND, 1) == [];
    UnfoldKeysStep(DiamondRank, DIAMOND, [Plain(1)], 1);
    assert [Plain(1)][1..] == [];
  }

  lemma DiamondFirsts()
    ensures Firsts([1, 2, 1]) == [1, 2]
  {
    assert [1, 2, 1][..2] == [1, 2] && [1, 2][..1] == [1] && [1][..0] == [];
    assert Firsts([1]) == [1] && Firsts([1, 2]) == [1, 2];
  }

  /** Module 2 is built before module 1, which it imports. */
  lemma DiamondBuildsTooEarly()
    ensures Acyclic(DiamondRank, DIAMOND) && Imports(DIAMOND, 2, 1)
    ensures BuildOrder(DiamondRank, DIAMOND, 0) == [2, 1, 0]
  {
    DiamondUnfolds();
    DiamondFirsts();
    BuildOrderIsReversedFirsts(DiamondRank, DIAMOND, 0);
    assert Plain(1) in ModulesOf(DIAMOND, 2) && SetupOf(Plain(1)).mod == 1;
    assert Reverse([0] + [1, 2]) == [2, 1, 0];
  }
}
