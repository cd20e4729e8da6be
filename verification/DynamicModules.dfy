/** What a dynamic module does to the metadata of the module it configures. */
module DynamicModules {
  import opened ReflectSpec
  import opened ReflectRuns
  import opened ReflectRefinement
  import opened ReflectHistory
  import opened ReflectStore

  const CONTROLLERS: Key := 0
  const ROUTERS: Key := 1
  const PROVIDERS: Key := 2

  /** The entry is written over when there is something to write, and otherwise left alone. */
  function Replaced(view: View, t: Target, k: Key, items: seq<int>): View {
    if items == [] then view else SetIn(DropIn(view, t, k), t, k, Collection(ListOf(items)))
  }

  function Configured(view: View, t: Target, controllers: seq<int>, routers: seq<int>, providers: seq<int>): View {
    Replaced(Replaced(Replaced(view, t, CONTROLLERS, controllers), t, ROUTERS, routers), t, PROVIDERS, providers)
  }

  lemma ReplacedReads(view: View, t: Target, k: Key, items: seq<int>, t': Target, k': Key)
    ensures SeenAt(Replaced(view, t, k, items), t', k') ==
            if t' == t && k' == k && items != [] then Collection(ListOf(items)) else SeenAt(view, t', k')
  {
    if items != [] {
      DropInOwn(view, t, k, t', k');
      DropInOwn(view, t, k, t, k);
      SetInOwn(DropIn(view, t, k), SetEntry(t, k, Collection(ListOf(items))), t', k');
    }
  }

  /** A list given replaces what the module had instead of joining it; an empty one leaves it; nothing else changes. */
  lemma ConfigurationReplaces(
      view: View, t: Target, controllers: seq<int>, routers: seq<int>, providers: seq<int>, t': Target, k: Key)
    ensures SeenAt(Configured(view, t, controllers, routers, providers), t', k) ==
            if t' == t && k == CONTROLLERS && controllers != [] then Collection(ListOf(controllers))
            else if t' == t && k == ROUTERS && routers != [] then Collection(ListOf(routers))
            else if t' == t && k == PROVIDERS && providers != [] then Collection(ListOf(providers))
            else SeenAt(view, t', k)
  {
    var one := Replaced(view, t, CONTROLLERS, controllers);
    ReplacedReads(view, t, CONTROLLERS, controllers, t', k);
    ReplacedReads(one, t, ROUTERS, routers, t', k);
    ReplacedReads(Replaced(one, t, ROUTERS, routers), t, PROVIDERS, providers, t', k);
  }

  lemma DeleteShows(s: State, t: Target, k: Key, stack: Stack)
    requires WellFormed(s) && Shows(s, stack)
    ensures Shows(Next(s, Delete(t, k)), Stack(DropIn(stack.top, t, k), stack.below))
    ensures ValueAt(Next(s, Delete(t, k)), t, k) == NoneValue
  {
    DeletionRefines(s, t, k, stack);
  }

  lemma NewShows(s: State, c: Content, stack: Stack, t: Target, k: Key)
    requires WellFormed(s) && Shows(s, stack)
    ensures Shows(Next(s, NewObject(c)), stack) && ValueAt(Next(s, NewObject(c)), t, k) == ValueAt(s, t, k)
    ensures s.next in Next(s, NewObject(c)).objects && Next(s, NewObject(c)).objects[s.next] == c
  {
    NewObjectRefines(s, c, stack);
  }

  lemma DefineShows(s: State, t: Target, k: Key, r: Ref, stack: Stack)
    requires WellFormed(s) && Shows(s, stack) && ValueAt(s, t, k) == NoneValue && r in s.objects
    ensures Legal(s, Define(t, k, Obj(r)))
    ensures Shows(Next(s, Define(t, k, Obj(r))), Stack(SetIn(stack.top, t, k, Collection(s.objects[r])), stack.below))
  {
    ReplacingDefinitionRefines(s, t, k, Obj(r), stack);
  }

  class DynamicModule {
    const mod: Target
    const controllers: seq<int>
    const routers: seq<int>
    const providers: seq<int>
    var isConfigured: bool

    constructor (mod: Target, controllers: seq<int>, routers: seq<int>, providers: seq<int>)
      ensures this.mod == mod && this.controllers == controllers && this.routers == routers &&
              this.providers == providers
      ensures !isConfigured
    {
      this.mod, this.controllers, this.routers, this.providers := mod, controllers, routers, providers;
      isConfigured := false;
    }

    /** One key: the old value is deleted first, so that the new list is not joined to it. */
    method Replace(store: Reflect, k: Key, items: seq<int>, ghost stack: Stack)
      requires store.Valid() && Shows(store.Heap(), stack)
      modifies store
      ensures store.Valid() && Shows(store.Heap(), Stack(Replaced(stack.top, mod, k, items), stack.below))
    {
      if items == [] {
        return;
      }
      ghost var dropped := Stack(DropIn(stack.top, mod, k), stack.below);
      DeleteShows(store.Heap(), mod, k, stack);
      store.DeleteMetadata(k, mod);
      NewShows(store.Heap(), ListOf(items), dropped, mod, k);
      ghost var before := store.Heap();
      var list := store.NewCollection(ListOf(items));
      assert store.Heap() == Next(before, NewObject(ListOf(items)));
      DefineShows(store.Heap(), mod, k, list, dropped);
      store.DefineMetadata(k, Obj(list), mod);
    }

    /** `apply_configuration`: once only. */
    method ApplyConfiguration(store: Reflect, ghost stack: Stack)
      requires store.Valid() && Shows(store.Heap(), stack)
      modifies this, store
      ensures store.Valid() && isConfigured
      ensures Shows(store.Heap(),
                    if old(isConfigured) then stack
                    else Stack(Configured(stack.top, mod, controllers, routers, providers), stack.below))
    {
      if isConfigured {
        return;
      }
      ghost var one := Replaced(stack.top, mod, CONTROLLERS, controllers);
      ghost var two := Replaced(one, mod, ROUTERS, routers);
      Replace(store, CONTROLLERS, controllers, stack);
      Replace(store, ROUTERS, routers, Stack(one, stack.below));
      Replace(store, PROVIDERS, providers, Stack(two, stack.below));
      isConfigured := true;
    }
  }
}
