/** How a tree of mounted routes picks the route that handles a request. */
module ModuleMount {
  import opened Prelude
  import opened Versioning

  datatype Match = NoMatch | Partial | Full

  /** A route operation answers for versions; a foreign route (a plain Starlette one) does not. */
  datatype Node =
    | HttpOperation(id: int, versions: set<string>)
    | WebsocketOperation(id: int, versions: set<string>)
    | Foreign(id: int)
    | Mounted(id: int, children: seq<Node>)

  /** What the scope holds: texts put there by matching, and the child a mount has found. */
  datatype Entry = Text(name: string) | FoundIn(mount: int)
  datatype Held = Is(text: string) | Child(index: nat)

  type Scope = map<Entry, Held>

  /** Starlette's own matching of one route's path and method, and the version the request asks for. */
  datatype Request = Request(
    base: (int, Scope) -> (Match, map<string, string>),
    version: string,
    defaultVersion: Option<string>)

  datatype Verdict = Verdict(outcome: Match, child: Scope)

  const NO_MATCH := Verdict(NoMatch, map[])

  function Texts(updates: map<string, string>): Scope {
    map e | e in set n | n in updates :: Text(n) :: Is(updates[e.name])
  }

  function Own(req: Request, node: Node, scope: Scope): Verdict {
    var (m, updates) := req.base(node.id, scope);
    Verdict(m, Texts(updates))
  }

  function VersionOk(req: Request, node: Node): bool
    requires node.HttpOperation? || node.WebsocketOperation?
  {
    Accepts(req.version, req.defaultVersion, node.versions)
  }

  // ----- matching -----

  function Matches(req: Request, node: Node, scope: Scope): Verdict
    decreases node, 1, 0
  {
    var own := Own(req, node, scope);
    match node
    case Foreign(id) => own
    case HttpOperation(id, versions) => if own.outcome == Full && !VersionOk(req, node) then NO_MATCH else own
    case WebsocketOperation(id, versions) => if own.outcome == Full && !VersionOk(req, node) then NO_MATCH else own
    case Mounted(id, children) =>
      if own.outcome == Full then Search(req, node, scope + own.child, own.child, 0, None) else NO_MATCH
  }

  /** The loop over the children from the `i`-th on, with the partial match remembered so far. */
  function Search(req: Request, node: Node, inner: Scope, child: Scope, i: nat, partial: Option<(nat, Scope)>): Verdict
    requires node.Mounted? && i <= |node.children|
    decreases node, 0, |node.children| - i
  {
    if i == |node.children| then
      match partial
      case None => NO_MATCH
      case Some((k, scope)) => Verdict(Partial, scope[FoundIn(node.id) := Child(k)])
    else
      var r := Matches(req, node.children[i], inner);
      if r.outcome == Full then Verdict(Full, (child + r.child)[FoundIn(node.id) := Child(i)])
      else Search(req, node, inner, child, i + 1, NextPartial(node.children[i], r, child, i, partial))
  }

  /** Only the first HTTP operation that matches partially is remembered. */
  function NextPartial(
      route: Node, r: Verdict, child: Scope, i: nat, partial: Option<(nat, Scope)>): Option<(nat, Scope)> {
    if r.outcome == Partial && partial.None? && route.HttpOperation? then Some((i, child + r.child)) else partial
  }

  /** `ModuleMount.matches` as written. */
  method MountMatches(req: Request, node: Node, scope: Scope) returns (r: Verdict)
    requires node.Mounted?
    ensures r == Matches(req, node, scope)
    decreases node, 1
  {
    var own := Own(req, node, scope);
    if own.outcome == Full {
      var childScope := own.child;
      var scopeCopy := scope + childScope;
      var partial: Option<nat> := None;
      var partialScope: Scope := map[];
      var i := 0;
      while i < |node.children|
        invariant 0 <= i <= |node.children|
        invariant Matches(req, node, scope) ==
                  Search(req, node, scopeCopy, childScope, i,
                         if partial.Some? then Some((partial.value, partialScope)) else None)
      {
        var route := node.children[i];
        var found := RouteMatches(req, route, scopeCopy);
        if found.outcome == Full {
          childScope := childScope + found.child;
          childScope := childScope[FoundIn(node.id) := Child(i)];
          return Verdict(Full, childScope);
        } else if found.outcome == Partial && partial.None? && route.HttpOperation? {
          partial := Some(i);
          partialScope := childScope;
          partialScope := partialScope + found.child;
        }
        i := i + 1;
      }
      if partial.Some? {
        partialScope := partialScope[FoundIn(node.id) := Child(partial.value)];
        return Verdict(Partial, partialScope);
      }
    }
    return NO_MATCH;
  }

  method RouteMatches(req: Request, node: Node, scope: Scope) returns (r: Verdict)
    ensures r == Matches(req, node, scope)
    decreases node, 2
  {
    match node
    case Mounted(id, children) => r := MountMatches(req, node, scope);
    case Foreign(id) => r := Own(req, node, scope);
    case HttpOperation(id, versions) =>
      r := Own(req, node, scope);
      if r.outcome == Full && !VersionOk(req, node) {
        r := NO_MATCH;
      }
    case WebsocketOperation(id, versions) =>
      r := Own(req, node, scope);
      if r.outcome == Full && !VersionOk(req, node) {
        r := NO_MATCH;
      }
  }

  // ----- one path through the tree -----

  /** Following the given children leads to a route that matches, looking at nothing off the path. */
  predicate AcceptsAlong(req: Request, node: Node, scope: Scope, path: seq<nat>)
    decreases node
  {
    var own := Own(req, node, scope);
    && own.outcome == Full
    && match node
       case Mounted(id, children) =>
         path != [] && path[0] < |children| && AcceptsAlong(req, children[path[0]], scope + own.child, path[1..])
       case Foreign(id) => path == []
       case HttpOperation(id, versions) => path == [] && VersionOk(req, node)
       case WebsocketOperation(id, versions) => path == [] && VersionOk(req, node)
  }

  /** What the routes on the path alone put into the scope. */
  function ScopeAlong(req: Request, node: Node, scope: Scope, path: seq<nat>): Scope
    requires AcceptsAlong(req, node, scope, path)
    decreases node
  {
    var own := Own(req, node, scope);
    if node.Mounted? then
      var below := ScopeAlong(req, node.children[path[0]], scope + own.child, path[1..]);
      (own.child + below)[FoundIn(node.id) := Child(path[0])]
    else own.child
  }

  /** Which of two paths comes first in the order in which children are served. */
  predicate NotAfter(a: seq<nat>, b: seq<nat>) {
    a == [] || (b != [] && (a[0] < b[0] || (a[0] == b[0] && NotAfter(a[1..], b[1..]))))
  }

  /** The first accepted path at or below the `i`-th child. */
  ghost predicate FirstAccepted(req: Request, node: Node, scope: Scope, path: seq<nat>) {
    && AcceptsAlong(req, node, scope, path)
    && forall other :: AcceptsAlong(req, node, scope, other) ==> NotAfter(path, other)
  }

  ghost predicate NoneAccepted(req: Request, node: Node, scope: Scope) {
    forall path :: !AcceptsAlong(req, node, scope, path)
  }

  /** The verdict is a full match exactly when some path is accepted, and then shows the first one and only it. */
  ghost predicate TakesFirst(req: Request, node: Node, scope: Scope, r: Verdict) {
    if NoneAccepted(req, node, scope) then r.outcome != Full
    else
      && r.outcome == Full
      && exists path :: FirstAccepted(req, node, scope, path) && r.child == ScopeAlong(req, node, scope, path)
  }

  /** A tree matches fully exactly when some path is accepted; the first one is taken, and only it is in the scope. */
  lemma {:induction false} FirstAcceptedPathIsTaken(req: Request, node: Node, scope: Scope)
    ensures TakesFirst(req, node, scope, Matches(req, node, scope))
    decreases node, 1, 0
  {
    var own := Own(req, node, scope);
    if own.outcome == Full {
      if node.Mounted? {
        FirstAcceptedBelow(req, node, scope, own, 0, None);
      } else if !NoneAccepted(req, node, scope) {
        var path :| AcceptsAlong(req, node, scope, path);
        assert path == [];
        assert FirstAccepted(req, node, scope, []);
      } else {
        assert !AcceptsAlong(req, node, scope, []);
      }
    }
  }

  lemma {:induction false} FirstAcceptedBelow(
      req: Request, node: Node, scope: Scope, own: Verdict, i: nat, partial: Option<(nat, Scope)>)
    requires node.Mounted? && i <= |node.children| && own == Own(req, node, scope) && own.outcome == Full
    requires forall path :: AcceptsAlong(req, node, scope, path) ==> path[0] >= i
    ensures TakesFirst(req, node, scope, Search(req, node, scope + own.child, own.child, i, partial))
    decreases node, 0, |node.children| - i
  {
    if i < |node.children| {
      var c, inner := node.children[i], scope + own.child;
      FirstAcceptedPathIsTaken(req, c, inner);
      if NoneAccepted(req, c, inner) {
        NothingAtChild(req, node, scope, i);
        FirstAcceptedBelow(req, node, scope, own, i + 1, NextPartial(c, Matches(req, c, inner), own.child, i, partial));
      } else {
        FoundAtChild(req, node, scope, own, i, partial);
      }
    } else {
      NothingLeft(req, node, scope, own, partial);
    }
  }

  lemma NothingLeft(req: Request, node: Node, scope: Scope, own: Verdict, partial: Option<(nat, Scope)>)
    requires node.Mounted? && own == Own(req, node, scope) && own.outcome == Full
    requires forall path :: AcceptsAlong(req, node, scope, path) ==> path[0] >= |node.children|
    ensures TakesFirst(req, node, scope, Search(req, node, scope + own.child, own.child, |node.children|, partial))
  {
    assert NoneAccepted(req, node, scope);
  }

  lemma FoundAtChild(req: Request, node: Node, scope: Scope, own: Verdict, i: nat, partial: Option<(nat, Scope)>)
    requires node.Mounted? && i < |node.children| && own == Own(req, node, scope) && own.outcome == Full
    requires forall path :: AcceptsAlong(req, node, scope, path) ==> path[0] >= i
    requires TakesFirst(req, node.children[i], scope + own.child, Matches(req, node.children[i], scope + own.child))
    requires !NoneAccepted(req, node.children[i], scope + own.child)
    ensures TakesFirst(req, node, scope, Search(req, node, scope + own.child, own.child, i, partial))
  {
    var c, inner := node.children[i], scope + own.child;
    var tail :| FirstAccepted(req, c, inner, tail) && Matches(req, c, inner).child == ScopeAlong(req, c, inner, tail);
    FirstThroughChild(req, node, scope, i, tail);
    SearchStops(req, node, scope, own, i, partial);
    FirstIsTaken(req, node, scope, [i] + tail, Search(req, node, inner, own.child, i, partial));
  }

  lemma SearchStops(req: Request, node: Node, scope: Scope, own: Verdict, i: nat, partial: Option<(nat, Scope)>)
    requires node.Mounted? && i < |node.children|
    requires Matches(req, node.children[i], scope + own.child).outcome == Full
    ensures Search(req, node, scope + own.child, own.child, i, partial) ==
            Verdict(Full,
              (own.child + Matches(req, node.children[i], scope + own.child).child)[FoundIn(node.id) := Child(i)])
  {
  }

  lemma FirstIsTaken(req: Request, node: Node, scope: Scope, path: seq<nat>, r: Verdict)
    requires FirstAccepted(req, node, scope, path) && r == Verdict(Full, ScopeAlong(req, node, scope, path))
    ensures TakesFirst(req, node, scope, r)
  {
  }

  lemma NothingAtChild(req: Request, node: Node, scope: Scope, i: nat)
    requires node.Mounted? && i < |node.children| && Own(req, node, scope).outcome == Full
    requires NoneAccepted(req, node.children[i], scope + Own(req, node, scope).child)
    requires forall path :: AcceptsAlong(req, node, scope, path) ==> path[0] >= i
    ensures forall path :: AcceptsAlong(req, node, scope, path) ==> path[0] >= i + 1
  {
    forall path | AcceptsAlong(req, node, scope, path)
      ensures path[0] >= i + 1
    {
      assert !AcceptsAlong(req, node.children[i], scope + Own(req, node, scope).child, path[1..]);
    }
  }

  lemma FirstThroughChild(req: Request, node: Node, scope: Scope, i: nat, tail: seq<nat>)
    requires node.Mounted? && i < |node.children| && Own(req, node, scope).outcome == Full
    requires FirstAccepted(req, node.children[i], scope + Own(req, node, scope).child, tail)
    requires forall path :: AcceptsAlong(req, node, scope, path) ==> path[0] >= i
    ensures FirstAccepted(req, node, scope, [i] + tail)
    ensures ScopeAlong(req, node, scope, [i] + tail) ==
            (Own(req, node, scope).child +
             ScopeAlong(req, node.children[i], scope + Own(req, node, scope).child, tail))[FoundIn(node.id) := Child(i)]
  {
    var path := [i] + tail;
    assert path[1..] == tail;
    forall other | AcceptsAlong(req, node, scope, other)
      ensures NotAfter(path, other)
    {
      if other[0] == i {
        assert AcceptsAlong(req, node.children[i], scope + Own(req, node, scope).child, other[1..]);
      }
    }
  }

  // ----- when nothing matches fully -----

  /** The first child that matches partially and may answer for it. */
  ghost predicate FirstPartial(req: Request, node: Node, scope: Scope, i: nat)
    requires node.Mounted?
  {
    && i < |node.children| && PartialAt(req, node, scope, i)
    && forall k :: 0 <= k < i ==> !PartialAt(req, node, scope, k)
  }

  /** The answer of a mount for the child at `k`: what the mount and that child put into the scope. */
  function PartialVerdict(req: Request, node: Node, scope: Scope, k: nat): Verdict
    requires node.Mounted? && k < |node.children|
  {
    var own := Own(req, node, scope);
    var below := Matches(req, node.children[k], scope + own.child).child;
    Verdict(Partial, (own.child + below)[FoundIn(node.id) := Child(k)])
  }

  predicate PartialAt(req: Request, node: Node, scope: Scope, i: nat)
    requires node.Mounted? && i < |node.children|
  {
    && node.children[i].HttpOperation?
    && Matches(req, node.children[i], scope + Own(req, node, scope).child).outcome == Partial
  }

  lemma {:induction false} PartialSearch(
      req: Request, node: Node, scope: Scope, own: Verdict, i: nat, partial: Option<(nat, Scope)>)
    requires node.Mounted? && i <= |node.children| && own == Own(req, node, scope) && own.outcome == Full
    requires NoneAccepted(req, node, scope)
    requires partial.None? ==> forall k :: 0 <= k < i ==> !PartialAt(req, node, scope, k)
    requires partial.Some? ==>
               FirstPartial(req, node, scope, partial.value.0) &&
               partial.value.1 == own.child + Matches(req, node.children[partial.value.0], scope + own.child).child
    ensures var r := Search(req, node, scope + own.child, own.child, i, partial);
            || (r == NO_MATCH && forall k :: 0 <= k < |node.children| ==> !PartialAt(req, node, scope, k))
            || exists k: nat :: FirstPartial(req, node, scope, k) &&
                 r == PartialVerdict(req, node, scope, k)
    decreases |node.children| - i
  {
    if i < |node.children| {
      var c, inner := node.children[i], scope + own.child;
      ChildNotFull(req, node, scope, i);
      PartialSearch(req, node, scope, own, i + 1, NextPartial(c, Matches(req, c, inner), own.child, i, partial));
    }
  }

  lemma ChildNotFull(req: Request, node: Node, scope: Scope, i: nat)
    requires node.Mounted? && i < |node.children| && Own(req, node, scope).outcome == Full &&
             NoneAccepted(req, node, scope)
    ensures Matches(req, node.children[i], scope + Own(req, node, scope).child).outcome != Full
  {
    var inner := scope + Own(req, node, scope).child;
    FirstAcceptedPathIsTaken(req, node.children[i], inner);
    if !NoneAccepted(req, node.children[i], inner) {
      var tail :| AcceptsAlong(req, node.children[i], inner, tail);
      AcceptedThroughChild(req, node, scope, i, tail);
    }
  }

  lemma AcceptedThroughChild(req: Request, node: Node, scope: Scope, i: nat, tail: seq<nat>)
    requires node.Mounted? && i < |node.children| && Own(req, node, scope).outcome == Full
    requires AcceptsAlong(req, node.children[i], scope + Own(req, node, scope).child, tail)
    ensures AcceptsAlong(req, node, scope, [i] + tail)
  {
    assert ([i] + tail)[1..] == tail;
  }

  /**
   With no accepted path a mount answers with its first partially matching HTTP
   operation, and otherwise not at all; nested partial matches do not count.
   */
  lemma MountFallsBackToFirstPartial(req: Request, node: Node, scope: Scope)
    requires node.Mounted? && NoneAccepted(req, node, scope)
    ensures var own, r := Own(req, node, scope), Matches(req, node, scope);
            if own.outcome == Full && exists k: nat :: FirstPartial(req, node, scope, k) then
              exists k: nat :: FirstPartial(req, node, scope, k) &&
                var below := Matches(req, node.children[k], scope + own.child).child;
                r == Verdict(Partial, (own.child + below)[FoundIn(node.id) := Child(k)])
            else r == NO_MATCH
  {
    var own := Own(req, node, scope);
    if own.outcome == Full {
      PartialSearch(req, node, scope, own, 0, None);
    }
  }

  // ----- dispatch -----

  /** Where `handle` ends: each mount takes the child it recorded, removing the record. */
  datatype Handled = Reached(path: seq<nat>, scope: Scope) | FellThrough(path: seq<nat>, scope: Scope)

  function Handle(node: Node, scope: Scope): Handled
    decreases node
  {
    if !node.Mounted? then Reached([], scope)
    else if FoundIn(node.id) in scope && scope[FoundIn(node.id)].Child? &&
            scope[FoundIn(node.id)].index < |node.children| then
      var i := scope[FoundIn(node.id)].index;
      match Handle(node.children[i], scope - {FoundIn(node.id)})
      case Reached(path, s) => Reached([i] + path, s)
      case FellThrough(path, s) => FellThrough([i] + path, s)
    else FellThrough([], scope)
  }

  /** The mounts that a path passes, by identity. */
  function MountsOn(node: Node, path: seq<nat>): seq<int>
    decreases node
  {
    if node.Mounted? && path != [] && path[0] < |node.children| then
      [node.id] + MountsOn(node.children[path[0]], path[1..])
    else []
  }

  function RecordsOf(mounts: seq<int>): set<Entry> {
    set m | m in mounts :: FoundIn(m)
  }

  ghost predicate NoRepeats(ids: seq<int>) {
    forall i, j :: 0 <= i < j < |ids| ==> ids[i] != ids[j]
  }

  lemma ScopeAlongRecordsPath(req: Request, node: Node, scope: Scope, path: seq<nat>)
    requires AcceptsAlong(req, node, scope, path)
    ensures forall m :: FoundIn(m) in ScopeAlong(req, node, scope, path) ==> m in MountsOn(node, path)
    decreases node
  {
    if node.Mounted? {
      ScopeAlongRecordsPath(req, node.children[path[0]], scope + Own(req, node, scope).child, path[1..]);
    }
  }

  /** The scope tells each mount on the path which child to take. */
  ghost predicate Records(node: Node, scope: Scope, path: seq<nat>)
    decreases node
  {
    if node.Mounted? then
      && path != [] && path[0] < |node.children|
      && FoundIn(node.id) in scope && scope[FoundIn(node.id)] == Child(path[0])
      && Records(node.children[path[0]], scope, path[1..])
    else path == []
  }

  lemma {:induction false} RecordsSurvive(node: Node, scope: Scope, scope': Scope, path: seq<nat>)
    requires Records(node, scope, path)
    requires forall m :: m in MountsOn(node, path) ==>
               FoundIn(m) in scope' && (FoundIn(m) in scope ==> scope'[FoundIn(m)] == scope[FoundIn(m)])
    ensures Records(node, scope', path)
    decreases node
  {
    if node.Mounted? {
      var mounts := MountsOn(node, path);
      assert mounts[0] == node.id;
      assert forall k :: 0 <= k < |MountsOn(node.children[path[0]], path[1..])| ==>
          mounts[k + 1] == MountsOn(node.children[path[0]], path[1..])[k];
      RecordsSurvive(node.children[path[0]], scope, scope', path[1..]);
    }
  }

  lemma {:induction false} ScopeAlongRecords(req: Request, node: Node, scope: Scope, path: seq<nat>)
    requires AcceptsAlong(req, node, scope, path) && NoRepeats(MountsOn(node, path))
    ensures Records(node, ScopeAlong(req, node, scope, path), path)
    ensures forall m :: m in MountsOn(node, path) ==> FoundIn(m) in ScopeAlong(req, node, scope, path)
    decreases node
  {
    if node.Mounted? {
      var inner, c := scope + Own(req, node, scope).child, node.children[path[0]];
      var mounts, below := MountsOn(node, path), MountsOn(c, path[1..]);
      assert forall k :: 0 <= k < |below| ==> mounts[k + 1] == below[k];
      ScopeAlongRecords(req, c, inner, path[1..]);
      assert node.id !in below by {
        assert mounts[0] == node.id;
      }
      RecordsSurvive(c, ScopeAlong(req, c, inner, path[1..]), ScopeAlong(req, node, scope, path), path[1..]);
    }
  }

  lemma {:induction false} HandleFollowsRecords(node: Node, scope: Scope, path: seq<nat>)
    requires Records(node, scope, path) && NoRepeats(MountsOn(node, path))
    ensures Handle(node, scope) == Reached(path, scope - RecordsOf(MountsOn(node, path)))
    decreases node
  {
    if node.Mounted? {
      var c := node.children[path[0]];
      var mounts, below := MountsOn(node, path), MountsOn(c, path[1..]);
      assert forall k :: 0 <= k < |below| ==> mounts[k + 1] == below[k];
      assert node.id !in below by {
        assert mounts[0] == node.id;
      }
      var scope' := scope - {FoundIn(node.id)};
      RecordedBelow(c, scope, path[1..]);
      RecordsSurvive(c, scope, scope', path[1..]);
      HandleFollowsRecords(c, scope', path[1..]);
      assert path == [path[0]] + path[1..];
      RecordsRemoved(scope, node.id, below);
    } else {
      assert scope - RecordsOf(MountsOn(node, path)) == scope;
    }
  }

  lemma RecordsRemoved(scope: Scope, mount: int, below: seq<int>)
    ensures scope - {FoundIn(mount)} - RecordsOf(below) == scope - RecordsOf([mount] + below)
  {
    assert RecordsOf([mount] + below) == {FoundIn(mount)} + RecordsOf(below);
  }

  lemma {:induction false} RecordedBelow(node: Node, scope: Scope, path: seq<nat>)
    requires Records(node, scope, path)
    ensures forall m :: m in MountsOn(node, path) ==> FoundIn(m) in scope
    decreases node
  {
    if node.Mounted? {
      RecordedBelow(node.children[path[0]], scope, path[1..]);
    }
  }

  /** Handling a fully matched request reaches exactly the chosen route and leaves no record behind. */
  lemma HandlingReachesTheChosenRoute(req: Request, node: Node, scope: Scope, path: seq<nat>)
    requires FirstAccepted(req, node, scope, path) && NoRepeats(MountsOn(node, path))
    requires forall m :: FoundIn(m) !in scope
    ensures var merged := scope + Matches(req, node, scope).child;
            Handle(node, merged).Reached? && Handle(node, merged).path == path &&
            forall m :: FoundIn(m) !in Handle(node, merged).scope
  {
    FirstAcceptedPathIsTaken(req, node, scope);
    var other :| FirstAccepted(req, node, scope, other) &&
                 Matches(req, node, scope).child == ScopeAlong(req, node, scope, other);
    NotAfterIsAntisymmetric(path, other);
    ScopeAlongRecords(req, node, scope, path);
    ScopeAlongRecordsPath(req, node, scope, path);
    var merged := scope + ScopeAlong(req, node, scope, path);
    RecordsSurvive(node, ScopeAlong(req, node, scope, path), merged, path);
    HandleFollowsRecords(node, merged, path);
  }

  lemma {:induction false} NotAfterIsAntisymmetric(a: seq<nat>, b: seq<nat>)
    requires NotAfter(a, b) && NotAfter(b, a)
    ensures a == b
    decreases |a|
  {
    if a != [] {
      NotAfterIsAntisymmetric(a[1..], b[1..]);
      assert a == [a[0]] + a[1..] && b == [b[0]] + b[1..];
    }
  }

  // ----- versions -----

  predicate IsOperation(node: Node) {
    node.HttpOperation? || node.WebsocketOperation?
  }

  /**
   A route operation takes a request that its path and method match when there is no versioning, or for one
   of its versions, or, if it has none, for the default version.
   */
  lemma OperationsTakeTheirVersions(req: Request, node: Node, scope: Scope)
    requires IsOperation(node)
    ensures Matches(req, node, scope).outcome == Full <==>
            && req.base(node.id, scope).0 == Full
            && (|| req.version == NOT_SET
                || (node.versions != {} && req.version in node.versions)
                || (node.versions == {} && req.defaultVersion.Some? && req.version == req.defaultVersion.value)
                || (node.versions == {} && req.defaultVersion.None? && req.version == "None"))
    ensures req.base(node.id, scope).0 != Full ==> Matches(req, node, scope).outcome == req.base(node.id, scope).0
  {
  }

  function NodeAt(node: Node, path: seq<nat>): Node
    decreases node
  {
    if node.Mounted? && path != [] && path[0] < |node.children| then NodeAt(node.children[path[0]], path[1..]) else node
  }

  /** Whatever tree of mounts it stands in, a route with versions is taken only for one of them. */
  lemma {:induction false} TakenRouteHasTheVersion(req: Request, node: Node, scope: Scope, path: seq<nat>)
    requires AcceptsAlong(req, node, scope, path) && req.version != NOT_SET
    requires IsOperation(NodeAt(node, path)) && NodeAt(node, path).versions != {}
    ensures req.version in NodeAt(node, path).versions
    decreases node
  {
    if node.Mounted? {
      TakenRouteHasTheVersion(req, node.children[path[0]], scope + Own(req, node, scope).child, path[1..]);
    }
  }

  // ----- what matching puts into the scope -----

  /** What the route on the path's end takes from the request, path parameters for instance, is in the scope. */
  lemma {:induction false} LeafTextsAreInScope(req: Request, node: Node, scope: Scope, path: seq<nat>)
    returns (inner: Scope)
    requires AcceptsAlong(req, node, scope, path)
    ensures var (m, updates) := req.base(NodeAt(node, path).id, inner);
            m == Full && forall n :: n in updates ==>
              && Text(n) in ScopeAlong(req, node, scope, path)
              && ScopeAlong(req, node, scope, path)[Text(n)] == Is(updates[n])
    decreases node
  {
    if node.Mounted? {
      inner := LeafTextsAreInScope(req, node.children[path[0]], scope + Own(req, node, scope).child, path[1..]);
    } else {
      inner := scope;
    }
  }

  /** A mount's own texts are there for the routes below it, and stay unless one of these sets them anew. */
  lemma MountTextsReachTheChildren(req: Request, node: Node, scope: Scope, n: string)
    requires node.Mounted? && req.base(node.id, scope).0 == Full && n in req.base(node.id, scope).1
    ensures var inner := scope + Own(req, node, scope).child;
            Text(n) in inner && inner[Text(n)] == Is(req.base(node.id, scope).1[n])
    ensures forall e :: e in scope && (e.Text? ==> e.name !in req.base(node.id, scope).1) ==>
              var inner := scope + Own(req, node, scope).child; e in inner && inner[e] == scope[e]
    ensures forall path :: AcceptsAlong(req, node, scope, path) ==>
              Text(n) in ScopeAlong(req, node, scope, path) &&
              (ScopeAlong(req, node, scope, path)[Text(n)] == Is(req.base(node.id, scope).1[n]) ||
               Text(n) in ScopeAlong(req, node.children[path[0]], scope + Own(req, node, scope).child, path[1..]))
  {
  }
}
